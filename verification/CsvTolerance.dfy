/** What a CSV HR file may vary in without changing what is imported: white
    space around cells, the case of an event, and a byte order mark. */
module CsvTolerance {
  import opened Wrappers
  import opened HrProjection
  import opened CsvRows
  import opened RowFold
  import opened CsvRecords
  import opened CsvRoundTrip
  import Text
  import Utf8

  // ----- White space around cells ---------------------------------------

  /** `x` is `core` with white space around it. */
  ghost predicate Wraps(x: string, core: string) {
    exists a, b :: Text.AllWhitespace(a) && Text.AllWhitespace(b) && x == a + core + b
  }

  /** Two cells that differ only in the white space around the same text. */
  ghost predicate SameCell(x: string, y: string) {
    exists core :: Wraps(x, core) && Wraps(y, core)
  }

  ghost predicate SameRow(x: Row, y: Row) {
    |x| == |y| && forall i | 0 <= i < |x| :: SameCell(x[i], y[i])
  }

  ghost predicate SameRows(xs: seq<Row>, ys: seq<Row>) {
    |xs| == |ys| && forall i | 0 <= i < |xs| :: SameRow(xs[i], ys[i])
  }

  lemma WrapsTrim(x: string, core: string)
    requires Wraps(x, core)
    ensures Text.Trim(x) == Text.Trim(core)
  {
    var a, b :| Text.AllWhitespace(a) && Text.AllWhitespace(b) && x == a + core + b;
    Text.TrimPadded(a, core, b);
  }

  lemma SameTrim(x: string, y: string)
    requires SameCell(x, y)
    ensures Text.Trim(x) == Text.Trim(y)
  {
    var core :| Wraps(x, core) && Wraps(y, core);
    WrapsTrim(x, core);
    WrapsTrim(y, core);
  }

  /** Rows whose cells read alike. */
  predicate TrimAlike(x: Row, y: Row) {
    |x| == |y| && forall i | 0 <= i < |x| :: Text.Trim(x[i]) == Text.Trim(y[i])
  }

  lemma SameRowTrims(x: Row, y: Row)
    requires SameRow(x, y)
    ensures TrimAlike(x, y)
  {
    forall i | 0 <= i < |x|
      ensures Text.Trim(x[i]) == Text.Trim(y[i])
    {
      SameTrim(x[i], y[i]);
    }
  }

  lemma SameRecord(x: Row, y: Row, c: Columns)
    requires TrimAlike(x, y) && InWidth(c, |x|)
    ensures RecordOf(x, c) == RecordOf(y, c)
  {
    assert Text.Trim(x[c.externalId]) == Text.Trim(y[c.externalId]);
    assert Text.Trim(x[c.email]) == Text.Trim(y[c.email]);
    assert Text.Trim(x[c.displayName]) == Text.Trim(y[c.displayName]);
    assert Text.Trim(x[c.department]) == Text.Trim(y[c.department]);
    assert Text.Trim(x[c.managerExternalId]) == Text.Trim(y[c.managerExternalId]);
    assert EventOf(x[c.event]) == EventOf(y[c.event]);
    assert c.username.Some? ==> Text.Trim(x[c.username.value]) == Text.Trim(y[c.username.value]);
  }

  lemma SameBlank(x: Row, y: Row)
    requires TrimAlike(x, y)
    ensures BlankRow(x) <==> BlankRow(y)
  {
    forall i | 0 <= i < |x|
      ensures Text.IsBlank(x[i]) <==> Text.IsBlank(y[i])
    {
      assert Text.Trim(x[i]) == Text.Trim(y[i]);
    }
  }

  lemma {:induction false} SamePosition(x: Row, y: Row, name: string)
    requires TrimAlike(x, y)
    ensures Position(x, name) == Position(y, name)
  {
    if x != [] {
      assert Text.Trim(x[0]) == Text.Trim(y[0]);
      forall i | 0 <= i < |x[1..]|
        ensures Text.Trim(x[1..][i]) == Text.Trim(y[1..][i])
      {
        assert Text.Trim(x[i + 1]) == Text.Trim(y[i + 1]);
      }
      SamePosition(x[1..], y[1..], name);
    }
  }

  lemma SameFind(x: Row, y: Row, name: Name)
    requires TrimAlike(x, y)
    ensures PositionOf(x, name) == PositionOf(y, name) && Find(x, name) == Find(y, name)
  {
    SamePosition(x, y, NameText(name));
  }

  lemma SameDistinctNames(x: Row, y: Row, lower: string -> string)
    requires TrimAlike(x, y) && DistinctNames(x, lower)
    ensures DistinctNames(y, lower)
  {
    forall i, j | 0 <= i < j < |y|
      ensures lower(Text.Trim(y[i])) != lower(Text.Trim(y[j]))
    {
      assert Text.Trim(x[i]) == Text.Trim(y[i]) && Text.Trim(x[j]) == Text.Trim(y[j]);
    }
  }

  lemma SameColumns(x: Row, y: Row, lower: string -> string)
    requires TrimAlike(x, y)
    ensures ColumnsOf(x, lower) == ColumnsOf(y, lower)
  {
    if DistinctNames(x, lower) {
      SameDistinctNames(x, y, lower);
    } else if DistinctNames(y, lower) {
      SameDistinctNames(y, x, lower);
    }
    SameFind(x, y, ExternalId);
    SameFind(x, y, Email);
    SameFind(x, y, DisplayName);
    SameFind(x, y, Department);
    SameFind(x, y, ManagerExternalId);
    SameFind(x, y, Event);
    SameFind(x, y, Username);
  }

  lemma SameConsumption(st: Reader, x: Row, y: Row, max: nat, lower: string -> string)
    requires SameRow(x, y)
    ensures ConsumeRow(st, x, max, lower) == ConsumeRow(st, y, max, lower)
  {
    SameRowTrims(x, y);
    match st.header
    case None => SameColumns(x, y, lower);
    case Some((c, width)) =>
      SameBlank(x, y);
      if |x| == width {
        SameRecord(x, y, c);
      }
  }

  lemma {:induction false} SameFeed(st: Reader, xs: seq<Row>, ys: seq<Row>, max: nat, lower: string -> string)
    requires SameRows(xs, ys)
    ensures Feed(Step(max, lower), st, xs) == Feed(Step(max, lower), st, ys)
    decreases |xs|
  {
    if xs != [] {
      assert SameRow(xs[0], ys[0]);
      SameConsumption(st, xs[0], ys[0], max, lower);
      var next := ConsumeRow(st, xs[0], max, lower);
      assert SameRows(xs[1..], ys[1..]) by {
        forall i | 0 <= i < |xs[1..]|
          ensures SameRow(xs[1..][i], ys[1..][i])
        {
          assert SameRow(xs[i + 1], ys[i + 1]);
        }
      }
      if next.Ok? {
        SameFeed(next.value, xs[1..], ys[1..], max, lower);
      }
    }
  }

  predicate Admissible(content: string) {
    Utf8.ByteLen(content) <= 8_388_608 && '\0' !in content
  }

  /** White space around any cell, of the header or of a data row, changes
      neither the records nor the error. */
  lemma WhitespaceDoesNotMatter(a: string, b: string, max: nat, lower: string -> string)
    requires Admissible(a) && Admissible(b)
    requires SameRows(ScanRows(StripBom(a)).rows, ScanRows(StripBom(b)).rows)
    requires ScanRows(StripBom(a)).outcome == ScanRows(StripBom(b)).outcome
    ensures ParseCsv(a, max, lower) == ParseCsv(b, max, lower)
  {
    SameFeed(EMPTY_READER, ScanRows(StripBom(a)).rows, ScanRows(StripBom(b)).rows, max, lower);
  }

  /** The data rows that are skipped are those of white space alone. */
  lemma SkippedIff(st: Reader, row: Row, max: nat, lower: string -> string)
    requires st.header.Some?
    ensures ConsumeRow(st, row, max, lower) == Ok(st) <==>
              forall cell, ch | cell in row && ch in cell :: Text.IsWhitespace(ch)
  {
    forall i | 0 <= i < |row|
      ensures Text.IsBlank(row[i]) <==> forall ch | ch in row[i] :: Text.IsWhitespace(ch)
    {
      Text.BlankIsAllWhitespace(row[i]);
    }
  }

  // ----- Events, marks and sizes ----------------------------------------

  lemma EventsDiffer(v: string, d: LifecycleEvent, e: LifecycleEvent)
    requires Text.EqIgnoreAsciiCase(v, EventText(d)) && Text.EqIgnoreAsciiCase(v, EventText(e))
    ensures d == e
  {
    SameNameSameLength(v, EventText(d), EventText(e));
    assert Text.AsciiLowerChar(EventText(d)[0]) == Text.AsciiLowerChar(EventText(e)[0]);
  }

  /** An event is its name in any ASCII case, with any white space around it. */
  lemma EventOfIff(value: string, e: LifecycleEvent)
    ensures EventOf(value) == Some(e) <==>
            Text.EqIgnoreAsciiCase(Text.Trim(value), match e
                                                     case Joiner => "joiner"
                                                     case Mover => "mover"
                                                     case Leaver => "leaver")
  {
    var v := Text.Trim(value);
    if EventOf(value).Some? && Text.EqIgnoreAsciiCase(v, EventText(e)) {
      EventsDiffer(v, EventOf(value).value, e);
    }
  }

  /** Why a data row has no record: its external id is blank, or else its event
      cell is not an event. */
  lemma RecordErrorIff(row: Row, c: Columns)
    requires InWidth(c, |row|)
    ensures RecordOf(row, c) == Err(EmptyExternalId) <==>
              forall ch | ch in row[c.externalId] :: Text.IsWhitespace(ch)
    ensures RecordOf(row, c) == Err(InvalidEvent) <==>
              EventOf(row[c.event]).None? && exists ch :: ch in row[c.externalId] && !Text.IsWhitespace(ch)
    ensures RecordOf(row, c).Err? ==> RecordOf(row, c).error in {EmptyExternalId, InvalidEvent}
  {
    Text.BlankIsAllWhitespace(row[c.externalId]);
  }

  /** A byte order mark in front of a file is not part of its first cell. */
  lemma ByteOrderMarkIsIgnored(content: string, max: nat, lower: string -> string)
    requires content != [] ==> content[0] != '\U{FEFF}'
    requires Admissible(['\U{FEFF}'] + content)
    ensures ParseCsv(['\U{FEFF}'] + content, max, lower) == ParseCsv(content, max, lower)
  {
    var marked := ['\U{FEFF}'] + content;
    assert marked[1..] == content;
    Utf8.EncodeAppend(['\U{FEFF}'], content);
    assert forall i | 0 <= i < |content| :: content[i] == marked[i + 1];
  }

  lemma FindError(row: Row, name: Name)
    ensures Find(row, name) != Err(TooManyBytes)
  {
  }

  lemma HeaderNeverTooLarge(row: Row, lower: string -> string)
    ensures ColumnsOf(row, lower) != Err(TooManyBytes)
  {
    FindError(row, ExternalId);
    FindError(row, Email);
    FindError(row, DisplayName);
    FindError(row, Department);
    FindError(row, ManagerExternalId);
    FindError(row, Event);
  }

  lemma StepNeverTooLarge(st: Reader, row: Row, max: nat, lower: string -> string)
    ensures Step(max, lower)(st, row) != Err(TooManyBytes)
  {
    HeaderNeverTooLarge(row, lower);
  }

  /** A file is refused for its size exactly when it has more than 8 MiB, counted
      in octets. */
  lemma TooLargeIff(content: string, max: nat, lower: string -> string)
    ensures ParseCsv(content, max, lower) == Err(TooManyBytes) <==> Utf8.ByteLen(content) > 8_388_608
  {
    forall st: Reader, row: Row
      ensures Step(max, lower)(st, row) != Err(TooManyBytes)
    {
      StepNeverTooLarge(st, row, max, lower);
    }
    FeedErrorIsAStep(Step(max, lower), EMPTY_READER, ScanRows(StripBom(content)).rows, TooManyBytes);
  }
}
