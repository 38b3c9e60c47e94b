/** Exporting HR records as CSV and importing them again. */
module CsvRoundTrip {
  import opened Wrappers
  import opened HrProjection
  import opened CsvRows
  import opened RowFold
  import opened CsvRecords
  import Text
  import Utf8

  // ----- Which records a file can hold ----------------------------------

  predicate Trimmed(s: string) {
    s != [] && Text.Trim(s) == s
  }

  predicate TrimmedOption(o: Option<string>) {
    o.Some? ==> Trimmed(o.value)
  }

  /** Values are non-empty without white space around them, and without a
      username column the username is the external id. */
  predicate Representable(r: HrRecord, c: Columns) {
    && Trimmed(r.externalId) && Trimmed(r.userName)
    && TrimmedOption(r.email) && TrimmedOption(r.displayName)
    && TrimmedOption(r.department) && TrimmedOption(r.managerExternalId)
    && (c.username.None? ==> r.userName == r.externalId)
  }

  // ----- Printing -------------------------------------------------------

  function EventText(e: LifecycleEvent): string {
    match e
    case Joiner => "joiner"
    case Mover => "mover"
    case Leaver => "leaver"
  }

  function OptionText(o: Option<string>): string {
    if o.Some? then o.value else ""
  }

  function CellAt(r: HrRecord, c: Columns, i: nat): string {
    if i == c.externalId then r.externalId
    else if i == c.email then OptionText(r.email)
    else if i == c.displayName then OptionText(r.displayName)
    else if i == c.department then OptionText(r.department)
    else if i == c.managerExternalId then OptionText(r.managerExternalId)
    else if i == c.event then EventText(r.event)
    else if c.username == Some(i) then r.userName
    else ""
  }

  function RecordRow(r: HrRecord, c: Columns, width: nat): Row {
    seq(width, i requires 0 <= i < width => CellAt(r, c, i))
  }

  function RecordRows(records: seq<HrRecord>, c: Columns, width: nat): (rows: seq<Row>)
    ensures |rows| == |records| && forall i | 0 <= i < |rows| :: rows[i] == RecordRow(records[i], c, width)
  {
    seq(|records|, i requires 0 <= i < |records| => RecordRow(records[i], c, width))
  }

  function ExportCsv(header: Row, records: seq<HrRecord>, c: Columns, all: bool): string
    requires header != []
  {
    PrintLines(LinesOf([header] + RecordRows(records, c, |header|), all))
  }

  // ----- One row --------------------------------------------------------

  /** No two names of the source's columns are the same up to ASCII case. */
  lemma SameNameSameLength(cell: string, a: string, b: string)
    requires Text.EqIgnoreAsciiCase(cell, a) && Text.EqIgnoreAsciiCase(cell, b)
    ensures |a| == |b| && forall i | 0 <= i < |a| :: Text.AsciiLowerChar(a[i]) == Text.AsciiLowerChar(b[i])
  {
    assert Text.AsciiLower(a) == Text.AsciiLower(b);
    forall i | 0 <= i < |a|
      ensures Text.AsciiLowerChar(a[i]) == Text.AsciiLowerChar(b[i])
    {
      assert Text.AsciiLower(a)[i] == Text.AsciiLower(b)[i];
    }
  }

  /** Column names are told apart by length, or else by their second letter. */
  function NameMark(n: Name): (nat, char) {
    match n
    case ExternalId => (11, 'x')
    case Email => (5, 'm')
    case DisplayName => (12, 'i')
    case Department => (10, 'e')
    case ManagerExternalId => (19, 'a')
    case Event => (5, 'v')
    case Username => (8, 's')
  }

  lemma NameIsMarked(n: Name)
    ensures |NameText(n)| == NameMark(n).0 && NameMark(n).0 > 1
    ensures Text.AsciiLowerChar(NameText(n)[1]) == NameMark(n).1
  {
  }

  lemma DifferentColumns(header: Row, a: Name, b: Name)
    requires a != b
    ensures PositionOf(header, a).None? || PositionOf(header, a) != PositionOf(header, b)
  {
    var i := PositionOf(header, a);
    if i.Some? && i == PositionOf(header, b) {
      SameNameSameLength(Text.Trim(header[i.value]), NameText(a), NameText(b));
      NameIsMarked(a);
      NameIsMarked(b);
      assert false;
    }
  }

  predicate Distinct(c: Columns) {
    && c.externalId !in {c.email, c.displayName, c.department, c.managerExternalId, c.event}
    && c.email !in {c.displayName, c.department, c.managerExternalId, c.event}
    && c.displayName !in {c.department, c.managerExternalId, c.event}
    && c.department !in {c.managerExternalId, c.event}
    && c.managerExternalId != c.event
    && (c.username.Some? ==>
          c.username.value !in {c.externalId, c.email, c.displayName, c.department, c.managerExternalId, c.event})
  }

  lemma ColumnsAreDistinct(header: Row, lower: string -> string)
    requires ColumnsOf(header, lower).Ok?
    ensures Distinct(ColumnsOf(header, lower).value)
  {
    DifferentColumns(header, ExternalId, Email);
    DifferentColumns(header, ExternalId, DisplayName);
    DifferentColumns(header, ExternalId, Department);
    DifferentColumns(header, ExternalId, ManagerExternalId);
    DifferentColumns(header, ExternalId, Event);
    DifferentColumns(header, Email, DisplayName);
    DifferentColumns(header, Email, Department);
    DifferentColumns(header, Email, ManagerExternalId);
    DifferentColumns(header, Email, Event);
    DifferentColumns(header, DisplayName, Department);
    DifferentColumns(header, DisplayName, ManagerExternalId);
    DifferentColumns(header, DisplayName, Event);
    DifferentColumns(header, Department, ManagerExternalId);
    DifferentColumns(header, Department, Event);
    DifferentColumns(header, ManagerExternalId, Event);
    DifferentColumns(header, Username, ExternalId);
    DifferentColumns(header, Username, Email);
    DifferentColumns(header, Username, DisplayName);
    DifferentColumns(header, Username, Department);
    DifferentColumns(header, Username, ManagerExternalId);
    DifferentColumns(header, Username, Event);
  }

  lemma EventRoundTrip(e: LifecycleEvent)
    ensures EventOf(EventText(e)) == Some(e)
  {
    var text := EventText(e);
    assert Text.TrimStart(text) == text && Text.TrimEnd(text) == text;
    if e.Leaver? {
      assert Text.AsciiLower("joiner")[0] == 'j' && Text.AsciiLower("leaver")[0] == 'l';
    }
  }

  lemma OptionRoundTrip(o: Option<string>)
    requires TrimmedOption(o)
    ensures OptionalField(OptionText(o)) == o
  {
  }

  lemma CellValues(r: HrRecord, c: Columns, width: nat)
    requires InWidth(c, width) && Distinct(c)
    ensures var row := RecordRow(r, c, width);
            && row[c.externalId] == r.externalId && row[c.email] == OptionText(r.email)
            && row[c.displayName] == OptionText(r.displayName) && row[c.department] == OptionText(r.department)
            && row[c.managerExternalId] == OptionText(r.managerExternalId) && row[c.event] == EventText(r.event)
            && (c.username.Some? ==> row[c.username.value] == r.userName)
  {
  }

  lemma RecordFromCells(row: Row, r: HrRecord, c: Columns)
    requires InWidth(c, |row|) && Representable(r, c)
    requires row[c.externalId] == r.externalId && EventOf(row[c.event]) == Some(r.event)
    requires OptionalField(row[c.email]) == r.email && OptionalField(row[c.displayName]) == r.displayName
    requires OptionalField(row[c.department]) == r.department
    requires OptionalField(row[c.managerExternalId]) == r.managerExternalId
    requires c.username.Some? ==> row[c.username.value] == r.userName
    ensures RecordOf(row, c) == Ok(r)
  {
  }

  /** A printed record is read back as that record. */
  lemma RecordRoundTrip(r: HrRecord, c: Columns, width: nat)
    requires InWidth(c, width) && Distinct(c) && Representable(r, c)
    ensures RecordOf(RecordRow(r, c, width), c) == Ok(r)
    ensures !BlankRow(RecordRow(r, c, width))
  {
    var row := RecordRow(r, c, width);
    CellValues(r, c, width);
    assert !Text.IsBlank(row[c.externalId]);
    EventRoundTrip(r.event);
    OptionRoundTrip(r.email);
    OptionRoundTrip(r.displayName);
    OptionRoundTrip(r.department);
    OptionRoundTrip(r.managerExternalId);
    RecordFromCells(row, r, c);
  }

  // ----- The whole file -------------------------------------------------

  /** Below the ceiling, `step` takes every row that reads as a record. */
  ghost predicate TakesRecords(
    step: (Reader, Row) -> Result<Reader, CsvError>, header: (Columns, nat), max: nat, read: Row -> Option<HrRecord>)
  {
    forall st: Reader, row: Row {:trigger step(st, row)} ::
      st.header == Some(header) && |st.records| < max && !BlankRow(row) && read(row).Some? ==>
        step(st, row) == Ok(st.(records := st.records + [read(row).value]))
  }

  lemma StepTakes(c: Columns, width: nat, max: nat, lower: string -> string)
    requires InWidth(c, width)
    ensures TakesRecords(Step(max, lower), (c, width), max, ReadRow(c, width))
  {
  }

  lemma {:induction false} FeedTakes(step: (Reader, Row) -> Result<Reader, CsvError>, st: Reader, rows: seq<Row>,
                                     records: seq<HrRecord>, max: nat, read: Row -> Option<HrRecord>)
    requires st.header.Some? && TakesRecords(step, st.header.value, max, read)
    requires |st.records| + |rows| <= max && Reads(rows, read, records)
    requires forall i | 0 <= i < |rows| :: !BlankRow(rows[i])
    ensures Feed(step, st, rows) == Ok(st.(records := st.records + records))
    decreases |rows|
  {
    if rows == [] {
      assert st.records + records == st.records;
    } else {
      assert !BlankRow(rows[0]) && read(rows[0]) == Some(records[0]);
      var next: Reader := st.(records := st.records + [records[0]]);
      assert Reads(rows[1..], read, records[1..]);
      FeedTakes(step, next, rows[1..], records[1..], max, read);
      assert next.records + records[1..] == st.records + records;
    }
  }

  lemma RowsReadBack(records: seq<HrRecord>, c: Columns, width: nat)
    requires InWidth(c, width) && Distinct(c)
    requires forall i | 0 <= i < |records| :: Representable(records[i], c)
    ensures Reads(RecordRows(records, c, width), ReadRow(c, width), records)
    ensures forall i | 0 <= i < |records| :: !BlankRow(RecordRows(records, c, width)[i])
  {
    forall i | 0 <= i < |records|
      ensures ReadRow(c, width)(RecordRows(records, c, width)[i]) == Some(records[i])
      ensures !BlankRow(RecordRows(records, c, width)[i])
    {
      RecordRoundTrip(records[i], c, width);
    }
  }

  lemma HeaderStep(header: Row, rows: seq<Row>, c: Columns, max: nat, lower: string -> string) returns (st: Reader)
    requires ColumnsOf(header, lower) == Ok(c)
    ensures st == ReaderState(Some((c, |header|)), [])
    ensures Feed(Step(max, lower), EMPTY_READER, [header] + rows) == Feed(Step(max, lower), st, rows)
  {
    st := ReaderState(Some((c, |header|)), []);
    assert ([header] + rows)[1..] == rows;
  }

  lemma AcceptedFeed(content: string, step: (Reader, Row) -> Result<Reader, CsvError>, rows: seq<Row>, end: Reader)
    requires Utf8.ByteLen(content) <= MAX_CSV_HR_FILE_BYTES && '\0' !in content && StripBom(content) == content
    requires ScanRows(content) == Scan(rows, Done) && Feed(step, EMPTY_READER, rows) == Ok(end) && end.header.Some?
    ensures ParseWith(content, step) == Ok(end.records)
  {
  }

  lemma ExportFeeds(header: Row, records: seq<HrRecord>, c: Columns, max: nat, lower: string -> string)
    requires ColumnsOf(header, lower) == Ok(c) && |records| <= max
    requires forall i | 0 <= i < |records| :: Representable(records[i], c)
    ensures Feed(Step(max, lower), EMPTY_READER, [header] + RecordRows(records, c, |header|))
         == Ok(ReaderState(Some((c, |header|)), records))
  {
    var rows := RecordRows(records, c, |header|);
    ColumnsAreDistinct(header, lower);
    RowsReadBack(records, c, |header|);
    StepTakes(c, |header|, max, lower);
    var st := HeaderStep(header, rows, c, max, lower);
    FeedTakes(Step(max, lower), st, rows, records, max, ReadRow(c, |header|));
    assert [] + records == records;
  }

  /** Importing an export, under any header that names the columns, gives back
      exactly the exported records, quoted everywhere or only where needed. */
  lemma ImportInvertsExport(header: Row, records: seq<HrRecord>, c: Columns, all: bool, max: nat,
                            lower: string -> string)
    requires ColumnsOf(header, lower) == Ok(c) && header != []
    requires forall i | 0 <= i < |records| :: Representable(records[i], c)
    requires |records| <= max && Utf8.ByteLen(ExportCsv(header, records, c, all)) <= MAX_CSV_HR_FILE_BYTES
    requires '\0' !in ExportCsv(header, records, c, all)
    requires StripBom(ExportCsv(header, records, c, all)) == ExportCsv(header, records, c, all)
    ensures ParseCsv(ExportCsv(header, records, c, all), max, lower) == Ok(records)
  {
    var rows := [header] + RecordRows(records, c, |header|);
    SplitInvertsPrinting(rows, all);
    ExportFeeds(header, records, c, max, lower);
    AcceptedFeed(ExportCsv(header, records, c, all), Step(max, lower), rows, ReaderState(Some((c, |header|)), records));
  }

  // ----- The usual header -----------------------------------------------

  const NAMES: seq<Name> := [ExternalId, Email, DisplayName, Department, ManagerExternalId, Event, Username]

  function StandardHeader(): (h: Row)
    ensures |h| == |NAMES| && forall k | 0 <= k < |h| :: h[k] == NameText(NAMES[k])
  {
    seq(|NAMES|, k requires 0 <= k < |NAMES| => NameText(NAMES[k]))
  }

  lemma NameIsTrimmed(n: Name)
    ensures Text.Trim(NameText(n)) == NameText(n)
  {
    var text := NameText(n);
    assert Text.TrimStart(text) == text && Text.TrimEnd(text) == text;
  }

  lemma OtherName(a: Name, b: Name)
    requires a != b
    ensures !Text.EqIgnoreAsciiCase(Text.Trim(NameText(a)), NameText(b))
  {
    NameIsTrimmed(a);
    if Text.EqIgnoreAsciiCase(NameText(a), NameText(b)) {
      SameNameSameLength(NameText(a), NameText(a), NameText(b));
      NameIsMarked(a);
      NameIsMarked(b);
      assert false;
    }
  }

  lemma StandardPosition(k: nat)
    requires k < |NAMES|
    ensures PositionOf(StandardHeader(), NAMES[k]) == Some(k)
  {
    var header := StandardHeader();
    forall j | 0 <= j < |NAMES| && j != k
      ensures !Text.EqIgnoreAsciiCase(Text.Trim(header[j]), NameText(NAMES[k]))
    {
      OtherName(NAMES[j], NAMES[k]);
    }
    NameIsTrimmed(NAMES[k]);
    assert Text.EqIgnoreAsciiCase(Text.Trim(header[k]), NameText(NAMES[k]));
  }

  lemma StandardHeaderText()
    ensures StandardHeader() == ["external_id", "email", "display_name", "department", "manager_external_id", "event",
                                 "username"]
  {
    assert NAMES[0] == ExternalId && NAMES[1] == Email && NAMES[2] == DisplayName && NAMES[3] == Department;
    assert NAMES[4] == ManagerExternalId && NAMES[5] == Event && NAMES[6] == Username;
  }

  /** The documented header names its columns in order, under every case mapping
      that keeps its seven names apart. */
  lemma StandardColumns(lower: string -> string)
    requires DistinctNames(StandardHeader(), lower)
    ensures ColumnsOf(StandardHeader(), lower) == Ok(Columns(0, 1, 2, 3, 4, 5, Some(6)))
    ensures StandardHeader() == ["external_id", "email", "display_name", "department", "manager_external_id", "event",
                                 "username"]
  {
    StandardHeaderText();
    StandardPosition(0);
    StandardPosition(1);
    StandardPosition(2);
    StandardPosition(3);
    StandardPosition(4);
    StandardPosition(5);
    StandardPosition(6);
  }
}
