/** The CSV HR source: rows become records under a ceiling. */
module CsvRecords {
  import opened Wrappers
  import opened HrProjection
  import opened CsvRows
  import opened RowFold
  import Text
  import Utf8

  const MAX_CSV_HR_FILE_BYTES: nat := 8 * 1024 * 1024

  datatype Name = ExternalId | Email | DisplayName | Department | ManagerExternalId | Event | Username

  function NameText(n: Name): string {
    match n
    case ExternalId => "external_id"
    case Email => "email"
    case DisplayName => "display_name"
    case Department => "department"
    case ManagerExternalId => "manager_external_id"
    case Event => "event"
    case Username => "username"
  }

  datatype CsvError =
    | TooManyBytes
    | NulByte
    | RepeatedColumn
    | MissingColumn(name: Name)
    | WrongWidth
    | EmptyExternalId
    | InvalidEvent
    | TooManyRecords
    | BadQuoting
    | UnterminatedQuote
    | EmptyFile

  datatype Columns = Columns(
    externalId: nat,
    email: nat,
    displayName: nat,
    department: nat,
    managerExternalId: nat,
    event: nat,
    username: Option<nat>)

  // ----- The header -----------------------------------------------------

  /** The first header column with a name, ignoring white space and ASCII case. */
  function Position(header: Row, name: string): (r: Option<nat>)
    ensures r.Some? ==> r.value < |header| && Text.EqIgnoreAsciiCase(Text.Trim(header[r.value]), name)
    ensures forall k | 0 <= k < (if r.Some? then r.value else |header|) ::
              !Text.EqIgnoreAsciiCase(Text.Trim(header[k]), name)
  {
    if header == [] then None
    else if Text.EqIgnoreAsciiCase(Text.Trim(header[0]), name) then Some(0)
    else
      match Position(header[1..], name)
      case Some(i) => Some(i + 1)
      case None => None
  }

  function PositionOf(header: Row, name: Name): Option<nat> {
    Position(header, NameText(name))
  }

  function Find(header: Row, name: Name): (r: Result<nat, CsvError>)
    ensures r.Ok? ==> r.value < |header|
  {
    match PositionOf(header, name)
    case Some(i) => Ok(i)
    case None => Err(MissingColumn(name))
  }

  /** `lower` is the case mapping under which header names must differ. */
  predicate DistinctNames(header: Row, lower: string -> string) {
    forall i, j | 0 <= i < j < |header| :: lower(Text.Trim(header[i])) != lower(Text.Trim(header[j]))
  }

  function ColumnsOf(header: Row, lower: string -> string): (r: Result<Columns, CsvError>)
    ensures r.Ok? ==> InWidth(r.value, |header|)
  {
    if !DistinctNames(header, lower) then Err(RepeatedColumn)
    else
      var externalId :- Find(header, ExternalId);
      var email :- Find(header, Email);
      var displayName :- Find(header, DisplayName);
      var department :- Find(header, Department);
      var manager :- Find(header, ManagerExternalId);
      var event :- Find(header, Event);
      Ok(Columns(externalId, email, displayName, department, manager, event, PositionOf(header, Username)))
  }

  predicate InWidth(c: Columns, width: nat) {
    && c.externalId < width && c.email < width && c.displayName < width && c.department < width
    && c.managerExternalId < width && c.event < width && (c.username.Some? ==> c.username.value < width)
  }

  /** Looks for a name column by column. */
  method FindColumn(header: Row, name: Name) returns (r: Option<nat>)
    ensures r == PositionOf(header, name)
  {
    for i := 0 to |header|
      invariant forall k | 0 <= k < i :: !Text.EqIgnoreAsciiCase(Text.Trim(header[k]), NameText(name))
    {
      if Text.EqIgnoreAsciiCase(Text.Trim(header[i]), NameText(name)) {
        return Some(i);
      }
    }
    return None;
  }

  method HasRepeatedName(header: Row, lower: string -> string) returns (repeated: bool)
    ensures repeated <==> !DistinctNames(header, lower)
  {
    var seen: set<string> := {};
    for i := 0 to |header|
      invariant forall k | 0 <= k < i :: lower(Text.Trim(header[k])) in seen
      invariant forall s | s in seen :: exists k :: 0 <= k < i && lower(Text.Trim(header[k])) == s
      invariant forall k, m | 0 <= k < m < i :: lower(Text.Trim(header[k])) != lower(Text.Trim(header[m]))
    {
      var name := lower(Text.Trim(header[i]));
      if name in seen {
        return true;
      }
      seen := seen + {name};
    }
    return false;
  }

  method HrColumns(header: Row, lower: string -> string) returns (r: Result<Columns, CsvError>)
    ensures r == ColumnsOf(header, lower)
  {
    var repeated := HasRepeatedName(header, lower);
    if repeated {
      return Err(RepeatedColumn);
    }
    var externalId := FindColumn(header, ExternalId);
    if externalId.None? {
      return Err(MissingColumn(ExternalId));
    }
    var email := FindColumn(header, Email);
    if email.None? {
      return Err(MissingColumn(Email));
    }
    var displayName := FindColumn(header, DisplayName);
    if displayName.None? {
      return Err(MissingColumn(DisplayName));
    }
    var department := FindColumn(header, Department);
    if department.None? {
      return Err(MissingColumn(Department));
    }
    var manager := FindColumn(header, ManagerExternalId);
    if manager.None? {
      return Err(MissingColumn(ManagerExternalId));
    }
    var event := FindColumn(header, Event);
    if event.None? {
      return Err(MissingColumn(Event));
    }
    var username := FindColumn(header, Username);
    return Ok(Columns(externalId.value, email.value, displayName.value, department.value, manager.value, event.value,
                      username));
  }

  // ----- One row --------------------------------------------------------

  function OptionalField(value: string): Option<string> {
    if Text.IsBlank(value) then None else Some(Text.Trim(value))
  }

  function EventOf(value: string): Option<LifecycleEvent> {
    var v := Text.Trim(value);
    if Text.EqIgnoreAsciiCase(v, "joiner") then Some(Joiner)
    else if Text.EqIgnoreAsciiCase(v, "mover") then Some(Mover)
    else if Text.EqIgnoreAsciiCase(v, "leaver") then Some(Leaver)
    else None
  }

  function RecordOf(row: Row, c: Columns): Result<HrRecord, CsvError>
    requires InWidth(c, |row|)
  {
    var externalId := Text.Trim(row[c.externalId]);
    if externalId == [] then Err(EmptyExternalId)
    else
      match EventOf(row[c.event])
      case None => Err(InvalidEvent)
      case Some(event) =>
        var userName := if c.username.None? || Text.IsBlank(row[c.username.value]) then externalId
                        else Text.Trim(row[c.username.value]);
        Ok(HrRecord(externalId, userName, OptionalField(row[c.email]), OptionalField(row[c.displayName]),
                    OptionalField(row[c.department]), OptionalField(row[c.managerExternalId]), event))
  }

  predicate BlankRow(row: Row) {
    forall i | 0 <= i < |row| :: Text.IsBlank(row[i])
  }

  // ----- All rows -------------------------------------------------------

  /** What the reader has seen: the header once there was one, and records. */
  datatype ReaderState = ReaderState(header: Option<(Columns, nat)>, records: seq<HrRecord>)

  type Reader = r: ReaderState | r.header.Some? ==> InWidth(r.header.value.0, r.header.value.1)
    witness ReaderState(None, [])

  const EMPTY_READER: Reader := ReaderState(None, [])

  function ConsumeRow(st: Reader, row: Row, max: nat, lower: string -> string): Result<Reader, CsvError> {
    match st.header
    case None =>
      var c :- ColumnsOf(row, lower);
      Ok(ReaderState(Some((c, |row|)), st.records))
    case Some((c, width)) =>
      if BlankRow(row) then Ok(st)
      else if |row| != width then Err(WrongWidth)
      else
        var record :- RecordOf(row, c);
        if |st.records| == max then Err(TooManyRecords)
        else Ok(ReaderState(st.header, st.records + [record]))
  }

  function Step(max: nat, lower: string -> string): (Reader, Row) -> Result<Reader, CsvError> {
    (st: Reader, row: Row) => ConsumeRow(st, row, max, lower)
  }

  /** `step` is what consuming a row does. */
  ghost predicate Follows(step: (Reader, Row) -> Result<Reader, CsvError>, max: nat, lower: string -> string) {
    forall st: Reader, row: Row {:trigger ConsumeRow(st, row, max, lower)} ::
      step(st, row) == ConsumeRow(st, row, max, lower)
  }

  function ScanError(outcome: Outcome): Option<CsvError> {
    match outcome
    case Done => None
    case Malformed => Some(BadQuoting)
    case Unterminated => Some(UnterminatedQuote)
  }

  function StripBom(content: string): string {
    if content != [] && content[0] == '\U{FEFF}' then content[1..] else content
  }

  /** Parsing with any way to consume a row. */
  function ParseWith(content: string, step: (Reader, Row) -> Result<Reader, CsvError>)
    : Result<seq<HrRecord>, CsvError>
  {
    if Utf8.ByteLen(content) > MAX_CSV_HR_FILE_BYTES then Err(TooManyBytes)
    else if '\0' in content then Err(NulByte)
    else
      var end :- Judge(step, EMPTY_READER, ScanRows(StripBom(content)), ScanError);
      if end.header.None? then Err(EmptyFile) else Ok(end.records)
  }

  function ParseCsv(content: string, max: nat, lower: string -> string): Result<seq<HrRecord>, CsvError> {
    ParseWith(content, Step(max, lower))
  }

  // ----- The implementation ---------------------------------------------

  /** The row consumer the scanner calls. */
  class Consumer {
    const max: nat
    const lower: string -> string
    var header: Option<(Columns, nat)>
    var records: seq<HrRecord>

    predicate Valid()
      reads this
    {
      header.Some? ==> InWidth(header.value.0, header.value.1)
    }

    function State(): Reader
      requires Valid()
      reads this
    {
      ReaderState(header, records)
    }

    constructor (max: nat, lower: string -> string)
      ensures this.max == max && this.lower == lower && Valid() && State() == EMPTY_READER
    {
      this.max, this.lower := max, lower;
      header, records := None, [];
    }

    method Consume(row: Row, ghost step: (Reader, Row) -> Result<Reader, CsvError>) returns (r: Result<(), CsvError>)
      requires Valid() && Follows(step, max, lower)
      modifies this
      ensures Valid()
      ensures match step(old(State()), row)
              case Ok(next) => r.Ok? && State() == next
              case Err(e) => r == Err(e)
    {
      assert step(State(), row) == ConsumeRow(State(), row, max, lower);
      if header.None? {
        var columns := HrColumns(row, lower);
        if columns.Err? {
          return Err(columns.error);
        }
        header := Some((columns.value, |row|));
        return Ok(());
      }
      if BlankRow(row) {
        return Ok(());
      }
      var (columns, width) := header.value;
      if |row| != width {
        return Err(WrongWidth);
      }
      var record := RecordOf(row, columns);
      if record.Err? {
        return Err(record.error);
      }
      if |records| == max {
        return Err(TooManyRecords);
      }
      records := records + [record.value];
      return Ok(());
    }
  }

  /** Hands a finished row on: the verdict on it and the rest of the scan is a
      refusal, or the verdict on the rest alone. */
  method HandOn(consumer: Consumer, row: Row, ghost rest: Scan, ghost step: (Reader, Row) -> Result<Reader, CsvError>)
    returns (r: Result<(), CsvError>)
    requires consumer.Valid() && Follows(step, consumer.max, consumer.lower)
    modifies consumer
    ensures consumer.Valid()
    ensures match r
            case Ok(_) => old(Judge(step, consumer.State(), Emit(row, rest), ScanError))
                       == Judge(step, consumer.State(), rest, ScanError)
            case Err(e) => old(Judge(step, consumer.State(), Emit(row, rest), ScanError)) == Err(e)
  {
    JudgeEmit(step, consumer.State(), row, rest, ScanError);
    r := consumer.Consume(row, step);
  }

  /** `split_csv_rows`: the scanner loop, stopping at the first refused row. */
  method SplitCsvRows(content: string, consumer: Consumer, ghost step: (Reader, Row) -> Result<Reader, CsvError>)
    returns (r: Result<(), CsvError>)
    requires consumer.Valid() && Follows(step, consumer.max, consumer.lower)
    modifies consumer
    ensures consumer.Valid()
    ensures match Judge(step, old(consumer.State()), ScanRows(content), ScanError)
            case Ok(end) => r.Ok? && consumer.State() == end
            case Err(e) => r == Err(e)
  {
    ghost var verdict := Judge(step, consumer.State(), ScanRows(content), ScanError);
    ghost var scan := ScanRows(content);
    var row: Row, field, mode, i := [], "", Start, 0;
    assert content[0..] == content;
    while i < |content|
      invariant 0 <= i <= |content| && consumer.Valid()
      invariant scan == ScanFrom(content[i..], mode, field, row)
      invariant verdict == Judge(step, consumer.State(), scan, ScanError)
      decreases |content| - i
    {
      var ch := content[i];
      var next := if i + 1 < |content| then Some(content[i + 1]) else None;
      assert content[i..][1..] == content[i + 1..];
      assert next.Some? ==> content[i..][2..] == content[i + 2..];
      if mode == Quoted {
        if ch == '"' {
          if next == Some('"') {
            field := field + ['"'];
            i := i + 1;
          } else {
            mode := Closed;
          }
        } else {
          field := field + [ch];
        }
      } else if ch == '"' && mode == Start {
        mode := Quoted;
      } else if ch == ',' {
        row := row + [field];
        field, mode := "", Start;
      } else if ch == '\r' || ch == '\n' {
        scan := ScanFrom(content[i + BreakSpan(content[i..])..], Start, "", []);
        if ch == '\r' && next == Some('\n') {
          i := i + 1;
        }
        var taken := HandOn(consumer, row + [field], scan, step);
        if taken.Err? {
          return Err(taken.error);
        }
        row, field, mode := [], "", Start;
      } else if ch == '"' || mode == Closed {
        return Err(BadQuoting);
      } else {
        field := field + [ch];
        mode := Unquoted;
      }
      i := i + 1;
    }
    assert content[i..] == [];
    if mode == Quoted {
      return Err(UnterminatedQuote);
    }
    if mode != Start || row != [] {
      assert Emit(row + [field], Scan([], Done)) == Scan([row + [field]], Done);
      var taken := HandOn(consumer, row + [field], Scan([], Done), step);
      if taken.Err? {
        return Err(taken.error);
      }
    }
    return Ok(());
  }

  method ParseCsvHrRecords(content: string, max: nat, lower: string -> string)
    returns (r: Result<seq<HrRecord>, CsvError>)
    ensures r == ParseCsv(content, max, lower)
  {
    if Utf8.ByteLen(content) > MAX_CSV_HR_FILE_BYTES {
      return Err(TooManyBytes);
    }
    if '\0' in content {
      return Err(NulByte);
    }
    var consumer := new Consumer(max, lower);
    var split := SplitCsvRows(StripBom(content), consumer, Step(max, lower));
    if split.Err? {
      return Err(split.error);
    }
    if consumer.header.None? {
      return Err(EmptyFile);
    }
    return Ok(consumer.records);
  }

  // ----- What parsing returns -------------------------------------------

  /** A data row read by a header: its record, if it has the header's width. */
  function ReadRow(c: Columns, width: nat): Row -> Option<HrRecord>
    requires InWidth(c, width)
  {
    (row: Row) =>
      if |row| != width then None
      else
        match RecordOf(row, c)
        case Ok(record) => Some(record)
        case Err(_) => None
  }

  /** Past the header, `step` collects the records of data rows up to `max`. */
  ghost predicate CollectsRecords(
    step: (Reader, Row) -> Result<Reader, CsvError>, header: (Columns, nat), max: nat, read: Row -> Option<HrRecord>)
  {
    forall st: Reader, row: Row {:trigger step(st, row)} ::
      st.header == Some(header) && |st.records| <= max && step(st, row).Ok? ==>
        var next := step(st, row).value;
        next.header == Some(header) && |next.records| <= max && Extends(st.records, next.records, row, BlankRow, read)
  }

  lemma StepCollects(c: Columns, width: nat, max: nat, lower: string -> string)
    requires InWidth(c, width)
    ensures CollectsRecords(Step(max, lower), (c, width), max, ReadRow(c, width))
  {
  }

  /** What the rows of an accepted file are, seen from its header. */
  lemma HeaderComesFirst(rows: seq<Row>, max: nat, lower: string -> string) returns (c: Columns, st: Reader)
    requires rows != [] && Feed(Step(max, lower), EMPTY_READER, rows).Ok?
    ensures ColumnsOf(rows[0], lower) == Ok(c) && InWidth(c, |rows[0]|)
    ensures st.header == Some((c, |rows[0]|)) && st.records == []
    ensures Feed(Step(max, lower), EMPTY_READER, rows) == Feed(Step(max, lower), st, rows[1..])
  {
    st := Step(max, lower)(EMPTY_READER, rows[0]).value;
    c := st.header.value.0;
  }

  lemma RecordsOfRows(step: (Reader, Row) -> Result<Reader, CsvError>, st: Reader, rows: seq<Row>, max: nat,
                      read: Row -> Option<HrRecord>)
    requires st.header.Some? && st.records == [] && Feed(step, st, rows).Ok?
    requires CollectsRecords(step, st.header.value, max, read)
    ensures |Feed(step, st, rows).value.records| <= max
    ensures Reads(DataRows(rows, BlankRow), read, Feed(step, st, rows).value.records)
  {
    var good := (s: Reader) => s.header == st.header && |s.records| <= max;
    var added := Collects(step, st, rows, good, (s: Reader) => s.records, BlankRow, read);
    assert [] + added == added;
  }

  lemma RowsRead(rows: seq<Row>, max: nat, lower: string -> string)
    requires rows != [] && Feed(Step(max, lower), EMPTY_READER, rows).Ok?
    ensures ColumnsOf(rows[0], lower).Ok?
    ensures var records := Feed(Step(max, lower), EMPTY_READER, rows).value.records;
            && |records| <= max
            && Reads(DataRows(rows[1..], BlankRow), ReadRow(ColumnsOf(rows[0], lower).value, |rows[0]|), records)
  {
    var c, st := HeaderComesFirst(rows, max, lower);
    StepCollects(c, |rows[0]|, max, lower);
    RecordsOfRows(Step(max, lower), st, rows[1..], max, ReadRow(c, |rows[0]|));
  }

  lemma ParsedHasRows(content: string, step: (Reader, Row) -> Result<Reader, CsvError>)
    requires ParseWith(content, step).Ok?
    ensures var rows := ScanRows(StripBom(content)).rows;
            rows != [] && Feed(step, EMPTY_READER, rows).Ok? &&
            ParseWith(content, step).value == Feed(step, EMPTY_READER, rows).value.records
  {
  }

  /** An accepted file yields one record per non-blank data row, in order, each
      read by the header's columns, and at most the ceiling. */
  lemma OneRecordPerDataRow(content: string, max: nat, lower: string -> string)
    requires ParseCsv(content, max, lower).Ok?
    ensures var rows := ScanRows(StripBom(content)).rows;
            var records := ParseCsv(content, max, lower).value;
            && |records| <= max && rows != [] && ColumnsOf(rows[0], lower).Ok?
            && Reads(DataRows(rows[1..], BlankRow), ReadRow(ColumnsOf(rows[0], lower).value, |rows[0]|), records)
  {
    ParsedHasRows(content, Step(max, lower));
    RowsRead(ScanRows(StripBom(content)).rows, max, lower);
  }

  /** A complete row that is refused refuses the file, whatever follows it, with
      the same error unless the whole is too large or holds a NUL. */
  lemma RefusedRowsRefuseFile(p: string, t: string, step: (Reader, Row) -> Result<Reader, CsvError>)
    requires p != [] && EndsAtRow(StripBom(p), Start, true)
    requires Feed(step, EMPTY_READER, ScanRows(StripBom(p)).rows).Err?
    ensures ParseWith(p + t, step).Err?
    ensures Utf8.ByteLen(p + t) <= MAX_CSV_HR_FILE_BYTES && '\0' !in p + t ==>
              ParseWith(p + t, step) == Err(Feed(step, EMPTY_READER, ScanRows(StripBom(p)).rows).error)
  {
    assert StripBom(p + t) == StripBom(p) + t;
    RefusedPrefix(step, EMPTY_READER, StripBom(p), t, ScanError);
  }

  /** A prefix of complete rows holding more records than the ceiling refuses
      the file, whatever follows. */
  lemma TooManyRecordsRefuseFile(p: string, t: string, max: nat, larger: nat, lower: string -> string)
    requires p != [] && EndsAtRow(StripBom(p), Start, true)
    requires ParseCsv(p, larger, lower).Ok? && |ParseCsv(p, larger, lower).value| > max
    ensures ParseCsv(p + t, max, lower).Err?
  {
    var rows := ScanRows(StripBom(p)).rows;
    ParsedHasRows(p, Step(larger, lower));
    RowsRead(rows, larger, lower);
    if Feed(Step(max, lower), EMPTY_READER, rows).Ok? {
      RowsRead(rows, max, lower);
      assert false;
    }
    RefusedRowsRefuseFile(p, t, Step(max, lower));
  }
}
