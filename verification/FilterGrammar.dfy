/** LDAP search filters (section 3 of RFC 4515): the abstract syntax, the
    printer, and the reading functions that specify the parser. Each reading
    function takes the rest of the input and returns what it read together with
    what it left. */
module FilterGrammar {
  import opened Wrappers
  import opened Utf8
  import Text

  datatype Filter =
    | And(children: seq<Filter>)
    | Or(children: seq<Filter>)
    | Not(child: Filter)
    | Present(attr: string)
    | Equality(attr: string, value: string)
    | Substring(attr: string, sub: SubstringValue)
    | GreaterOrEqual(attr: string, value: string)
    | LessOrEqual(attr: string, value: string)

  datatype SubstringValue = SubstringValue(initial: Option<string>, any: seq<string>, final: Option<string>)

  datatype FilterError =
    | Expected(c: char)
    | EmptyAnd
    | EmptyOr
    | EmptyAttribute
    | ApproximateMatch
    | ExtensibleMatch
    | UnexpectedAfterAttribute
    | InvalidEscape
    | NotUtf8
    | TrailingContent

  datatype Reading<+T> = Read(value: T, rest: string) | Failed(error: FilterError)

  // ----- Values ---------------------------------------------------------

  function HexDigit(c: char): (r: Option<nat>)
    ensures r.Some? ==> r.value < 16
  {
    if '0' <= c <= '9' then Some(c as int - '0' as int)
    else if 'a' <= c <= 'f' then Some(c as int - 'a' as int + 10)
    else if 'A' <= c <= 'F' then Some(c as int - 'A' as int + 10)
    else None
  }

  function HexChar(d: nat): char
    requires d < 16
  {
    if d < 10 then ('0' as int + d) as char else ('a' as int + d - 10) as char
  }

  function EscapeByte(b: Byte): string {
    ['\\', HexChar(b / 16), HexChar(b % 16)]
  }

  function EscapeBytes(bytes: seq<Byte>): string {
    if bytes == [] then [] else EscapeByte(bytes[0]) + EscapeBytes(bytes[1..])
  }

  predicate NeedsEscape(c: char) {
    c in {'*', '(', ')', '\\'} || c as int < 0x20 || c as int > 0x7f
  }

  function EscapeChar(c: char): string {
    if NeedsEscape(c) then EscapeBytes(EncodeChar(c)) else [c]
  }

  function Escape(value: string): string {
    if value == [] then [] else EscapeChar(value[0]) + Escape(value[1..])
  }

  /** The octets a raw value stands for; `None` for a bad escape. */
  function UnescapeBytes(raw: string): Option<seq<Byte>> {
    if raw == [] then Some([])
    else if raw[0] == '\\' then
      if |raw| < 3 || HexDigit(raw[1]).None? || HexDigit(raw[2]).None? then None
      else
        match UnescapeBytes(raw[3..])
        case None => None
        case Some(rest) => Some([HexDigit(raw[1]).value * 16 + HexDigit(raw[2]).value] + rest)
    else
      match UnescapeBytes(raw[1..])
      case None => None
      case Some(rest) => Some(EncodeChar(raw[0]) + rest)
  }

  function Unescape(raw: string): Result<string, FilterError> {
    match UnescapeBytes(raw)
    case None => Err(InvalidEscape)
    case Some(bytes) =>
      match Decode(bytes)
      case None => Err(NotUtf8)
      case Some(s) => Ok(s)
  }

  function UnescapeAll(raws: seq<string>): (r: Result<seq<string>, FilterError>)
    ensures r.Ok? ==> |r.value| == |raws|
  {
    if raws == [] then Ok([])
    else
      var first :- Unescape(raws[0]);
      var rest :- UnescapeAll(raws[1..]);
      Ok([first] + rest)
  }

  /** The pieces of a text between its stars; there is always at least one. */
  function Pieces(s: string): (r: seq<string>)
    ensures |r| >= 1
  {
    if s == [] then [[]]
    else if s[0] == '*' then [[]] + Pieces(s[1..])
    else
      var rest := Pieces(s[1..]);
      [[s[0]] + rest[0]] + rest[1..]
  }

  function NonEmpty(ss: seq<string>): seq<string> {
    if ss == [] then []
    else if ss[0] == [] then NonEmpty(ss[1..])
    else [ss[0]] + NonEmpty(ss[1..])
  }

  function UnescapePiece(s: string): Result<Option<string>, FilterError> {
    if s == [] then Ok(None)
    else
      var v :- Unescape(s);
      Ok(Some(v))
  }

  /** The substring assertion with these pieces: its first piece is the initial
      part, its last the final part, and the ones between are the inner parts;
      empty pieces stand for nothing. */
  function SubstringOfPieces(pieces: seq<string>): Result<SubstringValue, FilterError>
    requires pieces != []
  {
    var n := |pieces|;
    var initial :- UnescapePiece(if n == 1 then [] else pieces[0]);
    var any :- UnescapeAll(if n == 1 then [] else NonEmpty(pieces[1..n - 1]));
    var final :- UnescapePiece(pieces[n - 1]);
    Ok(SubstringValue(initial, any, final))
  }

  /** The substring assertion written as `text`. */
  function SubstringOf(text: string): Result<SubstringValue, FilterError> {
    SubstringOfPieces(Pieces(text))
  }

  // ----- Reading --------------------------------------------------------

  predicate IsAttrChar(c: char) {
    'a' <= c <= 'z' || 'A' <= c <= 'Z' || '0' <= c <= '9' || c == '-' || c == '.'
  }

  /** The length of the longest prefix made of attribute characters. */
  function AttrLength(s: string): (n: nat)
    ensures n <= |s|
  {
    if s == [] || !IsAttrChar(s[0]) then 0 else 1 + AttrLength(s[1..])
  }

  function ReadAttr(s: string): Reading<string> {
    var n := AttrLength(s);
    if n == 0 then Failed(EmptyAttribute) else Read(s[..n], s[n..])
  }

  /** Where the value of an ordering filter ends: at the first `)`. */
  function ValueLength(s: string): (n: nat)
    ensures n <= |s|
  {
    if s == [] || s[0] == ')' then 0 else 1 + ValueLength(s[1..])
  }

  function ReadValue(s: string): Reading<string> {
    var n := ValueLength(s);
    match Unescape(s[..n])
    case Ok(v) => Read(v, s[n..])
    case Err(e) => Failed(e)
  }

  /** How many characters an escape spans: the backslash and the two it quotes. */
  function EscapeSpan(s: string): (n: nat)
    ensures s != [] ==> 1 <= n <= |s|
  {
    if |s| < 3 then |s| else 3
  }

  /** Where an equality or substring value ends: at the first `)` that no
      escape quotes. */
  function AssertionLength(s: string): (n: nat)
    ensures n <= |s|
    decreases |s|
  {
    if s == [] || s[0] == ')' then 0
    else
      var k := if s[0] == '\\' then EscapeSpan(s) else 1;
      k + AssertionLength(s[k..])
  }

  /** Whether a star that no escape quotes occurs before that end. */
  predicate HasWildcard(s: string)
    decreases |s|
  {
    if s == [] || s[0] == ')' then false
    else if s[0] == '\\' then HasWildcard(s[EscapeSpan(s)..])
    else s[0] == '*' || HasWildcard(s[1..])
  }

  function ReadEqualityOrSubstring(attr: string, s: string): Reading<Filter> {
    var n := AssertionLength(s);
    if HasWildcard(s) then
      match SubstringOf(s[..n])
      case Ok(sub) => Read(Substring(attr, sub), s[n..])
      case Err(e) => Failed(e)
    else
      match Unescape(s[..n])
      case Ok(v) => Read(Equality(attr, v), s[n..])
      case Err(e) => Failed(e)
  }

  predicate StartsWith(s: string, c: char) {
    s != [] && s[0] == c
  }

  function ReadChar(c: char, s: string): Reading<()> {
    if StartsWith(s, c) then Read((), s[1..]) else Failed(Expected(c))
  }

  function ReadOrdering(attr: string, s: string, greater: bool): Reading<Filter> {
    match ReadChar('=', s)
    case Failed(e) => Failed(e)
    case Read(_, t) =>
      match ReadValue(t)
      case Failed(e) => Failed(e)
      case Read(v, rest) => Read(if greater then GreaterOrEqual(attr, v) else LessOrEqual(attr, v), rest)
  }

  /** What follows the attribute of a simple filter. */
  function ReadRelation(attr: string, s: string): Reading<Filter> {
    if StartsWith(s, '=') then
      if |s| >= 3 && s[1] == '*' && s[2] == ')' then Read(Present(attr), s[2..])
      else ReadEqualityOrSubstring(attr, s[1..])
    else if StartsWith(s, '~') then Failed(ApproximateMatch)
    else if StartsWith(s, '>') then ReadOrdering(attr, s[1..], true)
    else if StartsWith(s, '<') then ReadOrdering(attr, s[1..], false)
    else if StartsWith(s, ':') then Failed(ExtensibleMatch)
    else Failed(UnexpectedAfterAttribute)
  }

  function ReadSimple(s: string): Reading<Filter> {
    match ReadAttr(s)
    case Failed(e) => Failed(e)
    case Read(attr, t) => ReadRelation(attr, t)
  }

  function ReadFilter(s: string): (r: Reading<Filter>)
    ensures r.Read? ==> |r.rest| < |s|
    decreases |s|, 0
  {
    if !StartsWith(s, '(') then Failed(Expected('('))
    else
      match ReadInner(s[1..])
      case Failed(e) => Failed(e)
      case Read(f, t) =>
        match ReadChar(')', t)
        case Failed(e) => Failed(e)
        case Read(_, rest) => Read(f, rest)
  }

  function ReadInner(s: string): (r: Reading<Filter>)
    ensures r.Read? ==> |r.rest| <= |s|
    decreases |s|, 2
  {
    if StartsWith(s, '&') then
      match ReadMany(s[1..])
      case Failed(e) => Failed(e)
      case Read(fs, rest) => if fs == [] then Failed(EmptyAnd) else Read(And(fs), rest)
    else if StartsWith(s, '|') then
      match ReadMany(s[1..])
      case Failed(e) => Failed(e)
      case Read(fs, rest) => if fs == [] then Failed(EmptyOr) else Read(Or(fs), rest)
    else if StartsWith(s, '!') then
      match ReadFilter(s[1..])
      case Failed(e) => Failed(e)
      case Read(f, rest) => Read(Not(f), rest)
    else ReadSimple(s)
  }

  function ReadMany(s: string): (r: Reading<seq<Filter>>)
    ensures r.Read? ==> |r.rest| <= |s|
    decreases |s|, 1
  {
    if !StartsWith(s, '(') then Read([], s)
    else
      match ReadFilter(s)
      case Failed(e) => Failed(e)
      case Read(f, t) =>
        match ReadMany(t)
        case Failed(e) => Failed(e)
        case Read(fs, rest) => Read([f] + fs, rest)
  }

  /** The whole-input entry point: one filter, with white space around it. */
  function FilterOf(input: string): Result<Filter, FilterError> {
    match ReadFilter(Text.Trim(input))
    case Failed(e) => Err(e)
    case Read(f, rest) => if Text.IsBlank(rest) then Ok(f) else Err(TrailingContent)
  }

  // ----- Printing -------------------------------------------------------

  function PartText(part: Option<string>): string {
    match part
    case None => []
    case Some(v) => Escape(v)
  }

  function PrintAny(any: seq<string>): string {
    if any == [] then [] else "*" + Escape(any[0]) + PrintAny(any[1..])
  }

  predicate IsEmptySubstring(sub: SubstringValue) {
    sub.initial.None? && sub.any == [] && sub.final.None?
  }

  function PrintSubstring(sub: SubstringValue): string {
    var body := PartText(sub.initial) + PrintAny(sub.any);
    match sub.final
    case Some(v) => body + ("*" + Escape(v))
    case None => if IsEmptySubstring(sub) then body else body + "*"
  }

  function Print(f: Filter): string {
    match f
    case And(fs) => "(&" + PrintAll(fs) + ")"
    case Or(fs) => "(|" + PrintAll(fs) + ")"
    case Not(g) => "(!" + Print(g) + ")"
    case Present(a) => "(" + a + "=*)"
    case Equality(a, v) => "(" + a + "=" + Escape(v) + ")"
    case Substring(a, sub) => "(" + a + "=" + PrintSubstring(sub) + ")"
    case GreaterOrEqual(a, v) => "(" + a + ">=" + Escape(v) + ")"
    case LessOrEqual(a, v) => "(" + a + "<=" + Escape(v) + ")"
  }

  function PrintAll(fs: seq<Filter>): string {
    if fs == [] then [] else Print(fs[0]) + PrintAll(fs[1..])
  }

  /** `sanitize_admin_search_filter`. */
  function Sanitize(input: string): Result<string, FilterError> {
    var f :- FilterOf(input);
    Ok(Print(f))
  }

  // ----- Well-formedness ------------------------------------------------

  predicate LegalAttr(a: string) {
    a != [] && forall i | 0 <= i < |a| :: IsAttrChar(a[i])
  }

  predicate LegalSubstring(sub: SubstringValue) {
    && sub.initial != Some([])
    && sub.final != Some([])
    && forall i | 0 <= i < |sub.any| :: sub.any[i] != []
  }

  /** The filters the parser can produce. */
  predicate Legal(f: Filter) {
    match f
    case And(fs) => fs != [] && forall g | g in fs :: Legal(g)
    case Or(fs) => fs != [] && forall g | g in fs :: Legal(g)
    case Not(g) => Legal(g)
    case Substring(a, sub) => LegalAttr(a) && LegalSubstring(sub)
    case _ => LegalAttr(f.attr)
  }

  /** No substring assertion anywhere in the filter is all wildcard. */
  predicate NoEmptySubstring(f: Filter) {
    match f
    case And(fs) => forall g | g in fs :: NoEmptySubstring(g)
    case Or(fs) => forall g | g in fs :: NoEmptySubstring(g)
    case Not(g) => NoEmptySubstring(g)
    case Substring(a, sub) => !IsEmptySubstring(sub)
    case _ => true
  }

  predicate WellFormed(f: Filter) {
    Legal(f) && NoEmptySubstring(f)
  }

  /** What a printed filter reads back as: an all-wildcard substring prints as
      the empty equality, everything else as itself. */
  function Normalize(f: Filter): Filter {
    match f
    case And(fs) => And(NormalizeAll(fs))
    case Or(fs) => Or(NormalizeAll(fs))
    case Not(g) => Not(Normalize(g))
    case Substring(a, sub) => if IsEmptySubstring(sub) then Equality(a, []) else f
    case _ => f
  }

  function NormalizeAll(fs: seq<Filter>): (r: seq<Filter>)
    ensures |r| == |fs|
  {
    if fs == [] then [] else [Normalize(fs[0])] + NormalizeAll(fs[1..])
  }
}
