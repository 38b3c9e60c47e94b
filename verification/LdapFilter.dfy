/** The recursive-descent filter parser: a cursor over the input that each
    method moves, and the loops that escape and unescape values. */
module LdapFilter {
  import opened Wrappers
  import opened Utf8
  import opened FilterGrammar
  import FilterRoundTrip
  import Text

  /** `front` followed by the octets of `rest`, if those can be read. */
  ghost function Joined<T>(front: seq<T>, rest: Option<seq<T>>): Option<seq<T>> {
    match rest
    case None => None
    case Some(s) => Some(front + s)
  }

  lemma JoinedStep<T>(front: seq<T>, unit: seq<T>, rest: Option<seq<T>>)
    ensures Joined(front, Joined(unit, rest)) == Joined(front + unit, rest)
    ensures Joined([], rest) == rest
  {
    if rest.Some? {
      Text.ConcatAssoc(front, unit, rest.value);
      assert [] + rest.value == rest.value;
    }
  }

  lemma UnescapeBytesStep(raw: string)
    requires raw != []
    ensures raw[0] != '\\' ==> UnescapeBytes(raw) == Joined(EncodeChar(raw[0]), UnescapeBytes(raw[1..]))
    ensures raw[0] == '\\' && |raw| >= 3 && HexDigit(raw[1]).Some? && HexDigit(raw[2]).Some? ==>
              UnescapeBytes(raw) == Joined([HexDigit(raw[1]).value * 16 + HexDigit(raw[2]).value],
                                           UnescapeBytes(raw[3..]))
  {
  }

  method UnescapeFilterValue(raw: string) returns (r: Result<string, FilterError>)
    ensures r == Unescape(raw)
  {
    var bytes: seq<Byte> := [];
    var i := 0;
    assert raw[0..] == raw;
    JoinedStep([], [], UnescapeBytes(raw));
    while i < |raw|
      invariant 0 <= i <= |raw|
      invariant UnescapeBytes(raw) == Joined(bytes, UnescapeBytes(raw[i..]))
    {
      var c := raw[i];
      UnescapeBytesStep(raw[i..]);
      if c == '\\' {
        var hi := if i + 1 < |raw| then HexDigit(raw[i + 1]) else None;
        var lo := if i + 2 < |raw| then HexDigit(raw[i + 2]) else None;
        if hi.None? || lo.None? {
          return Err(InvalidEscape);
        }
        assert raw[i..][3..] == raw[i + 3..];
        JoinedStep(bytes, [hi.value * 16 + lo.value], UnescapeBytes(raw[i + 3..]));
        bytes := bytes + [hi.value * 16 + lo.value];
        i := i + 3;
      } else {
        assert raw[i..][1..] == raw[i + 1..];
        JoinedStep(bytes, EncodeChar(c), UnescapeBytes(raw[i + 1..]));
        bytes := bytes + EncodeChar(c);
        i := i + 1;
      }
    }
    assert bytes + [] == bytes;
    match Decode(bytes)
    case None => r := Err(NotUtf8);
    case Some(s) => r := Ok(s);
  }

  method EscapeOneChar(c: char) returns (unit: string)
    ensures unit == EscapeChar(c)
  {
    if !NeedsEscape(c) {
      return [c];
    }
    unit := [];
    var bytes := EncodeChar(c);
    for k := 0 to |bytes|
      invariant EscapeBytes(bytes) == unit + EscapeBytes(bytes[k..])
    {
      assert bytes[k..][1..] == bytes[k + 1..];
      Text.ConcatAssoc(unit, EscapeByte(bytes[k]), EscapeBytes(bytes[k + 1..]));
      unit := unit + EscapeByte(bytes[k]);
    }
  }

  method EscapeFilterValue(input: string) returns (out: string)
    ensures out == Escape(input)
  {
    out := [];
    for i := 0 to |input|
      invariant Escape(input) == out + Escape(input[i..])
    {
      var unit := EscapeOneChar(input[i]);
      assert input[i..][1..] == input[i + 1..];
      Text.ConcatAssoc(out, unit, Escape(input[i + 1..]));
      out := out + unit;
    }
  }

  /** The pieces after one more character. */
  ghost function Extended(pieces: seq<string>, c: char): (r: seq<string>)
    requires |pieces| >= 1
    ensures |r| >= 1
  {
    var n := |pieces|;
    if c == '*' then pieces + [[]] else pieces[..n - 1] + [pieces[n - 1] + [c]]
  }

  lemma ExtendedBehind(d: char, pieces: seq<string>, c: char)
    requires |pieces| >= 1
    ensures Extended([[]] + pieces, c) == [[]] + Extended(pieces, c)
    ensures Extended([[d] + pieces[0]] + pieces[1..], c)
         == [[d] + Extended(pieces, c)[0]] + Extended(pieces, c)[1..]
  {
    if |pieces| == 1 {
      Text.ConcatAssoc([d], pieces[0], [c]);
    }
  }

  lemma {:induction false} PiecesSnoc(s: string, c: char)
    ensures Pieces(s + [c]) == Extended(Pieces(s), c)
  {
    if s == [] {
      assert (s + [c])[1..] == [];
      assert [c] + Pieces([])[0] == Pieces(s)[0] + [c];
    } else {
      PiecesSnoc(s[1..], c);
      assert (s + [c])[1..] == s[1..] + [c];
      ExtendedBehind(s[0], Pieces(s[1..]), c);
    }
  }

  /** The state of the split after the text read so far has these pieces. */
  ghost predicate SplitInto(pieces: seq<string>, initial: Option<string>, any: seq<string>, current: string,
                            afterStar: bool) {
    var n := |pieces|;
    && n >= 1 && afterStar == (n > 1) && current == pieces[n - 1]
    && initial == (if n == 1 then None else Some(pieces[0]))
    && any == (if n == 1 then [] else pieces[1..n - 1])
  }

  lemma SplitAtStar(pieces: seq<string>, initial: Option<string>, any: seq<string>, current: string, afterStar: bool)
    requires SplitInto(pieces, initial, any, current, afterStar)
    ensures if afterStar then SplitInto(pieces + [""], initial, any + [current], "", true)
            else SplitInto(pieces + [""], Some(current), any, "", true) && initial.None? && any == []
  {
    var longer := pieces + [""];
    if afterStar {
      assert longer[1..|pieces|] == pieces[1..|pieces| - 1] + [current];
    }
  }

  lemma SplitAtChar(pieces: seq<string>, c: char, initial: Option<string>, any: seq<string>, current: string,
                    afterStar: bool)
    requires SplitInto(pieces, initial, any, current, afterStar) && c != '*'
    ensures SplitInto(Extended(pieces, c), initial, any, current + [c], afterStar)
  {
    var n := |pieces|;
    assert n > 1 ==> Extended(pieces, c)[1..n - 1] == pieces[1..n - 1];
  }

  /** The first, inner and last parts a raw substring text splits into. */
  method SplitSubstring(text: string) returns (initial: Option<string>, any: seq<string>, final: Option<string>)
    ensures var pieces := Pieces(text);
            var n := |pieces|;
            && initial == (if n == 1 then None else Some(pieces[0]))
            && any == (if n == 1 then [] else pieces[1..n - 1])
            && (match final case Some(s) => s == pieces[n - 1] case None => pieces[n - 1] == [])
  {
    initial, any, final := None, [], None;
    var current := "";
    var afterStar := false;
    ghost var pieces := Pieces("");
    for i := 0 to |text|
      invariant pieces == Pieces(text[..i])
      invariant SplitInto(pieces, initial, any, current, afterStar)
    {
      PiecesSnoc(text[..i], text[i]);
      assert text[..i + 1] == text[..i] + [text[i]];
      ghost var read := pieces;
      pieces := Extended(read, text[i]);
      if text[i] == '*' {
        SplitAtStar(read, initial, any, current, afterStar);
        if !afterStar {
          if initial.None? && any == [] {
            initial := Some(current);
          } else {
            any := any + [current];
          }
          afterStar := true;
        } else {
          any := any + [current];
        }
        current := "";
      } else {
        SplitAtChar(read, text[i], initial, any, current, afterStar);
        current := current + [text[i]];
      }
    }
    assert text[..|text|] == text;
    if current != "" || !afterStar {
      final := Some(current);
    }
  }

  method UnescapeOptional(part: Option<string>) returns (r: Result<Option<string>, FilterError>)
    ensures r == UnescapePiece(if part.Some? then part.value else [])
  {
    if part.None? || part.value == [] {
      return Ok(None);
    }
    var v := UnescapeFilterValue(part.value);
    match v
    case Ok(s) => r := Ok(Some(s));
    case Err(e) => r := Err(e);
  }

  ghost function JoinedOk<T>(front: seq<T>, rest: Result<seq<T>, FilterError>): Result<seq<T>, FilterError> {
    match rest
    case Err(e) => Err(e)
    case Ok(s) => Ok(front + s)
  }

  lemma JoinedOkStep<T>(front: seq<T>, unit: seq<T>, rest: Result<seq<T>, FilterError>)
    ensures JoinedOk(front, JoinedOk(unit, rest)) == JoinedOk(front + unit, rest)
    ensures JoinedOk([], rest) == rest
  {
    if rest.Ok? {
      Text.ConcatAssoc(front, unit, rest.value);
      assert [] + rest.value == rest.value;
    }
  }

  method UnescapeParts(raws: seq<string>) returns (r: Result<seq<string>, FilterError>)
    ensures r == UnescapeAll(NonEmpty(raws))
  {
    var out: seq<string> := [];
    assert raws[0..] == raws;
    JoinedOkStep([], [], UnescapeAll(NonEmpty(raws)));
    for i := 0 to |raws|
      invariant UnescapeAll(NonEmpty(raws)) == JoinedOk(out, UnescapeAll(NonEmpty(raws[i..])))
    {
      assert raws[i..][1..] == raws[i + 1..];
      if raws[i] != [] {
        assert NonEmpty(raws[i..])[1..] == NonEmpty(raws[i + 1..]);
        var v := UnescapeFilterValue(raws[i]);
        if v.Err? {
          return Err(v.error);
        }
        JoinedOkStep(out, [v.value], UnescapeAll(NonEmpty(raws[i + 1..])));
        out := out + [v.value];
      }
    }
    assert out + [] == out;
    return Ok(out);
  }

  ghost function JoinedRead<T>(front: seq<T>, rest: Reading<seq<T>>): Reading<seq<T>> {
    match rest
    case Failed(e) => Failed(e)
    case Read(s, t) => Read(front + s, t)
  }

  lemma JoinedReadStep<T>(front: seq<T>, unit: seq<T>, rest: Reading<seq<T>>)
    ensures JoinedRead(front, JoinedRead(unit, rest)) == JoinedRead(front + unit, rest)
    ensures JoinedRead([], rest) == rest
  {
    if rest.Read? {
      Text.ConcatAssoc(front, unit, rest.value);
      assert [] + rest.value == rest.value;
    }
  }

  class Parser {
    const input: string
    var pos: nat

    ghost predicate Valid()
      reads this
    {
      pos <= |input|
    }

    /** The input the cursor has not passed yet. */
    function Remaining(): string
      requires Valid()
      reads this
    {
      input[pos..]
    }

    /** A method that read a value left the cursor where the grammar says. */
    ghost predicate Outcome<T>(r: Result<T, FilterError>, reading: Reading<T>)
      reads this
    {
      && Valid()
      && match r
         case Ok(v) => reading == Read(v, Remaining())
         case Err(e) => reading == Failed(e)
    }

    constructor (input: string)
      ensures Valid() && this.input == input && Remaining() == input
    {
      this.input := input;
      pos := 0;
    }

    function Peek(): (r: Option<char>)
      requires Valid()
      reads this
      ensures r == if Remaining() == [] then None else Some(Remaining()[0])
    {
      if pos < |input| then Some(input[pos]) else None
    }

    method Advance()
      requires Valid()
      modifies this`pos
      ensures Valid()
      ensures Remaining() == if old(Remaining()) == [] then [] else old(Remaining())[1..]
      ensures pos == if old(pos) < |input| then old(pos) + 1 else old(pos)
    {
      if pos < |input| {
        pos := pos + 1;
      }
    }

    method ExpectChar(c: char) returns (r: Result<(), FilterError>)
      requires Valid()
      modifies this`pos
      ensures Outcome(r, ReadChar(c, old(Remaining())))
      ensures old(pos) <= pos && (r.Ok? ==> old(pos) < pos)
    {
      if Peek() != Some(c) {
        return Err(Expected(c));
      }
      Advance();
      return Ok(());
    }

    method ParseAttr() returns (r: Result<string, FilterError>)
      requires Valid()
      modifies this`pos
      ensures Outcome(r, ReadAttr(old(Remaining())))
      ensures old(pos) <= pos
    {
      var start := pos;
      ghost var rest := Remaining();
      while pos < |input| && IsAttrChar(input[pos])
        invariant start <= pos <= |input|
        invariant AttrLength(rest) == pos - start + AttrLength(input[pos..])
        decreases |input| - pos
      {
        assert input[pos..][1..] == input[pos + 1..];
        Advance();
      }
      var attr := input[start..pos];
      assert attr == rest[..pos - start] && input[pos..] == rest[pos - start..];
      if attr == [] {
        return Err(EmptyAttribute);
      }
      return Ok(attr);
    }

    method ParseValue() returns (r: Result<string, FilterError>)
      requires Valid()
      modifies this`pos
      ensures Outcome(r, ReadValue(old(Remaining())))
      ensures old(pos) <= pos
    {
      var start := pos;
      ghost var rest := Remaining();
      while pos < |input| && input[pos] != ')'
        invariant start <= pos <= |input|
        invariant ValueLength(rest) == pos - start + ValueLength(input[pos..])
        decreases |input| - pos
      {
        assert input[pos..][1..] == input[pos + 1..];
        Advance();
      }
      assert input[start..pos] == rest[..pos - start] && input[pos..] == rest[pos - start..];
      r := UnescapeFilterValue(input[start..pos]);
    }

    /** Move the cursor to the end of an equality or substring value. */
    method ScanAssertion() returns (hasWildcard: bool)
      requires Valid()
      modifies this`pos
      ensures Valid()
      ensures pos == old(pos) + AssertionLength(old(Remaining()))
      ensures hasWildcard == HasWildcard(old(Remaining()))
    {
      hasWildcard := false;
      var p := pos;
      ghost var rest := Remaining();
      while p < |input| && input[p] != ')'
        invariant pos <= p <= |input|
        invariant AssertionLength(rest) == p - pos + AssertionLength(input[p..])
        invariant HasWildcard(rest) == (hasWildcard || HasWildcard(input[p..]))
      {
        ghost var before := p;
        if input[p] == '\\' {
          p := p + 1;
          for k := 0 to 2
            invariant p == if before + 1 + k <= |input| then before + 1 + k else |input|
          {
            if p < |input| {
              p := p + 1;
            }
          }
          assert input[before..][EscapeSpan(input[before..])..] == input[p..];
        } else {
          if input[p] == '*' {
            hasWildcard := true;
          }
          p := p + 1;
          assert input[before..][1..] == input[p..];
        }
      }
      pos := p;
    }

    method ParseEqualityOrSubstring(attr: string) returns (r: Result<Filter, FilterError>)
      requires Valid()
      modifies this`pos
      ensures Outcome(r, ReadEqualityOrSubstring(attr, old(Remaining())))
      ensures old(pos) <= pos
    {
      var start := pos;
      ghost var rest := Remaining();
      var hasWildcard := ScanAssertion();
      var text := input[start..pos];
      assert text == rest[..pos - start] && input[pos..] == rest[pos - start..];
      if !hasWildcard {
        var v := UnescapeFilterValue(text);
        match v
        case Ok(s) => return Ok(Equality(attr, s));
        case Err(e) => return Err(e);
      }
      var initial, any, final := SplitSubstring(text);
      var i := UnescapeOptional(initial);
      if i.Err? {
        return Err(i.error);
      }
      var a := UnescapeParts(any);
      if a.Err? {
        return Err(a.error);
      }
      var f := UnescapeOptional(final);
      if f.Err? {
        return Err(f.error);
      }
      return Ok(Substring(attr, SubstringValue(i.value, a.value, f.value)));
    }

    method ParseOrdering(attr: string, greater: bool) returns (r: Result<Filter, FilterError>)
      requires Valid()
      modifies this`pos
      ensures Outcome(r, ReadOrdering(attr, old(Remaining()), greater))
      ensures old(pos) <= pos
    {
      var e := ExpectChar('=');
      if e.Err? {
        return Err(e.error);
      }
      var v := ParseValue();
      match v
      case Ok(s) => r := Ok(if greater then GreaterOrEqual(attr, s) else LessOrEqual(attr, s));
      case Err(x) => r := Err(x);
    }

    method ParseSimpleFilter() returns (r: Result<Filter, FilterError>)
      requires Valid()
      modifies this`pos
      ensures Outcome(r, ReadSimple(old(Remaining())))
      ensures old(pos) <= pos
    {
      var attr := ParseAttr();
      if attr.Err? {
        return Err(attr.error);
      }
      match Peek()
      case Some('=') =>
        var onlyStar := pos + 2 < |input| && input[pos + 1] == '*' && input[pos + 2] == ')';
        Advance();
        if onlyStar {
          Advance();
          return Ok(Present(attr.value));
        }
        r := ParseEqualityOrSubstring(attr.value);
      case Some('~') => r := Err(ApproximateMatch);
      case Some('>') =>
        Advance();
        r := ParseOrdering(attr.value, true);
      case Some('<') =>
        Advance();
        r := ParseOrdering(attr.value, false);
      case Some(':') => r := Err(ExtensibleMatch);
      case _ => r := Err(UnexpectedAfterAttribute);
    }

    method ParseFilter() returns (r: Result<Filter, FilterError>)
      requires Valid()
      modifies this`pos
      ensures Outcome(r, ReadFilter(old(Remaining())))
      ensures old(pos) <= pos && (r.Ok? ==> old(pos) < pos)
      decreases |input| - pos, 0
    {
      var open := ExpectChar('(');
      if open.Err? {
        return Err(open.error);
      }
      r := ParseFilterInner();
      if r.Err? {
        return;
      }
      var close := ExpectChar(')');
      if close.Err? {
        return Err(close.error);
      }
    }

    method ParseFilterInner() returns (r: Result<Filter, FilterError>)
      requires Valid()
      modifies this`pos
      ensures Outcome(r, ReadInner(old(Remaining())))
      ensures old(pos) <= pos
      decreases |input| - pos, 2
    {
      match Peek()
      case Some('&') =>
        Advance();
        var children := ParseChildren();
        if children.Err? {
          return Err(children.error);
        }
        if children.value == [] {
          return Err(EmptyAnd);
        }
        r := Ok(And(children.value));
      case Some('|') =>
        Advance();
        var children := ParseChildren();
        if children.Err? {
          return Err(children.error);
        }
        if children.value == [] {
          return Err(EmptyOr);
        }
        r := Ok(Or(children.value));
      case Some('!') =>
        Advance();
        var child := ParseFilter();
        if child.Err? {
          return Err(child.error);
        }
        r := Ok(Not(child.value));
      case _ => r := ParseSimpleFilter();
    }

    method ParseChildren() returns (r: Result<seq<Filter>, FilterError>)
      requires Valid()
      modifies this`pos
      ensures Outcome(r, ReadMany(old(Remaining())))
      ensures old(pos) <= pos
      decreases |input| - pos, 1
    {
      var children: seq<Filter> := [];
      JoinedReadStep([], [], ReadMany(Remaining()));
      while Peek() == Some('(')
        invariant Valid() && old(pos) <= pos
        invariant ReadMany(old(Remaining())) == JoinedRead(children, ReadMany(Remaining()))
        decreases |input| - pos
      {
        var child := ParseFilter();
        if child.Err? {
          return Err(child.error);
        }
        JoinedReadStep(children, [child.value], ReadMany(Remaining()));
        children := children + [child.value];
      }
      assert children + [] == children;
      return Ok(children);
    }
  }

  method ParseLdapFilter(input: string) returns (r: Result<Filter, FilterError>)
    ensures r == FilterOf(input)
    ensures r.Ok? ==> Legal(r.value)
  {
    var parser := new Parser(Text.Trim(input));
    r := parser.ParseFilter();
    if r.Err? {
      return;
    }
    if !Text.IsBlank(parser.Remaining()) {
      return Err(TrailingContent);
    }
    FilterRoundTrip.ParsedIsLegal(input);
  }

  /** `sanitize_admin_search_filter`: the output reads back as the same filter
      unless the input has an all-wildcard substring, and sanitizing it again
      changes nothing. */
  method SanitizeAdminSearchFilter(filter: string) returns (r: Result<string, FilterError>)
    ensures r == Sanitize(filter)
    ensures r.Ok? ==> Sanitize(r.value) == Ok(r.value)
    ensures r.Ok? ==> (FilterOf(r.value) == FilterOf(filter) <==> NoEmptySubstring(FilterOf(filter).value))
  {
    var ast := ParseLdapFilter(filter);
    if ast.Err? {
      return Err(ast.error);
    }
    FilterRoundTrip.SanitizeIdempotent(filter);
    FilterRoundTrip.SanitizePreservesFilterIff(filter);
    return Ok(Print(ast.value));
  }
}
