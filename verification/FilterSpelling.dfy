/** Which texts are filters, said without a parser (section 3 of RFC 4515, with
    the forms the source refuses left out), and that the parser accepts exactly
    those. */
module FilterSpelling {
  import opened Wrappers
  import opened FilterGrammar
  import Text

  // ----- The grammar ----------------------------------------------------

  predicate Bracketed(text: string) {
    |text| >= 2 && text[0] == '(' && text[|text| - 1] == ')'
  }

  function Inside(text: string): string
    requires Bracketed(text)
  {
    text[1..|text| - 1]
  }

  /** The text is an attribute, this relation sign, and then a raw value. */
  predicate Relates(body: string, attr: string, sign: string) {
    LegalAttr(attr) && attr + sign <= body
  }

  function RawOf(body: string, attr: string, sign: string): string
    requires Relates(body, attr, sign)
  {
    body[|attr + sign|..]
  }

  /** A raw value never holds a closing bracket: it would be written escaped. */
  predicate IsRaw(raw: string) {
    ')' !in raw
  }

  /** The text in brackets spells the filter. */
  ghost predicate Spells(f: Filter, text: string)
    decreases f, 1
  {
    Bracketed(text) && SpellsInside(f, Inside(text))
  }

  ghost predicate SpellsInside(f: Filter, body: string)
    decreases f, 0
  {
    match f
    case And(fs) => fs != [] && StartsWith(body, '&') && SpellsAll(fs, body[1..])
    case Or(fs) => fs != [] && StartsWith(body, '|') && SpellsAll(fs, body[1..])
    case Not(g) => StartsWith(body, '!') && Spells(g, body[1..])
    case Present(a) => Relates(body, a, "=") && RawOf(body, a, "=") == "*"
    case Equality(a, v) =>
      && Relates(body, a, "=") && var raw := RawOf(body, a, "=");
         IsRaw(raw) && '*' !in raw && Unescape(raw) == Ok(v)
    case Substring(a, sub) =>
      && Relates(body, a, "=") && var raw := RawOf(body, a, "=");
         IsRaw(raw) && '*' in raw && raw != "*" && SubstringOf(raw) == Ok(sub)
    case GreaterOrEqual(a, v) =>
      Relates(body, a, ">=") && IsRaw(RawOf(body, a, ">=")) && Unescape(RawOf(body, a, ">=")) == Ok(v)
    case LessOrEqual(a, v) =>
      Relates(body, a, "<=") && IsRaw(RawOf(body, a, "<=")) && Unescape(RawOf(body, a, "<=")) == Ok(v)
  }

  /** The text is one spelling after another. */
  ghost predicate SpellsAll(fs: seq<Filter>, text: string)
    decreases fs
  {
    if fs == [] then text == []
    else exists k :: 0 <= k <= |text| && Spells(fs[0], text[..k]) && SpellsAll(fs[1..], text[k..])
  }

  // ----- Escapes --------------------------------------------------------

  /** Every backslash is followed by two hexadecimal digits. */
  predicate EscapesOk(raw: string) {
    if raw == [] then true
    else if raw[0] == '\\' then
      |raw| >= 3 && HexDigit(raw[1]).Some? && HexDigit(raw[2]).Some? && EscapesOk(raw[3..])
    else EscapesOk(raw[1..])
  }

  lemma {:induction false} EscapesOkIff(raw: string)
    ensures EscapesOk(raw) <==> UnescapeBytes(raw).Some?
  {
    if raw != [] {
      if raw[0] != '\\' {
        EscapesOkIff(raw[1..]);
      } else if |raw| >= 3 {
        EscapesOkIff(raw[3..]);
      }
    }
  }

  /** A scan of good escapes stops where the raw value does. */
  lemma {:induction false} ScanOfRaw(raw: string, t: string)
    requires EscapesOk(raw) && IsRaw(raw) && StartsWith(t, ')')
    ensures AssertionLength(raw + t) == |raw|
    ensures HasWildcard(raw + t) <==> '*' in raw
    decreases |raw|
  {
    var s := raw + t;
    if raw == [] {
      assert s == t;
    } else {
      var k := if raw[0] == '\\' then 3 else 1;
      assert raw == raw[..k] + raw[k..] && s[k..] == raw[k..] + t && s[0] == raw[0];
      assert raw[0] == '\\' ==> raw[0] != '*' && raw[1] != '*' && raw[2] != '*';
      ScanOfRaw(raw[k..], t);
    }
  }

  /** Where a scan stops, good escapes leave no bracket behind. */
  lemma {:induction false} RawOfScan(s: string)
    requires EscapesOk(s[..AssertionLength(s)])
    ensures IsRaw(s[..AssertionLength(s)])
    ensures HasWildcard(s) <==> '*' in s[..AssertionLength(s)]
    decreases |s|
  {
    if s != [] && s[0] != ')' {
      var n := AssertionLength(s);
      var raw := s[..n];
      var k := if s[0] == '\\' then EscapeSpan(s) else 1;
      assert raw[0] == s[0];
      assert s[0] == '\\' ==> |raw| >= 3 && k == 3 && raw[1] == s[1] && raw[2] == s[2];
      assert raw[k..] == s[k..][..AssertionLength(s[k..])];
      assert raw == raw[..k] + raw[k..];
      RawOfScan(s[k..]);
    }
  }

  /** Star-free text in front of a text only lengthens its first piece. */
  lemma {:induction false} PrependToPieces(s: string, t: string)
    requires forall i | 0 <= i < |s| :: s[i] != '*'
    ensures Pieces(s + t) == [s + Pieces(t)[0]] + Pieces(t)[1..]
  {
    if s == [] {
      assert s + t == t;
      assert s + Pieces(t)[0] == Pieces(t)[0];
    } else {
      PrependToPieces(s[1..], t);
      assert (s + t)[1..] == s[1..] + t;
      assert [s[0]] + (s[1..] + Pieces(t)[0]) == s + Pieces(t)[0];
    }
  }

  ghost predicate PiecesOk(pieces: seq<string>) {
    forall i | 0 <= i < |pieces| :: EscapesOk(pieces[i])
  }

  lemma {:induction false} GoodPieces(raw: string)
    requires PiecesOk(Pieces(raw))
    ensures EscapesOk(raw)
    decreases |raw|
  {
    if raw != [] {
      var pieces := Pieces(raw);
      assert EscapesOk(pieces[0]);
      if raw[0] == '*' {
        assert pieces[1..] == Pieces(raw[1..]);
        GoodPieces(raw[1..]);
      } else if raw[0] != '\\' {
        var rest := Pieces(raw[1..]);
        assert pieces[0][1..] == rest[0] && pieces[1..] == rest[1..];
        assert forall i | 0 < i < |rest| :: rest[i] == pieces[i];
        GoodPieces(raw[1..]);
      } else {
        var rest := EscapeInPiece(raw);
        assert forall i | 0 < i < |rest| :: rest[i] == pieces[i];
        GoodPieces(raw[3..]);
      }
    }
  }

  /** A good escape lies within the first piece. */
  lemma EscapeInPiece(raw: string) returns (rest: seq<string>)
    requires raw != [] && raw[0] == '\\' && EscapesOk(Pieces(raw)[0])
    ensures |raw| >= 3 && HexDigit(raw[1]).Some? && HexDigit(raw[2]).Some?
    ensures rest == Pieces(raw[3..]) && |rest| == |Pieces(raw)|
    ensures EscapesOk(rest[0]) && rest[1..] == Pieces(raw)[1..]
  {
    var first := Pieces(raw)[0];
    assert first == [raw[0]] + Pieces(raw[1..])[0];
    assert Pieces(raw[1..])[0] != [] && raw[1] != '*';
    assert Pieces(raw[1..])[0] == [raw[1]] + Pieces(raw[2..])[0] by {
      assert raw[1..][1..] == raw[2..];
    }
    assert Pieces(raw[2..])[0] != [] && raw[2] != '*';
    assert Pieces(raw[2..])[0] == [raw[2]] + Pieces(raw[3..])[0] by {
      assert raw[2..][1..] == raw[3..];
    }
    rest := Pieces(raw[3..]);
    PrependToPieces(raw[..3], raw[3..]);
    assert raw[..3] + raw[3..] == raw;
    assert first[3..] == rest[0];
  }

  lemma {:induction false} NonEmptyOk(ss: seq<string>)
    requires UnescapeAll(NonEmpty(ss)).Ok?
    ensures PiecesOk(ss)
  {
    if ss != [] {
      if ss[0] == [] {
        NonEmptyOk(ss[1..]);
      } else {
        var kept := NonEmpty(ss);
        assert kept[0] == ss[0] && kept[1..] == NonEmpty(ss[1..]);
        EscapesOkIff(ss[0]);
        NonEmptyOk(ss[1..]);
      }
      assert forall i | 0 < i < |ss| :: ss[i] == ss[1..][i - 1];
    }
  }

  lemma PieceOk(p: string)
    requires UnescapePiece(p).Ok?
    ensures EscapesOk(p)
  {
    EscapesOkIff(p);
  }

  lemma SubstringParts(pieces: seq<string>)
    requires pieces != [] && SubstringOfPieces(pieces).Ok?
    ensures UnescapePiece(pieces[|pieces| - 1]).Ok?
    ensures |pieces| > 1 ==> UnescapePiece(pieces[0]).Ok? && UnescapeAll(NonEmpty(pieces[1..|pieces| - 1])).Ok?
  {
  }

  lemma SplitPiecesOk(pieces: seq<string>)
    requires pieces != [] && EscapesOk(pieces[|pieces| - 1])
    requires |pieces| > 1 ==> EscapesOk(pieces[0]) && PiecesOk(pieces[1..|pieces| - 1])
    ensures PiecesOk(pieces)
  {
    forall i | 0 <= i < |pieces|
      ensures EscapesOk(pieces[i])
    {
      if 0 < i < |pieces| - 1 {
        assert pieces[i] == pieces[1..|pieces| - 1][i - 1];
      }
    }
  }

  lemma SubstringEscapes(raw: string)
    requires SubstringOf(raw).Ok?
    ensures EscapesOk(raw)
  {
    var pieces := Pieces(raw);
    SubstringParts(pieces);
    PieceOk(pieces[|pieces| - 1]);
    if |pieces| > 1 {
      PieceOk(pieces[0]);
      NonEmptyOk(pieces[1..|pieces| - 1]);
    }
    SplitPiecesOk(pieces);
    GoodPieces(raw);
  }

  // ----- Spelled texts are read -----------------------------------------

  predicate IsSimple(f: Filter) {
    !f.And? && !f.Or? && !f.Not?
  }

  lemma {:induction false} AttrLengthOf(a: string, t: string)
    requires forall i | 0 <= i < |a| :: IsAttrChar(a[i])
    requires t == [] || !IsAttrChar(t[0])
    ensures AttrLength(a + t) == |a|
  {
    if a == [] {
      assert a + t == t;
    } else {
      AttrLengthOf(a[1..], t);
      assert (a + t)[1..] == a[1..] + t;
    }
  }

  lemma ReadAttrOf(a: string, t: string)
    requires LegalAttr(a) && t != [] && !IsAttrChar(t[0])
    ensures ReadSimple(a + t) == ReadRelation(a, t)
  {
    AttrLengthOf(a, t);
    assert (a + t)[..|a|] == a && (a + t)[|a|..] == t;
  }

  lemma AssertionBody(a: string, text: string, t: string)
    requires LegalAttr(a) && StartsWith(t, ')')
    requires text == [] || text[0] != '*' || (|text| >= 2 && text[1] != ')')
    ensures ReadSimple(a + "=" + text + t) == ReadEqualityOrSubstring(a, text + t)
  {
    Text.ConcatAssoc(a + "=", text, t);
    Text.ConcatAssoc(a, "=", text + t);
    ReadAttrOf(a, "=" + (text + t));
    Text.TakeDrop("=", text + t);
    var u := "=" + (text + t);
    assert u[1] == if text == [] then ')' else text[0];
    assert |text| >= 2 ==> u[2] == text[1];
  }

  lemma ReadsPresent(a: string, t: string)
    requires LegalAttr(a) && StartsWith(t, ')')
    ensures ReadSimple(a + "=*" + t) == Read(Present(a), t)
  {
    var u := "=*" + t;
    Text.ConcatAssoc(a, "=*", t);
    ReadAttrOf(a, u);
    assert u[2..] == t;
  }

  lemma ComparisonShape(a: string, mark: string, e: string, t: string)
    ensures a + (mark + "=") + e + t == a + (mark + ("=" + (e + t)))
  {
  }

  lemma {:induction false} ValueOfRaw(raw: string, t: string)
    requires IsRaw(raw) && StartsWith(t, ')')
    ensures ValueLength(raw + t) == |raw|
  {
    if raw == [] {
      assert raw + t == t;
    } else {
      assert (raw + t)[1..] == raw[1..] + t;
      ValueOfRaw(raw[1..], t);
    }
  }

  lemma ReadsValue(raw: string, v: string, t: string)
    requires IsRaw(raw) && Unescape(raw) == Ok(v) && StartsWith(t, ')')
    ensures ReadValue(raw + t) == Read(v, t)
  {
    ValueOfRaw(raw, t);
    Text.TakeDrop(raw, t);
  }

  lemma ReadsRelation(a: string, raw: string, v: string, t: string, greater: bool)
    requires IsRaw(raw) && Unescape(raw) == Ok(v) && StartsWith(t, ')')
    ensures ReadRelation(a, (if greater then ">" else "<") + ("=" + (raw + t)))
         == Read(if greater then GreaterOrEqual(a, v) else LessOrEqual(a, v), t)
  {
    Text.TakeDrop(if greater then ">" else "<", "=" + (raw + t));
    Text.TakeDrop("=", raw + t);
    ReadsValue(raw, v, t);
  }

  lemma ReadsOrdering(a: string, raw: string, v: string, t: string, greater: bool)
    requires LegalAttr(a) && IsRaw(raw) && Unescape(raw) == Ok(v) && StartsWith(t, ')')
    ensures ReadSimple(a + ((if greater then ">" else "<") + "=") + raw + t)
         == Read(if greater then GreaterOrEqual(a, v) else LessOrEqual(a, v), t)
  {
    var mark := if greater then ">" else "<";
    ReadsRelation(a, raw, v, t, greater);
    ComparisonShape(a, mark, raw, t);
    ReadAttrOf(a, mark + ("=" + (raw + t)));
  }

  lemma ReadsAssertion(a: string, raw: string, t: string)
    requires EscapesOk(raw) && IsRaw(raw) && StartsWith(t, ')')
    ensures '*' in raw && SubstringOf(raw).Ok? ==>
              ReadEqualityOrSubstring(a, raw + t) == Read(Substring(a, SubstringOf(raw).value), t)
    ensures '*' !in raw && Unescape(raw).Ok? ==>
              ReadEqualityOrSubstring(a, raw + t) == Read(Equality(a, Unescape(raw).value), t)
  {
    ScanOfRaw(raw, t);
    Text.TakeDrop(raw, t);
  }

  lemma SplitBody(body: string, attr: string, sign: string)
    requires Relates(body, attr, sign)
    ensures body == attr + sign + RawOf(body, attr, sign)
  {
  }

  lemma ReadsSimple(f: Filter, body: string, t: string)
    requires IsSimple(f) && SpellsInside(f, body) && StartsWith(t, ')')
    ensures ReadSimple(body + t) == Read(f, t)
  {
    match f
    case Present(a) =>
      SplitBody(body, a, "=");
      Text.ConcatAssoc(a, "=", "*");
      assert "=" + "*" == "=*";
      ReadsPresent(a, t);
    case Equality(a, v) =>
      var raw := RawOf(body, a, "=");
      SplitBody(body, a, "=");
      EscapesOkIff(raw);
      ReadsAssertion(a, raw, t);
      AssertionBody(a, raw, t);
    case Substring(a, sub) =>
      var raw := RawOf(body, a, "=");
      SplitBody(body, a, "=");
      SubstringEscapes(raw);
      ReadsAssertion(a, raw, t);
      AssertionBody(a, raw, t);
    case GreaterOrEqual(a, v) =>
      SplitBody(body, a, ">=");
      assert ">" + "=" == ">=";
      ReadsOrdering(a, RawOf(body, a, ">="), v, t, true);
    case LessOrEqual(a, v) =>
      SplitBody(body, a, "<=");
      assert "<" + "=" == "<=";
      ReadsOrdering(a, RawOf(body, a, "<="), v, t, false);
  }

  lemma ReadBracketed(body: string, f: Filter, t: string)
    requires ReadInner(body + (")" + t)) == Read(f, ")" + t)
    ensures ReadFilter("(" + body + ")" + t) == Read(f, t)
  {
    Text.ConcatAssoc("(", body, ")");
    Text.ConcatAssoc("(", body + ")", t);
    Text.ConcatAssoc(body, ")", t);
    Text.TakeDrop("(", body + (")" + t));
    Text.TakeDrop(")", t);
  }

  lemma ReadMarked(mark: char, inner: string, s: string)
    requires s == [mark] + inner
    requires mark in {'&', '|', '!'}
    ensures mark == '!' && ReadFilter(inner).Read? ==>
              ReadInner(s) == Read(Not(ReadFilter(inner).value), ReadFilter(inner).rest)
    ensures mark != '!' && ReadMany(inner).Read? && ReadMany(inner).value != [] ==>
              ReadInner(s) == Read(if mark == '&' then And(ReadMany(inner).value) else Or(ReadMany(inner).value),
                                   ReadMany(inner).rest)
  {
    assert s[1..] == inner;
  }

  lemma ReadInnerIsSimple(s: string)
    requires s != [] && IsAttrChar(s[0])
    ensures ReadInner(s) == ReadSimple(s)
  {
  }

  lemma BracketedShape(text: string)
    requires Bracketed(text)
    ensures text == "(" + Inside(text) + ")"
  {
  }

  lemma SimpleStarts(f: Filter, body: string, t: string)
    requires IsSimple(f) && SpellsInside(f, body)
    ensures body != [] && ReadInner(body + t) == ReadSimple(body + t)
  {
    assert IsAttrChar(body[0]);
    assert (body + t)[0] == body[0];
    ReadInnerIsSimple(body + t);
  }

  /** A spelled filter at the front of a text is read, and the rest is left. */
  lemma {:induction false} ReadsSpelled(f: Filter, text: string, t: string)
    requires Spells(f, text)
    ensures ReadFilter(text + t) == Read(f, t)
    decreases f, 1
  {
    var body, close := Inside(text), ")" + t;
    BracketedShape(text);
    if IsSimple(f) {
      ReadsSimple(f, body, close);
      SimpleStarts(f, body, close);
    } else {
      var mark := body[0];
      assert body == [mark] + body[1..];
      Text.ConcatAssoc([mark], body[1..], close);
      if f.Not? {
        ReadsSpelled(f.child, body[1..], close);
      } else {
        ReadsAllSpelled(f, f.children, body[1..], close);
      }
      ReadMarked(mark, body[1..] + close, body + close);
    }
    ReadBracketed(body, f, t);
  }

  lemma {:induction false} ReadsAllSpelled(parent: Filter, fs: seq<Filter>, text: string, t: string)
    requires SpellsAll(fs, text) && StartsWith(t, ')')
    requires forall g | g in fs :: g < parent
    ensures ReadMany(text + t) == Read(fs, t)
    decreases parent, 0, |fs|
  {
    if fs == [] {
      assert text + t == t;
    } else {
      var k :| 0 <= k <= |text| && Spells(fs[0], text[..k]) && SpellsAll(fs[1..], text[k..]);
      assert fs[0] in fs && fs == [fs[0]] + fs[1..] && forall g | g in fs[1..] :: g in fs;
      assert text == text[..k] + text[k..];
      Text.ConcatAssoc(text[..k], text[k..], t);
      ReadsSpelled(fs[0], text[..k], text[k..] + t);
      ReadsAllSpelled(parent, fs[1..], text[k..], t);
      assert (text + t)[0] == text[..k][0];
    }
  }

  // ----- Read texts are spelled -----------------------------------------

  lemma SignMade(a: string, sign: string, raw: string)
    requires LegalAttr(a)
    ensures Relates(a + sign + raw, a, sign) && RawOf(a + sign + raw, a, sign) == raw
  {
  }

  lemma {:induction false} RawOfValue(s: string)
    ensures IsRaw(s[..ValueLength(s)])
  {
    if s != [] && s[0] != ')' {
      RawOfValue(s[1..]);
      assert s[..ValueLength(s)] == [s[0]] + s[1..][..ValueLength(s[1..])];
    }
  }

  /** A sign, its `=` and what follows, put together from the parts. */
  lemma SignShape(s: string, raw: string, rest: string, greater: bool)
    requires StartsWith(s, '=') && s[1..] == raw + rest
    ensures (if greater then ">" else "<") + s == (if greater then ">=" else "<=") + (raw + rest)
  {
    assert s == "=" + (raw + rest);
    Text.ConcatAssoc(if greater then ">" else "<", "=", raw + rest);
    assert ">" + "=" == ">=" && "<" + "=" == "<=";
  }

  lemma OrderingMade(a: string, raw: string, v: string, greater: bool)
    requires LegalAttr(a) && IsRaw(raw) && Unescape(raw) == Ok(v)
    ensures SpellsInside(if greater then GreaterOrEqual(a, v) else LessOrEqual(a, v),
                         a + (if greater then ">=" else "<=") + raw)
  {
    SignMade(a, if greater then ">=" else "<=", raw);
  }

  lemma ValueParts(t: string)
    requires ReadValue(t).Read?
    ensures var raw := t[..ValueLength(t)];
            && t == raw + ReadValue(t).rest && IsRaw(raw) && Unescape(raw) == Ok(ReadValue(t).value)
  {
    RawOfValue(t);
    Text.SplitAt(t, ValueLength(t));
  }

  lemma OrderingSpells(a: string, s: string, greater: bool) returns (body: string)
    requires LegalAttr(a) && ReadOrdering(a, s, greater).Read?
    ensures a + ((if greater then ">" else "<") + s) == body + ReadOrdering(a, s, greater).rest
    ensures SpellsInside(ReadOrdering(a, s, greater).value, body)
  {
    var sign, t := if greater then ">=" else "<=", s[1..];
    var raw, rest := t[..ValueLength(t)], ReadValue(t).rest;
    ValueParts(t);
    OrderingMade(a, raw, ReadValue(t).value, greater);
    body := a + sign + raw;
    SignShape(s, raw, rest, greater);
    Text.ConcatAssoc(a + sign, raw, rest);
    Text.ConcatAssoc(a, sign, raw + rest);
  }

  lemma AssertionSpells(a: string, s: string) returns (body: string)
    requires LegalAttr(a) && ReadEqualityOrSubstring(a, s).Read?
    requires s[..AssertionLength(s)] != "*"
    ensures a + ("=" + s) == body + ReadEqualityOrSubstring(a, s).rest
    ensures SpellsInside(ReadEqualityOrSubstring(a, s).value, body)
  {
    var n := AssertionLength(s);
    var raw := s[..n];
    if HasWildcard(s) {
      SubstringEscapes(raw);
    } else {
      EscapesOkIff(raw);
    }
    RawOfScan(s);
    SignMade(a, "=", raw);
    body := a + "=" + raw;
    assert s == raw + s[n..];
    Text.ConcatAssoc(a + "=", raw, s[n..]);
    Text.ConcatAssoc(a, "=", raw + s[n..]);
  }

  lemma PresentSpells(a: string, t: string)
    requires LegalAttr(a) && StartsWith(t, '=') && |t| >= 3 && t[1] == '*'
    ensures SpellsInside(Present(a), a + "=" + "*") && a + t == a + "=" + "*" + t[2..]
  {
    SignMade(a, "=", "*");
    assert t == "=" + ("*" + t[2..]);
    Text.ConcatAssoc(a + "=", "*", t[2..]);
    Text.ConcatAssoc(a, "=", "*" + t[2..]);
  }

  lemma RelationSpells(a: string, t: string) returns (body: string)
    requires LegalAttr(a) && ReadRelation(a, t).Read? && StartsWith(ReadRelation(a, t).rest, ')')
    ensures a + t == body + ReadRelation(a, t).rest && SpellsInside(ReadRelation(a, t).value, body)
  {
    assert t == [t[0]] + t[1..];
    if StartsWith(t, '=') {
      if |t| >= 3 && t[1] == '*' && t[2] == ')' {
        PresentSpells(a, t);
        body := a + "=" + "*";
      } else {
        NotPresent(t[1..]);
        body := AssertionSpells(a, t[1..]);
      }
    } else {
      body := OrderingSpells(a, t[1..], StartsWith(t, '>'));
    }
  }

  /** A lone star before the closing bracket is the presence form. */
  lemma NotPresent(s: string)
    requires !(|s| >= 2 && s[0] == '*' && s[1] == ')')
    requires StartsWith(s[AssertionLength(s)..], ')')
    ensures s[..AssertionLength(s)] != "*"
  {
  }

  lemma {:induction false} AttrLengthLegal(s: string)
    ensures forall i | 0 <= i < AttrLength(s) :: IsAttrChar(s[i])
  {
    if s != [] && IsAttrChar(s[0]) {
      AttrLengthLegal(s[1..]);
      assert forall i | 1 <= i < AttrLength(s) :: s[i] == s[1..][i - 1];
    }
  }

  lemma SimpleSpells(s: string) returns (body: string)
    requires ReadSimple(s).Read? && StartsWith(ReadSimple(s).rest, ')')
    ensures s == body + ReadSimple(s).rest && SpellsInside(ReadSimple(s).value, body)
  {
    var n := AttrLength(s);
    AttrLengthLegal(s);
    body := RelationSpells(s[..n], s[n..]);
    assert s[..n] + s[n..] == s;
  }

  lemma BracketMade(f: Filter, body: string, rest: string)
    requires SpellsInside(f, body)
    ensures Spells(f, "(" + body + ")") && "(" + body + ")" + rest == "(" + (body + (")" + rest))
  {
    assert Inside("(" + body + ")") == body;
    Text.ConcatAssoc("(", body, ")");
    Text.ConcatAssoc("(", body + ")", rest);
    Text.ConcatAssoc(body, ")", rest);
  }

  /** What is read from the front of a text is spelled there. */
  lemma {:induction false} FilterSpells(s: string) returns (text: string)
    requires ReadFilter(s).Read?
    ensures s == text + ReadFilter(s).rest && Spells(ReadFilter(s).value, text)
    decreases |s|, 0
  {
    var rest := ReadFilter(s).rest;
    var t := ReadInner(s[1..]).rest;
    var body := InsideSpells(s[1..]);
    BracketMade(ReadFilter(s).value, body, rest);
    text := "(" + body + ")";
    assert t == ")" + rest && s == "(" + s[1..];
  }

  lemma {:induction false} InsideSpells(s: string) returns (body: string)
    requires ReadInner(s).Read? && StartsWith(ReadInner(s).rest, ')')
    ensures s == body + ReadInner(s).rest && SpellsInside(ReadInner(s).value, body)
    decreases |s|, 2
  {
    if StartsWith(s, '&') || StartsWith(s, '|') || StartsWith(s, '!') {
      var text: string;
      if StartsWith(s, '!') {
        text := FilterSpells(s[1..]);
      } else {
        text := ManySpell(s[1..]);
      }
      body := [s[0]] + text;
      assert body[1..] == text;
      Text.ConcatAssoc([s[0]], text, ReadInner(s).rest);
      assert s == [s[0]] + s[1..];
    } else {
      body := SimpleSpells(s);
    }
  }

  lemma {:induction false} ManySpell(s: string) returns (text: string)
    requires ReadMany(s).Read?
    ensures s == text + ReadMany(s).rest && SpellsAll(ReadMany(s).value, text)
    decreases |s|, 1
  {
    if !StartsWith(s, '(') {
      text := [];
    } else {
      var first := FilterSpells(s);
      var t := ReadFilter(s).rest;
      var others := ManySpell(t);
      text := first + others;
      Text.TakeDrop(first, others);
      Text.ConcatAssoc(first, others, ReadMany(s).rest);
      assert Spells(ReadFilter(s).value, text[..|first|]) && SpellsAll(ReadMany(t).value, text[|first|..]);
      assert ReadMany(s).value[1..] == ReadMany(t).value;
    }
  }

  // ----- The parser accepts exactly the grammar -------------------------

  lemma {:induction false} TrimmedEnd(s: string)
    ensures Text.TrimEnd(s) != [] ==> !Text.IsWhitespace(Text.TrimEnd(s)[|Text.TrimEnd(s)| - 1])
  {
    if s != [] && Text.IsWhitespace(s[|s| - 1]) {
      TrimmedEnd(s[..|s| - 1]);
    }
  }

  lemma NoBlankRest(input: string, text: string, rest: string)
    requires Text.Trim(input) == text + rest && Text.IsBlank(rest)
    ensures rest == []
  {
    TrimmedEnd(Text.TrimStart(input));
    Text.BlankIsAllWhitespace(rest);
    if rest != [] {
      assert false;
    }
  }

  /** An input parses to a filter exactly when, without white space around it,
      it spells that filter. */
  lemma ParsesIffSpelled(input: string, f: Filter)
    ensures FilterOf(input) == Ok(f) <==> Spells(f, Text.Trim(input))
  {
    var s := Text.Trim(input);
    if FilterOf(input) == Ok(f) {
      var text := FilterSpells(s);
      NoBlankRest(input, text, ReadFilter(s).rest);
      assert text + [] == text;
    }
    if Spells(f, s) {
      ReadsSpelled(f, s, []);
      assert s + [] == s;
    }
  }

  /** White space around a filter means nothing. */
  lemma SurroundingSpaceIsIgnored(a: string, input: string, b: string)
    requires Text.AllWhitespace(a) && Text.AllWhitespace(b)
    ensures FilterOf(a + input + b) == FilterOf(input)
  {
    Text.TrimPadded(a, input, b);
  }

  /** No text spells two filters. */
  lemma SpellingIsUnambiguous(f: Filter, g: Filter, text: string)
    requires Spells(f, text) && Spells(g, text)
    ensures f == g
  {
    ReadsSpelled(f, text, []);
    ReadsSpelled(g, text, []);
  }
}
