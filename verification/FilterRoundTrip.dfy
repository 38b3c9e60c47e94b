/** Printing and parsing filters are inverse to each other. */
module FilterRoundTrip {
  import opened Wrappers
  import opened Utf8
  import opened FilterGrammar
  import opened FilterSpelling
  import Text

  // ----- Escaped values -------------------------------------------------

  lemma HexRoundTrip(d: nat)
    requires d < 16
    ensures HexDigit(HexChar(d)) == Some(d)
    ensures HexChar(d) !in {'*', '(', ')', '\\'}
  {
  }

  predicate NoMarks(s: string) {
    forall i | 0 <= i < |s| :: s[i] !in {'*', '(', ')'}
  }

  lemma {:induction false} EscapeBytesNoMarks(bytes: seq<Byte>)
    ensures NoMarks(EscapeBytes(bytes)) && |EscapeBytes(bytes)| == 3 * |bytes|
  {
    if bytes != [] {
      EscapeBytesNoMarks(bytes[1..]);
      HexRoundTrip(bytes[0] / 16);
      HexRoundTrip(bytes[0] % 16);
    }
  }

  /** An escaped value holds neither a star nor a bracket. */
  lemma {:induction false} EscapeNoMarks(v: string)
    ensures NoMarks(Escape(v))
  {
    if v != [] {
      EscapeBytesNoMarks(EncodeChar(v[0]));
      EscapeNoMarks(v[1..]);
    }
  }

  lemma EscapeNonEmpty(v: string)
    requires v != []
    ensures Escape(v) != []
  {
    EscapeBytesNoMarks(EncodeChar(v[0]));
  }

  lemma UnescapeEscapedByte(b: Byte, t: string)
    requires UnescapeBytes(t).Some?
    ensures UnescapeBytes(EscapeByte(b) + t) == Some([b] + UnescapeBytes(t).value)
  {
    HexRoundTrip(b / 16);
    HexRoundTrip(b % 16);
    assert (EscapeByte(b) + t)[3..] == t;
  }

  lemma {:induction false} UnescapeEscapedBytes(bytes: seq<Byte>, t: string)
    requires UnescapeBytes(t).Some?
    ensures UnescapeBytes(EscapeBytes(bytes) + t) == Some(bytes + UnescapeBytes(t).value)
  {
    var tail := UnescapeBytes(t).value;
    if bytes == [] {
      assert EscapeBytes(bytes) + t == t;
      assert bytes + tail == tail;
    } else {
      var u := EscapeBytes(bytes[1..]) + t;
      UnescapeEscapedBytes(bytes[1..], t);
      UnescapeEscapedByte(bytes[0], u);
      assert EscapeBytes(bytes) + t == EscapeByte(bytes[0]) + u;
      assert [bytes[0]] + (bytes[1..] + tail) == bytes + tail;
    }
  }

  lemma {:induction false} UnescapeBytesOfEscaped(v: string)
    ensures UnescapeBytes(Escape(v)) == Some(Encode(v))
  {
    if v != [] {
      UnescapeBytesOfEscaped(v[1..]);
      var t := Escape(v[1..]);
      if NeedsEscape(v[0]) {
        UnescapeEscapedBytes(EncodeChar(v[0]), t);
      } else {
        assert ([v[0]] + t)[1..] == t;
      }
    }
  }

  /** Unescaping undoes escaping, for every Unicode value. */
  lemma UnescapeEscape(v: string)
    ensures Unescape(Escape(v)) == Ok(v)
  {
    UnescapeBytesOfEscaped(v);
    DecodeEncode(v);
  }

  lemma UnescapeNonEmpty(raw: string)
    requires raw != [] && Unescape(raw).Ok?
    ensures Unescape(raw).value != []
  {
    assert UnescapeBytes(raw).value != [];
  }

  // ----- Substrings -----------------------------------------------------

  lemma {:induction false} PiecesStarFree(s: string)
    requires forall i | 0 <= i < |s| :: s[i] != '*'
    ensures Pieces(s) == [s]
  {
    if s != [] {
      PiecesStarFree(s[1..]);
      assert [s[0]] + s[1..] == s;
    }
  }

  function EscapeEach(vs: seq<string>): (r: seq<string>)
    ensures |r| == |vs|
  {
    if vs == [] then [] else [Escape(vs[0])] + EscapeEach(vs[1..])
  }

  /** What a non-empty substring prints after its initial part. */
  function TailText(any: seq<string>, final: Option<string>): string {
    PrintAny(any) + "*" + PartText(final)
  }

  lemma PrintSubstringShape(sub: SubstringValue)
    requires !IsEmptySubstring(sub)
    ensures PrintSubstring(sub) == PartText(sub.initial) + TailText(sub.any, sub.final)
  {
    var i, a, f := PartText(sub.initial), PrintAny(sub.any), PartText(sub.final);
    assert (i + a) + ("*" + f) == i + (a + "*" + f);
    assert sub.final.None? ==> "*" + f == "*";
  }

  lemma PartTextNoMarks(part: Option<string>)
    ensures NoMarks(PartText(part))
  {
    if part.Some? {
      EscapeNoMarks(part.value);
    }
  }

  lemma TailShape(any: seq<string>, final: Option<string>)
    ensures any == [] ==> TailText(any, final) == "*" + PartText(final)
    ensures any != [] ==> TailText(any, final) == "*" + (Escape(any[0]) + TailText(any[1..], final))
  {
    if any == [] {
      assert PrintAny(any) + "*" == "*";
    } else {
      var e, p, f := Escape(any[0]), PrintAny(any[1..]), PartText(final);
      calc {
        ("*" + e + p) + "*" + f;
        { Text.ConcatAssoc("*", e, p); }
        ("*" + (e + p)) + "*" + f;
        { Text.ConcatAssoc("*" + (e + p), "*", f); }
        ("*" + (e + p)) + ("*" + f);
        { Text.ConcatAssoc("*", e + p, "*" + f); }
        "*" + ((e + p) + ("*" + f));
        { Text.ConcatAssoc(e, p, "*" + f); Text.ConcatAssoc(p, "*", f); }
        "*" + (e + (p + "*" + f));
      }
    }
  }

  lemma PiecesAfterStar(t: string)
    ensures Pieces("*" + t) == [[]] + Pieces(t)
  {
    assert ("*" + t)[1..] == t;
  }

  lemma {:induction false} TailPieces(any: seq<string>, final: Option<string>)
    ensures Pieces(TailText(any, final)) == [[]] + (EscapeEach(any) + [PartText(final)])
  {
    TailShape(any, final);
    if any == [] {
      PartTextNoMarks(final);
      PiecesStarFree(PartText(final));
      PiecesAfterStar(PartText(final));
      assert EscapeEach(any) + [PartText(final)] == [PartText(final)];
    } else {
      var e, t := Escape(any[0]), TailText(any[1..], final);
      TailPieces(any[1..], final);
      EscapeNoMarks(any[0]);
      PrependToPieces(e, t);
      PiecesAfterStar(e + t);
      assert Pieces(t)[0] == [] && e + [] == e;
      Text.ConcatAssoc([e], EscapeEach(any[1..]), [PartText(final)]);
    }
  }

  lemma {:induction false} EachNonEmpty(vs: seq<string>)
    requires forall i | 0 <= i < |vs| :: vs[i] != []
    ensures NonEmpty(EscapeEach(vs)) == EscapeEach(vs)
  {
    if vs != [] {
      EachNonEmpty(vs[1..]);
      EscapeNonEmpty(vs[0]);
      assert EscapeEach(vs)[1..] == EscapeEach(vs[1..]);
    }
  }

  lemma {:induction false} UnescapeEscapeEach(vs: seq<string>)
    ensures UnescapeAll(EscapeEach(vs)) == Ok(vs)
  {
    if vs != [] {
      UnescapeEscapeEach(vs[1..]);
      UnescapeEscape(vs[0]);
      assert EscapeEach(vs)[1..] == EscapeEach(vs[1..]);
      assert vs == [vs[0]] + vs[1..];
    }
  }

  lemma UnescapePartText(part: Option<string>)
    requires part != Some([])
    ensures UnescapePiece(PartText(part)) == Ok(part)
  {
    if part.Some? {
      EscapeNonEmpty(part.value);
      UnescapeEscape(part.value);
    }
  }

  lemma SubstringPieces(sub: SubstringValue)
    requires !IsEmptySubstring(sub)
    ensures Pieces(PrintSubstring(sub)) == [PartText(sub.initial)] + (EscapeEach(sub.any) + [PartText(sub.final)])
  {
    var i, tail := PartText(sub.initial), TailText(sub.any, sub.final);
    PrintSubstringShape(sub);
    PartTextNoMarks(sub.initial);
    TailPieces(sub.any, sub.final);
    PrependToPieces(i, tail);
    assert i + Pieces(tail)[0] == i;
  }

  lemma SubstringFromPieces(text: string, first: string, middle: seq<string>, last: string, sub: SubstringValue)
    requires Pieces(text) == [first] + (middle + [last])
    requires UnescapePiece(first) == Ok(sub.initial) && UnescapePiece(last) == Ok(sub.final)
    requires UnescapeAll(NonEmpty(middle)) == Ok(sub.any)
    ensures SubstringOf(text) == Ok(sub)
  {
    var pieces := Pieces(text);
    assert pieces[1..|pieces| - 1] == middle;
  }

  lemma SubstringRoundTrip(sub: SubstringValue)
    requires LegalSubstring(sub) && !IsEmptySubstring(sub)
    ensures SubstringOf(PrintSubstring(sub)) == Ok(sub)
  {
    SubstringPieces(sub);
    EachNonEmpty(sub.any);
    UnescapeEscapeEach(sub.any);
    UnescapePartText(sub.initial);
    UnescapePartText(sub.final);
    SubstringFromPieces(PrintSubstring(sub), PartText(sub.initial), EscapeEach(sub.any), PartText(sub.final), sub);
  }

  lemma {:induction false} TailMarks(any: seq<string>, final: Option<string>)
    ensures ')' !in TailText(any, final) && '*' in TailText(any, final)
  {
    TailShape(any, final);
    if any == [] {
      PartTextNoMarks(final);
    } else {
      EscapeNoMarks(any[0]);
      TailMarks(any[1..], final);
    }
  }

  /** A non-empty legal substring prints as a raw value with a star in it that is
      not a lone star. */
  lemma SubstringMarks(sub: SubstringValue)
    requires LegalSubstring(sub) && !IsEmptySubstring(sub)
    ensures IsRaw(PrintSubstring(sub)) && '*' in PrintSubstring(sub) && PrintSubstring(sub) != "*"
  {
    PrintSubstringShape(sub);
    PartTextNoMarks(sub.initial);
    TailMarks(sub.any, sub.final);
    TailShape(sub.any, sub.final);
    if sub.initial.Some? {
      EscapeNonEmpty(sub.initial.value);
    } else if sub.any != [] {
      EscapeNonEmpty(sub.any[0]);
    } else {
      EscapeNonEmpty(sub.final.value);
    }
  }

  // ----- Printing spells ------------------------------------------------

  /** What a simple filter prints between its brackets. */
  function SimpleBody(f: Filter): string
    requires IsSimple(f)
  {
    match f
    case Present(a) => a + "=*"
    case Equality(a, v) => a + "=" + Escape(v)
    case Substring(a, sub) => a + "=" + PrintSubstring(sub)
    case GreaterOrEqual(a, v) => a + ">=" + Escape(v)
    case LessOrEqual(a, v) => a + "<=" + Escape(v)
  }

  /** What any filter prints between its brackets. */
  function Body(f: Filter): string {
    match f
    case And(fs) => ['&'] + PrintAll(fs)
    case Or(fs) => ['|'] + PrintAll(fs)
    case Not(g) => ['!'] + Print(g)
    case _ => SimpleBody(f)
  }

  lemma PrintShape(f: Filter)
    ensures Print(f) == "(" + Body(f) + ")"
  {
    match f
    case And(fs) => Text.ConcatAssoc("(", ['&'], PrintAll(fs));
    case Or(fs) => Text.ConcatAssoc("(", ['|'], PrintAll(fs));
    case Not(g) => Text.ConcatAssoc("(", ['!'], Print(g));
    case Present(a) => PresentShape(a);
    case Equality(a, v) => BracketShape(a, "=", Escape(v));
    case Substring(a, sub) => BracketShape(a, "=", PrintSubstring(sub));
    case GreaterOrEqual(a, v) => BracketShape(a, ">=", Escape(v));
    case LessOrEqual(a, v) => BracketShape(a, "<=", Escape(v));
  }

  lemma BracketShape(a: string, mark: string, e: string)
    ensures "(" + a + mark + e == "(" + (a + mark + e)
  {
    Text.ConcatAssoc("(", a, mark);
    Text.ConcatAssoc("(", a + mark, e);
  }

  lemma PresentShape(a: string)
    ensures "(" + a + "=*)" == "(" + (a + "=*") + ")"
  {
    Text.ConcatAssoc("(", a, "=*");
    Text.ConcatAssoc("(" + a, "=*", ")");
    assert "=*" + ")" == "=*)";
  }

  lemma SimpleIsSpelled(f: Filter)
    requires IsSimple(f) && Legal(f)
    ensures SpellsInside(Normalize(f), SimpleBody(f))
  {
    match f
    case Present(a) =>
      SignMade(a, "=", "*");
      Text.ConcatAssoc(a, "=", "*");
      assert "=" + "*" == "=*";
    case Equality(a, v) =>
      EscapeNoMarks(v);
      UnescapeEscape(v);
      SignMade(a, "=", Escape(v));
    case Substring(a, sub) =>
      SignMade(a, "=", PrintSubstring(sub));
      if IsEmptySubstring(sub) {
        UnescapeEscape([]);
        assert PrintSubstring(sub) == Escape([]) == [];
      } else {
        SubstringMarks(sub);
        SubstringRoundTrip(sub);
      }
    case GreaterOrEqual(a, v) =>
      EscapeNoMarks(v);
      UnescapeEscape(v);
      SignMade(a, ">=", Escape(v));
    case LessOrEqual(a, v) =>
      EscapeNoMarks(v);
      UnescapeEscape(v);
      SignMade(a, "<=", Escape(v));
  }

  /** A printed filter spells its normal form. */
  lemma {:induction false} PrintSpells(f: Filter)
    requires Legal(f)
    ensures Spells(Normalize(f), Print(f))
    decreases f, 1
  {
    if IsSimple(f) {
      SimpleIsSpelled(f);
    } else if f.Not? {
      PrintSpells(f.child);
      Text.TakeDrop(['!'], Print(f.child));
    } else {
      PrintAllSpells(f, f.children);
      Text.TakeDrop([if f.And? then '&' else '|'], PrintAll(f.children));
    }
    BracketMade(Normalize(f), Body(f), []);
    PrintShape(f);
  }

  lemma {:induction false} PrintAllSpells(parent: Filter, fs: seq<Filter>)
    requires forall g | g in fs :: Legal(g) && g < parent
    ensures SpellsAll(NormalizeAll(fs), PrintAll(fs))
    decreases parent, 0, |fs|
  {
    if fs != [] {
      assert fs[0] in fs && forall g | g in fs[1..] :: g in fs;
      PrintSpells(fs[0]);
      PrintAllSpells(parent, fs[1..]);
      Text.TakeDrop(Print(fs[0]), PrintAll(fs[1..]));
      assert NormalizeAll(fs)[1..] == NormalizeAll(fs[1..]);
      assert Spells(NormalizeAll(fs)[0], PrintAll(fs)[..|Print(fs[0])|]);
    }
  }

  lemma PrintStarts(f: Filter)
    ensures StartsWith(Print(f), '(')
    ensures Print(f)[|Print(f)| - 1] == ')'
  {
  }

  // ----- What the parser produces ---------------------------------------

  lemma {:induction false} UnescapeAllNonEmpty(raws: seq<string>)
    requires UnescapeAll(NonEmpty(raws)).Ok?
    ensures forall i | 0 <= i < |NonEmpty(raws)| :: UnescapeAll(NonEmpty(raws)).value[i] != []
  {
    if raws != [] && raws[0] != [] {
      assert NonEmpty(raws)[1..] == NonEmpty(raws[1..]);
      UnescapeAllNonEmpty(raws[1..]);
      UnescapeNonEmpty(raws[0]);
    } else if raws != [] {
      UnescapeAllNonEmpty(raws[1..]);
    }
  }

  lemma SubstringOfIsLegal(text: string)
    requires SubstringOf(text).Ok?
    ensures LegalSubstring(SubstringOf(text).value)
  {
    var pieces := Pieces(text);
    var n := |pieces|;
    if n > 1 {
      UnescapeAllNonEmpty(pieces[1..n - 1]);
      if pieces[0] != [] {
        UnescapeNonEmpty(pieces[0]);
      }
    }
    if pieces[n - 1] != [] {
      UnescapeNonEmpty(pieces[n - 1]);
    }
  }

  /** Every spelled filter is legal. */
  lemma {:induction false} SpelledIsLegal(f: Filter, text: string)
    requires Spells(f, text)
    ensures Legal(f)
    decreases f, 1
  {
    var body := Inside(text);
    match f
    case And(fs) => AllSpelledAreLegal(f, fs, body[1..]);
    case Or(fs) => AllSpelledAreLegal(f, fs, body[1..]);
    case Not(g) => SpelledIsLegal(g, body[1..]);
    case Substring(a, sub) => SubstringOfIsLegal(RawOf(body, a, "="));
    case _ =>
  }

  lemma {:induction false} AllSpelledAreLegal(parent: Filter, fs: seq<Filter>, text: string)
    requires SpellsAll(fs, text) && forall g | g in fs :: g < parent
    ensures forall g | g in fs :: Legal(g)
    decreases parent, 0, |fs|
  {
    if fs != [] {
      var k :| 0 <= k <= |text| && Spells(fs[0], text[..k]) && SpellsAll(fs[1..], text[k..]);
      assert fs[0] in fs && forall g :: g in fs <==> g == fs[0] || g in fs[1..];
      SpelledIsLegal(fs[0], text[..k]);
      AllSpelledAreLegal(parent, fs[1..], text[k..]);
    }
  }

  // ----- Normalization --------------------------------------------------

  lemma {:induction false} PrintNormalized(f: Filter)
    ensures Print(Normalize(f)) == Print(f)
    decreases f, 1
  {
    match f
    case And(fs) => PrintNormalizedAll(f, fs);
    case Or(fs) => PrintNormalizedAll(f, fs);
    case Not(g) => PrintNormalized(g);
    case _ =>
  }

  lemma {:induction false} PrintNormalizedAll(parent: Filter, fs: seq<Filter>)
    requires forall g | g in fs :: g < parent
    ensures PrintAll(NormalizeAll(fs)) == PrintAll(fs)
    decreases parent, 0, |fs|
  {
    if fs != [] {
      assert fs[0] in fs && forall g | g in fs[1..] :: g in fs;
      PrintNormalized(fs[0]);
      PrintNormalizedAll(parent, fs[1..]);
      assert NormalizeAll(fs)[1..] == NormalizeAll(fs[1..]);
    }
  }

  lemma {:induction false} NormalizeIsIdentity(f: Filter)
    ensures Normalize(f) == f <==> NoEmptySubstring(f)
    decreases f, 1
  {
    match f
    case And(fs) => NormalizeAllIsIdentity(f, fs);
    case Or(fs) => NormalizeAllIsIdentity(f, fs);
    case Not(g) => NormalizeIsIdentity(g);
    case _ =>
  }

  lemma {:induction false} NormalizeAllIsIdentity(parent: Filter, fs: seq<Filter>)
    requires forall g | g in fs :: g < parent
    ensures NormalizeAll(fs) == fs <==> forall g | g in fs :: NoEmptySubstring(g)
    decreases parent, 0, |fs|
  {
    if fs != [] {
      assert fs[0] in fs && forall g | g in fs[1..] :: g in fs;
      NormalizeIsIdentity(fs[0]);
      NormalizeAllIsIdentity(parent, fs[1..]);
      assert fs == [fs[0]] + fs[1..];
      assert NormalizeAll(fs)[0] == Normalize(fs[0]);
      assert NormalizeAll(fs)[1..] == NormalizeAll(fs[1..]);
      assert forall g :: g in fs <==> g == fs[0] || g in fs[1..];
    }
  }

  // ----- The theorems ---------------------------------------------------

  lemma TrimPrinted(f: Filter)
    ensures Text.Trim(Print(f)) == Print(f)
  {
    PrintStarts(f);
  }

  lemma ParsePrinted(f: Filter)
    requires Legal(f)
    ensures FilterOf(Print(f)) == Ok(Normalize(f))
  {
    TrimPrinted(f);
    PrintSpells(f);
    ParsesIffSpelled(Print(f), Normalize(f));
  }

  /** Parsing the printed form of a well-formed filter returns that filter. */
  lemma RoundTrip(f: Filter)
    requires WellFormed(f)
    ensures FilterOf(Print(f)) == Ok(f)
  {
    ParsePrinted(f);
    NormalizeIsIdentity(f);
  }

  /** Two well-formed filters never print alike. */
  lemma PrintInjective(f: Filter, g: Filter)
    requires WellFormed(f) && WellFormed(g)
    ensures Print(f) == Print(g) ==> f == g
  {
    RoundTrip(f);
    RoundTrip(g);
  }

  lemma ParsedIsLegal(input: string)
    requires FilterOf(input).Ok?
    ensures Legal(FilterOf(input).value)
  {
    var f := FilterOf(input).value;
    ParsesIffSpelled(input, f);
    SpelledIsLegal(f, Text.Trim(input));
  }

  /** Sanitizing is idempotent on every accepted input. */
  lemma SanitizeIdempotent(input: string)
    requires Sanitize(input).Ok?
    ensures Sanitize(Sanitize(input).value) == Sanitize(input)
  {
    var f := FilterOf(input).value;
    ParsedIsLegal(input);
    ParsePrinted(f);
    PrintNormalized(f);
  }

  /** Sanitizing keeps the meaning of an accepted input exactly when no
      substring assertion in it is all wildcard. */
  lemma SanitizePreservesFilterIff(input: string)
    requires FilterOf(input).Ok?
    ensures FilterOf(Sanitize(input).value) == FilterOf(input) <==> NoEmptySubstring(FilterOf(input).value)
  {
    var f := FilterOf(input).value;
    ParsedIsLegal(input);
    ParsePrinted(f);
    NormalizeIsIdentity(f);
  }

  lemma {:induction false} PiecesOfStars(text: string)
    ensures (forall i | 0 <= i < |Pieces(text)| :: Pieces(text)[i] == [])
       <==> (forall i | 0 <= i < |text| :: text[i] == '*')
  {
    if text != [] {
      PiecesOfStars(text[1..]);
      assert text == [text[0]] + text[1..];
      var p := Pieces(text[1..]);
      assert Pieces(text)[1..] == if text[0] == '*' then p else p[1..];
      if text[0] != '*' {
        assert Pieces(text)[0] != [];
      } else {
        assert forall i | 0 <= i < |p| :: Pieces(text)[i + 1] == p[i];
      }
    }
  }

  lemma {:induction false} NonEmptyIsEmpty(ss: seq<string>)
    ensures NonEmpty(ss) == [] <==> forall i | 0 <= i < |ss| :: ss[i] == []
  {
    if ss != [] {
      NonEmptyIsEmpty(ss[1..]);
      assert forall i | 1 <= i < |ss| :: ss[i] == ss[1..][i - 1];
    }
  }

  /** The all-wildcard substrings are those written with stars only. */
  lemma EmptySubstringIff(text: string)
    requires SubstringOf(text).Ok?
    ensures IsEmptySubstring(SubstringOf(text).value) <==> forall i | 0 <= i < |text| :: text[i] == '*'
  {
    var pieces := Pieces(text);
    var n := |pieces|;
    PiecesOfStars(text);
    if n > 1 {
      var middle := pieces[1..n - 1];
      NonEmptyIsEmpty(middle);
      assert forall i | 1 <= i < n - 1 :: pieces[i] == middle[i - 1];
    }
  }

  const NOTHING := SubstringValue(None, [], None)

  lemma TwoStars()
    ensures SubstringOf("**") == Ok(NOTHING)
  {
    assert "**"[1..] == "*" && "*"[1..] == "";
    assert Pieces("*") == ["", ""];
    assert Pieces("**") == ["", "", ""];
    assert ["", "", ""][1..2] == [""];
    assert NonEmpty([""]) == [];
  }

  lemma TrimInBrackets(body: string)
    ensures Text.Trim("(" + body + ")") == "(" + body + ")"
  {
  }

  lemma AllWildcardIsAccepted(a: string)
    requires LegalAttr(a)
    ensures FilterOf("(" + (a + "=" + "**") + ")") == Ok(Substring(a, NOTHING))
  {
    TwoStars();
    SignMade(a, "=", "**");
    assert "**"[0] == '*';
    BracketMade(Substring(a, NOTHING), a + "=" + "**", []);
    TrimInBrackets(a + "=" + "**");
    ParsesIffSpelled("(" + (a + "=" + "**") + ")", Substring(a, NOTHING));
  }

  lemma NothingPrintsAsEmpty(a: string)
    ensures Print(Substring(a, NOTHING)) == Print(Equality(a, ""))
  {
    assert PrintSubstring(NOTHING) == [];
  }

  /** An assertion of two wildcards on any attribute is accepted, and sanitizing
      it yields a different filter: the empty equality. */
  lemma AllWildcardIsNotPreserved(a: string)
    requires LegalAttr(a)
    ensures FilterOf("(" + (a + "=" + "**") + ")") == Ok(Substring(a, NOTHING))
    ensures Sanitize("(" + (a + "=" + "**") + ")") == Ok(Print(Equality(a, "")))
    ensures FilterOf(Print(Equality(a, ""))) == Ok(Equality(a, ""))
  {
    AllWildcardIsAccepted(a);
    NothingPrintsAsEmpty(a);
    RoundTrip(Equality(a, ""));
  }
}
