/** The octet escapes of a filter value (section 3 of RFC 4515): which
    characters they spell, and that the case of their digits means nothing. */
module FilterEscapes {
  import opened Wrappers
  import opened Utf8
  import opened FilterGrammar
  import opened FilterRoundTrip
  import Text

  const LOWER_DIGITS := "0123456789abcdef"
  const UPPER_DIGITS := "0123456789ABCDEF"

  /** Both alphabets of hexadecimal digits are read, and nothing else. */
  lemma HexDigitIff(c: char, d: nat)
    requires d < 16
    ensures HexDigit(c) == Some(d) <==> c == LOWER_DIGITS[d] || c == UPPER_DIGITS[d]
  {
    var n := d as int;
    assert d < 10 ==> LOWER_DIGITS[d] as int == '0' as int + n && UPPER_DIGITS[d] == LOWER_DIGITS[d];
    assert d >= 10 ==> LOWER_DIGITS[d] as int == 'a' as int + n - 10 && UPPER_DIGITS[d] as int == 'A' as int + n - 10;
  }

  /** An escape is printed with two lower-case digits, the high one first. */
  lemma EscapeByteText(b: Byte)
    ensures EscapeByte(b) == ['\\', LOWER_DIGITS[b / 16], LOWER_DIGITS[b % 16]]
  {
    HexDigitIff(HexChar(b / 16), b / 16);
    HexDigitIff(HexChar(b % 16), b % 16);
  }

  // ----- The case of the digits -----------------------------------------

  /** Two raw values that agree but for the case of their escapes' digits. */
  predicate SameButDigitCase(a: string, b: string) {
    if a == [] || b == [] || a[0] != '\\' || |a| < 3 || |b| < 3 then
      a == b || (a != [] && b != [] && a[0] == b[0] != '\\' && SameButDigitCase(a[1..], b[1..]))
    else
      && b[0] == '\\'
      && Text.EqIgnoreAsciiCase(a[1..3], b[1..3])
      && SameButDigitCase(a[3..], b[3..])
  }

  lemma SameDigit(c: char, d: char)
    requires Text.AsciiLowerChar(c) == Text.AsciiLowerChar(d)
    ensures HexDigit(c) == HexDigit(d)
  {
  }

  lemma {:induction false} SameOctets(a: string, b: string)
    requires SameButDigitCase(a, b)
    ensures UnescapeBytes(a) == UnescapeBytes(b)
  {
    if a != b {
      if a[0] != '\\' {
        SameOctets(a[1..], b[1..]);
      } else {
        SameOctets(a[3..], b[3..]);
        var x, y := Text.AsciiLower(a[1..3]), Text.AsciiLower(b[1..3]);
        assert x[0] == Text.AsciiLowerChar(a[1]) && x[1] == Text.AsciiLowerChar(a[2]);
        assert y[0] == Text.AsciiLowerChar(b[1]) && y[1] == Text.AsciiLowerChar(b[2]);
        SameDigit(a[1], b[1]);
        SameDigit(a[2], b[2]);
      }
    }
  }

  /** A raw value stands for the same text, or fails alike, whatever the case of
      its escapes' digits. */
  lemma DigitCaseDoesNotMatter(a: string, b: string)
    requires SameButDigitCase(a, b)
    ensures Unescape(a) == Unescape(b)
  {
    SameOctets(a, b);
  }

  // ----- What is escaped ------------------------------------------------

  /** The characters a value may hold as they are. */
  predicate IsPlain(c: char) {
    0x20 <= c as int <= 0x7f && c !in "*()\\"
  }

  lemma {:induction false} EscapeBytesAscii(bytes: seq<Byte>)
    ensures forall i | 0 <= i < |EscapeBytes(bytes)| :: 0x20 <= EscapeBytes(bytes)[i] as int <= 0x7f
  {
    if bytes != [] {
      EscapeBytesAscii(bytes[1..]);
    }
  }

  /** An escaped value is ASCII without control codes. */
  lemma {:induction false} EscapeIsAscii(v: string)
    ensures forall i | 0 <= i < |Escape(v)| :: 0x20 <= Escape(v)[i] as int <= 0x7f
  {
    if v != [] {
      EscapeBytesAscii(EncodeChar(v[0]));
      EscapeIsAscii(v[1..]);
    }
  }

  lemma {:induction false} EscapeGrows(v: string)
    ensures |Escape(v)| >= |v|
    ensures |Escape(v)| == |v| ==> forall i | 0 <= i < |v| :: IsPlain(v[i])
  {
    if v != [] {
      EscapeBytesNoMarks(EncodeChar(v[0]));
      EscapeGrows(v[1..]);
      assert forall i | 1 <= i < |v| :: v[i] == v[1..][i - 1];
    }
  }

  lemma {:induction false} PlainIsKept(v: string)
    requires forall i | 0 <= i < |v| :: IsPlain(v[i])
    ensures Escape(v) == v
  {
    if v != [] {
      PlainIsKept(v[1..]);
      assert v == [v[0]] + v[1..];
    }
  }

  /** No more is escaped than has to be: a value is printed as it is exactly when
      it is ASCII without control codes, stars, brackets and backslashes. */
  lemma EscapeKeepsIff(v: string)
    ensures Escape(v) == v <==> forall i | 0 <= i < |v| :: 0x20 <= v[i] as int <= 0x7f && v[i] !in "*()\\"
  {
    EscapeGrows(v);
    if forall i | 0 <= i < |v| :: IsPlain(v[i]) {
      PlainIsKept(v);
    }
  }

  // ----- Attribute names ------------------------------------------------

  /** Attribute names are made of letters of either case, digits, hyphens and
      dots. */
  lemma AttrCharIff(c: char)
    ensures IsAttrChar(c) <==> 'a' <= Text.AsciiLowerChar(c) <= 'z' || c in "0123456789-."
  {
    var text := "0123456789-.";
    assert text[10] == '-' && text[11] == '.';
    if '0' <= c <= '9' {
      assert c == text[c as int - '0' as int];
    }
  }
}
