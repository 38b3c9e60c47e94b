/** Strings as the source sees them: sequences of Unicode scalar values, with
    the `White_Space` trimming, ASCII case folding and decimal printing used by
    the modelled code. */
module Text {
  import opened Wrappers

  /** Unicode `White_Space`, the characters `str::trim` removes. */
  predicate IsWhitespace(c: char) {
    var v := c as int;
    || 0x09 <= v <= 0x0D
    || v in {0x20, 0x85, 0xA0, 0x1680, 0x2028, 0x2029, 0x202F, 0x205F, 0x3000}
    || 0x2000 <= v <= 0x200A
  }

  /** The property's 25 code points, one by one. */
  lemma WhitespaceTable(c: char)
    ensures IsWhitespace(c) <==>
              c as int in {0x09, 0x0A, 0x0B, 0x0C, 0x0D, 0x20, 0x85, 0xA0, 0x1680, 0x2000, 0x2001, 0x2002, 0x2003,
                           0x2004, 0x2005, 0x2006, 0x2007, 0x2008, 0x2009, 0x200A, 0x2028, 0x2029, 0x202F, 0x205F,
                           0x3000}
  {
  }

  function TrimStart(s: string): string {
    if s != [] && IsWhitespace(s[0]) then TrimStart(s[1..]) else s
  }

  function TrimEnd(s: string): string {
    if s != [] && IsWhitespace(s[|s| - 1]) then TrimEnd(s[..|s| - 1]) else s
  }

  function Trim(s: string): string {
    TrimEnd(TrimStart(s))
  }

  predicate IsBlank(s: string) {
    Trim(s) == []
  }

  function AsciiLowerChar(c: char): char {
    if 'A' <= c <= 'Z' then (c as int + 32) as char else c
  }

  function AsciiLower(s: string): string {
    seq(|s|, i requires 0 <= i < |s| => AsciiLowerChar(s[i]))
  }

  /** `eq_ignore_ascii_case`. */
  predicate EqIgnoreAsciiCase(a: string, b: string) {
    AsciiLower(a) == AsciiLower(b)
  }

  lemma ConcatAssoc<T>(a: seq<T>, b: seq<T>, c: seq<T>)
    ensures (a + b) + c == a + (b + c)
  {
  }

  lemma TakeDrop<T>(a: seq<T>, b: seq<T>)
    ensures (a + b)[..|a|] == a && (a + b)[|a|..] == b
  {
  }

  lemma SplitAt<T>(s: seq<T>, n: nat)
    requires n <= |s|
    ensures s == s[..n] + s[n..]
  {
  }

  /** A text is blank exactly when all its characters are white space. */
  lemma {:induction false} BlankIsAllWhitespace(s: string)
    ensures IsBlank(s) <==> forall i | 0 <= i < |s| :: IsWhitespace(s[i])
  {
    TrimStartEmpty(s);
    TrimEndEmpty(TrimStart(s));
    if TrimStart(s) != [] {
      TrimStartHead(s);
    }
  }

  lemma {:induction false} TrimStartEmpty(s: string)
    ensures TrimStart(s) == [] <==> forall i | 0 <= i < |s| :: IsWhitespace(s[i])
  {
    if s != [] && IsWhitespace(s[0]) {
      TrimStartEmpty(s[1..]);
      assert forall i | 1 <= i < |s| :: s[i] == s[1..][i - 1];
    }
  }

  lemma {:induction false} TrimEndEmpty(s: string)
    ensures TrimEnd(s) == [] <==> forall i | 0 <= i < |s| :: IsWhitespace(s[i])
  {
    if s != [] && IsWhitespace(s[|s| - 1]) {
      TrimEndEmpty(s[..|s| - 1]);
    }
  }

  lemma {:induction false} TrimStartHead(s: string)
    requires TrimStart(s) != []
    ensures !IsWhitespace(TrimStart(s)[0])
  {
    if IsWhitespace(s[0]) {
      TrimStartHead(s[1..]);
    }
  }

  predicate AllWhitespace(s: string) {
    forall i | 0 <= i < |s| :: IsWhitespace(s[i])
  }

  lemma {:induction false} TrimStartPadded(a: string, s: string)
    requires AllWhitespace(a)
    ensures TrimStart(a + s) == TrimStart(s)
  {
    if a == [] {
      assert a + s == s;
    } else {
      TrimStartPadded(a[1..], s);
      assert (a + s)[1..] == a[1..] + s;
    }
  }

  lemma {:induction false} TrimEndPadded(s: string, b: string)
    requires AllWhitespace(b)
    ensures TrimEnd(s + b) == TrimEnd(s)
  {
    if b == [] {
      assert s + b == s;
    } else {
      var n := |b| - 1;
      TrimEndPadded(s, b[..n]);
      assert (s + b)[..|s + b| - 1] == s + b[..n];
    }
  }

  lemma {:induction false} TrimStartBefore(s: string, b: string)
    requires TrimStart(s) != []
    ensures TrimStart(s + b) == TrimStart(s) + b
  {
    if IsWhitespace(s[0]) {
      TrimStartBefore(s[1..], b);
      assert (s + b)[1..] == s[1..] + b;
    }
  }

  /** White space around a text is trimmed away, however much of it. */
  lemma TrimPadded(a: string, s: string, b: string)
    requires AllWhitespace(a) && AllWhitespace(b)
    ensures Trim(a + s + b) == Trim(s)
  {
    ConcatAssoc(a, s, b);
    TrimStartPadded(a, s + b);
    TrimStartEmpty(s);
    if TrimStart(s) == [] {
      TrimStartEmpty(s + b);
    } else {
      TrimStartBefore(s, b);
      TrimEndPadded(TrimStart(s), b);
    }
  }

  /** And nothing else is: a text that neither starts nor ends with white space
      is left as it is. */
  lemma TrimKeeps(s: string)
    requires s != [] ==> !IsWhitespace(s[0]) && !IsWhitespace(s[|s| - 1])
    ensures Trim(s) == s
  {
  }

  /** Case folding takes each capital to the small letter in its place and
      changes no other character. */
  lemma AsciiLowerIs(s: string, i: nat)
    requires i < |s|
    ensures |AsciiLower(s)| == |s|
    ensures 'A' <= s[i] <= 'Z' ==> AsciiLower(s)[i] as int - 'a' as int == s[i] as int - 'A' as int
    ensures !('A' <= s[i] <= 'Z') ==> AsciiLower(s)[i] == s[i]
  {
  }

  function Digit(d: nat): char
    requires d < 10
  {
    ('0' as int + d) as char
  }

  /** Decimal digits, as `format!("{}")` prints an unsigned integer. */
  function Decimal(n: nat): string {
    if n < 10 then [Digit(n)] else Decimal(n / 10) + [Digit(n % 10)]
  }

  predicate IsDigit(c: char) {
    '0' <= c <= '9'
  }

  /** The value of a non-empty run of decimal digits, as `str::parse` reads it. */
  function ParseDecimal(s: string): Option<nat> {
    if s == [] || !IsDigit(s[|s| - 1]) then None
    else
      var d := s[|s| - 1] as int - '0' as int;
      if |s| == 1 then Some(d)
      else
        match ParseDecimal(s[..|s| - 1])
        case None => None
        case Some(n) => Some(n * 10 + d)
  }

  lemma {:induction false} DecimalRoundTrip(n: nat)
    ensures ParseDecimal(Decimal(n)) == Some(n)
    ensures forall i | 0 <= i < |Decimal(n)| :: IsDigit(Decimal(n)[i])
  {
    if n >= 10 {
      DecimalRoundTrip(n / 10);
      assert Decimal(n)[..|Decimal(n)| - 1] == Decimal(n / 10);
    }
  }
}
