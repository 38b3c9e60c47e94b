/** The key space of the shared cache: namespaces and the length-prefixed
    assertion key. */
module CacheKeys {
  import Text
  import Utf8

  datatype Namespace = Decisions | Sessions | DpopJti | DpopNonce | AssertionJti | AssertionNonce

  function Prefix(ns: Namespace): string {
    match ns
    case Decisions => "pep:decision:"
    case Sessions => "session:"
    case DpopJti => "dpop:jti:"
    case DpopNonce => "dpop:nonce:"
    case AssertionJti => "assertion:jti:"
    case AssertionNonce => "assertion:nonce:"
  }

  /** A key as `format!("{namespace}:{id}")` builds it. */
  function Key(ns: Namespace, id: string): string {
    Prefix(ns) + id
  }

  /** The keys as other instances and versions of the server write them. */
  lemma KeyTexts(id: string)
    ensures Key(Decisions, id) == "pep:decision:" + id && Key(Sessions, id) == "session:" + id
    ensures Key(DpopJti, id) == "dpop:jti:" + id && Key(DpopNonce, id) == "dpop:nonce:" + id
    ensures Key(AssertionJti, id) == "assertion:jti:" + id && Key(AssertionNonce, id) == "assertion:nonce:" + id
  {
  }

  /** No namespace prefix is a prefix of another. */
  lemma PrefixFree(a: Namespace, b: Namespace)
    requires a != b
    ensures !(Prefix(a) <= Prefix(b))
  {
    var k := if {a, b} == {DpopJti, DpopNonce} then 5
             else if {a, b} == {AssertionJti, AssertionNonce} then 10
             else 0;
    assert Prefix(a)[k] != Prefix(b)[k];
  }

  lemma PrefixOfBoth(p: string, q: string, a: string, b: string)
    requires p + a == q + b && |p| <= |q|
    ensures p <= q
  {
    assert (p + a)[..|p|] == p && (q + b)[..|p|] == q[..|p|];
  }

  /** A key determines its namespace and its id. */
  lemma KeyInjective(a: Namespace, x: string, b: Namespace, y: string)
    ensures Key(a, x) == Key(b, y) <==> a == b && x == y
  {
    if Key(a, x) == Key(b, y) {
      if a != b {
        PrefixFree(a, b);
        PrefixFree(b, a);
        if |Prefix(a)| <= |Prefix(b)| {
          PrefixOfBoth(Prefix(a), Prefix(b), x, y);
        } else {
          PrefixOfBoth(Prefix(b), Prefix(a), y, x);
        }
      } else {
        assert Key(a, x)[|Prefix(a)|..] == x && Key(b, y)[|Prefix(a)|..] == y;
      }
    }
  }

  // ----- The assertion key ----------------------------------------------

  /** A part with its octet count in front. */
  function Counted(part: string): string {
    Text.Decimal(Utf8.ByteLen(part)) + ":" + part
  }

  /** `assertion_replay_key`. */
  function AssertionReplayKey(protocol: string, clientId: string, jti: string): string {
    "assertion:" + Counted(protocol) + ":" + Counted(clientId) + ":" + Counted(jti)
  }

  /** Two digit runs that end at the first colon of the same text are equal. */
  lemma {:induction false} SameDigits(a: string, b: string, s: string, t: string)
    requires a + ":" + s == b + ":" + t
    requires forall i | 0 <= i < |a| :: Text.IsDigit(a[i])
    requires forall i | 0 <= i < |b| :: Text.IsDigit(b[i])
    ensures a == b && s == t
  {
    var u, v := a + ":" + s, b + ":" + t;
    assert forall i | 0 <= i < |a| :: u[i] == a[i] && u[i] != ':';
    assert forall i | 0 <= i < |b| :: v[i] == b[i] && v[i] != ':';
    assert u[|a|] == ':' && v[|b|] == ':';
    assert |a| == |b|;
    assert u[..|a|] == a && v[..|a|] == b;
    assert u[|a| + 1..] == s && v[|a| + 1..] == t;
  }

  /** Texts of the same octet count in front of the same text are equal. */
  lemma SameOctets(p: string, q: string, s: string, t: string)
    requires p + s == q + t && Utf8.ByteLen(p) == Utf8.ByteLen(q) && |p| <= |q|
    ensures p == q && s == t
  {
    var r := q[|p|..];
    assert p + s == q + t ==> (p + s)[..|p|] == (q + t)[..|p|];
    assert q == p + r by {
      assert (p + s)[..|p|] == p && (q + t)[..|p|] == q[..|p|];
    }
    Utf8.EncodeAppend(p, r);
    assert r != [] ==> |Utf8.Encode(r)| >= 1;
    assert (p + s)[|p|..] == s && (q + t)[|p|..] == t;
  }

  lemma CountedInjective(p: string, q: string, s: string, t: string)
    requires Counted(p) + s == Counted(q) + t
    ensures p == q && s == t
  {
    var a, b := Text.Decimal(Utf8.ByteLen(p)), Text.Decimal(Utf8.ByteLen(q));
    Text.DecimalRoundTrip(Utf8.ByteLen(p));
    Text.DecimalRoundTrip(Utf8.ByteLen(q));
    assert Counted(p) + s == a + ":" + (p + s);
    assert Counted(q) + t == b + ":" + (q + t);
    SameDigits(a, b, p + s, q + t);
    if |p| <= |q| {
      SameOctets(p, q, s, t);
    } else {
      SameOctets(q, p, t, s);
    }
  }

  lemma StripFront(c: string, s: string, t: string)
    requires c + s == c + t
    ensures s == t
  {
    assert (c + s)[|c|..] == s && (c + t)[|c|..] == t;
  }

  lemma AssertionKeyShape(p: string, c: string, j: string)
    ensures AssertionReplayKey(p, c, j)
         == "assertion:" + (Counted(p) + (":" + (Counted(c) + (":" + (Counted(j) + "")))))
  {
    var a, x, y, z, k := "assertion:", Counted(p), Counted(c), Counted(j), ":";
    calc {
      a + x + k + y + k + z;
      { Text.ConcatAssoc(a + x + k + y, k, z); }
      (a + x + k + y) + (k + z);
      { Text.ConcatAssoc(a + x + k, y, k + z); }
      (a + x + k) + (y + (k + z));
      { Text.ConcatAssoc(a + x, k, y + (k + z)); }
      (a + x) + (k + (y + (k + z)));
      { Text.ConcatAssoc(a, x, k + (y + (k + z))); }
      a + (x + (k + (y + (k + z))));
      { assert z + "" == z; }
      a + (x + (k + (y + (k + (z + "")))));
    }
  }

  /** The assertion key determines protocol, client and token id, whatever
      separators or characters they contain. */
  lemma AssertionKeyInjective(p: string, c: string, j: string, p': string, c': string, j': string)
    requires AssertionReplayKey(p, c, j) == AssertionReplayKey(p', c', j')
    ensures p == p' && c == c' && j == j'
  {
    AssertionKeyShape(p, c, j);
    AssertionKeyShape(p', c', j');
    var z, z' := ":" + (Counted(j) + ""), ":" + (Counted(j') + "");
    var y, y' := ":" + (Counted(c) + z), ":" + (Counted(c') + z');
    StripFront("assertion:", Counted(p) + y, Counted(p') + y');
    CountedInjective(p, p', y, y');
    StripFront(":", Counted(c) + z, Counted(c') + z');
    CountedInjective(c, c', z, z');
    StripFront(":", Counted(j) + "", Counted(j') + "");
    CountedInjective(j, j', "", "");
  }
}
