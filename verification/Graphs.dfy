/** Directed graphs as maps from nodes to successor sets, and reachability. */
module Graphs {

  predicate IsPath<T(==)>(g: map<T, set<T>>, p: seq<T>) {
    |p| >= 1 && forall i | 0 <= i < |p| - 1 :: p[i] in g && p[i + 1] in g[p[i]]
  }

  predicate Connects<T(==)>(g: map<T, set<T>>, p: seq<T>, a: T, b: T) {
    IsPath(g, p) && p[0] == a && p[|p| - 1] == b
  }

  ghost predicate Reaches<T(!new)>(g: map<T, set<T>>, a: T, b: T) {
    exists p :: Connects(g, p, a, b)
  }

  lemma ReachesSelf<T(!new)>(g: map<T, set<T>>, a: T)
    ensures Reaches(g, a, a)
  {
    assert Connects(g, [a], a, a);
  }

  lemma ReachesNext<T(!new)>(g: map<T, set<T>>, a: T, b: T, c: T)
    requires Reaches(g, a, b) && b in g && c in g[b]
    ensures Reaches(g, a, c)
  {
    var p :| Connects(g, p, a, b);
    var q := p + [c];
    forall i | 0 <= i < |q| - 1 ensures q[i] in g && q[i + 1] in g[q[i]] {
      if i < |p| - 1 {
        assert q[i] == p[i] && q[i + 1] == p[i + 1];
      }
    }
    assert Connects(g, q, a, c);
  }

  lemma {:induction false} PathStaysIn<T>(g: map<T, set<T>>, s: set<T>, p: seq<T>, i: nat)
    requires IsPath(g, p) && i < |p| && p[0] in s
    requires forall x | x in s && x in g :: g[x] <= s
    ensures p[i] in s
  {
    if i > 0 {
      PathStaysIn(g, s, p, i - 1);
    }
  }

  /** A set closed under successors holds everything its members reach. */
  lemma ClosedHoldsReachable<T(!new)>(g: map<T, set<T>>, s: set<T>, a: T, b: T)
    requires a in s && Reaches(g, a, b)
    requires forall x | x in s && x in g :: g[x] <= s
    ensures b in s
  {
    var p :| Connects(g, p, a, b);
    PathStaysIn(g, s, p, |p| - 1);
  }

  lemma ReachesTransitive<T(!new)>(g: map<T, set<T>>, a: T, b: T, c: T)
    requires Reaches(g, a, b) && Reaches(g, b, c)
    ensures Reaches(g, a, c)
  {
    var p :| Connects(g, p, a, b);
    var q :| Connects(g, q, b, c);
    var r := p + q[1..];
    forall i | 0 <= i < |r| - 1 ensures r[i] in g && r[i + 1] in g[r[i]] {
      if i < |p| - 1 {
        assert r[i] == p[i] && r[i + 1] == p[i + 1];
      } else {
        var k := i - (|p| - 1);
        assert r[i] == q[k] && r[i + 1] == q[k + 1];
      }
    }
    assert Connects(g, r, a, c);
  }
}
