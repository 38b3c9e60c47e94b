/** Signing keys of a realm and their rotation. */
module Keyring {
  import opened Numbers
  import opened Wrappers

  const SECONDS_PER_DAY: nat := 86400

  /** A key pair; both halves are opaque. */
  datatype Key = Key(secret: nat, public: nat)

  datatype Jwk = Jwk(kid: string, public: nat)

  datatype Ring = Ring(
    active: string,
    next: Option<string>,
    previous: seq<string>,
    maxAgeDays: nat,
    signers: map<string, Key>,
    jwks: seq<Jwk>,
    createdAt: map<string, nat>)

  function Empty(maxAgeDays: nat): Ring {
    Ring("", None, [], maxAgeDays, map[], [], map[])
  }

  // ----- What the operations do -----------------------------------------

  function Insert(r: Ring, kid: string, key: Key, now: nat): Ring {
    r.(createdAt := r.createdAt[kid := now], signers := r.signers[kid := key], jwks := r.jwks + [Jwk(kid, key.public)])
  }

  function Cutoff(maxAgeDays: nat, now: nat): nat {
    SaturatingSub(now, maxAgeDays * SECONDS_PER_DAY)
  }

  /** Previous kids that are not known to be too old. */
  function KeepPrevious(previous: seq<string>, createdAt: map<string, nat>, cutoff: nat): (s: seq<string>)
    ensures forall kid :: kid in s <==> kid in previous && (kid in createdAt ==> createdAt[kid] > cutoff)
  {
    if previous == [] then []
    else
      var kid := previous[0];
      (if kid in createdAt && createdAt[kid] <= cutoff then [] else [kid]) +
      KeepPrevious(previous[1..], createdAt, cutoff)
  }

  function KeepJwks(jwks: seq<Jwk>, kids: set<string>): seq<Jwk> {
    if jwks == [] then []
    else (if jwks[0].kid in kids then [jwks[0]] else []) + KeepJwks(jwks[1..], kids)
  }

  /** The kids the ring refers to. */
  function Referenced(r: Ring): set<string> {
    (set kid | kid in r.previous) + {r.active} + (if r.next.Some? then {r.next.value} else {})
  }

  function Prune(r: Ring, now: nat): Ring {
    var kept := r.(previous := KeepPrevious(r.previous, r.createdAt, Cutoff(r.maxAgeDays, now)));
    var retained := Referenced(kept);
    kept.(signers := map kid | kid in r.signers && kid in retained :: r.signers[kid],
          jwks := KeepJwks(r.jwks, retained),
          createdAt := map kid | kid in r.createdAt && kid in retained :: r.createdAt[kid])
  }

  function Promote(r: Ring): Ring {
    var pushed := if r.active != "" then r.(previous := [r.active] + r.previous) else r;
    if r.next.Some? then pushed.(active := r.next.value, next := None) else pushed
  }

  function Rotate(r: Ring, now: nat): Ring {
    Prune(Promote(r), now)
  }

  function DecodingSigner(r: Ring, kid: string): Option<Key> {
    if kid in Referenced(r) && kid in r.signers then Some(r.signers[kid]) else None
  }

  function Kids(jwks: seq<Jwk>): set<string> {
    set j | j in jwks :: j.kid
  }

  /** The first JWK of each kid. */
  function FirstPerKid(jwks: seq<Jwk>): seq<Jwk> {
    if jwks == [] then []
    else
      var rest := FirstPerKid(jwks[..|jwks| - 1]);
      var last := jwks[|jwks| - 1];
      if last.kid in Kids(rest) then rest else rest + [last]
  }

  function Published(r: Ring): seq<Jwk> {
    FirstPerKid(KeepJwks(r.jwks, Referenced(r)))
  }

  // ----- The implementation ---------------------------------------------

  class Keyring {
    var activeKid: string
    var nextKid: Option<string>
    var previousKids: seq<string>
    const maxAgeDays: nat
    var signers: map<string, Key>
    var jwks: seq<Jwk>
    var keyCreatedAt: map<string, nat>

    function Contents(): Ring
      reads this
    {
      Ring(activeKid, nextKid, previousKids, maxAgeDays, signers, jwks, keyCreatedAt)
    }

    constructor WithRotation(maxAgeDays: nat)
      ensures Contents() == Empty(maxAgeDays)
    {
      this.maxAgeDays := maxAgeDays;
      activeKid, nextKid, previousKids := "", None, [];
      signers, jwks, keyCreatedAt := map[], [], map[];
    }

    /** `parsed` is the key pair the PEM text holds, if it is one. */
    method InsertKey(kid: string, parsed: Option<Key>, now: nat) returns (ok: bool)
      modifies this
      ensures ok == parsed.Some?
      ensures Contents() == if ok then Insert(old(Contents()), kid, parsed.value, now) else old(Contents())
    {
      if parsed.None? {
        return false;
      }
      keyCreatedAt := keyCreatedAt[kid := now];
      signers := signers[kid := parsed.value];
      jwks := jwks + [Jwk(kid, parsed.value.public)];
      return true;
    }

    method LoadActive(kid: string, parsed: Option<Key>, now: nat) returns (ok: bool)
      modifies this
      ensures ok == parsed.Some?
      ensures Contents()
           == if ok then After(old(Contents()), LoadActiveKey(kid, parsed.value), now) else old(Contents())
    {
      ok := InsertKey(kid, parsed, now);
      if ok {
        activeKid := kid;
      }
    }

    method LoadNext(kid: string, parsed: Option<Key>, now: nat) returns (ok: bool)
      modifies this
      ensures ok == parsed.Some?
      ensures Contents() == if ok then After(old(Contents()), LoadNextKey(kid, parsed.value), now) else old(Contents())
    {
      ok := InsertKey(kid, parsed, now);
      if ok {
        nextKid := Some(kid);
      }
    }

    method SetNextKid(kid: string)
      modifies this
      ensures Contents() == old(Contents()).(next := Some(kid))
    {
      nextKid := Some(kid);
    }

    method DoRotate(now: nat)
      modifies this
      ensures Contents() == Rotate(old(Contents()), now)
    {
      if activeKid != "" {
        previousKids := [activeKid] + previousKids;
      }
      if nextKid.Some? {
        activeKid, nextKid := nextKid.value, None;
      }
      DoPrune(now);
    }

    method DoPrune(now: nat)
      modifies this
      ensures Contents() == Prune(old(Contents()), now)
    {
      var cutoff := Cutoff(maxAgeDays, now);
      previousKids := KeepPrevious(previousKids, keyCreatedAt, cutoff);
      var retained := Referenced(Contents());
      signers := map kid | kid in signers && kid in retained :: signers[kid];
      jwks := KeepJwks(jwks, retained);
      keyCreatedAt := map kid | kid in keyCreatedAt && kid in retained :: keyCreatedAt[kid];
    }

    method FindDecodingSigner(kid: string) returns (r: Option<Key>)
      ensures r == DecodingSigner(Contents(), kid)
    {
      if kid == activeKid || nextKid == Some(kid) || kid in previousKids {
        return if kid in signers then Some(signers[kid]) else None;
      }
      return None;
    }

    method PublishedJwks() returns (r: seq<Jwk>)
      ensures r == Published(Contents())
    {
      var keys := [];
      ghost var kids := Referenced(Contents());
      for i := 0 to |jwks|
        invariant keys == KeepJwks(jwks[..i], kids)
      {
        KeepJwksSnoc(jwks[..i], jwks[i], kids);
        assert jwks[..i] + [jwks[i]] == jwks[..i + 1];
        if jwks[i].kid == activeKid || nextKid == Some(jwks[i].kid) || jwks[i].kid in previousKids {
          keys := keys + [jwks[i]];
        }
      }
      assert jwks[..|jwks|] == jwks;
      r := Deduplicate(keys);
    }
  }

  /** Keeps the first JWK of each kid. */
  method Deduplicate(keys: seq<Jwk>) returns (r: seq<Jwk>)
    ensures r == FirstPerKid(keys)
  {
    var seen: set<string> := {};
    r := [];
    for i := 0 to |keys|
      invariant r == FirstPerKid(keys[..i])
      invariant seen == Kids(r)
    {
      assert keys[..i + 1][..i] == keys[..i];
      KidsSnoc(r, keys[i]);
      if keys[i].kid !in seen {
        seen := seen + {keys[i].kid};
        r := r + [keys[i]];
      }
    }
    assert keys[..|keys|] == keys;
  }

  lemma KidsSnoc(jwks: seq<Jwk>, j: Jwk)
    ensures Kids(jwks + [j]) == Kids(jwks) + {j.kid}
  {
    assert j in jwks + [j];
    assert forall k | k in jwks :: k in jwks + [j];
  }

  lemma {:induction false} KeptJwk(jwks: seq<Jwk>, kids: set<string>, j: Jwk)
    ensures j in KeepJwks(jwks, kids) <==> j in jwks && j.kid in kids
  {
    if jwks != [] {
      KeptJwk(jwks[1..], kids, j);
      assert j in jwks <==> j == jwks[0] || j in jwks[1..];
    }
  }

  lemma {:induction false} KeepJwksSnoc(a: seq<Jwk>, j: Jwk, kids: set<string>)
    ensures KeepJwks(a + [j], kids) == KeepJwks(a, kids) + (if j.kid in kids then [j] else [])
  {
    if a == [] {
      assert a + [j] == [j];
    } else {
      assert (a + [j])[1..] == a[1..] + [j];
      KeepJwksSnoc(a[1..], j, kids);
    }
  }

  // ----- Published keys are the decodable ones --------------------------

  /** Signers, creation times and JWKs cover the same kids. */
  ghost predicate Aligned(r: Ring) {
    && r.signers.Keys == r.createdAt.Keys
    && (forall j | j in r.jwks :: j.kid in r.signers)
    && (forall kid | kid in r.signers :: Covers(r.jwks, kid))
  }

  ghost predicate Covers(jwks: seq<Jwk>, kid: string) {
    exists j :: j in jwks && j.kid == kid
  }

  ghost predicate NoRepeats(jwks: seq<Jwk>) {
    forall i, k | 0 <= i < k < |jwks| :: jwks[i].kid != jwks[k].kid
  }

  lemma {:induction false} FirstPerKidFacts(jwks: seq<Jwk>)
    ensures NoRepeats(FirstPerKid(jwks))
    ensures forall j | j in FirstPerKid(jwks) :: j in jwks
    ensures forall j | j in jwks :: Covers(FirstPerKid(jwks), j.kid)
  {
    if jwks != [] {
      var n := |jwks| - 1;
      FirstPerKidFacts(jwks[..n]);
      var rest := FirstPerKid(jwks[..n]);
      assert forall j | j in jwks :: j in jwks[..n] || j == jwks[n];
      if !Covers(rest, jwks[n].kid) {
        assert FirstPerKid(jwks) == rest + [jwks[n]];
        assert forall j | j in rest :: j in FirstPerKid(jwks);
        assert jwks[n] in FirstPerKid(jwks);
      }
    }
  }

  /** `jwks()` lists, without duplicates, exactly the kids that decode. */
  lemma PublishedIffDecodable(r: Ring, kid: string)
    requires Aligned(r)
    ensures NoRepeats(Published(r))
    ensures Covers(Published(r), kid) <==> DecodingSigner(r, kid).Some?
  {
    var shown := KeepJwks(r.jwks, Referenced(r));
    FirstPerKidFacts(shown);
    if DecodingSigner(r, kid).Some? {
      assert Covers(r.jwks, kid);
      var j :| j in r.jwks && j.kid == kid;
      KeptJwk(r.jwks, Referenced(r), j);
    }
    if Covers(Published(r), kid) {
      var j :| j in Published(r) && j.kid == kid;
      KeptJwk(r.jwks, Referenced(r), j);
    }
  }

  // ----- Runs -----------------------------------------------------------

  datatype Step =
    | LoadActiveKey(kid: string, key: Key)
    | LoadNextKey(kid: string, key: Key)
    | SetNext(kid: string)
    | RotateKeys
    | PruneKeys

  function After(r: Ring, step: Step, now: nat): Ring {
    match step
    case LoadActiveKey(kid, key) => Insert(r, kid, key, now).(active := kid)
    case LoadNextKey(kid, key) => Insert(r, kid, key, now).(next := Some(kid))
    case SetNext(kid) => r.(next := Some(kid))
    case RotateKeys => Rotate(r, now)
    case PruneKeys => Prune(r, now)
  }

  ghost predicate StepAt(states: seq<Ring>, steps: seq<Step>, times: seq<nat>, i: nat)
    requires i < |steps| == |times| && |states| == |steps| + 1
  {
    states[i + 1] == After(states[i], steps[i], times[i])
  }

  ghost predicate IsRun(states: seq<Ring>, steps: seq<Step>, times: seq<nat>) {
    && |steps| == |times| && |states| == |steps| + 1
    && (forall i | 0 <= i < |steps| :: StepAt(states, steps, times, i))
    && (forall i, k | 0 <= i <= k < |times| :: times[i] <= times[k])
  }

  lemma InsertKeepsAligned(r: Ring, kid: string, key: Key, now: nat)
    requires Aligned(r)
    ensures Aligned(Insert(r, kid, key, now))
  {
    var s := Insert(r, kid, key, now);
    assert forall j | j in r.jwks :: j in s.jwks;
    assert Jwk(kid, key.public) in s.jwks;
    forall k | k in s.signers
      ensures Covers(s.jwks, k)
    {
      assert k == kid || Covers(r.jwks, k);
    }
  }

  lemma PruneKeepsAligned(r: Ring, now: nat)
    requires Aligned(r)
    ensures Aligned(Prune(r, now))
  {
    var s := Prune(r, now);
    forall k | k in s.signers
      ensures Covers(s.jwks, k)
    {
      assert Covers(r.jwks, k);
      var j :| j in r.jwks && j.kid == k;
      KeptJwk(r.jwks, Referenced(s), j);
    }
    forall j | j in s.jwks
      ensures j.kid in s.signers
    {
      KeptJwk(r.jwks, Referenced(s), j);
    }
  }

  lemma StepKeepsAligned(r: Ring, step: Step, now: nat)
    requires Aligned(r)
    ensures Aligned(After(r, step, now))
  {
    match step
    case LoadActiveKey(kid, key) => InsertKeepsAligned(r, kid, key, now);
    case LoadNextKey(kid, key) => InsertKeepsAligned(r, kid, key, now);
    case SetNext(kid) =>
    case RotateKeys => PruneKeepsAligned(Promote(r), now);
    case PruneKeys => PruneKeepsAligned(r, now);
  }

  /** In every state of every run from a new ring, kids stay covered and the
      published kids are exactly the decodable ones. */
  lemma {:induction false} ReachableAligned(states: seq<Ring>, steps: seq<Step>, times: seq<nat>, i: nat)
    requires IsRun(states, steps, times) && states[0] == Empty(states[0].maxAgeDays) && i < |states|
    ensures Aligned(states[i])
    ensures forall kid :: Covers(Published(states[i]), kid) <==> DecodingSigner(states[i], kid).Some?
    ensures NoRepeats(Published(states[i]))
  {
    if i > 0 {
      ReachableAligned(states, steps, times, i - 1);
      assert StepAt(states, steps, times, i - 1);
      StepKeepsAligned(states[i - 1], steps[i - 1], times[i - 1]);
    }
    forall kid
      ensures Covers(Published(states[i]), kid) <==> DecodingSigner(states[i], kid).Some?
    {
      PublishedIffDecodable(states[i], kid);
    }
    PublishedIffDecodable(states[i], "");
  }
}
