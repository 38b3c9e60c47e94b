/** How long a signing key stays usable over a run of rotations. */
module KeyRotation {
  import opened Wrappers
  import opened Keyring

  /** Every stored JWK is the public half of its kid's signer. */
  ghost predicate OwnJwks(r: Ring) {
    forall j | j in r.jwks :: j.kid in r.signers && j.public == r.signers[j.kid].public
  }

  /** Loads use kids that are not in the ring, and a key is loaded as the active
      one only when there is none. */
  predicate Gentle(r: Ring, step: Step) {
    match step
    case LoadActiveKey(kid, _) => kid !in r.signers && r.active == ""
    case LoadNextKey(kid, _) => kid !in r.signers
    case _ => true
  }

  ghost predicate GentleAt(states: seq<Ring>, steps: seq<Step>, i: nat)
    requires i < |steps| < |states|
  {
    Gentle(states[i], steps[i])
  }

  ghost predicate IsGentleRun(states: seq<Ring>, steps: seq<Step>, times: seq<nat>) {
    && IsRun(states, steps, times) && states[0] == Empty(states[0].maxAgeDays)
    && forall i | 0 <= i < |steps| :: GentleAt(states, steps, i)
  }

  /** A key created at `ts` has not reached the maximum age at `now`. */
  predicate Young(ts: nat, maxAgeDays: nat, now: nat) {
    ts > Cutoff(maxAgeDays, now)
  }

  lemma YoungIff(ts: nat, maxAgeDays: nat, now: nat)
    ensures Young(ts, maxAgeDays, now) <==> ts > 0 && now < ts + maxAgeDays * 86_400
  {
  }

  // ----- One step -------------------------------------------------------

  /** The key is or was active and is still in the ring. */
  ghost predicate Held(r: Ring, kid: string, key: Key, ts: nat) {
    && kid != "" && (kid == r.active || kid in r.previous)
    && kid in r.signers && r.signers[kid] == key
    && kid in r.createdAt && r.createdAt[kid] == ts
  }

  lemma PruneKeepsHeld(r: Ring, now: nat, kid: string, key: Key, ts: nat)
    requires Held(r, kid, key, ts) && Young(ts, r.maxAgeDays, now)
    ensures Held(Prune(r, now), kid, key, ts)
  {
  }

  lemma StepKeepsHeld(r: Ring, step: Step, now: nat, kid: string, key: Key, ts: nat)
    requires Held(r, kid, key, ts) && Gentle(r, step) && Young(ts, r.maxAgeDays, now)
    ensures Held(After(r, step, now), kid, key, ts)
  {
    match step
    case RotateKeys => PruneKeepsHeld(Promote(r), now, kid, key, ts);
    case PruneKeys => PruneKeepsHeld(r, now, kid, key, ts);
    case _ =>
  }

  lemma PruneKeepsOwnJwks(r: Ring, now: nat)
    requires OwnJwks(r)
    ensures OwnJwks(Prune(r, now))
  {
    var s := Prune(r, now);
    forall j | j in s.jwks
      ensures j.kid in s.signers && j.public == s.signers[j.kid].public
    {
      KeptJwk(r.jwks, Referenced(s), j);
    }
  }

  lemma StepKeepsOwnJwks(r: Ring, step: Step, now: nat)
    requires OwnJwks(r) && Gentle(r, step)
    ensures OwnJwks(After(r, step, now))
  {
    match step
    case RotateKeys => PruneKeepsOwnJwks(Promote(r), now);
    case PruneKeys => PruneKeepsOwnJwks(r, now);
    case _ =>
  }

  // ----- Whole runs -----------------------------------------------------

  lemma {:induction false} ReachableOwnJwks(states: seq<Ring>, steps: seq<Step>, times: seq<nat>, i: nat)
    requires IsGentleRun(states, steps, times) && i < |states|
    ensures OwnJwks(states[i]) && states[i].maxAgeDays == states[0].maxAgeDays
  {
    if i > 0 {
      ReachableOwnJwks(states, steps, times, i - 1);
      assert StepAt(states, steps, times, i - 1) && GentleAt(states, steps, i - 1);
      StepKeepsOwnJwks(states[i - 1], steps[i - 1], times[i - 1]);
    }
  }

  lemma {:induction false} HeldOverRun(states: seq<Ring>, steps: seq<Step>, times: seq<nat>, i: nat, k: nat,
                                       kid: string, key: Key, ts: nat)
    requires IsGentleRun(states, steps, times) && i <= k < |states|
    requires Held(states[i], kid, key, ts)
    requires i < k ==> Young(ts, states[0].maxAgeDays, times[k - 1])
    ensures Held(states[k], kid, key, ts)
    decreases k
  {
    if i < k {
      if i < k - 1 {
        assert times[k - 2] <= times[k - 1];
      }
      HeldOverRun(states, steps, times, i, k - 1, kid, key, ts);
      ReachableOwnJwks(states, steps, times, k - 1);
      assert StepAt(states, steps, times, k - 1) && GentleAt(states, steps, k - 1);
      StepKeepsHeld(states[k - 1], steps[k - 1], times[k - 1], kid, key, ts);
    }
  }

  /** The published entry of a decodable key is its own public half. */
  lemma PublishesOwnJwk(r: Ring, kid: string)
    requires Aligned(r) && OwnJwks(r) && DecodingSigner(r, kid).Some?
    ensures Jwk(kid, r.signers[kid].public) in Published(r)
    ensures forall j | j in Published(r) && j.kid == kid :: j.public == r.signers[kid].public
  {
    PublishedIffDecodable(r, kid);
    FirstPerKidFacts(KeepJwks(r.jwks, Referenced(r)));
    forall j | j in Published(r) && j.kid == kid
      ensures j == Jwk(kid, r.signers[kid].public)
    {
      KeptJwk(r.jwks, Referenced(r), j);
    }
  }

  /** A key that was active under a non-empty kid stays decodable, with its own
      JWK published, for as long as it is younger than the maximum age and was
      not created in the first second of the epoch. */
  lemma OnceActiveStaysDecodable(states: seq<Ring>, steps: seq<Step>, times: seq<nat>, i: nat, k: nat, kid: string)
    requires IsGentleRun(states, steps, times) && i <= k < |states|
    requires kid == states[i].active && kid != "" && kid in states[i].signers
    requires kid in states[i].createdAt && i < k ==>
               0 < states[i].createdAt[kid] &&
               times[k - 1] < states[i].createdAt[kid] + states[0].maxAgeDays * 86_400
    ensures DecodingSigner(states[k], kid) == Some(states[i].signers[kid])
    ensures Jwk(kid, states[i].signers[kid].public) in Published(states[k])
    ensures forall j | j in Published(states[k]) && j.kid == kid :: j.public == states[i].signers[kid].public
  {
    ReachableAligned(states, steps, times, i);
    if i < k {
      YoungIff(states[i].createdAt[kid], states[0].maxAgeDays, times[k - 1]);
    }
    HeldOverRun(states, steps, times, i, k, kid, states[i].signers[kid], states[i].createdAt[kid]);
    ReachableAligned(states, steps, times, k);
    ReachableOwnJwks(states, steps, times, k);
    PublishesOwnJwk(states[k], kid);
  }

  /** Pruning drops a key past the maximum age that is neither active nor next. */
  lemma OldKeyIsDropped(r: Ring, now: nat, kid: string)
    requires kid in r.createdAt && kid != r.active && r.next != Some(kid)
    requires !Young(r.createdAt[kid], r.maxAgeDays, now)
    ensures DecodingSigner(Prune(r, now), kid).None? && kid !in Prune(r, now).signers
    ensures !Covers(Published(Prune(r, now)), kid)
  {
    var s := Prune(r, now);
    FirstPerKidFacts(KeepJwks(s.jwks, Referenced(s)));
    if Covers(Published(s), kid) {
      var j :| j in Published(s) && j.kid == kid;
      KeptJwk(s.jwks, Referenced(s), j);
      assert false;
    }
  }

  // ----- What the conditions exclude ------------------------------------

  predicate NotTooOld(r: Ring, kid: string, now: nat) {
    kid in r.createdAt ==> Young(r.createdAt[kid], r.maxAgeDays, now)
  }

  function Successor(r: Ring): string {
    if r.next.Some? then r.next.value else r.active
  }

  /** When a step leaves a key decodable under its kid. */
  predicate Keeps(r: Ring, step: Step, now: nat, kid: string, key: Key) {
    match step
    case LoadActiveKey(k, loaded) => if k == kid then loaded == key else kid in r.previous || r.next == Some(kid)
    case LoadNextKey(k, loaded) => if k == kid then loaded == key else kid == r.active || kid in r.previous
    case SetNext(k) => k == kid || kid == r.active || kid in r.previous
    case RotateKeys =>
      || kid == Successor(r)
      || ((kid in r.previous || (kid == r.active && kid != "")) && NotTooOld(r, kid, now))
    case PruneKeys => kid == r.active || r.next == Some(kid) || (kid in r.previous && NotTooOld(r, kid, now))
  }

  /** For every ring and every step: a decodable key stays decodable under its kid
      exactly when the step keeps it. */
  lemma StepKeepsKeyIff(r: Ring, step: Step, now: nat, kid: string, key: Key)
    requires DecodingSigner(r, kid) == Some(key)
    ensures DecodingSigner(After(r, step, now), kid) == Some(key) <==> Keeps(r, step, now, kid, key)
  {
  }

  ghost predicate KeepsAt(states: seq<Ring>, steps: seq<Step>, times: seq<nat>, i: nat, kid: string, key: Key)
    requires i < |steps| == |times| < |states|
  {
    Keeps(states[i], steps[i], times[i], kid, key)
  }

  ghost predicate DecodesThrough(states: seq<Ring>, i: nat, k: nat, kid: string, key: Key)
    requires i <= k < |states|
  {
    forall j | i <= j <= k :: DecodingSigner(states[j], kid) == Some(key)
  }

  /** Over every run, whatever is loaded, a key decodes throughout exactly when
      every step keeps it. */
  lemma {:induction false} DecodesThroughIff(states: seq<Ring>, steps: seq<Step>, times: seq<nat>, i: nat, k: nat,
                                             kid: string, key: Key)
    requires IsRun(states, steps, times) && i <= k < |states| && DecodingSigner(states[i], kid) == Some(key)
    ensures DecodesThrough(states, i, k, kid, key) <==>
              forall j | i <= j < k :: KeepsAt(states, steps, times, j, kid, key)
    decreases k
  {
    if i < k {
      DecodesThroughIff(states, steps, times, i, k - 1, kid, key);
      assert StepAt(states, steps, times, k - 1);
      if DecodesThrough(states, i, k - 1, kid, key) {
        StepKeepsKeyIff(states[k - 1], steps[k - 1], times[k - 1], kid, key);
        assert KeepsAt(states, steps, times, k - 1, kid, key) <==> DecodingSigner(states[k], kid) == Some(key);
      }
    }
  }

  /** Rotation keeps a young active key unless its kid is empty and it is
      replaced by another. */
  lemma RotateKeepsActiveIff(r: Ring, now: nat)
    requires Aligned(r) && r.active in r.signers && Young(r.createdAt[r.active], r.maxAgeDays, now)
    ensures DecodingSigner(Rotate(r, now), r.active) == Some(r.signers[r.active]) <==>
              r.active != "" || r.next.None? || r.next == Some("") || "" in r.previous
  {
    StepKeepsKeyIff(r, RotateKeys, now, r.active, r.signers[r.active]);
  }

  /** Loading a key as the active one keeps the old one exactly when it is loaded
      again under its kid, or another kid is loaded and the old one is also
      previous or next. */
  lemma LoadActiveKeepsOldIff(r: Ring, kid: string, key: Key, now: nat)
    requires r.active in r.signers
    ensures DecodingSigner(After(r, LoadActiveKey(kid, key), now), r.active) == Some(r.signers[r.active]) <==>
              if kid == r.active then key == r.signers[kid] else r.active in r.previous || r.next == Some(r.active)
  {
    StepKeepsKeyIff(r, LoadActiveKey(kid, key), now, r.active, r.signers[r.active]);
  }

  /** A step that loads a key under a kid. */
  predicate Loads(step: Step, kid: string, key: Key) {
    step == LoadActiveKey(kid, key) || step == LoadNextKey(kid, key)
  }

  /** The public half of the first stored JWK of a kid. */
  function FirstPublic(jwks: seq<Jwk>, kid: string): Option<nat> {
    if jwks == [] then None
    else if jwks[0].kid == kid then Some(jwks[0].public)
    else FirstPublic(jwks[1..], kid)
  }

  lemma {:induction false} FirstPublicSnoc(jwks: seq<Jwk>, j: Jwk, kid: string)
    ensures FirstPublic(jwks + [j], kid)
         == if FirstPublic(jwks, kid).Some? || j.kid != kid then FirstPublic(jwks, kid) else Some(j.public)
  {
    if jwks == [] {
      assert jwks + [j] == [j];
    } else {
      assert (jwks + [j])[1..] == jwks[1..] + [j];
      FirstPublicSnoc(jwks[1..], j, kid);
    }
  }

  lemma {:induction false} FirstPublicKept(jwks: seq<Jwk>, kids: set<string>, kid: string)
    requires kid in kids
    ensures FirstPublic(KeepJwks(jwks, kids), kid) == FirstPublic(jwks, kid)
  {
    if jwks != [] {
      var rest := KeepJwks(jwks[1..], kids);
      FirstPublicKept(jwks[1..], kids, kid);
      assert [] + rest == rest && ([jwks[0]] + rest)[1..] == rest;
    }
  }

  /** Deduplication keeps exactly the first JWK of each kid. */
  lemma {:induction false} FirstPerKidIff(jwks: seq<Jwk>, j: Jwk)
    ensures j in FirstPerKid(jwks) <==> FirstPublic(jwks, j.kid) == Some(j.public)
    ensures j.kid in Kids(FirstPerKid(jwks)) <==> FirstPublic(jwks, j.kid).Some?
  {
    if jwks != [] {
      var n := |jwks| - 1;
      var last := jwks[n];
      assert jwks == jwks[..n] + [last];
      FirstPublicSnoc(jwks[..n], last, j.kid);
      FirstPerKidIff(jwks[..n], j);
      FirstPerKidIff(jwks[..n], last);
      KidsSnoc(FirstPerKid(jwks[..n]), last);
    }
  }

  /** A loaded key is the one its kid decodes with, and its JWK is the published
      one exactly when no JWK of another public half was stored first. */
  lemma LoadPublishesIff(r: Ring, step: Step, kid: string, key: Key, now: nat)
    requires Loads(step, kid, key)
    ensures DecodingSigner(After(r, step, now), kid) == Some(key)
    ensures Jwk(kid, key.public) in Published(After(r, step, now)) <==>
              FirstPublic(r.jwks, kid) == None || FirstPublic(r.jwks, kid) == Some(key.public)
  {
    var s := After(r, step, now);
    FirstPublicSnoc(r.jwks, Jwk(kid, key.public), kid);
    FirstPublicKept(s.jwks, Referenced(s), kid);
    FirstPerKidIff(KeepJwks(s.jwks, Referenced(s)), Jwk(kid, key.public));
  }

  // ----- Each happens in a run from a new ring --------------------------

  /** The states a ring goes through. */
  function StatesOf(r: Ring, steps: seq<Step>, times: seq<nat>): (states: seq<Ring>)
    requires |steps| == |times|
    ensures |states| == |steps| + 1 && states[0] == r
    decreases |steps|
  {
    if steps == [] then [r] else [r] + StatesOf(After(r, steps[0], times[0]), steps[1..], times[1..])
  }

  lemma {:induction false} StatesOfStep(r: Ring, steps: seq<Step>, times: seq<nat>, i: nat)
    requires |steps| == |times| && i < |steps|
    ensures StepAt(StatesOf(r, steps, times), steps, times, i)
    decreases i
  {
    if i > 0 {
      StatesOfStep(After(r, steps[0], times[0]), steps[1..], times[1..], i - 1);
    }
  }

  /** Any steps at times that do not go back are a run. */
  lemma StatesOfRun(r: Ring, steps: seq<Step>, times: seq<nat>)
    requires |steps| == |times| && forall i, k | 0 <= i <= k < |times| :: times[i] <= times[k]
    ensures IsRun(StatesOf(r, steps, times), steps, times)
  {
    forall i | 0 <= i < |steps|
      ensures StepAt(StatesOf(r, steps, times), steps, times, i)
    {
      StatesOfStep(r, steps, times, i);
    }
  }

  lemma LastOfTwo(r: Ring, steps: seq<Step>, times: seq<nat>)
    requires |steps| == |times| == 2
    ensures StatesOf(r, steps, times)[2] == After(After(r, steps[0], times[0]), steps[1], times[1])
  {
    var r1 := After(r, steps[0], times[0]);
    assert StatesOf(r1, steps[1..], times[1..])[1] == After(r1, steps[1], times[1]);
  }

  lemma LastOfThree(r: Ring, steps: seq<Step>, times: seq<nat>)
    requires |steps| == |times| == 3
    ensures StatesOf(r, steps, times)[3]
         == After(After(After(r, steps[0], times[0]), steps[1], times[1]), steps[2], times[2])
  {
    LastOfTwo(After(r, steps[0], times[0]), steps[1..], times[1..]);
  }

  /** A kid loaded again with another key, once or repeatedly, signs with the new
      key and publishes the old one. */
  lemma ReloadHidesNewKey(maxAgeDays: nat, old': Key, new': Key, now: nat) returns (states: seq<Ring>, steps: seq<Step>)
    requires old'.public != new'.public
    ensures IsRun(states, steps, [now, now, now]) && states[0] == Empty(maxAgeDays)
    ensures steps == [LoadNextKey("a", old'), LoadNextKey("a", new'), LoadNextKey("a", new')]
    ensures DecodingSigner(states[3], "a") == Some(new')
    ensures Jwk("a", new'.public) !in Published(states[3]) && Jwk("a", old'.public) in Published(states[3])
  {
    var times := [now, now, now];
    steps := [LoadNextKey("a", old'), LoadNextKey("a", new'), LoadNextKey("a", new')];
    var r0 := Empty(maxAgeDays);
    states := StatesOf(r0, steps, times);
    StatesOfRun(r0, steps, times);
    LastOfThree(r0, steps, times);
    var r2 := After(After(r0, steps[0], now), steps[1], now);
    assert FirstPublic(r2.jwks, "a") == Some(old'.public) by {
      assert r2.jwks == [Jwk("a", old'.public), Jwk("a", new'.public)];
    }
    LoadPublishesIff(r2, steps[2], "a", new', now);
    FirstPublicSnoc(r2.jwks, Jwk("a", new'.public), "a");
    FirstPublicKept(states[3].jwks, Referenced(states[3]), "a");
    FirstPerKidIff(KeepJwks(states[3].jwks, Referenced(states[3])), Jwk("a", old'.public));
  }

  /** Loading a second key as the active one drops the first. */
  lemma SecondActiveDropsFirst(maxAgeDays: nat, first: Key, second: Key, now: nat)
    returns (states: seq<Ring>, steps: seq<Step>)
    ensures IsRun(states, steps, [now, now]) && states[0] == Empty(maxAgeDays)
    ensures steps == [LoadActiveKey("a", first), LoadActiveKey("b", second)]
    ensures DecodingSigner(states[1], "a") == Some(first) && DecodingSigner(states[2], "a") == None
  {
    var times := [now, now];
    steps := [LoadActiveKey("a", first), LoadActiveKey("b", second)];
    var r0 := Empty(maxAgeDays);
    states := StatesOf(r0, steps, times);
    StatesOfRun(r0, steps, times);
    LastOfTwo(r0, steps, times);
    var r1 := After(r0, steps[0], now);
    assert StepAt(states, steps, times, 0);
    LoadActiveKeepsOldIff(r1, "b", second, now);
  }

  /** Loading another key under the active kid replaces the old one, although the
      kid is also previous. */
  lemma ReloadReplacesActive(maxAgeDays: nat, first: Key, second: Key, now: nat)
    returns (states: seq<Ring>, steps: seq<Step>)
    requires now > 0 && maxAgeDays > 0 && first != second
    ensures IsRun(states, steps, [now, now, now]) && states[0] == Empty(maxAgeDays)
    ensures steps == [LoadActiveKey("a", first), RotateKeys, LoadActiveKey("a", second)]
    ensures states[2].active == "a" && "a" in states[2].previous && DecodingSigner(states[2], "a") == Some(first)
    ensures DecodingSigner(states[3], "a") == Some(second)
  {
    var times := [now, now, now];
    steps := [LoadActiveKey("a", first), RotateKeys, LoadActiveKey("a", second)];
    var r0 := Empty(maxAgeDays);
    states := StatesOf(r0, steps, times);
    StatesOfRun(r0, steps, times);
    LastOfThree(r0, steps, times);
    assert StepAt(states, steps, times, 0) && StepAt(states, steps, times, 1);
  }

  /** Rotation drops an active key whose kid is empty. */
  lemma RotationDropsEmptyKid(first: Key, second: Key, maxAgeDays: nat, now: nat)
    returns (states: seq<Ring>, steps: seq<Step>)
    requires now > 0 && maxAgeDays > 0
    ensures IsRun(states, steps, [now, now, now]) && states[0] == Empty(maxAgeDays)
    ensures steps == [LoadActiveKey("", first), LoadNextKey("b", second), RotateKeys]
    ensures Young(now, maxAgeDays, now)
    ensures DecodingSigner(states[2], "") == Some(first) && DecodingSigner(states[3], "") == None
  {
    var times := [now, now, now];
    steps := [LoadActiveKey("", first), LoadNextKey("b", second), RotateKeys];
    var r0 := Empty(maxAgeDays);
    states := StatesOf(r0, steps, times);
    StatesOfRun(r0, steps, times);
    LastOfThree(r0, steps, times);
    ReachableAligned(states, steps, times, 2);
    assert StepAt(states, steps, times, 0) && StepAt(states, steps, times, 1);
    RotateKeepsActiveIff(states[2], now);
  }
}
