/** Single-use token ids and nonces over the shared cache (sections 8 and 11.1
    of RFC 9449). */
module Replay {
  import opened Wrappers
  import opened Utf8
  import opened CacheKeys
  import opened Caches
  import opened Numbers
  import Text

  const JTI_CACHE_TTL_SECS: nat := 60
  const NONCE_CACHE_TTL_SECS: nat := 300

  /** How long a replay key is kept: until it expires, and at least a second. */
  function ReplayTtl(expiresAt: nat, now: nat): nat {
    Max(SaturatingSub(expiresAt, now), 1)
  }

  function JtiExpiry(iat: nat, now: nat): nat {
    Max(SaturatingAdd(iat, JTI_CACHE_TTL_SECS), SaturatingAdd(now, JTI_CACHE_TTL_SECS))
  }

  type Store = map<string, Entry>

  const MARK: Bytes := [0x31]

  /** One operation on the shared cache, at the time it takes the lock.
      `Elsewhere` is any write or removal in another namespace. */
  datatype Op =
    | Record(ns: Namespace, key: string, expiresAt: nat, at: nat)
    | Issue(ns: Namespace, nonce: string, at: nat)
    | Consume(ns: Namespace, nonce: string, at: nat)
    | Elsewhere(ns: Namespace, id: string, entry: Option<Entry>, at: nat)

  predicate ReplaySpace(ns: Namespace) {
    ns.DpopJti? || ns.AssertionJti?
  }

  predicate NonceSpace(ns: Namespace) {
    ns.DpopNonce? || ns.AssertionNonce?
  }

  predicate InItsSpace(op: Op) {
    match op
    case Record(ns, _, _, _) => ReplaySpace(ns)
    case Issue(ns, _, _) => NonceSpace(ns)
    case Consume(ns, _, _) => NonceSpace(ns)
    case Elsewhere(ns, _, _, _) => !ReplaySpace(ns) && !NonceSpace(ns)
  }

  function Deadline(op: Op): nat
    requires op.Record?
  {
    op.at + ReplayTtl(op.expiresAt, op.at)
  }

  /** A record lasts until its expiry, and through the second it is made in. */
  lemma DeadlineIs(op: Op, at: nat)
    requires op.Record? && op.at <= at
    ensures at < Deadline(op) <==> at < op.expiresAt || at == op.at
  {
  }

  /** The time a stored nonce says it was issued. */
  function IssuedAt(value: Bytes): Option<nat> {
    match Decode(value)
    case Some(s) => Text.ParseDecimal(s)
    case None => None
  }

  function NonceValue(at: nat): Bytes {
    Encode(Text.Decimal(at))
  }

  lemma NonceValueReadsBack(at: nat)
    ensures IssuedAt(NonceValue(at)) == Some(at)
  {
    DecodeEncode(Text.Decimal(at));
    Text.DecimalRoundTrip(at);
  }

  predicate Accepted(s: Store, op: Op) {
    match op
    case Record(ns, key, _, at) => Live(s, Key(ns, key), at).None?
    case Issue(_, _, _) => true
    case Consume(ns, nonce, at) =>
      var v := Live(s, Key(ns, nonce), at);
      v.Some? && IssuedAt(v.value).Some? && SaturatingSub(at, IssuedAt(v.value).value) < NONCE_CACHE_TTL_SECS
    case Elsewhere(_, _, _, _) => true
  }

  function After(s: Store, op: Op): Store {
    match op
    case Record(ns, key, expiresAt, at) =>
      if Accepted(s, op) then s[Key(ns, key) := Entry(MARK, Deadline(op))] else s
    case Issue(ns, nonce, at) => s[Key(ns, nonce) := Entry(NonceValue(at), at + NONCE_CACHE_TTL_SECS)]
    case Consume(ns, nonce, at) => s - {Key(ns, nonce)}
    case Elsewhere(ns, id, Some(e), _) => s[Key(ns, id) := e]
    case Elsewhere(ns, id, None, _) => s - {Key(ns, id)}
  }

  datatype ReplayError = Replayed | NonceUnknown | NonceExpired | NonceInvalid

  /** The replay guard of one protocol, over a cache it shares. */
  class DpopState {
    const cache: MemoryCache
    const replayNamespace: Namespace
    const nonceNamespace: Namespace

    ghost predicate Valid() {
      ReplaySpace(replayNamespace) && NonceSpace(nonceNamespace)
    }

    constructor WithCache(cache: MemoryCache)
      ensures Valid() && this.cache == cache && replayNamespace == DpopJti && nonceNamespace == DpopNonce
    {
      this.cache, replayNamespace, nonceNamespace := cache, DpopJti, DpopNonce;
    }

    constructor AssertionReplay(cache: MemoryCache)
      ensures Valid() && this.cache == cache && replayNamespace == AssertionJti && nonceNamespace == AssertionNonce
    {
      this.cache, replayNamespace, nonceNamespace := cache, AssertionJti, AssertionNonce;
    }

    method RecordReplayKey(key: string, expiresAt: nat, now: nat) returns (r: Result<(), ReplayError>)
      requires Valid()
      modifies cache
      ensures var op := Record(replayNamespace, key, expiresAt, now);
              (r.Ok? <==> Accepted(old(cache.store), op)) && cache.store == After(old(cache.store), op)
      ensures r.Err? ==> r.error == Replayed
      ensures r.Ok? ==>
                cache.store == old(cache.store)[Key(replayNamespace, key) := Entry(MARK, Max(expiresAt, now + 1))]
    {
      var inserted := cache.SetIfAbsent(Key(replayNamespace, key), MARK, ReplayTtl(expiresAt, now), now);
      r := if inserted then Ok(()) else Err(Replayed);
    }

    method RecordJti(jti: string, iat: nat, now: nat) returns (r: Result<(), ReplayError>)
      requires Valid()
      modifies cache
      ensures var op := Record(replayNamespace, jti, Min(Max(iat, now) + 60, U64_MAX), now);
              (r.Ok? <==> Accepted(old(cache.store), op)) && cache.store == After(old(cache.store), op)
    {
      r := RecordReplayKey(jti, JtiExpiry(iat, now), now);
    }

    method RecordAssertionJti(protocol: string, clientId: string, jti: string, expiresAt: nat, now: nat)
      returns (r: Result<(), ReplayError>)
      requires Valid()
      modifies cache
      ensures var op := Record(replayNamespace, AssertionReplayKey(protocol, clientId, jti), expiresAt, now);
              (r.Ok? <==> Accepted(old(cache.store), op)) && cache.store == After(old(cache.store), op)
    {
      r := RecordReplayKey(AssertionReplayKey(protocol, clientId, jti), expiresAt, now);
    }

    method IssueNonce(ulid: string, now: nat) returns (nonce: string)
      requires Valid()
      modifies cache
      ensures nonce == "dpop_nonce_" + ulid
      ensures cache.store == After(old(cache.store), Issue(nonceNamespace, nonce, now))
    {
      nonce := "dpop_nonce_" + ulid;
      cache.Set(Key(nonceNamespace, nonce), NonceValue(now), NONCE_CACHE_TTL_SECS, now);
    }

    method ConsumeNonce(nonce: string, now: nat) returns (r: Result<(), ReplayError>)
      requires Valid()
      modifies cache
      ensures var op := Consume(nonceNamespace, nonce, now);
              (r.Ok? <==> Accepted(old(cache.store), op)) && cache.store == After(old(cache.store), op)
      ensures r == Err(NonceUnknown) <==> old(Live(cache.store, Key(nonceNamespace, nonce), now)).None?
      ensures old(Live(cache.store, Key(nonceNamespace, nonce), now)).Some? ==>
                var issued := IssuedAt(old(Live(cache.store, Key(nonceNamespace, nonce), now)).value);
                && (r == Err(NonceInvalid) <==> issued.None?)
                && (r == Err(NonceExpired) <==> issued.Some? && issued.value + 300 <= now)
    {
      var value := cache.Take(Key(nonceNamespace, nonce), now);
      if value.None? {
        return Err(NonceUnknown);
      }
      var issuedAt := IssuedAt(value.value);
      if issuedAt.None? {
        return Err(NonceInvalid);
      }
      if SaturatingSub(now, issuedAt.value) >= NONCE_CACHE_TTL_SECS {
        return Err(NonceExpired);
      }
      return Ok(());
    }
  }

  // ----- Runs over instances sharing one cache --------------------------

  /** The tables before, between and after a run of operations by any number of
      instances; the clock never goes back. */
  ghost predicate IsRun(states: seq<Store>, ops: seq<Op>) {
    && |states| == |ops| + 1 && states[0] == map[]
    && (forall i | 0 <= i < |ops| :: InItsSpace(ops[i]))
    && (forall i, j | 0 <= i <= j < |ops| :: ops[i].at <= ops[j].at)
    && forall i {:trigger StepAt(states, ops, i)} | 0 <= i < |ops| :: StepAt(states, ops, i)
  }

  ghost predicate StepAt(states: seq<Store>, ops: seq<Op>, i: nat)
    requires |states| == |ops| + 1 && i < |ops|
  {
    states[i + 1] == After(states[i], ops[i])
  }

  function OpId(op: Op): string {
    match op
    case Record(_, key, _, _) => key
    case Issue(_, nonce, _) => nonce
    case Consume(_, nonce, _) => nonce
    case Elsewhere(_, id, _, _) => id
  }

  predicate On(op: Op, ns: Namespace, id: string) {
    op.ns == ns && OpId(op) == id
  }

  /** An operation touches no key but its own. */
  lemma OthersKept(s: Store, op: Op, ns: Namespace, id: string)
    requires !On(op, ns, id)
    ensures Key(ns, id) in After(s, op) <==> Key(ns, id) in s
    ensures Key(ns, id) in s ==> After(s, op)[Key(ns, id)] == s[Key(ns, id)]
  {
    KeyInjective(op.ns, OpId(op), ns, id);
  }

  // ----- Replay keys ----------------------------------------------------

  ghost predicate RecordedAt(states: seq<Store>, ops: seq<Op>, i: nat, ns: Namespace, key: string)
    requires |states| == |ops| + 1 && i < |ops|
  {
    ops[i].Record? && On(ops[i], ns, key) && Accepted(states[i], ops[i])
  }

  /** A key stays in the table from its acceptance until its deadline. */
  lemma {:induction false} StaysRecorded(states: seq<Store>, ops: seq<Op>, i: nat, j: nat, ns: Namespace, key: string)
    requires IsRun(states, ops) && i < j <= |ops| && RecordedAt(states, ops, i, ns, key)
    requires forall m | i < m < j :: ops[m].at < Deadline(ops[i])
    ensures Key(ns, key) in states[j] && states[j][Key(ns, key)] == Entry(MARK, Deadline(ops[i]))
    decreases j
  {
    assert StepAt(states, ops, j - 1);
    if j > i + 1 {
      StaysRecorded(states, ops, i, j - 1, ns, key);
      var op := ops[j - 1];
      if !On(op, ns, key) {
        OthersKept(states[j - 1], op, ns, key);
      }
    }
  }

  /** An accepted replay key is refused before its expiry, and in the second it
      was accepted in, whichever instance is asked. */
  lemma ReplayIsRefused(states: seq<Store>, ops: seq<Op>, i: nat, j: nat, ns: Namespace, key: string)
    requires IsRun(states, ops) && i < j < |ops| && RecordedAt(states, ops, i, ns, key)
    requires ops[j].Record? && On(ops[j], ns, key) && (ops[j].at < ops[i].expiresAt || ops[j].at == ops[i].at)
    ensures !Accepted(states[j], ops[j])
  {
    DeadlineIs(ops[i], ops[j].at);
    StaysRecorded(states, ops, i, j, ns, key);
  }

  /** An accepted token id is refused for 60 seconds from the later of its issue
      time and its acceptance. */
  lemma JtiIsRefused(states: seq<Store>, ops: seq<Op>, i: nat, j: nat, ns: Namespace, jti: string, iat: nat)
    requires IsRun(states, ops) && i < j < |ops| && RecordedAt(states, ops, i, ns, jti)
    requires ops[i].expiresAt == JtiExpiry(iat, ops[i].at)
    requires ops[j].Record? && On(ops[j], ns, jti) && ops[j].at < U64_MAX
    requires ops[j].at < iat + 60 || ops[j].at < ops[i].at + 60
    ensures !Accepted(states[j], ops[j])
  {
    ReplayIsRefused(states, ops, i, j, ns, jti);
  }

  /** Where a replay entry in the table came from. */
  ghost predicate Sourced(states: seq<Store>, ops: seq<Op>, n: nat, ns: Namespace, key: string)
    requires |states| == |ops| + 1 && n <= |ops| && Key(ns, key) in states[n]
  {
    exists i ::
      && 0 <= i < n && RecordedAt(states, ops, i, ns, key)
      && states[n][Key(ns, key)].expiresAt == Deadline(ops[i])
  }

  lemma {:induction false} EntriesAreSourced(states: seq<Store>, ops: seq<Op>, n: nat, ns: Namespace, key: string)
    requires IsRun(states, ops) && n <= |ops| && ReplaySpace(ns) && Key(ns, key) in states[n]
    ensures Sourced(states, ops, n, ns, key)
  {
    if n > 0 {
      assert StepAt(states, ops, n - 1);
      var op := ops[n - 1];
      if On(op, ns, key) && Accepted(states[n - 1], op) {
        assert op.Record?;
        assert RecordedAt(states, ops, n - 1, ns, key);
      } else {
        if !On(op, ns, key) {
          OthersKept(states[n - 1], op, ns, key);
        }
        EntriesAreSourced(states, ops, n - 1, ns, key);
        var i :| 0 <= i < n - 1 && RecordedAt(states, ops, i, ns, key)
                 && states[n - 1][Key(ns, key)].expiresAt == Deadline(ops[i]);
      }
    }
  }

  /** And a key is refused for no other reason: some earlier acceptance of the
      same key has not expired, or was in the same second. */
  lemma RefusedOnlyIfReplayed(states: seq<Store>, ops: seq<Op>, j: nat)
    requires IsRun(states, ops) && j < |ops| && ops[j].Record? && !Accepted(states[j], ops[j])
    ensures exists i :: 0 <= i < j && RecordedAt(states, ops, i, ops[j].ns, ops[j].key)
                        && (ops[j].at < ops[i].expiresAt || ops[j].at == ops[i].at)
  {
    EntriesAreSourced(states, ops, j, ops[j].ns, ops[j].key);
    var key := Key(ops[j].ns, ops[j].key);
    var i :| 0 <= i < j && RecordedAt(states, ops, i, ops[j].ns, ops[j].key)
             && states[j][key].expiresAt == Deadline(ops[i]);
    DeadlineIs(ops[i], ops[j].at);
  }

  /** Two client assertions are refused against each other only when protocol,
      client and token id all agree. */
  lemma AssertionsDoNotCollide(states: seq<Store>, ops: seq<Op>, j: nat, p: string, c: string, t: string)
    requires IsRun(states, ops) && j < |ops| && ops[j].Record? && ops[j].key == AssertionReplayKey(p, c, t)
    requires !Accepted(states[j], ops[j])
    ensures exists i :: 0 <= i < j && RecordedAt(states, ops, i, ops[j].ns, ops[j].key)
                        && forall p', c', t' | ops[i].key == AssertionReplayKey(p', c', t') ::
                             p' == p && c' == c && t' == t
  {
    RefusedOnlyIfReplayed(states, ops, j);
    var i :| 0 <= i < j && RecordedAt(states, ops, i, ops[j].ns, ops[j].key);
    forall p', c', t' | ops[i].key == AssertionReplayKey(p', c', t') ensures p' == p && c' == c && t' == t {
      AssertionKeyInjective(p, c, t, p', c', t');
    }
  }

  // ----- Nonces ---------------------------------------------------------

  /** Nonces are issued at most once: they are freshly generated. */
  ghost predicate DistinctNonces(ops: seq<Op>) {
    forall i, j | 0 <= i < j < |ops| && ops[i].Issue? && ops[j].Issue? ::
      ops[i].nonce != ops[j].nonce || ops[i].ns != ops[j].ns
  }

  predicate IssuedIn(ops: seq<Op>, i: nat, ns: Namespace, nonce: string)
    requires i < |ops|
  {
    ops[i].Issue? && On(ops[i], ns, nonce)
  }

  ghost predicate NotConsumedIn(ops: seq<Op>, lo: int, hi: nat, ns: Namespace, nonce: string)
    requires hi <= |ops|
  {
    forall m | 0 <= m && lo < m < hi :: !(ops[m].Consume? && On(ops[m], ns, nonce))
  }

  /** A nonce in the table was issued, carries its issue time, and has not been
      consumed since. */
  ghost predicate Outstanding(states: seq<Store>, ops: seq<Op>, n: nat, i: nat, ns: Namespace, nonce: string)
    requires |states| == |ops| + 1 && n <= |ops| && Key(ns, nonce) in states[n] && i < n
  {
    && IssuedIn(ops, i, ns, nonce)
    && states[n][Key(ns, nonce)] == Entry(NonceValue(ops[i].at), ops[i].at + NONCE_CACHE_TTL_SECS)
    && NotConsumedIn(ops, i, n, ns, nonce)
  }

  lemma {:induction false} NoncesAreOutstanding(states: seq<Store>, ops: seq<Op>, n: nat, ns: Namespace, nonce: string)
    returns (i: nat)
    requires IsRun(states, ops) && n <= |ops| && NonceSpace(ns) && Key(ns, nonce) in states[n]
    ensures i < n && Outstanding(states, ops, n, i, ns, nonce)
  {
    assert n > 0;
    i := n - 1;
    assert StepAt(states, ops, n - 1);
    if !On(ops[n - 1], ns, nonce) {
      OthersKept(states[n - 1], ops[n - 1], ns, nonce);
      i := NoncesAreOutstanding(states, ops, n - 1, ns, nonce);
    }
  }

  /** An accepted nonce was issued less than 300 seconds before. */
  lemma NonceWasIssued(states: seq<Store>, ops: seq<Op>, j: nat) returns (i: nat)
    requires IsRun(states, ops) && j < |ops| && ops[j].Consume? && Accepted(states[j], ops[j])
    ensures i < j && IssuedIn(ops, i, ops[j].ns, ops[j].nonce)
    ensures ops[i].at <= ops[j].at < ops[i].at + 300
    ensures NotConsumedIn(ops, i, j, ops[j].ns, ops[j].nonce)
  {
    i := NoncesAreOutstanding(states, ops, j, ops[j].ns, ops[j].nonce);
    NonceValueReadsBack(ops[i].at);
  }

  /** Each issued nonce is consumed at most once, over all instances. */
  lemma NonceIsSingleUse(states: seq<Store>, ops: seq<Op>, i: nat, j: nat)
    requires IsRun(states, ops) && DistinctNonces(ops) && i < j < |ops|
    requires ops[i].Consume? && ops[j].Consume? && On(ops[j], ops[i].ns, ops[i].nonce)
    ensures !(Accepted(states[i], ops[i]) && Accepted(states[j], ops[j]))
  {
    if Accepted(states[i], ops[i]) && Accepted(states[j], ops[j]) {
      var a := NonceWasIssued(states, ops, i);
      var b := NonceWasIssued(states, ops, j);
      assert false;
    }
  }

  /** A nonce that was issued and not consumed is accepted within its time. */
  lemma {:induction false} NonceStaysUsable(states: seq<Store>, ops: seq<Op>, i: nat, j: nat, ns: Namespace,
                                            nonce: string)
    requires IsRun(states, ops) && DistinctNonces(ops) && i < j <= |ops| && NonceSpace(ns)
    requires IssuedIn(ops, i, ns, nonce) && NotConsumedIn(ops, i, j, ns, nonce)
    ensures Key(ns, nonce) in states[j]
    ensures states[j][Key(ns, nonce)] == Entry(NonceValue(ops[i].at), ops[i].at + NONCE_CACHE_TTL_SECS)
    decreases j
  {
    assert StepAt(states, ops, j - 1);
    if j > i + 1 {
      NonceStaysUsable(states, ops, i, j - 1, ns, nonce);
      OthersKept(states[j - 1], ops[j - 1], ns, nonce);
    }
  }

  lemma FirstUseSucceeds(states: seq<Store>, ops: seq<Op>, i: nat, j: nat)
    requires IsRun(states, ops) && DistinctNonces(ops) && i < j < |ops| && ops[j].Consume?
    requires IssuedIn(ops, i, ops[j].ns, ops[j].nonce) && NotConsumedIn(ops, i, j, ops[j].ns, ops[j].nonce)
    ensures Accepted(states[j], ops[j]) <==> ops[j].at < ops[i].at + 300
  {
    NonceStaysUsable(states, ops, i, j, ops[j].ns, ops[j].nonce);
    NonceValueReadsBack(ops[i].at);
  }
}
