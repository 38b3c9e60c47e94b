/** The time-to-live caches of one server instance: a small local level in
    front of the shared cache, for sessions and for policy decisions. */
module Caches {
  import opened Wrappers
  import opened Utf8
  import opened CacheKeys
  import opened Numbers

  type Bytes = seq<Byte>

  datatype Entry = Entry(value: Bytes, expiresAt: nat)

  const MAX_DECISION_CACHE_ENTRIES: nat := 100_000
  const SESSION_L1_TTL_SECONDS: nat := 30

  /** The value a table of entries serves at a time. */
  function Live(m: map<string, Entry>, key: string, now: nat): Option<Bytes> {
    if key in m && m[key].expiresAt > now then Some(m[key].value) else None
  }

  /** The shared in-memory cache. Each method takes one reading of the clock. */
  class MemoryCache {
    var store: map<string, Entry>

    constructor ()
      ensures store == map[]
    {
      store := map[];
    }

    method Get(key: string, now: nat) returns (r: Option<Bytes>)
      modifies this
      ensures r == old(Live(store, key, now))
      ensures store == if r.None? then old(store) - {key} else old(store)
    {
      if key in store {
        if store[key].expiresAt > now {
          return Some(store[key].value);
        }
        store := store - {key};
      }
      assert store - {key} == store;
      return None;
    }

    method Set(key: string, value: Bytes, ttl: nat, now: nat)
      modifies this
      ensures store == old(store)[key := Entry(value, now + ttl)]
    {
      store := store[key := Entry(value, now + ttl)];
    }

    method SetIfAbsent(key: string, value: Bytes, ttl: nat, now: nat) returns (inserted: bool)
      modifies this
      ensures inserted == old(Live(store, key, now)).None?
      ensures store == if inserted then old(store)[key := Entry(value, now + ttl)] else old(store)
    {
      if key in store && store[key].expiresAt > now {
        return false;
      }
      store := store[key := Entry(value, now + ttl)];
      return true;
    }

    method Delete(key: string)
      modifies this
      ensures store == old(store) - {key}
    {
      store := store - {key};
    }

    method Take(key: string, now: nat) returns (r: Option<Bytes>)
      modifies this
      ensures r == old(Live(store, key, now))
      ensures store == old(store) - {key}
    {
      r := if key in store && store[key].expiresAt > now then Some(store[key].value) else None;
      store := store - {key};
    }
  }

  /** The local session level: a bounded table that may drop any entry but the
      one it is given. */
  class SessionCache {
    const capacity: nat
    var entries: map<string, Entry>

    ghost predicate Valid()
      reads this
    {
      1 <= capacity && |entries| <= capacity
    }

    constructor (capacity: nat)
      ensures Valid() && entries == map[]
      ensures this.capacity == if capacity == 0 then 1 else capacity
    {
      this.capacity := if capacity == 0 then 1 else capacity;
      entries := map[];
    }

    method Get(key: string, now: nat) returns (r: Option<Bytes>)
      requires Valid()
      modifies this`entries
      ensures Valid()
      ensures r == old(Live(entries, key, now))
      ensures entries == if r.None? then old(entries) - {key} else old(entries)
    {
      if key in entries && entries[key].expiresAt <= now {
        Remove(key);
        return None;
      }
      assert key !in entries ==> entries - {key} == entries;
      r := if key in entries then Some(entries[key].value) else None;
    }

    method Put(key: string, value: Bytes, ttl: nat, now: nat)
      requires Valid()
      modifies this`entries
      ensures Valid()
      ensures key in entries && entries[key] == Entry(value, now + ttl)
      ensures forall k | k in entries && k != key :: k in old(entries) && entries[k] == old(entries)[k]
    {
      if key !in entries && |entries| == capacity {
        assert entries.Keys != {};
        var victim :| victim in entries;
        Remove(victim);
      }
      assert entries[key := Entry(value, now + ttl)].Keys == entries.Keys + {key};
      entries := entries[key := Entry(value, now + ttl)];
    }

    method Remove(key: string)
      requires Valid()
      modifies this`entries
      ensures Valid()
      ensures entries == old(entries) - {key}
      ensures key in old(entries) ==> |entries| == |old(entries)| - 1
    {
      assert (entries - {key}).Keys == entries.Keys - {key};
      entries := entries - {key};
      assert |entries.Keys| == |entries| && |old(entries).Keys| == |old(entries)|;
    }
  }

  // ----- What a client expects ------------------------------------------

  datatype Slot = SessionSlot(id: string) | DecisionSlot(digest: string)

  datatype Event = Stored(slot: Slot, entry: Entry) | Deleted(slot: Slot)

  function Space(slot: Slot): Namespace {
    if slot.SessionSlot? then Sessions else Decisions
  }

  function Name(slot: Slot): string {
    if slot.SessionSlot? then slot.id else slot.digest
  }

  function SlotKey(slot: Slot): string {
    Key(Space(slot), Name(slot))
  }

  /** The entry of the last put on a slot that no later delete removed. */
  function LastPut(log: seq<Event>, slot: Slot): Option<Entry> {
    if log == [] then None
    else
      var e := log[|log| - 1];
      if e.slot != slot then LastPut(log[..|log| - 1], slot)
      else if e.Stored? then Some(e.entry) else None
  }

  /** What a get must return: the last undeleted put, while it has not expired. */
  function Answer(log: seq<Event>, slot: Slot, now: nat): Option<Bytes> {
    match LastPut(log, slot)
    case Some(e) => if e.expiresAt > now then Some(e.value) else None
    case None => None
  }

  lemma LastPutSnoc(log: seq<Event>, e: Event, slot: Slot)
    ensures LastPut(log + [e], slot)
         == if e.slot != slot then LastPut(log, slot) else if e.Stored? then Some(e.entry) else None
  {
    assert (log + [e])[..|log|] == log;
  }

  lemma SlotKeyInjective(a: Slot, b: Slot)
    ensures SlotKey(a) == SlotKey(b) <==> a == b
  {
    KeyInjective(Space(a), Name(a), Space(b), Name(b));
  }

  /** The shared table holds a slot's last put, unless it has expired. */
  ghost predicate Holds(store: map<string, Entry>, log: seq<Event>, slot: Slot, clock: nat) {
    match LastPut(log, slot)
    case None => SlotKey(slot) !in store
    case Some(e) => if SlotKey(slot) in store then store[SlotKey(slot)] == e else e.expiresAt <= clock
  }

  ghost predicate SharedMatches(store: map<string, Entry>, log: seq<Event>, clock: nat) {
    forall slot :: Holds(store, log, slot, clock)
  }

  /** Local entries repeat the last put and expire no later. */
  ghost predicate LocalMatches(local: map<string, Entry>, log: seq<Event>, slotOf: string -> Slot) {
    forall k | k in local :: Repeats(local[k], LastPut(log, slotOf(k)))
  }

  predicate Repeats(e: Entry, last: Option<Entry>) {
    last.Some? && e.value == last.value.value && e.expiresAt <= last.value.expiresAt
  }

  lemma SharedAfterGet(store: map<string, Entry>, log: seq<Event>, clock: nat, now: nat, slot: Slot)
    requires SharedMatches(store, log, clock) && clock <= now
    ensures Live(store, SlotKey(slot), now) == Answer(log, slot, now)
    ensures SharedMatches(store, log, now)
    ensures Answer(log, slot, now).None? ==> SharedMatches(store - {SlotKey(slot)}, log, now)
  {
    assert Holds(store, log, slot, clock);
    forall other ensures Holds(store, log, other, now) {
      assert Holds(store, log, other, clock);
    }
    if Answer(log, slot, now).None? {
      forall other ensures Holds(store - {SlotKey(slot)}, log, other, now) {
        assert Holds(store, log, other, clock);
        SlotKeyInjective(slot, other);
      }
    }
  }

  lemma SharedAfterEvent(store: map<string, Entry>, log: seq<Event>, clock: nat, now: nat, e: Event)
    requires SharedMatches(store, log, clock) && clock <= now
    ensures SharedMatches(if e.Stored? then store[SlotKey(e.slot) := e.entry] else store - {SlotKey(e.slot)},
                          log + [e], now)
  {
    var after := if e.Stored? then store[SlotKey(e.slot) := e.entry] else store - {SlotKey(e.slot)};
    forall other ensures Holds(after, log + [e], other, now) {
      assert Holds(store, log, other, clock);
      SlotKeyInjective(e.slot, other);
      LastPutSnoc(log, e, other);
    }
  }

  /** Traffic in the other namespaces never disturbs a session or decision. */
  lemma OtherNamespacesHarmless(store: map<string, Entry>, log: seq<Event>, clock: nat, ns: Namespace, id: string,
                                e: Entry)
    requires SharedMatches(store, log, clock) && ns != Sessions && ns != Decisions
    ensures SharedMatches(store[Key(ns, id) := e], log, clock)
    ensures SharedMatches(store - {Key(ns, id)}, log, clock)
  {
    var written := store[Key(ns, id) := e];
    forall slot ensures Holds(written, log, slot, clock) {
      assert Holds(store, log, slot, clock);
      KeyInjective(ns, id, Space(slot), Name(slot));
    }
    forall slot ensures Holds(store - {Key(ns, id)}, log, slot, clock) {
      assert Holds(store, log, slot, clock);
      KeyInjective(ns, id, Space(slot), Name(slot));
    }
  }

  lemma LocalAfterEvent(local: map<string, Entry>, log: seq<Event>, slotOf: string -> Slot, e: Event)
    requires LocalMatches(local, log, slotOf)
    requires forall k | k in local :: slotOf(k) != e.slot
    ensures LocalMatches(local, log + [e], slotOf)
  {
    forall k | k in local ensures Repeats(local[k], LastPut(log + [e], slotOf(k))) {
      LastPutSnoc(log, e, slotOf(k));
    }
  }

  lemma LocalServes(local: map<string, Entry>, log: seq<Event>, slotOf: string -> Slot, k: string, now: nat)
    requires LocalMatches(local, log, slotOf) && Live(local, k, now).Some?
    ensures Answer(log, slotOf(k), now) == Live(local, k, now)
  {
    assert Repeats(local[k], LastPut(log, slotOf(k)));
  }

  function AsSession(id: string): Slot { SessionSlot(id) }

  function AsDecision(digest: string): Slot { DecisionSlot(digest) }

  /** Drop entries, whichever come first, until the bound is met. */
  method Retain(m: map<string, Entry>, max: nat) returns (r: map<string, Entry>)
    ensures |r| == Min(|m|, max)
    ensures forall k | k in r :: k in m && r[k] == m[k]
  {
    r := m;
    var excess := if |m| > max then |m| - max else 0;
    while excess > 0
      invariant 0 <= excess && |r| == Min(|m|, max) + excess
      invariant forall k | k in r :: k in m && r[k] == m[k]
    {
      assert r.Keys != {};
      var k :| k in r;
      assert (r - {k}).Keys == r.Keys - {k};
      r := r - {k};
      excess := excess - 1;
    }
  }

  /** One instance: local sessions, local decisions and the shared cache.
      `log` and `clock` record what was asked of it and when. */
  class Node {
    const sessions: SessionCache
    const shared: MemoryCache
    var decisions: map<string, Entry>
    ghost var log: seq<Event>
    ghost var clock: nat

    ghost predicate Valid()
      reads this, sessions, shared
    {
      && sessions.Valid()
      && |decisions| <= MAX_DECISION_CACHE_ENTRIES
      && SharedMatches(shared.store, log, clock)
      && LocalMatches(sessions.entries, log, AsSession)
      && LocalMatches(decisions, log, AsDecision)
    }

    constructor ()
      ensures Valid() && log == [] && clock == 0 && fresh(sessions) && fresh(shared)
      ensures sessions.capacity == 10_000 && decisions == map[]
    {
      sessions := new SessionCache(10_000);
      shared := new MemoryCache();
      decisions, log, clock := map[], [], 0;
    }

    method SessionCacheGet(id: string, now: nat) returns (r: Option<Bytes>)
      requires Valid() && clock <= now
      modifies this`clock, sessions`entries, shared
      ensures Valid() && clock == now
      ensures r == Answer(log, SessionSlot(id), now)
    {
      SharedAfterGet(shared.store, log, clock, now, SessionSlot(id));
      clock := now;
      ghost var local := sessions.entries;
      r := sessions.Get(id, now);
      if r.Some? {
        LocalServes(local, log, AsSession, id, now);
        return;
      }
      r := shared.Get(SlotKey(SessionSlot(id)), now);
    }

    method SessionCachePut(id: string, value: Bytes, ttl: nat, now: nat)
      requires Valid() && clock <= now
      modifies this`clock, this`log, sessions`entries, shared
      ensures Valid() && clock == now
      ensures log == old(log) + [Stored(SessionSlot(id), Entry(value, now + ttl))]
    {
      ghost var e := Stored(SessionSlot(id), Entry(value, now + ttl));
      SharedAfterEvent(shared.store, log, clock, now, e);
      LocalAfterEvent(decisions, log, AsDecision, e);
      LocalAfterEvent(sessions.entries - {id}, log, AsSession, e);
      LastPutSnoc(log, e, SessionSlot(id));
      shared.Set(Key(Sessions, id), value, ttl, now);
      ghost var kept := sessions.entries - {id};
      sessions.Put(id, value, Min(ttl, SESSION_L1_TTL_SECONDS), now);
      log, clock := log + [e], now;
      assert forall k | k in sessions.entries && k != id :: k in kept && sessions.entries[k] == kept[k];
    }

    method SessionCacheDelete(id: string, now: nat)
      requires Valid() && clock <= now
      modifies this`clock, this`log, sessions`entries, shared
      ensures Valid() && clock == now
      ensures log == old(log) + [Deleted(SessionSlot(id))]
    {
      ghost var e := Deleted(SessionSlot(id));
      SharedAfterEvent(shared.store, log, clock, now, e);
      LocalAfterEvent(decisions, log, AsDecision, e);
      LocalAfterEvent(sessions.entries - {id}, log, AsSession, e);
      shared.Delete(Key(Sessions, id));
      sessions.Remove(id);
      log, clock := log + [e], now;
    }

    method DecisionCacheGet(digest: string, now: nat) returns (r: Option<Bytes>)
      requires Valid() && clock <= now
      modifies this`clock, shared
      ensures Valid() && clock == now
      ensures r == Answer(log, DecisionSlot(digest), now)
    {
      SharedAfterGet(shared.store, log, clock, now, DecisionSlot(digest));
      clock := now;
      if digest in decisions && decisions[digest].expiresAt > now {
        LocalServes(decisions, log, AsDecision, digest, now);
        return Some(decisions[digest].value);
      }
      r := shared.Get(SlotKey(DecisionSlot(digest)), now);
    }

    /** Store a decision locally and keep the table within its bound. */
    method StoreDecision(digest: string, e: Entry)
      modifies this`decisions
      ensures |decisions| <= 100_000
      ensures forall k | k in decisions && k != digest :: k in old(decisions) && decisions[k] == old(decisions)[k]
      ensures digest in decisions ==> decisions[digest] == e
    {
      decisions := decisions[digest := e];
      if |decisions| > MAX_DECISION_CACHE_ENTRIES {
        decisions := Retain(decisions, MAX_DECISION_CACHE_ENTRIES);
      }
    }

    method DecisionCachePut(digest: string, value: Bytes, ttl: nat, now: nat)
      requires Valid() && clock <= now
      modifies this`clock, this`log, this`decisions, shared
      ensures Valid() && clock == now
      ensures log == old(log) + [Stored(DecisionSlot(digest), Entry(value, now + ttl))]
      ensures |decisions| <= 100_000
    {
      ghost var e := Stored(DecisionSlot(digest), Entry(value, now + ttl));
      SharedAfterEvent(shared.store, log, clock, now, e);
      LocalAfterEvent(sessions.entries, log, AsSession, e);
      ghost var kept := decisions - {digest};
      LocalAfterEvent(kept, log, AsDecision, e);
      LastPutSnoc(log, e, DecisionSlot(digest));
      shared.Set(Key(Decisions, digest), value, ttl, now);
      StoreDecision(digest, Entry(value, now + ttl));
      log, clock := log + [e], now;
      assert forall k | k in decisions && k != digest :: k in kept && decisions[k] == kept[k];
    }
  }
}
