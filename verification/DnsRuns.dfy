/** Whole runs of the DNS cache: what it serves is a function of the history, its
    counters balance, and the newest names are the last to be evicted. */
module DnsRuns {
  import opened Wrappers
  import opened Wire
  import opened Counting
  import opened Dns

  /** One critical section, as it happened. */
  datatype Event =
    | Got(key: Key, now: Instant)
    | Stored(key: Key, addrs: seq<SocketAddr>, now: Instant, victim: Option<Key>)

  predicate IsStore(e: Event) {
    e.Stored? && e.addrs != []
  }

  predicate Possible(c: Cache, e: Event) {
    IsStore(e) ==> ValidVictim(c, e.now, e.victim)
  }

  function After(c: Cache, e: Event): Cache {
    match e
    case Got(key, now) => Get(c, key, now).0
    case Stored(key, addrs, now, victim) => Insert(c, key, addrs, now, victim)
  }

  function Clock(events: seq<Event>): Instant {
    if events == [] then 0 else events[|events| - 1].now
  }

  /** The cache after a history, or None when the clock runs back in it or some
      victim is not one the code could have picked. */
  function Run(ttl: nat, max: nat, events: seq<Event>): Option<Cache> {
    if events == [] then Some(New(ttl, max)) else
    var prefix, e := events[..|events| - 1], events[|events| - 1];
    match Run(ttl, max, prefix)
    case None => None
    case Some(c) => if e.now >= Clock(prefix) && Possible(c, e) then Some(After(c, e)) else None
  }

  // ----- what a history says about a name

  /** The latest non-empty answer stored for `key`, and when. */
  function Latest(events: seq<Event>, key: Key): Option<(seq<SocketAddr>, Instant)> {
    if events == [] then None else
    var e := events[|events| - 1];
    if IsStore(e) && e.key == key then Some((e.addrs, e.now)) else Latest(events[..|events| - 1], key)
  }

  /** Stored at some time, and not evicted since. */
  function Kept(events: seq<Event>, key: Key): bool {
    if events == [] then false else
    var e := events[|events| - 1];
    if IsStore(e) && e.key == key then true
    else if IsStore(e) && e.victim == Some(key) then false
    else Kept(events[..|events| - 1], key)
  }

  /** What a lookup at `now` should be answered from memory. */
  function Remembered(events: seq<Event>, ttl: nat, key: Key, now: Instant): Option<seq<SocketAddr>> {
    match Latest(events, key)
    case Some((addrs, stored)) => if Kept(events, key) && now < stored + ttl then Some(addrs) else None
    case None => None
  }

  /** Every entry is the latest answer stored under its key. */
  ghost predicate EntriesTrue(events: seq<Event>, c: Cache) {
    forall k <- c.entries ::
      && Kept(events, k)
      && Latest(events, k) == Some((c.entries[k].addrs, c.entries[k].insertedAt))
      && c.entries[k].addrs != []
      && c.entries[k].insertedAt <= Clock(events)
      && c.entries[k].expiresAt == c.entries[k].insertedAt + c.ttl
  }

  /** Every answer that should still be served has an entry. */
  ghost predicate KeptHeld(events: seq<Event>, c: Cache) {
    && (forall k :: Kept(events, k) ==> Latest(events, k).Some?)
    && (forall k :: Kept(events, k) && Clock(events) < Latest(events, k).value.1 + c.ttl ==> k in c.entries)
  }

  ghost predicate Faithful(events: seq<Event>, c: Cache) {
    && EntriesTrue(events, c)
    && KeptHeld(events, c)
    && |c.entries| <= c.maxEntries
    && c.maxEntries >= 1
  }

  lemma HistoryAfter(events: seq<Event>, e: Event)
    ensures Clock(events + [e]) == e.now
    ensures forall k :: Latest(events + [e], k)
                        == if IsStore(e) && k == e.key then Some((e.addrs, e.now)) else Latest(events, k)
    ensures forall k :: Kept(events + [e], k)
                        == ((IsStore(e) && k == e.key)
                            || (Kept(events, k) && !(IsStore(e) && e.victim == Some(k))))
  {
    var all := events + [e];
    assert all[..|all| - 1] == events;
  }

  lemma RoomMade(c: Cache, now: Instant, victim: Option<Key>)
    requires |c.entries| <= c.maxEntries && c.maxEntries >= 1 && ValidVictim(c, now, victim)
    ensures var room := Evicted(Swept(c, now), victim);
            && |room.entries| < c.maxEntries
            && (forall k <- room.entries :: k in c.entries && room.entries[k] == c.entries[k])
            && (forall k <- c.entries :: k in room.entries || !Live(c.entries[k], now) || Some(k) == victim)
            && (victim.Some? ==> victim.value !in room.entries)
  {
  }

  lemma StoreIsFaithful(events: seq<Event>, c: Cache, e: Event)
    requires Faithful(events, c) && IsStore(e) && e.now >= Clock(events) && Possible(c, e)
    ensures Faithful(events + [e], After(c, e))
  {
    HistoryAfter(events, e);
    var room := Evicted(Swept(c, e.now), e.victim);
    RoomMade(c, e.now, e.victim);
    var after := After(c, e);
    assert after.entries == room.entries[e.key := Entry(e.addrs, e.now + c.ttl, e.now)] && after.ttl == c.ttl;
    assert EntriesTrue(events + [e], after);
    forall k | Kept(events + [e], k) && e.now < Latest(events + [e], k).value.1 + c.ttl
      ensures k in after.entries
    {
      if k != e.key {
        assert k in c.entries && Live(c.entries[k], e.now);
      }
    }
  }

  lemma GetIsFaithful(events: seq<Event>, c: Cache, e: Event)
    requires Faithful(events, c) && !IsStore(e) && e.now >= Clock(events)
    ensures Faithful(events + [e], After(c, e))
  {
    HistoryAfter(events, e);
    if e.Got? {
      SubsetSize(After(c, e).entries.Keys, c.entries.Keys);
    }
  }

  lemma ConfigKept(c: Cache, e: Event)
    ensures After(c, e).ttl == c.ttl && After(c, e).maxEntries == c.maxEntries
  {
  }

  lemma {:induction false} RunIsFaithful(ttl: nat, max: nat, events: seq<Event>, c: Cache)
    requires Run(ttl, max, events) == Some(c)
    ensures Faithful(events, c) && c.ttl == ttl && c.maxEntries == New(ttl, max).maxEntries
    decreases |events|
  {
    if events != [] {
      var prefix, e := events[..|events| - 1], events[|events| - 1];
      var before := Run(ttl, max, prefix).value;
      RunIsFaithful(ttl, max, prefix, before);
      ConfigKept(before, e);
      assert prefix + [e] == events;
      if IsStore(e) {
        StoreIsFaithful(prefix, before, e);
      } else {
        GetIsFaithful(prefix, before, e);
      }
    }
  }

  /** The refinement: whatever interleaving led here, a lookup is answered exactly
      from the latest answer stored under its own key, if that was less than `ttl`
      ago and has not been evicted. */
  lemma CacheRefinesHistory(ttl: nat, max: nat, events: seq<Event>, c: Cache, key: Key, now: Instant)
    requires Run(ttl, max, events) == Some(c) && now >= Clock(events)
    ensures Get(c, key, now).1 == Remembered(events, ttl, key, now)
    ensures Get(c, key, now).1 != Some([])
    ensures ttl == 0 ==> Get(c, key, now).1 == None
  {
    RunIsFaithful(ttl, max, events, c);
  }

  // ----- the counters balance

  function Gets(events: seq<Event>): nat {
    if events == [] then 0
    else Gets(events[..|events| - 1]) + One(events[|events| - 1].Got?)
  }

  function Stores(events: seq<Event>): nat {
    if events == [] then 0
    else Stores(events[..|events| - 1]) + One(IsStore(events[|events| - 1]))
  }

  /** Stores that replaced an entry still held under the same key. */
  function Overwrites(ttl: nat, max: nat, events: seq<Event>): nat {
    if events == [] then 0 else
    var prefix, e := events[..|events| - 1], events[|events| - 1];
    Overwrites(ttl, max, prefix) +
    match Run(ttl, max, prefix)
    case None => 0
    case Some(c) => One(IsStore(e) && e.key in Evicted(Swept(c, e.now), e.victim).entries)
  }

  ghost predicate Balanced(c: Cache, stores: nat, overwrites: nat, gets: nat) {
    && c.inserts == stores
    && c.inserts == |c.entries| + c.evictions + c.expiredDropped + overwrites
    && c.hits + c.misses == gets
  }

  lemma StepBalances(c: Cache, e: Event, stores: nat, overwrites: nat, gets: nat)
    requires Balanced(c, stores, overwrites, gets) && Possible(c, e)
    ensures Balanced(After(c, e), stores + One(IsStore(e)),
                     overwrites + One(IsStore(e) && e.key in Evicted(Swept(c, e.now), e.victim).entries),
                     gets + One(e.Got?))
  {
    if IsStore(e) {
      var room := Evicted(Swept(c, e.now), e.victim);
      assert |room.entries| == |Swept(c, e.now).entries| - One(e.victim.Some?);
    }
  }

  lemma {:induction false} CountersBalance(ttl: nat, max: nat, events: seq<Event>, c: Cache)
    requires Run(ttl, max, events) == Some(c)
    ensures c.inserts == Stores(events)
    ensures c.inserts == |c.entries| + c.evictions + c.expiredDropped + Overwrites(ttl, max, events)
    ensures c.hits + c.misses == Gets(events)
    ensures |c.entries| <= c.maxEntries
    decreases |events|
  {
    RunIsFaithful(ttl, max, events, c);
    if events != [] {
      var prefix, e := events[..|events| - 1], events[|events| - 1];
      var before := Run(ttl, max, prefix).value;
      CountersBalance(ttl, max, prefix, before);
      StepBalances(before, e, Stores(prefix), Overwrites(ttl, max, prefix), Gets(prefix));
    }
  }

  // ----- each counter, from the history alone

  /** Lookups the history has, or has not, an answer for. */
  function Answerable(ttl: nat, events: seq<Event>, answered: bool): nat {
    if events == [] then 0 else
    var prefix, e := events[..|events| - 1], events[|events| - 1];
    Answerable(ttl, prefix, answered) + One(e.Got? && Remembered(prefix, ttl, e.key, e.now).Some? == answered)
  }

  function Victims(events: seq<Event>): nat {
    if events == [] then 0
    else Victims(events[..|events| - 1]) + One(IsStore(events[|events| - 1]) && events[|events| - 1].victim.Some?)
  }

  lemma StepCounts(c: Cache, e: Event)
    requires Possible(c, e)
    ensures var after, hit := After(c, e), e.Got? && Get(c, e.key, e.now).1.Some?;
            && after.hits == c.hits + One(hit)
            && after.misses == c.misses + One(e.Got? && !hit)
            && after.evictions == c.evictions + One(IsStore(e) && e.victim.Some?)
  {
  }

  /** Hits are exactly the lookups the history has an answer for, misses the others,
      and evictions the stores that had to take a victim. */
  lemma {:induction false} CountersFromHistory(ttl: nat, max: nat, events: seq<Event>, c: Cache)
    requires Run(ttl, max, events) == Some(c)
    ensures c.hits == Answerable(ttl, events, true)
    ensures c.misses == Answerable(ttl, events, false)
    ensures c.evictions == Victims(events)
    decreases |events|
  {
    if events != [] {
      var prefix, e := events[..|events| - 1], events[|events| - 1];
      var before := Run(ttl, max, prefix).value;
      CountersFromHistory(ttl, max, prefix, before);
      StepCounts(before, e);
      if e.Got? {
        CacheRefinesHistory(ttl, max, prefix, before, e.key, e.now);
      }
    }
  }

  lemma RunExtends(ttl: nat, max: nat, events: seq<Event>, c: Cache, e: Event)
    requires Run(ttl, max, events) == Some(c) && e.now >= Clock(events) && Possible(c, e)
    ensures Run(ttl, max, events + [e]) == Some(After(c, e))
    ensures Gets(events + [e]) == Gets(events) + One(e.Got?)
  {
    assert (events + [e])[..|events|] == events;
  }

  // ----- eviction

  /** A victim is taken only from a table full of live entries, and it is one that
      expires no later than any entry kept. */
  lemma EvictionIsForced(ttl: nat, max: nat, events: seq<Event>, c: Cache, e: Event)
    requires Run(ttl, max, events) == Some(c)
    requires IsStore(e) && Possible(c, e) && e.victim.Some?
    ensures |c.entries| == c.maxEntries && forall k <- c.entries :: Live(c.entries[k], e.now)
    ensures e.victim.value in c.entries
    ensures forall k <- c.entries :: c.entries[e.victim.value].expiresAt <= c.entries[k].expiresAt
  {
    RunIsFaithful(ttl, max, events, c);
    SweptWhole(c.entries, e.now);
  }

  /** A store takes a victim exactly when the table is full and all of it is live, and
      the victim is then any entry inserted no later than every other. */
  lemma EvictsExactly(ttl: nat, max: nat, events: seq<Event>, c: Cache, key: Key, addrs: seq<SocketAddr>,
                      now: Instant, victim: Option<Key>)
    requires Run(ttl, max, events) == Some(c) && addrs != []
    ensures Possible(c, Stored(key, addrs, now, victim))
       <==> if |c.entries| == (if max == 0 then 1 else max) && forall k <- c.entries :: c.entries[k].expiresAt > now
            then victim.Some? && victim.value in c.entries
                 && forall k <- c.entries :: c.entries[victim.value].insertedAt <= c.entries[k].insertedAt
            else victim == None
  {
    RunIsFaithful(ttl, max, events, c);
    SweptWhole(c.entries, now);
    if forall k <- c.entries :: c.entries[k].expiresAt > now {
      assert Retained(c.entries, now) == c.entries;
    }
  }

  /** What a store leaves: below the bound everything and the new entry; at it, what is
      live and not the victim, and the new entry. */
  lemma StoreExactly(ttl: nat, max: nat, events: seq<Event>, c: Cache, key: Key, addrs: seq<SocketAddr>,
                     now: Instant, victim: Option<Key>)
    requires Run(ttl, max, events) == Some(c) && addrs != [] && Possible(c, Stored(key, addrs, now, victim))
    ensures var after := After(c, Stored(key, addrs, now, victim));
            var full := |c.entries| == if max == 0 then 1 else max;
            && after.inserts == c.inserts + 1
            && after.entries.Keys == {key} + set k | k in c.entries && (full ==> c.entries[k].expiresAt > now) && Some(k) != victim
            && after.entries[key] == Entry(addrs, now + ttl, now)
            && (forall k <- after.entries :: k != key ==> after.entries[k] == c.entries[k])
  {
    RunIsFaithful(ttl, max, events, c);
    EvictsExactly(ttl, max, events, c, key, addrs, now, victim);
  }

  /** Storing a key that is still held evicts some other entry `v` exactly when the
      table is full, everything in it is live and nothing in it is older than `v`; the
      table then shrinks by `v`. */
  lemma HeldKeyEvictsAnother(ttl: nat, max: nat, events: seq<Event>, c: Cache,
                             key: Key, addrs: seq<SocketAddr>, now: Instant, v: Key)
    requires Run(ttl, max, events) == Some(c) && now >= Clock(events)
    requires addrs != [] && key in c.entries && v != key
    ensures Possible(c, Stored(key, addrs, now, Some(v)))
       <==> && |c.entries| == c.maxEntries
            && (forall k <- c.entries :: Live(c.entries[k], now))
            && Oldest(c.entries, v)
    ensures Possible(c, Stored(key, addrs, now, Some(v))) ==>
              v in c.entries && After(c, Stored(key, addrs, now, Some(v))).entries.Keys == c.entries.Keys - {v}
  {
    RunIsFaithful(ttl, max, events, c);
    SweptWhole(c.entries, now);
    if forall k <- c.entries :: Live(c.entries[k], now) {
      assert Retained(c.entries, now) == c.entries;
    }
  }

  /** It happens: two live names fill a table of two, and storing the newer one again
      leaves only that one. */
  lemma HeldKeyEvictsAnotherWitness(a: SocketAddr)
    ensures var events := [Stored("a:1", [a], 0, None), Stored("b:1", [a], 1, None)];
            var again := Stored("b:1", [a], 2, Some("a:1"));
            && Run(10, 2, events).Some? && Run(10, 2, events + [again]).Some?
            && Run(10, 2, events).value.entries.Keys == {"a:1", "b:1"}
            && Run(10, 2, events + [again]).value.entries.Keys == {"b:1"}
            && Remembered(events + [again], 10, "a:1", 2) == None
  {
    var e1, e2 := Stored("a:1", [a], 0, None), Stored("b:1", [a], 1, None);
    var again := Stored("b:1", [a], 2, Some("a:1"));
    assert "a:1"[0] != "b:1"[0];
    var c1 := After(New(10, 2), e1);
    assert c1.entries == map["a:1" := Entry([a], 10, 0)];
    RunExtends(10, 2, [], New(10, 2), e1);
    assert [] + [e1] == [e1] && [e1] + [e2] == [e1, e2];
    var c2 := After(c1, e2);
    assert c2.entries == map["a:1" := Entry([a], 10, 0), "b:1" := Entry([a], 11, 1)];
    RunExtends(10, 2, [e1], c1, e2);
    HeldKeyEvictsAnother(10, 2, [e1, e2], c2, "b:1", [a], 2, "a:1");
    RunExtends(10, 2, [e1, e2], c2, again);
    HistoryAfter([e1, e2], again);
  }

  /** The time of the latest store, or -1. */
  function LastStore(events: seq<Event>): int {
    if events == [] then -1
    else if IsStore(events[|events| - 1]) then events[|events| - 1].now
    else LastStore(events[..|events| - 1])
  }

  /** No two stores at the same instant. */
  predicate DistinctStores(events: seq<Event>) {
    events == [] ||
    (DistinctStores(events[..|events| - 1])
     && (IsStore(events[|events| - 1]) ==> events[|events| - 1].now > LastStore(events[..|events| - 1])))
  }

  ghost predicate DistinctEntries(events: seq<Event>, c: Cache) {
    && (forall k <- c.entries :: c.entries[k].insertedAt <= LastStore(events))
    && (forall j <- c.entries, k <- c.entries :: c.entries[j].insertedAt == c.entries[k].insertedAt ==> j == k)
  }

  lemma {:induction false} StoresKeepDistinct(ttl: nat, max: nat, events: seq<Event>, c: Cache)
    requires Run(ttl, max, events) == Some(c) && DistinctStores(events)
    ensures DistinctEntries(events, c)
    decreases |events|
  {
    if events != [] {
      var prefix := events[..|events| - 1];
      var before := Run(ttl, max, prefix).value;
      StoresKeepDistinct(ttl, max, prefix, before);
    }
  }

  function NewerThan(t: Instant): Entry -> bool {
    (e: Entry) => e.insertedAt > t
  }

  /** Only a store adds an entry newer than `t`, and it adds one. */
  lemma NewerAfterStep(c: Cache, e: Event, t: Instant)
    requires Possible(c, e)
    ensures Count(After(c, e).entries, NewerThan(t)) <= Count(c.entries, NewerThan(t)) + One(IsStore(e))
  {
    if IsStore(e) {
      var room := Evicted(Swept(c, e.now), e.victim).entries;
      CountSubmap(room, c.entries, NewerThan(t));
      CountUpdate(room, e.key, Entry(e.addrs, e.now + c.ttl, e.now), NewerThan(t));
    } else {
      CountSubmap(After(c, e).entries, c.entries, NewerThan(t));
    }
  }

  lemma CountSubmap<K, V>(a: map<K, V>, b: map<K, V>, p: V -> bool)
    requires forall k <- a :: k in b && a[k] == b[k]
    ensures Count(a, p) <= Count(b, p)
  {
    SubsetSize(Select(a, p), Select(b, p));
  }

  lemma {:induction false} NewerBoundedByStores(ttl: nat, max: nat, events: seq<Event>, i: nat, c: Cache)
    requires i <= |events| && Run(ttl, max, events) == Some(c)
    ensures Count(c.entries, NewerThan(Clock(events[..i]))) <= Stores(events) - Stores(events[..i])
    decreases |events|
  {
    if i == |events| {
      assert events[..i] == events;
      RunIsFaithful(ttl, max, events, c);
      CountNone(c.entries, NewerThan(Clock(events)));
    } else {
      var prefix, e := events[..|events| - 1], events[|events| - 1];
      var before := Run(ttl, max, prefix).value;
      NewerBoundedByStores(ttl, max, prefix, i, before);
      assert prefix[..i] == events[..i];
      NewerAfterStep(before, e, Clock(events[..i]));
    }
  }

  lemma {:induction false} LatestNotBefore(events: seq<Event>, i: nat, key: Key, ttl: nat, max: nat)
    requires i < |events| && IsStore(events[i]) && events[i].key == key
    requires Run(ttl, max, events).Some?
    ensures Latest(events, key).Some? && Latest(events, key).value.1 >= events[i].now
    decreases |events|
  {
    var prefix := events[..|events| - 1];
    if i < |prefix| {
      LatestNotBefore(prefix, i, key, ttl, max);
      LatestInPast(prefix, key, ttl, max);
    }
  }

  lemma {:induction false} LatestInPast(events: seq<Event>, key: Key, ttl: nat, max: nat)
    requires Run(ttl, max, events).Some?
    ensures Latest(events, key).Some? ==> Latest(events, key).value.1 <= Clock(events)
    decreases |events|
  {
    if events != [] {
      LatestInPast(events[..|events| - 1], key, ttl, max);
    }
  }

  /** With distinct insertion instants, evicting a name takes at least `max` stores
      counted from just after its own: none of the next `max - 1` can do it. */
  lemma NewcomersSurvive(ttl: nat, max: nat, events: seq<Event>, i: nat, c: Cache, e: Event)
    requires Run(ttl, max, events) == Some(c) && DistinctStores(events)
    requires i < |events| && IsStore(events[i])
    requires IsStore(e) && Possible(c, e) && e.victim == Some(events[i].key)
    ensures Stores(events + [e]) - Stores(events[..i + 1]) >= c.maxEntries
  {
    var key := events[i].key;
    var t := events[i].now;
    RunIsFaithful(ttl, max, events, c);
    StoresKeepDistinct(ttl, max, events, c);
    EvictionIsForced(ttl, max, events, c, e);
    LatestNotBefore(events, i, key, ttl, max);
    assert Clock(events[..i + 1]) == t;
    NewerBoundedByStores(ttl, max, events, i + 1, c);
    assert c.entries.Keys - {key} <= Select(c.entries, NewerThan(t));
    SubsetSize(c.entries.Keys - {key}, Select(c.entries, NewerThan(t)));
    assert (events + [e])[..|events|] == events;
  }
}
