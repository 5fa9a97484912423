/** The positive DNS cache: two critical sections on a shared table, and the lookups
    that run them on either side of a resolver call. */
module Dns {
  import opened Wrappers
  import opened Wire
  import opened Counting

  /** `name:port`, the text a lookup is keyed by. */
  type Key = string
  type Instant = nat

  datatype Entry = Entry(addrs: seq<SocketAddr>, expiresAt: Instant, insertedAt: Instant)

  datatype Cache = Cache(
    ttl: nat,
    maxEntries: nat,
    entries: map<Key, Entry>,
    hits: nat,
    misses: nat,
    inserts: nat,
    evictions: nat,
    expiredDropped: nat)

  function New(ttl: nat, maxEntries: nat): Cache {
    Cache(ttl, if maxEntries == 0 then 1 else maxEntries, map[], 0, 0, 0, 0, 0)
  }

  predicate Live(e: Entry, now: Instant) {
    e.expiresAt > now
  }

  // ----- the two critical sections as functions

  function Get(c: Cache, key: Key, now: Instant): (Cache, Option<seq<SocketAddr>>) {
    if key !in c.entries then (c.(misses := c.misses + 1), None)
    else if !Live(c.entries[key], now) then
      (c.(entries := c.entries - {key}, expiredDropped := c.expiredDropped + 1, misses := c.misses + 1), None)
    else (c.(hits := c.hits + 1), Some(c.entries[key].addrs))
  }

  function Retained(entries: map<Key, Entry>, now: Instant): (kept: map<Key, Entry>)
    ensures |kept| <= |entries|
  {
    var kept := map k | k in entries && Live(entries[k], now) :: entries[k];
    SubsetSize(kept.Keys, entries.Keys);
    kept
  }

  /** The table once expired entries have made room, if room was needed. */
  function Swept(c: Cache, now: Instant): Cache {
    if |c.entries| < c.maxEntries then c
    else c.(entries := Retained(c.entries, now),
            expiredDropped := c.expiredDropped + (|c.entries| - |Retained(c.entries, now)|))
  }

  predicate MustEvict(c: Cache, now: Instant) {
    |c.entries| >= c.maxEntries && |Swept(c, now).entries| >= c.maxEntries
  }

  /** `min_by_key` over an unordered table: any entry no other is older than. */
  predicate Oldest(entries: map<Key, Entry>, victim: Key) {
    victim in entries && forall k <- entries :: entries[victim].insertedAt <= entries[k].insertedAt
  }

  predicate ValidVictim(c: Cache, now: Instant, victim: Option<Key>) {
    if MustEvict(c, now) then victim.Some? && Oldest(Swept(c, now).entries, victim.value) else victim.None?
  }

  function Evicted(c: Cache, victim: Option<Key>): Cache {
    match victim
    case None => c
    case Some(k) => c.(entries := c.entries - {k}, evictions := c.evictions + 1)
  }

  function Insert(c: Cache, key: Key, addrs: seq<SocketAddr>, now: Instant, victim: Option<Key>): Cache {
    if addrs == [] then c else
    var room := Evicted(Swept(c, now), victim);
    room.(entries := room.entries[key := Entry(addrs, now + c.ttl, now)], inserts := room.inserts + 1)
  }

  /** A sweep that frees nothing found every entry live. */
  lemma SweptWhole(entries: map<Key, Entry>, now: Instant)
    ensures |Retained(entries, now)| == |entries| ==>
              Retained(entries, now) == entries && forall k <- entries :: Live(entries[k], now)
  {
    var kept := Retained(entries, now);
    if |kept| == |entries| {
      assert kept.Keys <= entries.Keys;
      assert |entries.Keys - kept.Keys| == |entries.Keys| - |kept.Keys|;
      assert entries.Keys - kept.Keys == {};
    }
  }

  // ----- the class

  class DnsCache {
    const ttl: nat
    const maxEntries: nat
    var entries: map<Key, Entry>
    var hits: nat
    var misses: nat
    var inserts: nat
    var evictions: nat
    var expiredDropped: nat

    function View(): Cache
      reads this
    {
      Cache(ttl, maxEntries, entries, hits, misses, inserts, evictions, expiredDropped)
    }

    predicate Valid() {
      maxEntries >= 1
    }

    constructor (ttl: nat, maxEntries: nat)
      ensures Valid() && View() == New(ttl, maxEntries)
    {
      this.ttl := ttl;
      this.maxEntries := if maxEntries == 0 then 1 else maxEntries;
      entries, hits, misses, inserts, evictions, expiredDropped := map[], 0, 0, 0, 0, 0;
    }

    method Lookup(key: Key, now: Instant) returns (r: Option<seq<SocketAddr>>)
      modifies this
      ensures (View(), r) == Get(old(View()), key, now)
      ensures if key in old(entries) && old(entries)[key].expiresAt > now then
                r == Some(old(entries)[key].addrs) && entries == old(entries) && expiredDropped == old(expiredDropped)
                && hits == old(hits) + 1 && misses == old(misses)
              else
                r == None && entries == old(entries) - {key}
                && expiredDropped == old(expiredDropped) + (if key in old(entries) then 1 else 0)
                && hits == old(hits) && misses == old(misses) + 1
      ensures inserts == old(inserts) && evictions == old(evictions)
    {
      if key !in entries {
        misses := misses + 1;
        return None;
      }
      if entries[key].expiresAt <= now {
        entries := entries - {key};
        expiredDropped := expiredDropped + 1;
        misses := misses + 1;
        return None;
      }
      hits := hits + 1;
      return Some(entries[key].addrs);
    }

    /** `retain`: one pass over the table in whatever order it iterates. */
    method Retain(now: Instant) returns (expired: nat)
      modifies this`entries
      ensures entries == Retained(old(entries), now)
      ensures expired == |old(entries)| - |entries|
    {
      expired := 0;
      var todo := entries.Keys;
      while todo != {}
        invariant todo <= entries.Keys <= old(entries).Keys
        invariant forall k <- entries :: entries[k] == old(entries)[k]
        invariant forall k <- old(entries) :: k in entries <==> k in todo || Live(old(entries)[k], now)
        invariant expired == |old(entries)| - |entries|
      {
        var key :| key in todo;
        todo := todo - {key};
        if !(entries[key].expiresAt > now) {
          entries := entries - {key};
          expired := expired + 1;
        }
      }
    }

    method OldestEntry() returns (oldest: Option<Key>)
      ensures entries == map[] ==> oldest == None
      ensures entries != map[] ==> oldest.Some? && Oldest(entries, oldest.value)
    {
      oldest := None;
      var todo := entries.Keys;
      while todo != {}
        invariant todo <= entries.Keys
        invariant oldest.None? ==> todo == entries.Keys
        invariant oldest.Some? ==> oldest.value in entries
        invariant oldest.Some? ==> forall k <- entries.Keys - todo :: entries[oldest.value].insertedAt <= entries[k].insertedAt
      {
        var key :| key in todo;
        todo := todo - {key};
        if oldest.None? || entries[key].insertedAt < entries[oldest.value].insertedAt {
          oldest := Some(key);
        }
      }
    }

    method Store(key: Key, addrs: seq<SocketAddr>, now: Instant) returns (victim: Option<Key>)
      requires Valid()
      modifies this
      ensures addrs != [] ==> ValidVictim(old(View()), now, victim)
      ensures View() == Insert(old(View()), key, addrs, now, victim)
    {
      victim := None;
      if addrs == [] {
        return;
      }
      if |entries| >= maxEntries {
        var expired := Retain(now);
        expiredDropped := expiredDropped + expired;
        assert View() == Swept(old(View()), now);
        if |entries| >= maxEntries {
          victim := OldestEntry();
          match victim {
            case Some(k) =>
              entries := entries - {k};
              evictions := evictions + 1;
            case None =>
          }
        }
      }
      entries := entries[key := Entry(addrs, now + ttl, now)];
      inserts := inserts + 1;
    }
  }
}
