/** `addr_to_socket`: one lookup as the code runs it, and any number of them
    interleaved around their resolver calls. */
module DnsLookups {
  import opened Wrappers
  import opened Wire
  import opened Counting
  import opened Dns
  import opened DnsRuns

  function Digit(d: nat): char
    requires d < 10
  {
    ('0' as int + d) as char
  }

  function Decimal(n: nat): string {
    (if n < 10 then "" else Decimal(n / 10)) + [Digit(n % 10)]
  }

  /** The cache key: the decoded name, a colon and the port. */
  function KeyOf(name: string, port: port): Key {
    name + ":" + Decimal(port)
  }

  lemma {:induction false} DecimalInjective(m: nat, n: nat)
    requires Decimal(m) == Decimal(n)
    ensures m == n
    decreases m
  {
    var dm, dn := Decimal(m), Decimal(n);
    assert dm[|dm| - 1] == Digit(m % 10) && dn[|dn| - 1] == Digit(n % 10);
    assert dm[..|dm| - 1] == (if m < 10 then "" else Decimal(m / 10));
    assert dn[..|dn| - 1] == (if n < 10 then "" else Decimal(n / 10));
    if m >= 10 && n >= 10 {
      DecimalInjective(m / 10, n / 10);
    } else {
      DecimalNonEmpty(m / 10);
      DecimalNonEmpty(n / 10);
    }
  }

  lemma DecimalNonEmpty(n: nat)
    ensures Decimal(n) != ""
    ensures ':' !in Decimal(n)
    decreases n
  {
    if n >= 10 {
      DecimalNonEmpty(n / 10);
    }
  }

  /** Different names or ports never share an entry, colons in the name included. */
  lemma KeysAreDistinct(name: string, p: port, name': string, p': port)
    requires KeyOf(name, p) == KeyOf(name', p')
    ensures name == name' && p == p'
  {
    var key := KeyOf(name, p);
    DecimalNonEmpty(p);
    DecimalNonEmpty(p');
    assert key[|name|] == ':' && key[|name'|] == ':';
    assert key[|name| + 1..] == Decimal(p) && key[|name'| + 1..] == Decimal(p');
    assert |name| == |name'|;
    assert name == key[..|name|] && name' == key[..|name'|];
    DecimalInjective(p, p');
  }

  /** What a literal address stands for; None for a name, which needs resolving. */
  function Literal(t: AddrType, addr: seq<byte>, port: port): Option<Result<seq<SocketAddr>>> {
    match t
    case V6 => Some(if |addr| == 16 then Ok([SocketAddr(Ipv6(addr), port)]) else Err(Io(InvalidInput)))
    case V4 => Some(if |addr| == 4 then Ok([SocketAddr(Ipv4(addr), port)]) else Err(Io(InvalidInput)))
    case Domain => None
  }

  /** A lookup run undisturbed, with or without a cache; `name` is the decoded
      address, `resolved` what the resolver says if it is asked, between the instants
      `asked` and `stored`. */
  method AddrToSocket(t: AddrType, addr: seq<byte>, name: string, port: port, cache: DnsCache?,
                      asked: Instant, resolved: Result<seq<SocketAddr>>, stored: Instant)
    returns (r: Result<seq<SocketAddr>>, victim: Option<Key>)
    requires cache != null ==> cache.Valid()
    modifies if cache == null then {} else {cache}
    ensures Literal(t, addr, port).Some? ==> r == Literal(t, addr, port).value
    ensures t == V4 ==> r == if |addr| == 4 then Ok([SocketAddr(Ipv4(addr), port)]) else Err(Io(InvalidInput))
    ensures t == V6 ==> r == if |addr| == 16 then Ok([SocketAddr(Ipv6(addr), port)]) else Err(Io(InvalidInput))
    ensures Literal(t, addr, port).Some? && cache != null ==> cache.View() == old(cache.View())
    ensures Literal(t, addr, port).None? && cache == null ==> r == resolved
    ensures Literal(t, addr, port).None? && cache != null ==>
              var key := KeyOf(name, port);
              var (c, hit) := Get(old(cache.View()), key, asked);
              if hit.Some? then r == Ok(hit.value) && cache.View() == c
              else if resolved.Err? then r == resolved && cache.View() == c
              else r == resolved
                   && (resolved.value != [] ==> ValidVictim(c, stored, victim))
                   && cache.View() == Insert(c, key, resolved.value, stored, victim)
  {
    victim := None;
    match t {
      case V6 => return if |addr| == 16 then Ok([SocketAddr(Ipv6(addr), port)]) else Err(Io(InvalidInput)), None;
      case V4 => return if |addr| == 4 then Ok([SocketAddr(Ipv4(addr), port)]) else Err(Io(InvalidInput)), None;
      case Domain =>
        var key := name + ":" + Decimal(port);
        if cache != null {
          var hit := cache.Lookup(key, asked);
          if hit.Some? {
            return Ok(hit.value), None;
          }
        }
        if resolved.Err? {
          return resolved, None;
        }
        var addrs := resolved.value;
        if cache != null {
          victim := cache.Store(key, addrs, stored);
        }
        return Ok(addrs), victim;
    }
  }

  // ----- interleaved lookups

  /** Recalled: answered from memory when consulted as the history's event `at`.
      Answered: by the resolver, after the answer was stored. */
  datatype Phase =
    | Looking
    | Resolving
    | Storing(addrs: seq<SocketAddr>)
    | Recalled(addrs: seq<SocketAddr>, at: nat)
    | Answered(addrs: seq<SocketAddr>)
    | Failed

  datatype Lookup = Lookup(key: Key, phase: Phase)

  /** The shared cache, its history, every lookup, and all the resolver ever said. */
  datatype World = World(
    cache: Cache,
    events: seq<Event>,
    lookups: map<nat, Lookup>,
    said: set<(Key, seq<SocketAddr>)>)

  datatype Step =
    | Arrive(id: nat, key: Key)
    | Consult(id: nat, now: Instant)
    | Resolve(id: nat, addrs: seq<SocketAddr>)
    | ResolveFails(id: nat)
    | Remember(id: nat, now: Instant, victim: Option<Key>)

  function StoreEvent(w: World, s: Step): Event
    requires s.Remember? && s.id in w.lookups && w.lookups[s.id].phase.Storing?
  {
    Stored(w.lookups[s.id].key, w.lookups[s.id].phase.addrs, s.now, s.victim)
  }

  predicate Enabled(w: World, s: Step) {
    match s
    case Arrive(id, _) => id !in w.lookups
    case Consult(id, now) => id in w.lookups && w.lookups[id].phase.Looking? && now >= Clock(w.events)
    case Resolve(id, _) => id in w.lookups && w.lookups[id].phase.Resolving?
    case ResolveFails(id) => id in w.lookups && w.lookups[id].phase.Resolving?
    case Remember(id, now, _) =>
      id in w.lookups && w.lookups[id].phase.Storing? && now >= Clock(w.events) && Possible(w.cache, StoreEvent(w, s))
  }

  /** The lookup a step works on, afterwards. */
  function Moved(w: World, s: Step): Lookup
    requires Enabled(w, s)
  {
    match s
    case Arrive(_, key) => Lookup(key, Looking)
    case Consult(id, now) =>
      var hit := Get(w.cache, w.lookups[id].key, now).1;
      Lookup(w.lookups[id].key, if hit.Some? then Recalled(hit.value, |w.events|) else Resolving)
    case Resolve(id, addrs) => Lookup(w.lookups[id].key, Storing(addrs))
    case ResolveFails(id) => Lookup(w.lookups[id].key, Failed)
    case Remember(id, _, _) => Lookup(w.lookups[id].key, Answered(w.lookups[id].phase.addrs))
  }

  /** The critical section a step goes through, if it goes through one. */
  function Section(w: World, s: Step): Option<Event>
    requires Enabled(w, s)
  {
    match s
    case Consult(id, now) => Some(Got(w.lookups[id].key, now))
    case Remember(_, _, _) => Some(StoreEvent(w, s))
    case _ => None
  }

  function Apply(w: World, s: Step): World
    requires Enabled(w, s)
  {
    var lookups := w.lookups[s.id := Moved(w, s)];
    var said := if s.Resolve? then w.said + {(w.lookups[s.id].key, s.addrs)} else w.said;
    match Section(w, s)
    case None => World(w.cache, w.events, lookups, said)
    case Some(e) => World(After(w.cache, e), w.events + [e], lookups, said)
  }

  function RunAll(ttl: nat, max: nat, steps: seq<Step>): Option<World> {
    if steps == [] then Some(World(New(ttl, max), [], map[], {})) else
    match RunAll(ttl, max, steps[..|steps| - 1])
    case None => None
    case Some(w) =>
      var s := steps[|steps| - 1];
      if Enabled(w, s) then Some(Apply(w, s)) else None
  }

  predicate Consulted(l: Lookup) {
    !l.phase.Looking?
  }

  // ----- what every interleaving keeps, one clause at a time

  ghost predicate OneHistory(ttl: nat, max: nat, w: World) {
    Run(ttl, max, w.events) == Some(w.cache) && Gets(w.events) == Count(w.lookups, Consulted)
  }

  /** A list a lookup has in hand is one the resolver gave for its key. */
  predicate InHand(l: Lookup, said: set<(Key, seq<SocketAddr>)>) {
    l.phase.Storing? || l.phase.Recalled? || l.phase.Answered? ==> (l.key, l.phase.addrs) in said
  }

  ghost predicate EntriesSaid(c: Cache, said: set<(Key, seq<SocketAddr>)>) {
    forall k <- c.entries :: (k, c.entries[k].addrs) in said
  }

  /** A recalled list is the latest one stored under the key when it was consulted,
      stored less than `ttl` before. */
  predicate FromMemory(l: Lookup, events: seq<Event>, ttl: nat) {
    l.phase.Recalled? ==>
      && l.phase.at < |events|
      && events[l.phase.at] == Got(l.key, events[l.phase.at].now)
      && var latest := Latest(events[..l.phase.at], l.key);
         latest.Some? && latest.value.0 == l.phase.addrs && events[l.phase.at].now < latest.value.1 + ttl
  }

  ghost predicate Inv(ttl: nat, max: nat, w: World) {
    && OneHistory(ttl, max, w)
    && EntriesSaid(w.cache, w.said)
    && (forall id <- w.lookups :: InHand(w.lookups[id], w.said))
    && (forall id <- w.lookups :: FromMemory(w.lookups[id], w.events, ttl))
  }

  lemma HistoryKept(ttl: nat, max: nat, w: World, s: Step)
    requires OneHistory(ttl, max, w) && Enabled(w, s)
    ensures OneHistory(ttl, max, Apply(w, s))
  {
    CountUpdate(w.lookups, s.id, Moved(w, s), Consulted);
    match Section(w, s) {
      case None =>
      case Some(e) => RunExtends(ttl, max, w.events, w.cache, e);
    }
  }

  lemma EntriesStaySaid(c: Cache, e: Event, said: set<(Key, seq<SocketAddr>)>)
    requires EntriesSaid(c, said) && (e.Stored? ==> (e.key, e.addrs) in said)
    ensures EntriesSaid(After(c, e), said)
  {
  }

  lemma MoreIsSaid(c: Cache, said: set<(Key, seq<SocketAddr>)>, more: set<(Key, seq<SocketAddr>)>)
    requires EntriesSaid(c, said) && said <= more
    ensures EntriesSaid(c, more)
  {
  }

  lemma SaidKept(w: World, s: Step)
    requires Enabled(w, s) && EntriesSaid(w.cache, w.said)
    requires forall id <- w.lookups :: InHand(w.lookups[id], w.said)
    ensures EntriesSaid(Apply(w, s).cache, Apply(w, s).said)
    ensures forall id <- Apply(w, s).lookups :: InHand(Apply(w, s).lookups[id], Apply(w, s).said)
  {
    var v := Apply(w, s);
    match Section(w, s) {
      case None => MoreIsSaid(w.cache, w.said, v.said);
      case Some(e) =>
        assert s.Remember? ==> InHand(w.lookups[s.id], w.said);
        EntriesStaySaid(w.cache, e, w.said);
    }
    assert InHand(Moved(w, s), v.said);
    forall id | id in v.lookups ensures InHand(v.lookups[id], v.said) {
      if id != s.id {
        assert InHand(w.lookups[id], w.said);
      }
    }
  }

  lemma MemoryOutlivesHistory(l: Lookup, events: seq<Event>, e: Event, ttl: nat)
    requires FromMemory(l, events, ttl)
    ensures FromMemory(l, events + [e], ttl)
  {
    if l.phase.Recalled? {
      assert (events + [e])[..l.phase.at] == events[..l.phase.at];
    }
  }

  lemma RecallIsFromMemory(ttl: nat, max: nat, w: World, id: nat, now: Instant)
    requires OneHistory(ttl, max, w) && Enabled(w, Consult(id, now))
    ensures FromMemory(Moved(w, Consult(id, now)), w.events + [Got(w.lookups[id].key, now)], ttl)
  {
    var key := w.lookups[id].key;
    CacheRefinesHistory(ttl, max, w.events, w.cache, key, now);
    assert (w.events + [Got(key, now)])[..|w.events|] == w.events;
  }

  lemma MemoryKept(ttl: nat, max: nat, w: World, s: Step)
    requires OneHistory(ttl, max, w) && Enabled(w, s)
    requires forall id <- w.lookups :: FromMemory(w.lookups[id], w.events, ttl)
    ensures forall id <- Apply(w, s).lookups :: FromMemory(Apply(w, s).lookups[id], Apply(w, s).events, ttl)
  {
    var v := Apply(w, s);
    if s.Consult? {
      RecallIsFromMemory(ttl, max, w, s.id, s.now);
    }
    forall id | id in v.lookups ensures FromMemory(v.lookups[id], v.events, ttl) {
      if id != s.id && Section(w, s).Some? {
        MemoryOutlivesHistory(w.lookups[id], w.events, Section(w, s).value, ttl);
      }
    }
  }

  lemma {:induction false} ReachableInv(ttl: nat, max: nat, steps: seq<Step>, w: World)
    requires RunAll(ttl, max, steps) == Some(w)
    ensures Inv(ttl, max, w)
    decreases |steps|
  {
    if steps == [] {
      CountNone(w.lookups, Consulted);
    } else {
      var before, s := RunAll(ttl, max, steps[..|steps| - 1]).value, steps[|steps| - 1];
      ReachableInv(ttl, max, steps[..|steps| - 1], before);
      HistoryKept(ttl, max, before, s);
      SaidKept(before, s);
      MemoryKept(ttl, max, before, s);
    }
  }

  /** However lookups interleave, the cache saw one legal history, so everything
      proved of histories holds; each lookup consulted it once; every answer is one
      the resolver gave for that very key; and an answer from memory was the latest
      one stored under it, less than `ttl` before the lookup consulted the cache. */
  lemma InterleavedLookups(ttl: nat, max: nat, steps: seq<Step>, w: World)
    requires RunAll(ttl, max, steps) == Some(w)
    ensures Run(ttl, max, w.events) == Some(w.cache)
    ensures w.cache.hits + w.cache.misses == Count(w.lookups, Consulted)
    ensures forall id <- w.lookups :: InHand(w.lookups[id], w.said)
    ensures forall id <- w.lookups :: FromMemory(w.lookups[id], w.events, ttl)
  {
    ReachableInv(ttl, max, steps, w);
    CountersBalance(ttl, max, w.events, w.cache);
  }
}
