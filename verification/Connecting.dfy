/** Where a CONNECT request's reply code comes from: the lookup of its destination and
    the race over the addresses that came back. */
module Connecting {
  import opened Wrappers
  import opened Wire
  import opened Streams
  import opened Statistics
  import opened Session
  import opened SessionProperties
  import opened SessionOutcomes
  import Dns
  import DnsLookups
  import opened ConnectRace

  /** What the lookup answers: the literal, what the cache remembers, or the resolver. */
  function LookedUp(q: Request, name: string, cache: Option<Dns.Cache>, asked: Dns.Instant,
                    resolved: Result<seq<SocketAddr>>): Result<seq<SocketAddr>> {
    match DnsLookups.Literal(q.addrType, q.addr, q.port)
    case Some(r) => r
    case None =>
      if cache.None? then resolved else
      match Dns.Get(cache.value, DnsLookups.KeyOf(name, q.port), asked).1
      case Some(addrs) => Ok(addrs)
      case None => resolved
  }

  /** What a session sees of a lookup and of the race over its answer; None: the
      connect timer fired first. */
  function EnvOf(answer: Result<seq<SocketAddr>>, race: Option<RaceOutcome>): Env {
    var resolution := if answer.Err? then Some(if answer.error.Io? then answer.error.kind else OtherKind) else None;
    var connection :=
      match race
      case None => Connection.TimedOut
      case Some(Won(_)) => Connected
      case Some(Lost(kind)) => Connection.Refused(kind);
    Env(resolution, connection, Err(TRUNCATED))
  }

  /** Looking up and connecting, as `handle_request` runs them. `reports` is what the
      race over some addresses sends before its channel closes, if the timer lets it. */
  method ConnectTarget(q: Request, name: string, cache: Dns.DnsCache?, asked: Dns.Instant,
                       resolved: Result<seq<SocketAddr>>, stored: Dns.Instant,
                       reports: seq<SocketAddr> -> Option<seq<Report>>)
    returns (r: Result<Option<SocketAddr>>)
    requires q.command == Connect && (cache != null ==> cache.Valid())
    requires resolved.Err? ==> resolved.error.Io?
    modifies if cache == null then {} else {cache}
    ensures var before := if cache == null then None else Some(old(cache.View()));
            var answer := LookedUp(q, name, before, asked, resolved);
            var race := if answer.Err? || reports(answer.value).None? then None
                        else Some(RaceResult(reports(answer.value).value));
            r == Prepare(q, EnvOf(answer, race))
  {
    var answer, _ := DnsLookups.AddrToSocket(q.addrType, q.addr, name, q.port, cache, asked, resolved, stored);
    if answer.Err? {
      return Err(if answer.error == Io(InvalidInput) then answer.error else Socks(HostNotReachable));
    }
    var sent := reports(answer.value);
    if sent.None? {
      return Err(Socks(TtlExpired));
    }
    var outcome, _ := ReceiveOutcome(sent.value);
    match outcome {
      case Won(_) => return Ok(None);
      case Lost(kind) => return Err(ConnectError(kind));
    }
  }

  /** The code a race ends in, from the fates of its attempts. */
  ghost predicate RaceByte(fates: seq<Fate>, r: Race, b: byte) {
    match r.returned
    case None => b == 0x06
    case Some(Won(i)) => b == 0x00 && i < |fates| && fates[i].Connects?
    case Some(Lost(kind)) =>
      && (forall f <- fates :: f.Fails?)
      && b == ConnectByte(kind)
      && (if fates == [] then b == 0x04 else Fate.Fails(kind) in fates)
  }

  lemma LostKindIsAFate(fates: seq<Fate>, steps: seq<Step>, r: Race)
    requires ConnectRace.Run(fates, steps) == Some(r) && r.returned.Some? && r.returned.value.Lost?
    ensures fates != [] ==> Fate.Fails(r.returned.value.kind) in fates
  {
    ResultIsRight(fates, steps, r);
    AtMostOnce(fates, steps, r);
    if fates != [] {
      var last := r.received[|r.received| - 1];
      assert last == ReportOf(fates, last.index);
      assert fates[last.index] in fates;
    }
  }

  /** Whenever the race stands as `r`, be it over or not, the reply a CONNECT would get
      tells: 4 or 1 that there was nothing to race over, 0 that an attempt won, 6 that
      none had when the timer fired, and else how the last of the failures failed. */
  lemma ConnectReplyCode(q: Request, answer: Result<seq<SocketAddr>>, fates: seq<Fate>, steps: seq<Step>, r: Race)
    requires q.command == Connect && (answer.Err? ==> answer.error.Io?)
    requires answer.Ok? ==> |fates| == |answer.value|
    requires ConnectRace.Run(fates, steps) == Some(r)
    ensures var b := ReplyByte(q, EnvOf(answer, r.returned));
            match answer
            case Err(e) => b == if e.kind == InvalidInput then 0x01 else 0x04
            case Ok(_) => RaceByte(fates, r, b)
  {
    if r.returned.Some? {
      ResultIsRight(fates, steps, r);
      if r.returned.value.Lost? {
        LostKindIsAFate(fates, steps, r);
      }
    }
  }

  /** A parsed request with a literal destination never fails in the lookup. */
  lemma LiteralsResolve(q: Request, name: string, cache: Option<Dns.Cache>, asked: Dns.Instant, resolved: Result<seq<SocketAddr>>)
    requires WellFormedAddr(q.addrType, q.addr) && q.addrType != Domain
    ensures var answer := LookedUp(q, name, cache, asked, resolved);
            answer.Ok? && |answer.value| == 1 && answer.value[0].port == q.port && answer.value[0].ip.octets == q.addr
  {
  }

  /** And once it can go no further, with time to spare: success if and only if some
      address accepts, a timeout if and only if none does and one never answers. */
  lemma SettledRaceCode(q: Request, answer: Result<seq<SocketAddr>>, fates: seq<Fate>, steps: seq<Step>, r: Race)
    requires q.command == Connect && answer.Ok? && |fates| == |answer.value|
    requires ConnectRace.Run(fates, steps) == Some(r) && Stuck(fates, r)
    ensures var b := ReplyByte(q, EnvOf(answer, r.returned));
            && (b == 0x00 <==> exists f <- fates :: f.Connects?)
            && (b == 0x06 <==> (exists f <- fates :: f.Hangs?) && !(exists f <- fates :: f.Connects?))
  {
    RaceEnds(fates, steps, r);
    ConnectReplyCode(q, answer, fates, steps, r);
  }

  /** So an admitted client that asked to CONNECT gets its method answers and then one
      reply, whose code is 0 if and only if some address of its destination accepts. */
  lemma AdmittedConnect(cfg: Config, x: Script, rest: seq<byte>, l: Link, c: Counters,
                        answer: Result<seq<SocketAddr>>, fates: seq<Fate>, steps: seq<Step>, r: Race)
    requires WellFormed(x) && Admitted(cfg, x) && l.unread == Encode(x) + rest && Attentive(l)
    requires x.request.command == Connect && (answer.Err? ==> answer.error.Io?)
    requires answer.Ok? ==> |fates| == |answer.value|
    requires ConnectRace.Run(fates, steps) == Some(r) && Stuck(fates, r)
    ensures var (result, l', _) := Conducted(cfg, EnvOf(answer, r.returned), l, c);
            && (result.Ok? <==> answer.Ok? && exists f <- fates :: f.Connects?)
            && l'.closed == result.Err?
            && exists reply :: |reply| == 10 && l'.sent == Answers(x) + reply
                 && (reply[1] == 0x00 <==> answer.Ok? && exists f <- fates :: f.Connects?)
  {
    var env := EnvOf(answer, r.returned);
    AdmittedClientReply(cfg, x, rest, env, l, c);
    var reply :| Conducted(cfg, env, l, c).1.sent == Answers(x) + reply && ReplyFor(x.request, env, reply);
    assert reply[1] == reply[..2][1];
    assert |reply[2..]| == 8;
    ConnectReplyCode(x.request, answer, fates, steps, r);
    RaceEnds(fates, steps, r);
    ScriptAccepted(cfg, x, rest, l, c);
    RequestSettled(x.request, env, Accepted(x, rest, l, c).link, c);
  }
}
