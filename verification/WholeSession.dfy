/** A connection to its very end: what follows the first success reply of CONNECT, BIND
    and UDP ASSOCIATE, and the error path it can still come to. */
module WholeSession {
  import opened Wrappers
  import opened Wire
  import opened Streams
  import opened Statistics
  import opened Session
  import opened SessionProperties
  import opened SessionOutcomes
  import opened SessionCharges
  import Relay
  import opened Counting
  import opened WireLayout
  import UdpAssociation

  // ----- the peer a BIND waits for

  datatype Inbound = Peer(addr: SocketAddr) | AcceptFails(kind: IoKind) | NobodyCame

  /** The peer that came, if it is one the request allows. */
  function Anticipated(q: Request, inbound: Inbound): Result<SocketAddr> {
    match inbound
    case AcceptFails(kind) => Err(Io(kind))
    case NobodyCame => Err(Socks(TtlExpired))
    case Peer(p) =>
      var expected := UdpAssociation.ExpectedIp(q.addrType, q.addr);
      if expected.Some? && expected.value != p.ip then Err(Socks(RuleFailure)) else Ok(p)
  }

  /** A peer is let through if and only if the request names no literal address, or the
      all-zero one, or this peer's. */
  lemma PeerAdmitted(q: Request, p: SocketAddr)
    requires WellFormedAddr(q.addrType, q.addr)
    ensures Anticipated(q, Peer(p)) == Ok(p)
       <==> || q.addrType == Domain
            || (forall b <- q.addr :: b == 0)
            || (IpType(p.ip) == q.addrType && p.ip.octets == q.addr)
    ensures Anticipated(q, Peer(p)).Err? ==> Anticipated(q, Peer(p)) == Err(Socks(RuleFailure))
  {
    UdpAssociation.ExpectedIpBinds(q);
  }

  /** The second reply of a BIND, or why there is none. */
  function PeerReply(q: Request, inbound: Inbound, l: Link): (Result<()>, Link) {
    match Anticipated(q, inbound)
    case Err(e) => (Err(e), l)
    case Ok(p) => Replied(Some(p), l)
  }

  function Replied(bound: Option<SocketAddr>, l: Link): (Result<()>, Link) {
    var reply := Reply(Success, bound);
    (if l.WriteOutcome(reply).Done? then Ok(()) else Err(Io(BrokenPipe)), l.Write(reply))
  }

  /** `handle_bind` up to its relay. */
  method HandleBind(stream: Stream, q: Request, bound: Result<SocketAddr>, inbound: Inbound) returns (r: Result<()>)
    modifies stream`sent, stream`room
    ensures var l := old(stream.View());
            match bound
            case Err(e) => r == Err(e) && stream.View() == l
            case Ok(a) =>
              var first := Replied(Some(a), l);
              (r, stream.View()) == if first.0.Err? then first else PeerReply(q, inbound, first.1)
  {
    if bound.Err? {
      return Err(bound.error);
    }
    var reply := FromBound(Success, Some(bound.value));
    var sent := stream.WriteAll(reply);
    if !sent.Done? {
      return Err(Io(BrokenPipe));
    }
    match inbound {
      case AcceptFails(kind) => return Err(Io(kind));
      case NobodyCame => return Err(Socks(TtlExpired));
      case Peer(p) =>
        var expected := UdpAssociation.ExpectedIp(q.addrType, q.addr);
        if expected.Some? && expected.value != p.ip {
          return Err(Socks(RuleFailure));
        }
        reply := FromBound(Success, Some(p));
        sent := stream.WriteAll(reply);
        return if sent.Done? then Ok(()) else Err(Io(BrokenPipe));
    }
  }

  // ----- what follows the success reply

  /** What the world decides from there on: who connects back to a BIND, all that the
      other side of the relay sends, how the relay is scheduled, how much the client
      takes once it is over, and what an association sees. */
  datatype Later = Later(
    inbound: Inbound,
    incoming: seq<byte>,
    moves: seq<Relay.Step>,
    room: nat,
    events: seq<UdpAssociation.Event>)

  /** A session's end: its result, its stream, the counters. */
  type End = (Result<()>, Link, Counters)

  function RelayResult(s: Relay.State): Result<()> {
    if s.pc.Broken? && s.pc.kind != NotConnected then Err(Io(s.pc.kind)) else Ok(())
  }

  function AfterRelay(l: Link, s: Relay.State, room: nat): Link {
    l.(unread := if s.up.taken <= |l.unread| then l.unread[s.up.taken..] else [],
       sent := l.sent + s.down.given, closed := s.down.shut, room := room)
  }

  function WithTraffic(c: Counters, s: Relay.State): Counters {
    if s.pc.Finished?
    then c.(clientToTarget := c.clientToTarget + s.up.progress, targetToClient := c.targetToClient + s.down.progress)
    else c
  }

  /** The relay's last state; None while it runs, or when it is not one that this
      client takes the bytes of. */
  function RelayEnd(l: Link, later: Later): Option<Relay.State> {
    match Relay.Run(Relay.Start(l.unread, later.incoming), later.moves)
    case None => None
    case Some(s) =>
      if Relay.Final(s) && |s.down.given| + later.room <= l.room then Some(s) else None
  }

  function Relayed(l: Link, c: Counters, later: Later): Option<End> {
    match RelayEnd(l, later)
    case None => None
    case Some(s) => Some((RelayResult(s), AfterRelay(l, s, later.room), WithTraffic(c, s)))
  }

  /** How many bytes an association reads off its control connection and drops. */
  function ControlReads(events: seq<UdpAssociation.Event>): nat {
    if events == [] || events[0].ControlClosed? || events[0].RecvError? then 0
    else (if events[0].ControlData? then 1 else 0) + ControlReads(events[1..])
  }

  function Associated(q: Request, l: Link, c: Counters, events: seq<UdpAssociation.Event>): Option<End> {
    var a := UdpAssociation.Fold(UdpAssociation.ExpectedIp(q.addrType, q.addr), events);
    var read := ControlReads(events);
    if a.open || read > |l.unread| then None
    else Some((Ok(()), l.Skip(read),
               c.(udpDatagrams := c.udpDatagrams + a.datagrams,
                  clientToTarget := c.clientToTarget + a.clientToTarget,
                  targetToClient := c.targetToClient + a.targetToClient)))
  }

  function Follow(q: Request, later: Later, l: Link, c: Counters): Option<End> {
    match q.command
    case Connect => Relayed(l, c, later)
    case Bind =>
      var (r, l') := PeerReply(q, later.inbound, l);
      if r.Err? then Some((r, l', c)) else Relayed(l', c, later)
    case UdpAssociate => Associated(q, l, c, later.events)
  }

  /** The connection from its first byte to its end; None while it is still going. */
  function Whole(cfg: Config, env: Env, later: Later, l: Link, c: Counters): Option<End> {
    var n := Negotiation(cfg, l, c);
    var i := Proceed(n, env);
    if i.0.Err? then Some(Settled(i)) else
    match Follow(n.outcome.value, later, i.1, i.3)
    case None => None
    case Some((r, l', c')) => Some(Settled((r, l', i.2, c')))
  }

  /** A session that fails before its success reply is over there. */
  lemma EarlyFailureIsTheEnd(cfg: Config, env: Env, later: Later, l: Link, c: Counters)
    requires Untouched(l)
    ensures !Served(cfg, env, l) ==> Whole(cfg, env, later, l, c) == Some(Conducted(cfg, env, l, c))
    ensures Served(cfg, env, l) ==> !Conducted(cfg, env, l, c).1.closed
  {
    DisconnectsAreForeseeable(cfg, env, l, c);
    NegotiationForm(cfg, l, c);
    if Served(cfg, env, l) {
      RequestOrEnd(cfg, l, c);
    }
  }

  /** To the very end a connection charges at most one failure. */
  lemma WholeCharges(cfg: Config, env: Env, later: Later, l: Link, c: Counters)
    requires Whole(cfg, env, later, l, c).Some?
    ensures var (r, _, c') := Whole(cfg, env, later, l, c).value;
            && (if r.Err? then OneMore(r.error, c, c') else SameFailures(c, c'))
            && Failures(c') == Failures(c) + (if r.Err? then 1 else 0)
  {
    InitChargesNothing(cfg, env, l, c);
    var n := Negotiation(cfg, l, c);
    var i := Proceed(n, env);
    if i.0.Err? {
      SettlingCharges(i, c);
    } else {
      var (r, l', c') := Follow(n.outcome.value, later, i.1, i.3).value;
      SettlingCharges((r, l', i.2, c'), c);
    }
  }

  // ----- the whole transcript of an admitted client

  /** The stream an admitted client is left with by its success reply. */
  function Greeted(x: Script, rest: seq<byte>, env: Env, l: Link): Link
    requires |Answers(x)| <= l.room
  {
    l.(unread := rest, sent := l.sent + Answers(x), room := l.room - |Answers(x)|).Write(FinalReply(x.request, env))
  }

  predicate Admissible(cfg: Config, x: Script, rest: seq<byte>, env: Env, l: Link) {
    && WellFormed(x) && Admitted(cfg, x) && l.unread == Encode(x) + rest && Untouched(l)
    && Servable(x.request, env) && |Answers(x) + FinalReply(x.request, env)| <= l.room
  }

  lemma ServedFrom(q: Request, env: Env, l: Link, c: Counters)
    requires !l.closed && Servable(q, env) && |FinalReply(q, env)| <= l.room
    ensures Proceed(Verdict(Done(q), l, false, c), env)
         == (Ok(()), l.Write(FinalReply(q, env)), false, WithRequest(c, q.command))
  {
    PrepareError(q, env);
    RequestHandled(q, env, l, c);
  }

  lemma ServedSoFar(cfg: Config, x: Script, rest: seq<byte>, env: Env, l: Link, c: Counters)
    requires Admissible(cfg, x, rest, env, l)
    ensures var n := Negotiation(cfg, l, c);
            && n.outcome == Done(x.request)
            && Proceed(n, env) == (Ok(()), Greeted(x, rest, env, l), false, WithRequest(c, x.request.command))
  {
    ScriptAccepted(cfg, x, rest, l, c);
    ServedFrom(x.request, env, Accepted(x, rest, l, c).link, c);
  }

  lemma GreetedLink(x: Script, rest: seq<byte>, env: Env, l: Link)
    requires Untouched(l) && |Answers(x) + FinalReply(x.request, env)| <= l.room
    ensures var g := Greeted(x, rest, env, l);
            && g.sent == Answers(x) + FinalReply(x.request, env) && g.unread == rest && !g.closed
            && g.room == l.room - |g.sent|
  {
    assert l.sent + Answers(x) == Answers(x);
  }

  /** What a late failure adds to the transcript: an error reply behind everything that
      went before, as far as the client takes it, unless the write half is shut. */
  function LateReply(r: Result<()>, shut: bool, room: nat): seq<byte> {
    if r.Err? && !shut then Took(Reply(CodeOf(r.error), None), room) else []
  }

  lemma SettledLate(r: Result<()>, l: Link, c: Counters)
    ensures Settled((r, l, false, c)).1.sent == l.sent + LateReply(r, l.closed, l.room)
    ensures Settled((r, l, false, c)).1.closed == (l.closed || r.Err?)
  {
  }

  /** How a relay that follows `greeted` ends the session: the client has a prefix of
      what the other side sent, the other side one of what was pipelined behind the
      request; on a clean finish both whole, and counted. */
  ghost predicate RelayedTo(greeted: seq<byte>, rest: seq<byte>, later: Later, s: Relay.State, c: Counters, end: End) {
    var (r, l', c') := end;
    && s.up.given <= rest && s.down.given <= later.incoming
    && l'.sent == greeted + s.down.given + LateReply(r, s.down.shut, later.room)
    && (r.Err? <==> s.pc.Broken? && s.pc.kind != NotConnected)
    && (r.Err? ==> r == Err(Io(s.pc.kind)))
    && l'.closed == (s.down.shut || r.Err?)
    && (s.pc.Finished? ==>
          && s.up.given == rest && s.down.given == later.incoming && l'.closed
          && c'.clientToTarget == c.clientToTarget + |rest|
          && c'.targetToClient == c.targetToClient + |later.incoming|)
    && (!s.pc.Finished? ==> c'.clientToTarget == c.clientToTarget && c'.targetToClient == c.targetToClient)
  }

  lemma RelaySettled(l: Link, c: Counters, later: Later)
    requires Relayed(l, c, later).Some?
    ensures var (r, l', c') := Relayed(l, c, later).value;
            RelayedTo(l.sent, l.unread, later, RelayEnd(l, later).value, c, Settled((r, l', false, c')))
  {
    var s := RelayEnd(l, later).value;
    Relay.RelaySafety(l.unread, later.incoming, later.moves, s);
    if s.pc.Finished? {
      Relay.CleanFinish(l.unread, later.incoming, later.moves, s);
    }
    SettledLate(RelayResult(s), AfterRelay(l, s, later.room), WithTraffic(c, s));
  }

  lemma WholeConnect(cfg: Config, x: Script, rest: seq<byte>, env: Env, later: Later, l: Link, c: Counters)
    requires Admissible(cfg, x, rest, env, l) && x.request.command == Connect
    requires Whole(cfg, env, later, l, c).Some?
    ensures exists s :: Relay.Run(Relay.Start(rest, later.incoming), later.moves) == Some(s)
              && RelayedTo(Answers(x) + Reply(Success, None), rest, later, s, c, Whole(cfg, env, later, l, c).value)
  {
    ServedSoFar(cfg, x, rest, env, l, c);
    GreetedLink(x, rest, env, l);
    var greeted := Greeted(x, rest, env, l);
    RelaySettled(greeted, WithRequest(c, Connect), later);
    var s := RelayEnd(greeted, later).value;
    assert Relay.Run(Relay.Start(rest, later.incoming), later.moves) == Some(s);
  }

  /** A relay that breaks makes the proxy write an error reply behind the relayed bytes,
      although success was answered long before, unless the client's side was already
      shut, the client is gone, or the failure is the one that is ignored. */
  lemma LateReplyExactly(greeted: seq<byte>, rest: seq<byte>, later: Later, s: Relay.State, c: Counters, end: End)
    requires RelayedTo(greeted, rest, later, s, c, end)
    ensures end.1.sent == greeted + s.down.given + Reply(Failure, None)
       <==> s.pc.Broken? && s.pc.kind != NotConnected && !s.down.shut && later.room >= 10
    ensures end.1.sent == greeted + s.down.given
       <==> !(s.pc.Broken? && s.pc.kind != NotConnected && !s.down.shut && later.room > 0)
  {
    ReplyLength(Failure);
    var late := LateReply(end.0, s.down.shut, later.room);
    assert end.1.sent[|greeted + s.down.given|..] == late;
    assert greeted + s.down.given + [] == greeted + s.down.given;
    assert (greeted + s.down.given + Reply(Failure, None))[|greeted + s.down.given|..] == Reply(Failure, None);
  }

  /** A late failure is charged under a code exactly when it is not a disconnect, and
      that code's reply arrives exactly when there is a stream and a client left. */
  lemma LateCharges(cfg: Config, x: Script, rest: seq<byte>, env: Env, later: Later, l: Link, c: Counters)
    requires Admissible(cfg, x, rest, env, l) && x.request.command == Connect
    requires Whole(cfg, env, later, l, c).Some? && Whole(cfg, env, later, l, c).value.0.Err?
    ensures var (r, l', c') := Whole(cfg, env, later, l, c).value;
            var greeted := Answers(x) + Reply(Success, None);
            exists s :: Relay.Run(Relay.Start(rest, later.incoming), later.moves) == Some(s) && s.pc.Broken?
              && (CodeCharged(c, c', Failure) <==> !DisconnectKind(s.pc.kind))
              && (l'.sent == greeted + s.down.given + Reply(Failure, None) <==> !s.down.shut && later.room >= 10)
  {
    WholeConnect(cfg, x, rest, env, later, l, c);
    WholeCharges(cfg, env, later, l, c);
    var end := Whole(cfg, env, later, l, c).value;
    var greeted := Answers(x) + Reply(Success, None);
    var s :| Relay.Run(Relay.Start(rest, later.incoming), later.moves) == Some(s)
             && RelayedTo(greeted, rest, later, s, c, end);
    LateReplyExactly(greeted, rest, later, s, c, end);
    ChargeShows(end.0.error, c, end.2);
  }

  /** One byte from the other side and then a reset: the client reads success, the byte
      and a failure reply. */
  lemma LateReplyWitness(cfg: Config, x: Script, env: Env, l: Link, c: Counters)
    requires Admissible(cfg, x, [], env, l) && x.request.command == Connect && l.room >= 30
    ensures var moves := [Relay.Read(false, 1), Relay.Write(1), Relay.Flush, Relay.ReadFails(false, ConnectionReset)];
            var end := Whole(cfg, env, Later(NobodyCame, [0x41], moves, 10, []), l, c);
            && end.Some? && end.value.0 == Err(Io(ConnectionReset))
            && end.value.1.sent == Answers(x) + Reply(Success, None) + [0x41] + Reply(Failure, None)
            && end.value.2.disconnects == c.disconnects + 1 && end.value.2.errorsByCode == c.errorsByCode
  {
    var moves := [Relay.Read(false, 1), Relay.Write(1), Relay.Flush, Relay.ReadFails(false, ConnectionReset)];
    var later := Later(NobodyCame, [0x41], moves, 10, []);
    OneByteThenReset([], moves);
    ServedSoFar(cfg, x, [], env, l, c);
    GreetedLink(x, [], env, l);
    ReplyLength(Success);
    ReplyLength(Failure);
    WholeConnect(cfg, x, [], env, later, l, c);
    WholeCharges(cfg, env, later, l, c);
  }

  lemma OneByteThenReset(rest: seq<byte>, moves: seq<Relay.Step>)
    requires moves == [Relay.Read(false, 1), Relay.Write(1), Relay.Flush, Relay.ReadFails(false, ConnectionReset)]
    ensures Relay.Run(Relay.Start(rest, [0x41]), moves)
         == Some(Relay.State(Relay.Fresh(rest), Relay.Lane([0x41], 1, [0x41], true, false, 1, 0), Relay.Broken(ConnectionReset)))
  {
    var start := Relay.Start(rest, [0x41]);
    assert moves[..3][..2] == moves[..2] && moves[..2][..1] == moves[..1] && moves[..1][..0] == [];
    var read := Relay.Apply(start, moves[0]);
    assert [0x41][0..1] == [0x41] && [0x41][..1] == [0x41] && [0x41][0..1][1..] == [];
    assert read.pc == Relay.Writing(false, [0x41], 1) && read.pc.left[1..] == [];
    assert Relay.Run(start, moves[..1]) == Some(read);
    var written := Relay.Apply(read, moves[1]);
    assert written.down.given == [0x41] && written.pc == Relay.Flushing(false, 1);
    assert Relay.Run(start, moves[..2]) == Some(written);
    assert Relay.Run(start, moves[..3]) == Some(Relay.Apply(written, moves[2]));
  }

  /** What becomes of a BIND after its first reply: a second success reply, with the
      peer's address, before anything is relayed; or the error reply. */
  ghost predicate BoundTo(first: seq<byte>, room: nat, q: Request, rest: seq<byte>, later: Later, c: Counters, end: End) {
    match Anticipated(q, later.inbound)
    case Err(e) => end.0 == Err(e) && end.1.closed && end.1.sent == first + Took(Reply(CodeOf(e), None), room)
    case Ok(p) =>
      var second := Reply(Success, Some(p));
      if |second| > room
      then end.0 == Err(Io(BrokenPipe)) && end.1.closed && end.1.sent == first + second[..room]
      else exists s :: Relay.Run(Relay.Start(rest, later.incoming), later.moves) == Some(s)
             && RelayedTo(first + second, rest, later, s, c, end)
  }

  lemma BindFollowed(q: Request, later: Later, g: Link, c: Counters)
    requires q.command == Bind && !g.closed && Follow(q, later, g, c).Some?
    ensures var (r, l', c') := Follow(q, later, g, c).value;
            BoundTo(g.sent, g.room, q, g.unread, later, c, Settled((r, l', false, c')))
  {
    match Anticipated(q, later.inbound) {
      case Err(e) => SettledLate(Err(e), g, c);
      case Ok(p) =>
        var answered := Replied(Some(p), g);
        if answered.0.Err? {
          SettledLate(answered.0, answered.1, c);
          assert Took(Reply(Failure, None), 0) == [];
        } else {
          RelaySettled(answered.1, c, later);
          assert Relay.Run(Relay.Start(g.unread, later.incoming), later.moves) == RelayEnd(answered.1, later);
        }
    }
  }

  lemma WholeBind(cfg: Config, x: Script, rest: seq<byte>, env: Env, later: Later, l: Link, c: Counters)
    requires Admissible(cfg, x, rest, env, l) && x.request.command == Bind
    requires Whole(cfg, env, later, l, c).Some?
    ensures var first := Answers(x) + Reply(Success, Some(env.bound.value));
            BoundTo(first, l.room - |first|, x.request, rest, later, c, Whole(cfg, env, later, l, c).value)
  {
    ServedSoFar(cfg, x, rest, env, l, c);
    GreetedLink(x, rest, env, l);
    BindFollowed(x.request, later, Greeted(x, rest, env, l), WithRequest(c, Bind));
  }

  /** The request names one literal peer, and `p` is another. */
  predicate NamesAnother(q: Request, p: SocketAddr) {
    q.addrType != Domain && (exists b <- q.addr :: b != 0) && !(p.ip.octets == q.addr && IpType(p.ip) == q.addrType)
  }

  /** What a BIND fails with after its first reply, by number, if it does. */
  function BindFailure(q: Request, inbound: Inbound): Option<byte> {
    match inbound
    case NobodyCame => Some(6)
    case AcceptFails(_) => Some(1)
    case Peer(p) => if NamesAnother(q, p) then Some(2) else None
  }

  lemma BindFailureInBytes(q: Request, inbound: Inbound)
    requires WellFormedAddr(q.addrType, q.addr)
    ensures var r := Anticipated(q, inbound);
            match BindFailure(q, inbound)
            case Some(b) =>
              && r.Err? && Reply(CodeOf(r.error), None) == BareReply(b) && CodeByte(CodeOf(r.error)) == b
              && (inbound.Peer? || inbound.NobodyCame? ==> !IsDisconnect(r.error))
            case None => inbound.Peer? && r == Ok(inbound.addr)
  {
    if inbound.Peer? {
      PeerAdmitted(q, inbound.addr);
    }
    var r := Anticipated(q, inbound);
    if r.Err? {
      ReplyLayout(CodeOf(r.error), SocketAddr(Ipv4([0, 0, 0, 0]), 0));
    }
  }

  /** The bytes a client has after a BIND that listened on `bound` and got `first`. */
  ghost predicate BindTold(first: seq<byte>, q: Request, inbound: Inbound, c: Counters, end: End) {
    match BindFailure(q, inbound)
    case Some(b) =>
      && end.0.Err? && end.1.closed && end.1.sent == first + BareReply(b)
      && (inbound.AcceptFails? || end.2.errorsByCode == c.errorsByCode[b := At(c.errorsByCode, b) + 1])
    case None => first + ([5, 0, 0] + AddrBytes(inbound.addr)) <= end.1.sent
  }

  lemma BoundInBytes(first: seq<byte>, room: nat, q: Request, rest: seq<byte>, later: Later, c: Counters, end: End)
    requires WellFormedAddr(q.addrType, q.addr) && room >= 22 && BoundTo(first, room, q, rest, later, c, end)
    requires end.0.Err? ==> OneMore(end.0.error, c, end.2)
    ensures BindTold(first, q, later.inbound, c, end)
  {
    BindFailureInBytes(q, later.inbound);
    ReplyLength(Success);
    match later.inbound {
      case Peer(p) => ReplyLayout(Success, p);
      case _ =>
    }
  }

  lemma AnswersInBytes(x: Script, bound: SocketAddr)
    ensures Answers(x) + Reply(Success, Some(bound))
         == (if x.login.Some? then [5, 2, 1, 0] else [5, 0]) + ([5, 0, 0] + AddrBytes(bound))
    ensures |Answers(x) + Reply(Success, Some(bound))| <= 26
  {
    ReplyLayout(Success, bound);
    ReplyLength(Success);
  }

  /** A BIND in bytes, for a client that takes both replies: the address it listens on,
      and then the failure or the address of the peer that came. */
  lemma BindInBytes(cfg: Config, x: Script, rest: seq<byte>, env: Env, later: Later, l: Link, c: Counters)
    requires Admissible(cfg, x, rest, env, l) && x.request.command == Bind && l.room >= 48
    requires Whole(cfg, env, later, l, c).Some?
    ensures var first := (if x.login.Some? then [5, 2, 1, 0] else [5, 0]) + ([5, 0, 0] + AddrBytes(env.bound.value));
            BindTold(first, x.request, later.inbound, c, Whole(cfg, env, later, l, c).value)
  {
    var first := Answers(x) + Reply(Success, Some(env.bound.value));
    AnswersInBytes(x, env.bound.value);
    WholeBind(cfg, x, rest, env, later, l, c);
    WholeCharges(cfg, env, later, l, c);
    BoundInBytes(first, l.room - |first|, x.request, rest, later, c, Whole(cfg, env, later, l, c).value);
  }

  /** An association writes nothing more on its control connection and leaves it open;
      the totals grow by the packets it handed to its socket. */
  lemma WholeAssociate(cfg: Config, x: Script, rest: seq<byte>, env: Env, later: Later, l: Link, c: Counters)
    requires Admissible(cfg, x, rest, env, l) && x.request.command == UdpAssociate
    requires Whole(cfg, env, later, l, c).Some?
    ensures var (r, l', c') := Whole(cfg, env, later, l, c).value;
            var packets := UdpAssociation.Fold(UdpAssociation.ExpectedIp(x.request.addrType, x.request.addr), later.events).packets;
            && r == Ok(()) && !l'.closed && l'.sent == Answers(x) + Reply(Success, Some(env.bound.value))
            && c'.udpDatagrams == c.udpDatagrams + UdpAssociation.ForwardedCount(packets)
            && c'.clientToTarget == c.clientToTarget + UdpAssociation.ForwardedBytes(packets)
            && c'.targetToClient == c.targetToClient + UdpAssociation.ReturnedBytes(packets)
  {
    ServedSoFar(cfg, x, rest, env, l, c);
    GreetedLink(x, rest, env, l);
    UdpAssociation.CountersMatchPackets(UdpAssociation.ExpectedIp(x.request.addrType, x.request.addr), later.events);
  }
}
