/** A UDP association: one event at a time from the control connection and the
    relay socket, until the control connection closes. */
module UdpAssociation {
  import opened Wrappers
  import opened Wire
  import opened Statistics
  import DnsLookups
  import opened WireLayout

  /** What `select!` can produce. `resolved` is what resolving the datagram's
      destination name answers, should it be asked. */
  datatype Event =
    | ControlData
    | ControlClosed
    | Datagram(src: SocketAddr, data: seq<byte>, resolved: Result<seq<SocketAddr>>)
    | RecvError

  /** A datagram handed to the relay socket for sending. */
  datatype Packet =
    | Forwarded(to: SocketAddr, bytes: seq<byte>)
    | Returned(to: SocketAddr, bytes: seq<byte>)

  datatype Assoc = Assoc(
    open: bool,
    client: Option<SocketAddr>,
    packets: seq<Packet>,
    datagrams: nat,
    clientToTarget: nat,
    targetToClient: nat)

  const OPENED := Assoc(true, None, [], 0, 0, 0)

  /** A concrete address the client declared; None for a name or the unspecified
      address, which mean "any". */
  function ExpectedIp(t: AddrType, addr: seq<byte>): Option<IpAddr> {
    match t
    case Domain => None
    case V4 => if |addr| >= 4 && addr[..4] != Zeros(4) then Some(Ipv4(addr[..4])) else None
    case V6 => if |addr| >= 16 && addr[..16] != Zeros(16) then Some(Ipv6(addr[..16])) else None
  }

  function Zeros(n: nat): seq<byte> {
    seq(n, _ => 0)
  }

  /** On a parsed request the declared address binds exactly when it is a literal
      other than the all-zero one, and then it is the request's own. */
  lemma ExpectedIpBinds(q: Request)
    requires WellFormedAddr(q.addrType, q.addr)
    ensures ExpectedIp(q.addrType, q.addr).Some? <==> q.addrType != Domain && exists b <- q.addr :: b != 0
    ensures var e := ExpectedIp(q.addrType, q.addr);
            e.Some? ==> e.value.octets == q.addr && IpType(e.value) == q.addrType
  {
    if q.addrType != Domain {
      var n := |q.addr|;
      assert q.addr[..n] == q.addr;
      if forall b <- q.addr :: b == 0 {
        forall i | 0 <= i < n ensures q.addr[i] == Zeros(n)[i] {
          assert q.addr[i] in q.addr;
        }
        assert q.addr == Zeros(n);
      } else {
        var b :| b in q.addr && b != 0;
        assert b !in Zeros(n);
      }
    }
  }

  function Targets(h: UdpHeader, resolved: Result<seq<SocketAddr>>): Result<seq<SocketAddr>> {
    match DnsLookups.Literal(h.addrType, h.addr, h.port)
    case Some(r) => r
    case None => resolved
  }

  /** Where a client datagram goes and what part of it, if anywhere. */
  function Forward(data: seq<byte>, resolved: Result<seq<SocketAddr>>): Option<Packet> {
    match ParseUdpHeader(data)
    case Err(_) => None
    case Ok((h, consumed)) =>
      if h.frag != 0 then None else
      match Targets(h, resolved)
      case Err(_) => None
      case Ok(targets) => if targets == [] then None else Some(Forwarded(targets[0], data[consumed..]))
  }

  predicate Acceptable(expected: Option<IpAddr>, src: SocketAddr) {
    expected.Some? ==> expected.value == src.ip
  }

  function WithForward(a: Assoc, p: Option<Packet>): Assoc {
    match p
    case None => a
    case Some(packet) =>
      a.(packets := a.packets + [packet], datagrams := a.datagrams + 1,
         clientToTarget := a.clientToTarget + |packet.bytes|)
  }

  function Step(expected: Option<IpAddr>, a: Assoc, e: Event): Assoc {
    if !a.open then a else
    match e
    case ControlData => a
    case ControlClosed => a.(open := false)
    case RecvError => a.(open := false)
    case Datagram(src, data, resolved) =>
      match a.client
      case None =>
        if Acceptable(expected, src) then WithForward(a.(client := Some(src)), Forward(data, resolved)) else a
      case Some(client) =>
        if client == src then WithForward(a, Forward(data, resolved))
        else
          var out := EncodeUdpHeader(src) + data;
          a.(packets := a.packets + [Returned(client, out)], targetToClient := a.targetToClient + |out|)
  }

  function Fold(expected: Option<IpAddr>, events: seq<Event>): Assoc {
    if events == [] then OPENED
    else Step(expected, Fold(expected, events[..|events| - 1]), events[|events| - 1])
  }

  /** A datagram from the client: its payload goes on unless something is wrong. */
  method ForwardDatagram(data: seq<byte>, resolved: Result<seq<SocketAddr>>, stats: Stats) returns (packet: Option<Packet>)
    modifies stats`udpDatagrams, stats`clientToTarget
    ensures packet == Forward(data, resolved)
    ensures stats.udpDatagrams == old(stats.udpDatagrams) + if packet.Some? then 1 else 0
    ensures stats.clientToTarget == old(stats.clientToTarget) + if packet.Some? then |packet.value.bytes| else 0
  {
    var parsed := ParseUdpHeader(data);
    if parsed.Err? {
      return None;
    }
    var (header, consumed) := parsed.value;
    if header.frag != 0 {
      return None;
    }
    var targets := Targets(header, resolved);
    if targets.Err? || targets.value == [] {
      return None;
    }
    var payload := data[consumed..];
    stats.NoteUdpDatagram(|payload|);
    return Some(Forwarded(targets.value[0], payload));
  }

  /** The event loop, ending early when the association does. */
  method HandleUdpAssociate(q: Request, events: seq<Event>, stats: Stats) returns (packets: seq<Packet>, client: Option<SocketAddr>)
    modifies stats`udpDatagrams, stats`clientToTarget, stats`targetToClient
    ensures var a := Fold(ExpectedIp(q.addrType, q.addr), events);
            && packets == a.packets && client == a.client
            && stats.udpDatagrams == old(stats.udpDatagrams) + a.datagrams
            && stats.clientToTarget == old(stats.clientToTarget) + a.clientToTarget
            && stats.targetToClient == old(stats.targetToClient) + a.targetToClient
  {
    var expected := ExpectedIp(q.addrType, q.addr);
    packets, client := [], None;
    var open := true;
    var i := 0;
    while i < |events| && open
      invariant i <= |events|
      invariant var a := Fold(expected, events[..i]);
                && a.open == open && a.client == client && a.packets == packets
                && stats.udpDatagrams == old(stats.udpDatagrams) + a.datagrams
                && stats.clientToTarget == old(stats.clientToTarget) + a.clientToTarget
                && stats.targetToClient == old(stats.targetToClient) + a.targetToClient
    {
      var event := events[i];
      assert events[..i + 1][..i] == events[..i];
      i := i + 1;
      match event {
        case ControlData =>
        case ControlClosed => open := false;
        case RecvError => open := false;
        case Datagram(src, data, resolved) =>
          match client {
            case None =>
              if expected.Some? && expected.value != src.ip {
                continue;
              }
              client := Some(src);
            case Some(known) =>
              if known != src {
                var out := BuildUdpHeader(src);
                out := out + data;
                stats.NoteUdpReply(|out|);
                packets := packets + [Returned(known, out)];
                continue;
              }
          }
          var packet := ForwardDatagram(data, resolved, stats);
          if packet.Some? {
            packets := packets + [packet.value];
          }
      }
    }
    ClosedStays(expected, events, i);
  }

  lemma {:induction false} ClosedStays(expected: Option<IpAddr>, events: seq<Event>, i: nat)
    requires i <= |events|
    requires i == |events| || !Fold(expected, events[..i]).open
    ensures Fold(expected, events) == Fold(expected, events[..i])
    decreases |events|
  {
    if i == |events| {
      assert events[..i] == events;
    } else {
      var front := events[..|events| - 1];
      assert front[..i] == events[..i];
      ClosedStays(expected, front, i);
    }
  }

  // ----- pinning

  /** The source of the first datagram that does not contradict the declared address. */
  function FirstSource(expected: Option<IpAddr>, events: seq<Event>): Option<SocketAddr> {
    if events == [] || events[0].ControlClosed? || events[0].RecvError? then None
    else if events[0].Datagram? && Acceptable(expected, events[0].src) then Some(events[0].src)
    else FirstSource(expected, events[1..])
  }

  lemma {:induction false} PinnedFromFront(expected: Option<IpAddr>, events: seq<Event>, e: Event)
    ensures FirstSource(expected, events + [e])
         == if FirstSource(expected, events).Some? then FirstSource(expected, events)
            else if (exists x <- events :: x.ControlClosed? || x.RecvError?) then None
            else if e.Datagram? && Acceptable(expected, e.src) then Some(e.src) else None
  {
    if events != [] {
      PinnedFromFront(expected, events[1..], e);
      assert (events + [e])[1..] == events[1..] + [e];
      assert events == [events[0]] + events[1..];
    } else {
      assert [e][1..] == [];
    }
  }

  lemma {:induction false} PinnedClient(expected: Option<IpAddr>, events: seq<Event>)
    ensures var a := Fold(expected, events);
            && a.client == FirstSource(expected, events)
            && a.open == !(exists x <- events :: x.ControlClosed? || x.RecvError?)
            && (a.client.Some? ==> Acceptable(expected, a.client.value))
    decreases |events|
  {
    if events != [] {
      var front, e := events[..|events| - 1], events[|events| - 1];
      PinnedClient(expected, front);
      PinnedFromFront(expected, front, e);
      assert events == front + [e];
    }
  }

  /** Once pinned, the client never changes. */
  lemma {:induction false} PinnedForever(expected: Option<IpAddr>, events: seq<Event>, i: nat)
    requires i <= |events| && Fold(expected, events[..i]).client.Some?
    ensures Fold(expected, events).client == Fold(expected, events[..i]).client
    decreases |events|
  {
    if i == |events| {
      assert events[..i] == events;
    } else {
      var front := events[..|events| - 1];
      assert front[..i] == events[..i];
      PinnedForever(expected, front, i);
    }
  }

  /** A client is never at another address than the one its request declared. */
  lemma ClientIsDeclared(q: Request, events: seq<Event>)
    requires WellFormedAddr(q.addrType, q.addr)
    ensures var a := Fold(ExpectedIp(q.addrType, q.addr), events);
            a.client.Some? && q.addrType != Domain && (exists b <- q.addr :: b != 0) ==>
              a.client.value.ip.octets == q.addr && IpType(a.client.value.ip) == q.addrType
  {
    PinnedClient(ExpectedIp(q.addrType, q.addr), events);
    ExpectedIpBinds(q);
  }

  // ----- what every event comes to, in bytes

  /** Where a datagram of the client's is to go, if anywhere: the address in it, or the
      first one its name resolves to. */
  function Destination(data: seq<byte>, resolved: Result<seq<SocketAddr>>): Option<SocketAddr> {
    if |data| < 4 || data[2] != 0 || !KnownAddrType(data[3]) || |data| < AddrEnd(data[3], data, 4) + 2 then None
    else if data[3] == 1 then Some(SocketAddr(Ipv4(data[4..8]), Word(data, 8)))
    else if data[3] == 4 then Some(SocketAddr(Ipv6(data[4..20]), Word(data, 20)))
    else if resolved.Ok? && resolved.value != [] then Some(resolved.value[0])
    else None
  }

  function Payload(data: seq<byte>): seq<byte>
    requires |data| >= 4 && |data| >= AddrEnd(data[3], data, 4) + 2
  {
    data[AddrEnd(data[3], data, 4) + 2..]
  }

  lemma ForwardInBytes(data: seq<byte>, resolved: Result<seq<SocketAddr>>)
    ensures Forward(data, resolved)
         == match Destination(data, resolved)
            case None => None
            case Some(to) => Some(Forwarded(to, Payload(data)))
  {
    UdpHeaderLayout(data);
  }

  /** The association after a datagram of its client's. */
  ghost predicate Sends(a: Assoc, src: SocketAddr, data: seq<byte>, resolved: Result<seq<SocketAddr>>, b: Assoc) {
    && b.open && b.client == Some(src) && b.targetToClient == a.targetToClient
    && match Destination(data, resolved)
       case None =>
         b.packets == a.packets && b.datagrams == a.datagrams && b.clientToTarget == a.clientToTarget
       case Some(to) =>
         && b.packets == a.packets + [Forwarded(to, Payload(data))]
         && b.datagrams == a.datagrams + 1 && b.clientToTarget == a.clientToTarget + |Payload(data)|
  }

  /** The association after a datagram from anyone else. */
  ghost predicate Returns(a: Assoc, client: SocketAddr, src: SocketAddr, data: seq<byte>, b: Assoc) {
    var bytes := [0, 0, 0] + AddrBytes(src) + data;
    && b.open && b.client == Some(client) && b.packets == a.packets + [Returned(client, bytes)]
    && b.datagrams == a.datagrams && b.clientToTarget == a.clientToTarget
    && b.targetToClient == a.targetToClient + |bytes|
  }

  /** One more event: what is sent, to whom, and what is counted, whenever it comes. */
  lemma NextEvent(expected: Option<IpAddr>, events: seq<Event>, e: Event)
    ensures var a, b := Fold(expected, events), Fold(expected, events + [e]);
            if !a.open || e.ControlData? then b == a
            else if !e.Datagram? then b == a.(open := false)
            else match a.client
                 case Some(client) =>
                   if e.src == client then Sends(a, e.src, e.data, e.resolved, b)
                   else Returns(a, client, e.src, e.data, b)
                 case None =>
                   if expected.Some? && expected.value != e.src.ip then b == a
                   else Sends(a, e.src, e.data, e.resolved, b)
    ensures Fold(expected, []) == Assoc(true, None, [], 0, 0, 0)
  {
    assert (events + [e])[..|events|] == events;
    if e.Datagram? {
      ForwardInBytes(e.data, e.resolved);
      ReplyLayout(Success, e.src);
    }
  }

  // ----- what is sent

  /** Why a packet was sent: the datagram behind it, and who sent that one. */
  predicate Justified(p: Packet, e: Event, client: SocketAddr) {
    e.Datagram? &&
    match p
    case Forwarded(to, bytes) =>
      && e.src == client
      && ParseUdpHeader(e.data).Ok?
      && var (h, k) := ParseUdpHeader(e.data).value;
         && h.frag == 0
         && e.data == e.data[..k] + bytes
         && Targets(h, e.resolved).Ok? && Targets(h, e.resolved).value != []
         && to == Targets(h, e.resolved).value[0]
    case Returned(to, bytes) =>
      && e.src != client
      && to == client
      && bytes == EncodeUdpHeader(e.src) + e.data
  }

  /** One event sends at most one packet, for a reason, and counts its bytes. */
  lemma OneAtATime(expected: Option<IpAddr>, a: Assoc, e: Event) returns (p: Option<Packet>)
    requires a.packets != [] ==> a.client.Some?
    ensures var b := Step(expected, a, e);
            match p
            case None => b == a.(open := b.open, client := b.client)
            case Some(p) =>
              && b.packets == a.packets + [p] && b.client.Some? && Justified(p, e, b.client.value)
              && b.datagrams == a.datagrams + (if p.Forwarded? then 1 else 0)
              && b.clientToTarget == a.clientToTarget + (if p.Forwarded? then |p.bytes| else 0)
              && b.targetToClient == a.targetToClient + (if p.Returned? then |p.bytes| else 0)
  {
    var b := Step(expected, a, e);
    p := if |b.packets| > |a.packets| then Some(b.packets[|b.packets| - 1]) else None;
  }

  lemma {:induction false} PacketsJustified(expected: Option<IpAddr>, events: seq<Event>)
    ensures var a := Fold(expected, events);
            && (a.packets != [] ==> a.client.Some?)
            && (forall p <- a.packets :: exists e <- events :: Justified(p, e, a.client.value))
    decreases |events|
  {
    if events != [] {
      var front, e := events[..|events| - 1], events[|events| - 1];
      PacketsJustified(expected, front);
      var _ := OneAtATime(expected, Fold(expected, front), e);
      assert events == front + [e];
      if Fold(expected, front).client.Some? {
        PinnedForever(expected, events, |front|);
      }
    }
  }

  /** The client recovers exactly the sender and the data from what it is sent. */
  lemma ClientDecodes(p: Packet, e: Event, client: SocketAddr)
    requires Justified(p, e, client) && p.Returned?
    ensures ParseUdpHeader(p.bytes).Ok?
    ensures var (h, k) := ParseUdpHeader(p.bytes).value;
            && h == UdpHeader(0, IpType(e.src.ip), e.src.ip.octets, e.src.port)
            && Targets(h, Err(TRUNCATED)) == Ok([e.src])
            && p.bytes[k..] == e.data
  {
    UdpReplyRoundTrip(e.src, e.data);
  }

  // ----- accounting

  function ForwardedBytes(packets: seq<Packet>): nat {
    if packets == [] then 0
    else ForwardedBytes(packets[..|packets| - 1])
         + if packets[|packets| - 1].Forwarded? then |packets[|packets| - 1].bytes| else 0
  }

  function ReturnedBytes(packets: seq<Packet>): nat {
    if packets == [] then 0
    else ReturnedBytes(packets[..|packets| - 1])
         + if packets[|packets| - 1].Returned? then |packets[|packets| - 1].bytes| else 0
  }

  function ForwardedCount(packets: seq<Packet>): nat {
    if packets == [] then 0
    else ForwardedCount(packets[..|packets| - 1]) + if packets[|packets| - 1].Forwarded? then 1 else 0
  }

  lemma TotalsExtend(packets: seq<Packet>, p: Packet)
    ensures ForwardedCount(packets + [p]) == ForwardedCount(packets) + if p.Forwarded? then 1 else 0
    ensures ForwardedBytes(packets + [p]) == ForwardedBytes(packets) + if p.Forwarded? then |p.bytes| else 0
    ensures ReturnedBytes(packets + [p]) == ReturnedBytes(packets) + if p.Returned? then |p.bytes| else 0
  {
    assert (packets + [p])[..|packets|] == packets;
  }

  /** Payload bytes are counted one way, header plus data the other. */
  ghost predicate Balanced(a: Assoc) {
    && a.datagrams == ForwardedCount(a.packets)
    && a.clientToTarget == ForwardedBytes(a.packets)
    && a.targetToClient == ReturnedBytes(a.packets)
  }

  lemma StepBalances(expected: Option<IpAddr>, a: Assoc, e: Event)
    requires Balanced(a) && (a.packets != [] ==> a.client.Some?)
    ensures Balanced(Step(expected, a, e))
  {
    var p := OneAtATime(expected, a, e);
    if p.Some? {
      TotalsExtend(a.packets, p.value);
    }
  }

  lemma {:induction false} CountersMatchPackets(expected: Option<IpAddr>, events: seq<Event>)
    ensures Balanced(Fold(expected, events))
    decreases |events|
  {
    if events != [] {
      var front := events[..|events| - 1];
      CountersMatchPackets(expected, front);
      PacketsJustified(expected, front);
      StepBalances(expected, Fold(expected, front), events[|events| - 1]);
    }
  }

  /** Data on the control connection changes nothing, wherever it comes. */
  lemma {:induction false} ControlDataIgnored(expected: Option<IpAddr>, before: seq<Event>, after: seq<Event>)
    ensures Fold(expected, before + [ControlData] + after) == Fold(expected, before + after)
    decreases |after|
  {
    if after == [] {
      assert before + [ControlData] + after == before + [ControlData];
      assert (before + [ControlData])[..|before|] == before && before + after == before;
    } else {
      var front, e := after[..|after| - 1], after[|after| - 1];
      ControlDataIgnored(expected, before, front);
      var with, without := before + [ControlData] + after, before + after;
      assert with[..|with| - 1] == before + [ControlData] + front && with[|with| - 1] == e;
      assert without[..|without| - 1] == before + front && without[|without| - 1] == e;
    }
  }
}
