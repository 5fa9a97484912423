/** The counters every connection shares, and the registry rows they sit beside. */
module Statistics {
  import opened Wrappers
  import opened Wire
  import opened Counting
  import opened Registry

  datatype Counters = Counters(
    authFailures: nat,
    handshakeTimeouts: nat,
    disconnects: nat,
    errorsByCode: map<byte, nat>,
    requestsConnect: nat,
    requestsBind: nat,
    requestsUdpAssociate: nat,
    udpDatagrams: nat,
    clientToTarget: nat,
    targetToClient: nat)

  datatype ActiveGuard = ActiveGuard(ip: IpAddr, id: nat)

  function WithError(c: Counters, code: byte): Counters {
    c.(errorsByCode := c.errorsByCode[code := At(c.errorsByCode, code) + 1])
  }

  function WithRequest(c: Counters, command: SockCommand): Counters {
    match command
    case Connect => c.(requestsConnect := c.requestsConnect + 1)
    case Bind => c.(requestsBind := c.requestsBind + 1)
    case UdpAssociate => c.(requestsUdpAssociate := c.requestsUdpAssociate + 1)
  }

  /** The registry after `begin_client` runs undisturbed. */
  function Begun(t: Table, peer: SocketAddr, local: Option<SocketAddr>): Table {
    CountIp(CountActive(Insert(TakeId(t), t.nextId, ClientRecord(peer, local, None))), peer.ip)
  }

  /** The registry after the guard's drop runs undisturbed. */
  function Dropped(t: Table, guard: ActiveGuard): Table {
    Remove(UncountIp(UncountActive(t), guard.ip), guard.id)
  }

  /** What both sections keep: fresh ids ahead, and no zero left in the per-IP table. */
  predicate Tidy(t: Table) {
    (forall id <- t.clients :: id < t.nextId) && (forall ip <- t.perIp :: t.perIp[ip] > 0)
  }

  /** Dropping the guard undoes registering it, tagged in between or not. */
  lemma GuardRoundTrip(t: Table, peer: SocketAddr, local: Option<SocketAddr>, tag: Option<SockCommand>)
    requires Tidy(t)
    ensures var begun := Begun(t, peer, local);
            var live := if tag.Some? then Tag(begun, t.nextId, tag.value) else begun;
            && Tidy(live)
            && Dropped(live, ActiveGuard(peer.ip, t.nextId)) == t.(nextId := t.nextId + 1)
  {
    var begun := Begun(t, peer, local);
    var live := if tag.Some? then Tag(begun, t.nextId, tag.value) else begun;
    var dropped := Dropped(live, ActiveGuard(peer.ip, t.nextId));
    assert dropped.clients == t.clients;
    assert dropped.perIp == t.perIp;
  }

  class Stats {
    var clients: map<nat, ClientRecord>
    var active: nat
    var activePerIp: map<IpAddr, nat>
    var nextClientId: nat
    var authFailures: nat
    var handshakeTimeouts: nat
    var disconnects: nat
    var errorsByCode: map<byte, nat>
    var requestsConnect: nat
    var requestsBind: nat
    var requestsUdpAssociate: nat
    var udpDatagrams: nat
    var clientToTarget: nat
    var targetToClient: nat

    function Rows(): Table
      reads this
    {
      Table(clients, active, activePerIp, nextClientId)
    }

    function Tally(): Counters
      reads this
    {
      Counters(authFailures, handshakeTimeouts, disconnects, errorsByCode, requestsConnect, requestsBind,
               requestsUdpAssociate, udpDatagrams, clientToTarget, targetToClient)
    }

    constructor ()
      ensures Rows() == EMPTY && Tidy(Rows())
      ensures Tally() == Counters(0, 0, 0, map[], 0, 0, 0, 0, 0, 0)
    {
      clients, active, activePerIp, nextClientId := map[], 0, map[], 0;
      authFailures, handshakeTimeouts, disconnects, errorsByCode := 0, 0, 0, map[];
      requestsConnect, requestsBind, requestsUdpAssociate := 0, 0, 0;
      udpDatagrams, clientToTarget, targetToClient := 0, 0, 0;
    }

    method BeginClient(peer: SocketAddr, local: Option<SocketAddr>) returns (guard: ActiveGuard)
      modifies this
      ensures guard == ActiveGuard(peer.ip, old(nextClientId))
      ensures Rows() == Begun(old(Rows()), peer, local) && Tally() == old(Tally())
      ensures clients == old(clients)[old(nextClientId) := ClientRecord(peer, local, None)]
      ensures nextClientId == old(nextClientId) + 1 && active == old(active) + 1
      ensures activePerIp == old(activePerIp)[peer.ip := At(old(activePerIp), peer.ip) + 1]
    {
      var id := nextClientId;
      nextClientId := nextClientId + 1;
      clients := clients[id := ClientRecord(peer, local, None)];
      active := active + 1;
      activePerIp := activePerIp[peer.ip := At(activePerIp, peer.ip) + 1];
      guard := ActiveGuard(peer.ip, id);
    }

    method DropGuard(guard: ActiveGuard)
      modifies this
      ensures Rows() == Dropped(old(Rows()), guard) && Tally() == old(Tally())
      ensures clients == old(clients) - {guard.id} && nextClientId == old(nextClientId)
      ensures old(active) > 0 ==> active == old(active) - 1
      ensures At(old(activePerIp), guard.ip) > 1 ==> activePerIp == old(activePerIp)[guard.ip := old(activePerIp)[guard.ip] - 1]
      ensures At(old(activePerIp), guard.ip) <= 1 ==> activePerIp == old(activePerIp) - {guard.ip}
    {
      active := WrappingDec(active);
      if guard.ip in activePerIp {
        if activePerIp[guard.ip] <= 1 {
          activePerIp := activePerIp - {guard.ip};
        } else {
          activePerIp := activePerIp[guard.ip := activePerIp[guard.ip] - 1];
        }
      }
      clients := clients - {guard.id};
    }

    method NoteRequest(clientId: nat, command: SockCommand)
      modifies this
      ensures Tally() == WithRequest(old(Tally()), command)
      ensures Rows() == Tag(old(Rows()), clientId, command)
      ensures clients.Keys == old(clients).Keys
      ensures forall id <- clients ::
                clients[id] == if id == clientId then old(clients)[id].(command := Some(command)) else old(clients)[id]
    {
      match command {
        case Connect => requestsConnect := requestsConnect + 1;
        case Bind => requestsBind := requestsBind + 1;
        case UdpAssociate => requestsUdpAssociate := requestsUdpAssociate + 1;
      }
      if clientId in clients {
        clients := clients[clientId := clients[clientId].(command := Some(command))];
      }
    }

    method NoteAuthFailure()
      modifies this`authFailures
      ensures Tally() == old(Tally()).(authFailures := old(authFailures) + 1)
    {
      authFailures := authFailures + 1;
    }

    method NoteHandshakeTimeout()
      modifies this`handshakeTimeouts
      ensures Tally() == old(Tally()).(handshakeTimeouts := old(handshakeTimeouts) + 1)
    {
      handshakeTimeouts := handshakeTimeouts + 1;
    }

    method NoteDisconnect()
      modifies this`disconnects
      ensures Tally() == old(Tally()).(disconnects := old(disconnects) + 1)
    {
      disconnects := disconnects + 1;
    }

    method NoteError(code: byte)
      modifies this`errorsByCode
      ensures Tally() == WithError(old(Tally()), code)
      ensures errorsByCode == old(errorsByCode)[code := At(old(errorsByCode), code) + 1]
    {
      errorsByCode := errorsByCode[code := At(errorsByCode, code) + 1];
    }

    method NoteRelay(up: nat, down: nat)
      modifies this`clientToTarget, this`targetToClient
      ensures clientToTarget == old(clientToTarget) + up
      ensures targetToClient == old(targetToClient) + down
    {
      clientToTarget := clientToTarget + up;
      targetToClient := targetToClient + down;
    }

    method NoteUdpDatagram(bytes: nat)
      modifies this`udpDatagrams, this`clientToTarget
      ensures udpDatagrams == old(udpDatagrams) + 1
      ensures clientToTarget == old(clientToTarget) + bytes
    {
      udpDatagrams := udpDatagrams + 1;
      clientToTarget := clientToTarget + bytes;
    }

    method NoteUdpReply(bytes: nat)
      modifies this`targetToClient
      ensures targetToClient == old(targetToClient) + bytes
    {
      targetToClient := targetToClient + bytes;
    }
  }
}
