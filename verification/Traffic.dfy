/** The traffic totals: relays and UDP associations interleave step by step and add to
    the same counters, each addition an atomic step of its own. */
module Traffic {
  import opened Wrappers
  import opened Wire
  import opened Counting
  import Relay
  import UdpAssociation

  /** How far a finished relay is with `note_relay`, which adds in two steps. */
  datatype Noting = Unnoted | UpNoted | Noted

  /** How far an association is with the packet in its hand: what it still has to add
      for it, a datagram being counted before its bytes are, and then the sending. */
  datatype Owed = Nothing | Datagram(bytes: nat) | Outward(bytes: nat) | Inward(bytes: nat) | Ready

  datatype Conn =
    | Relaying(upInput: seq<byte>, downInput: seq<byte>, relay: Relay.State, noting: Noting)
    | Associated(expected: Option<IpAddr>, assoc: UdpAssociation.Assoc, handed: seq<UdpAssociation.Packet>, owed: Owed)

  datatype Totals = Totals(datagrams: nat, clientToTarget: nat, targetToClient: nat)

  datatype World = World(conns: map<nat, Conn>, totals: Totals)

  datatype Step =
    | OpenRelay(id: nat, upInput: seq<byte>, downInput: seq<byte>)
    | OpenAssociation(id: nat, expected: Option<IpAddr>)
    | RelayStep(id: nat, move: Relay.Step)
    | NoteUp(id: nat)
    | NoteDown(id: nat)
    | UdpEvent(id: nat, event: UdpAssociation.Event)
    | CountDatagram(id: nat)
    | CountBytes(id: nat)
    | SendPacket(id: nat)

  predicate Enabled(w: World, s: Step) {
    match s
    case OpenRelay(id, _, _) => id !in w.conns
    case OpenAssociation(id, _) => id !in w.conns
    case _ =>
      s.id in w.conns &&
      var conn := w.conns[s.id];
      match s
      case RelayStep(_, e) => conn.Relaying? && Relay.Enabled(conn.relay, e)
      case NoteUp(_) => conn.Relaying? && conn.relay.pc.Finished? && conn.noting == Unnoted
      case NoteDown(_) => conn.Relaying? && conn.noting == UpNoted
      case UdpEvent(_, _) => conn.Associated? && conn.owed == Nothing
      case CountDatagram(_) => conn.Associated? && conn.owed.Datagram?
      case CountBytes(_) => conn.Associated? && (conn.owed.Outward? || conn.owed.Inward?)
      case SendPacket(_) => conn.Associated? && conn.owed.Ready?
      case _ => false
  }

  /** What the code adds for the packet an event made the association send. */
  function OwedFor(before: UdpAssociation.Assoc, after: UdpAssociation.Assoc): Owed {
    if |after.packets| <= |before.packets| then Nothing
    else match after.packets[|after.packets| - 1]
         case Forwarded(_, payload) => Datagram(|payload|)
         case Returned(_, out) => Inward(|out|)
  }

  /** The connection a step works on, afterwards. */
  function Moved(w: World, s: Step): Conn
    requires Enabled(w, s)
  {
    match s
    case OpenRelay(_, up, down) => Relaying(up, down, Relay.Start(up, down), Unnoted)
    case OpenAssociation(_, expected) => Associated(expected, UdpAssociation.OPENED, [], Nothing)
    case RelayStep(id, e) => w.conns[id].(relay := Relay.Apply(w.conns[id].relay, e))
    case NoteUp(id) => w.conns[id].(noting := UpNoted)
    case NoteDown(id) => w.conns[id].(noting := Noted)
    case UdpEvent(id, e) =>
      var conn := w.conns[id];
      var after := UdpAssociation.Step(conn.expected, conn.assoc, e);
      conn.(assoc := after, owed := OwedFor(conn.assoc, after))
    case CountDatagram(id) => w.conns[id].(owed := Outward(w.conns[id].owed.bytes))
    case CountBytes(id) => w.conns[id].(owed := Ready)
    case SendPacket(id) => w.conns[id].(handed := w.conns[id].assoc.packets, owed := Nothing)
  }

  /** The shared counters afterwards. A finished relay adds the counts it finished with. */
  function Added(w: World, s: Step): Totals
    requires Enabled(w, s)
  {
    var t := w.totals;
    match s
    case NoteUp(id) => t.(clientToTarget := t.clientToTarget + w.conns[id].relay.up.progress)
    case NoteDown(id) => t.(targetToClient := t.targetToClient + w.conns[id].relay.down.progress)
    case CountDatagram(_) => t.(datagrams := t.datagrams + 1)
    case CountBytes(id) =>
      (match w.conns[id].owed
       case Outward(n) => t.(clientToTarget := t.clientToTarget + n)
       case Inward(n) => t.(targetToClient := t.targetToClient + n))
    case _ => t
  }

  function Apply(w: World, s: Step): World
    requires Enabled(w, s)
  {
    World(w.conns[s.id := Moved(w, s)], Added(w, s))
  }

  function Run(steps: seq<Step>): Option<World> {
    if steps == [] then Some(World(map[], Totals(0, 0, 0))) else
    match Run(steps[..|steps| - 1])
    case None => None
    case Some(w) =>
      var s := steps[|steps| - 1];
      if Enabled(w, s) then Some(Apply(w, s)) else None
  }

  // ----- what each connection stands for, and what it has added so far

  function PacketTotals(packets: seq<UdpAssociation.Packet>): Totals {
    Totals(UdpAssociation.ForwardedCount(packets), UdpAssociation.ForwardedBytes(packets), UdpAssociation.ReturnedBytes(packets))
  }

  /** A cleanly finished relay stands for its whole streams, an unfinished or failed
      one for nothing, an association for the packets it handed to its socket. */
  function Due(c: Conn): Totals {
    match c
    case Relaying(up, down, relay, _) => if relay.pc.Finished? then Totals(0, |up|, |down|) else Totals(0, 0, 0)
    case Associated(_, _, handed, _) => PacketTotals(handed)
  }

  /** The same with the packet still in hand. */
  function Most(c: Conn): Totals {
    if c.Associated? then PacketTotals(c.assoc.packets) else Due(c)
  }

  /** The same without the relays' notes that are not made. */
  function Least(c: Conn): Totals {
    match c
    case Relaying(up, down, _, noting) =>
      Totals(0, if noting == Unnoted then 0 else |up|, if noting == Noted then |down| else 0)
    case Associated(_, _, handed, _) => PacketTotals(handed)
  }

  /** No note of this connection is half done and no packet in its hand. */
  predicate Settled(c: Conn) {
    match c
    case Relaying(_, _, relay, noting) => relay.pc.Finished? ==> noting == Noted
    case Associated(_, _, _, owed) => owed == Nothing
  }

  function DatagramsOwed(c: Conn): nat {
    if c.Associated? && c.owed.Datagram? then 1 else 0
  }

  function UpOwed(c: Conn): nat {
    match c
    case Relaying(up, _, relay, noting) => if relay.pc.Finished? && noting == Unnoted then |up| else 0
    case Associated(_, _, _, owed) => if owed.Datagram? || owed.Outward? then owed.bytes else 0
  }

  function DownOwed(c: Conn): nat {
    match c
    case Relaying(_, down, relay, noting) => if relay.pc.Finished? && noting != Noted then |down| else 0
    case Associated(_, _, _, owed) => if owed.Inward? then owed.bytes else 0
  }

  /** All packets are handed over, but for one in hand that is not all paid for. */
  predicate InHand(packets: seq<UdpAssociation.Packet>, handed: seq<UdpAssociation.Packet>, owed: Owed) {
    if owed == Nothing then handed == packets
    else packets != [] && handed == packets[..|packets| - 1] && OwedAtMost(owed, packets[|packets| - 1])
  }

  predicate OwedAtMost(owed: Owed, p: UdpAssociation.Packet) {
    match owed
    case Datagram(n) => p.Forwarded? && n == |p.bytes|
    case Outward(n) => p.Forwarded? && n == |p.bytes|
    case Inward(n) => p.Returned? && n == |p.bytes|
    case _ => true
  }

  ghost predicate ConnInv(c: Conn) {
    match c
    case Relaying(up, down, relay, noting) =>
      && Relay.Inv(relay) && relay.up.input == up && relay.down.input == down
      && (noting != Unnoted ==> relay.pc.Finished?)
    case Associated(_, a, handed, owed) =>
      && UdpAssociation.Balanced(a)
      && (a.packets != [] ==> a.client.Some?)
      && DatagramsOwed(c) <= a.datagrams && UpOwed(c) <= a.clientToTarget && DownOwed(c) <= a.targetToClient
      && InHand(a.packets, handed, owed)
  }

  // ----- what it has added: what it stands for at most, less what it owes

  function Less(a: nat, b: nat): nat {
    if a < b then 0 else a - b
  }

  function DatagramsPaid(c: Conn): nat {
    Less(Most(c).datagrams, DatagramsOwed(c))
  }

  function UpPaid(c: Conn): nat {
    Less(Most(c).clientToTarget, UpOwed(c))
  }

  function DownPaid(c: Conn): nat {
    Less(Most(c).targetToClient, DownOwed(c))
  }

  function Paid(c: Conn): Totals {
    Totals(DatagramsPaid(c), UpPaid(c), DownPaid(c))
  }

  // ----- one step, one connection

  /** Turning connection `id` into `moved` and the totals into `added` adds to them
      exactly what the connection's share grows by. */
  ghost predicate Pays(w: World, id: nat, moved: Conn, added: Totals) {
    var had := id in w.conns;
    && ConnInv(moved)
    && added.datagrams + (if had then DatagramsPaid(w.conns[id]) else 0) == w.totals.datagrams + DatagramsPaid(moved)
    && added.clientToTarget + (if had then UpPaid(w.conns[id]) else 0) == w.totals.clientToTarget + UpPaid(moved)
    && added.targetToClient + (if had then DownPaid(w.conns[id]) else 0) == w.totals.targetToClient + DownPaid(moved)
  }

  lemma OpeningPays(w: World, s: Step)
    requires Enabled(w, s) && (s.OpenRelay? || s.OpenAssociation?)
    ensures Pays(w, s.id, Moved(w, s), Added(w, s))
  {
  }

  lemma UnnotedPaidNothing(c: Conn)
    requires c.Relaying? && c.noting == Unnoted
    ensures DatagramsPaid(c) == UpPaid(c) == DownPaid(c) == 0
  {
  }

  lemma RelayKept(c: Conn, e: Relay.Step)
    requires c.Relaying? && ConnInv(c) && Relay.Enabled(c.relay, e)
    ensures c.noting == Unnoted && ConnInv(c.(relay := Relay.Apply(c.relay, e)))
  {
    Relay.LaneKept(c.relay, e, true);
    Relay.LaneKept(c.relay, e, false);
    Relay.InputsKept(c.relay, e);
  }

  /** Nothing a relay does before it is noted changes what it has added. */
  lemma RelayingPays(w: World, id: nat, e: Relay.Step)
    requires Enabled(w, RelayStep(id, e)) && ConnInv(w.conns[id])
    ensures Pays(w, id, Moved(w, RelayStep(id, e)), Added(w, RelayStep(id, e)))
  {
    var c := w.conns[id];
    RelayKept(c, e);
    UnnotedPaidNothing(c);
    UnnotedPaidNothing(c.(relay := Relay.Apply(c.relay, e)));
  }

  /** The counts a finished relay returns are its whole streams. */
  lemma FinishedCounts(c: Conn)
    requires c.Relaying? && ConnInv(c) && c.relay.pc.Finished?
    ensures c.relay.up.progress == |c.upInput| && c.relay.down.progress == |c.downInput|
  {
    assert Relay.LaneInv(c.relay, true) && Relay.LaneInv(c.relay, false);
  }

  lemma NotingPays(w: World, s: Step)
    requires Enabled(w, s) && (s.NoteUp? || s.NoteDown?) && ConnInv(w.conns[s.id])
    ensures Pays(w, s.id, Moved(w, s), Added(w, s))
  {
    FinishedCounts(w.conns[s.id]);
  }

  /** An event makes an association owe exactly what it newly stands for. */
  lemma EventOwes(c: Conn, e: UdpAssociation.Event)
    requires c.Associated? && ConnInv(c) && c.owed == Nothing
    ensures var after := UdpAssociation.Step(c.expected, c.assoc, e);
            var moved := c.(assoc := after, owed := OwedFor(c.assoc, after));
            && ConnInv(moved)
            && DatagramsPaid(moved) == DatagramsPaid(c) && UpPaid(moved) == UpPaid(c) && DownPaid(moved) == DownPaid(c)
  {
    UdpAssociation.StepBalances(c.expected, c.assoc, e);
    var p := UdpAssociation.OneAtATime(c.expected, c.assoc, e);
    if p.Some? {
      UdpAssociation.TotalsExtend(c.assoc.packets, p.value);
    }
  }

  lemma EventPays(w: World, id: nat, e: UdpAssociation.Event)
    requires Enabled(w, UdpEvent(id, e)) && ConnInv(w.conns[id])
    ensures Pays(w, id, Moved(w, UdpEvent(id, e)), Added(w, UdpEvent(id, e)))
  {
    EventOwes(w.conns[id], e);
  }

  lemma CountingPays(w: World, s: Step)
    requires Enabled(w, s) && (s.CountDatagram? || s.CountBytes?) && ConnInv(w.conns[s.id])
    ensures Pays(w, s.id, Moved(w, s), Added(w, s))
  {
  }

  lemma SendingPays(w: World, id: nat)
    requires Enabled(w, SendPacket(id)) && ConnInv(w.conns[id])
    ensures Pays(w, id, Moved(w, SendPacket(id)), Added(w, SendPacket(id)))
  {
  }

  lemma StepPays(w: World, s: Step)
    requires Enabled(w, s) && (s.id in w.conns ==> ConnInv(w.conns[s.id]))
    ensures Pays(w, s.id, Moved(w, s), Added(w, s))
  {
    match s {
      case OpenRelay(_, _, _) => OpeningPays(w, s);
      case OpenAssociation(_, _) => OpeningPays(w, s);
      case RelayStep(id, e) => RelayingPays(w, id, e);
      case NoteUp(_) => NotingPays(w, s);
      case NoteDown(_) => NotingPays(w, s);
      case UdpEvent(id, e) => EventPays(w, id, e);
      case CountDatagram(_) => CountingPays(w, s);
      case CountBytes(_) => CountingPays(w, s);
      case SendPacket(id) => SendingPays(w, id);
    }
  }

  // ----- every interleaving

  ghost function Shares(conns: map<nat, Conn>, share: Conn -> nat): map<nat, nat> {
    map id | id in conns :: share(conns[id])
  }

  ghost function Over(conns: map<nat, Conn>, share: Conn -> nat): nat {
    Sum(Shares(conns, share))
  }

  lemma OverUpdate(conns: map<nat, Conn>, id: nat, c: Conn, share: Conn -> nat)
    ensures Over(conns[id := c], share) + (if id in conns then share(conns[id]) else 0) == Over(conns, share) + share(c)
  {
    SumUpdate(Shares(conns, share), id, share(c));
    assert Shares(conns[id := c], share) == Shares(conns, share)[id := share(c)];
  }

  /** A share of the three totals, read off each connection. */
  function Datagrams(of: Conn -> Totals): (share: Conn -> nat)
    ensures forall c :: share(c) == of(c).datagrams
  {
    c => of(c).datagrams
  }

  function Up(of: Conn -> Totals): (share: Conn -> nat)
    ensures forall c :: share(c) == of(c).clientToTarget
  {
    c => of(c).clientToTarget
  }

  function Down(of: Conn -> Totals): (share: Conn -> nat)
    ensures forall c :: share(c) == of(c).targetToClient
  {
    c => of(c).targetToClient
  }

  ghost function Sums(conns: map<nat, Conn>, of: Conn -> Totals): Totals {
    Totals(Over(conns, Datagrams(of)), Over(conns, Up(of)), Over(conns, Down(of)))
  }

  ghost predicate Inv(w: World) {
    && (forall id <- w.conns :: ConnInv(w.conns[id]))
    && w.totals == Sums(w.conns, Paid)
  }

  lemma TotalsKept(w: World, id: nat, moved: Conn, added: Totals)
    requires w.totals == Sums(w.conns, Paid) && Pays(w, id, moved, added)
    ensures added == Sums(w.conns[id := moved], Paid)
  {
    assert id in w.conns ==> Paid(w.conns[id]) == Totals(DatagramsPaid(w.conns[id]), UpPaid(w.conns[id]), DownPaid(w.conns[id]));
    assert Paid(moved) == Totals(DatagramsPaid(moved), UpPaid(moved), DownPaid(moved));
    OverUpdate(w.conns, id, moved, Datagrams(Paid));
    OverUpdate(w.conns, id, moved, Up(Paid));
    OverUpdate(w.conns, id, moved, Down(Paid));
  }

  lemma PayingKeepsInv(w: World, id: nat, moved: Conn, added: Totals)
    requires Inv(w) && Pays(w, id, moved, added)
    ensures Inv(World(w.conns[id := moved], added))
  {
    TotalsKept(w, id, moved, added);
  }

  lemma StepKeepsInv(w: World, s: Step)
    requires Inv(w) && Enabled(w, s)
    ensures Inv(Apply(w, s))
  {
    StepPays(w, s);
    PayingKeepsInv(w, s.id, Moved(w, s), Added(w, s));
  }

  lemma {:induction false} ReachableInv(steps: seq<Step>, w: World)
    requires Run(steps) == Some(w)
    ensures Inv(w)
    decreases |steps|
  {
    if steps != [] {
      var before := Run(steps[..|steps| - 1]).value;
      ReachableInv(steps[..|steps| - 1], before);
      StepKeepsInv(before, steps[|steps| - 1]);
    }
  }

  predicate AtMost(t: Totals, u: Totals) {
    t.datagrams <= u.datagrams && t.clientToTarget <= u.clientToTarget && t.targetToClient <= u.targetToClient
  }

  lemma OverAtMost(conns: map<nat, Conn>, f: Conn -> nat, g: Conn -> nat)
    requires forall id <- conns :: f(conns[id]) <= g(conns[id])
    ensures Over(conns, f) <= Over(conns, g)
  {
    SumMono(Shares(conns, f), Shares(conns, g));
  }

  lemma SumsAtMost(conns: map<nat, Conn>, f: Conn -> Totals, g: Conn -> Totals)
    requires forall id <- conns :: AtMost(f(conns[id]), g(conns[id]))
    ensures AtMost(Sums(conns, f), Sums(conns, g))
  {
    OverAtMost(conns, Datagrams(f), Datagrams(g));
    OverAtMost(conns, Up(f), Up(g));
    OverAtMost(conns, Down(f), Down(g));
  }

  /** Nothing is added for more than what is handed over or in hand, and nothing is
      handed over that was not added first. */
  lemma PaidBetween(c: Conn)
    requires ConnInv(c)
    ensures AtMost(Least(c), Paid(c)) && AtMost(Paid(c), Most(c))
    ensures Settled(c) ==> Paid(c) == Due(c)
  {
    if c.Associated? && c.owed != Nothing {
      var p := c.assoc.packets[|c.assoc.packets| - 1];
      assert c.assoc.packets == c.handed + [p];
      UdpAssociation.TotalsExtend(c.handed, p);
    }
  }

  /** In every reachable state the totals cover every packet handed to a socket and
      every note made, and never more than those, the packets in hand and the finished
      relays not noted yet; and whenever nothing is half done they are exactly the
      stream lengths of the cleanly finished relays plus the bytes of the packets
      handed over. */
  lemma TotalsAreDue(steps: seq<Step>, w: World)
    requires Run(steps) == Some(w)
    ensures AtMost(Sums(w.conns, Least), w.totals) && AtMost(w.totals, Sums(w.conns, Most))
    ensures (forall id <- w.conns :: Settled(w.conns[id])) ==> w.totals == Sums(w.conns, Due)
  {
    ReachableInv(steps, w);
    forall id <- w.conns
      ensures AtMost(Least(w.conns[id]), Paid(w.conns[id])) && AtMost(Paid(w.conns[id]), Most(w.conns[id]))
      ensures Settled(w.conns[id]) ==> Paid(w.conns[id]) == Due(w.conns[id])
    {
      PaidBetween(w.conns[id]);
    }
    SumsAtMost(w.conns, Least, Paid);
    SumsAtMost(w.conns, Paid, Most);
    if forall id <- w.conns :: Settled(w.conns[id]) {
      SumsAtMost(w.conns, Paid, Due);
      SumsAtMost(w.conns, Due, Paid);
    }
  }

  // ----- the connections are the ones modelled on their own

  /** The relay steps, or the events, one connection went through. */
  function RelaySteps(steps: seq<Step>, id: nat): seq<Relay.Step> {
    if steps == [] then [] else
    var s := steps[|steps| - 1];
    RelaySteps(steps[..|steps| - 1], id) + if s.RelayStep? && s.id == id then [s.move] else []
  }

  function Events(steps: seq<Step>, id: nat): seq<UdpAssociation.Event> {
    if steps == [] then [] else
    var s := steps[|steps| - 1];
    Events(steps[..|steps| - 1], id) + if s.UdpEvent? && s.id == id then [s.event] else []
  }

  /** Each connection's state is what its own steps alone would have brought it to. */
  ghost predicate RunsAlone(steps: seq<Step>, id: nat, c: Conn) {
    match c
    case Relaying(up, down, relay, _) => Relay.Run(Relay.Start(up, down), RelaySteps(steps, id)) == Some(relay)
    case Associated(expected, assoc, _, _) => UdpAssociation.Fold(expected, Events(steps, id)) == assoc
  }

  lemma {:induction false} NothingBeforeOpening(steps: seq<Step>, w: World, id: nat)
    requires Run(steps) == Some(w) && id !in w.conns
    ensures RelaySteps(steps, id) == [] && Events(steps, id) == []
    decreases |steps|
  {
    if steps != [] {
      NothingBeforeOpening(steps[..|steps| - 1], Run(steps[..|steps| - 1]).value, id);
    }
  }

  lemma {:induction false} ConnectionsRunAlone(steps: seq<Step>, w: World, id: nat)
    requires Run(steps) == Some(w) && id in w.conns
    ensures RunsAlone(steps, id, w.conns[id])
    decreases |steps|
  {
    if steps != [] {
      var front, s := steps[..|steps| - 1], steps[|steps| - 1];
      var before := Run(front).value;
      if id in before.conns {
        ConnectionsRunAlone(front, before, id);
        MoveRunsAlone(steps, before, id);
      } else {
        NothingBeforeOpening(front, before, id);
        assert RelaySteps(steps, id) == [] && Events(steps, id) == [];
      }
    }
  }

  lemma MoveRunsAlone(steps: seq<Step>, before: World, id: nat)
    requires steps != [] && Enabled(before, steps[|steps| - 1])
    requires id in before.conns && RunsAlone(steps[..|steps| - 1], id, before.conns[id])
    ensures RunsAlone(steps, id, Apply(before, steps[|steps| - 1]).conns[id])
  {
    var front, s := steps[..|steps| - 1], steps[|steps| - 1];
    var relaySteps, events := RelaySteps(front, id), Events(front, id);
    assert s.RelayStep? && s.id == id ==> (relaySteps + [s.move])[..|relaySteps|] == relaySteps;
    assert s.UdpEvent? && s.id == id ==> (events + [s.event])[..|events|] == events;
    assert relaySteps + [] == relaySteps && events + [] == events;
  }
}
