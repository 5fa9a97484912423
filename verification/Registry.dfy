/** The live-client registry: three structures that `Stats::begin_client` and
    the drop of its guard update in separate steps, interleaved at will. */
module Registry {
  import opened Wrappers
  import opened Wire
  import opened Counting

  datatype ClientRecord = ClientRecord(peer: SocketAddr, local: Option<SocketAddr>, command: Option<SockCommand>)

  datatype Table = Table(
    clients: map<nat, ClientRecord>,
    active: nat,
    perIp: map<IpAddr, nat>,
    nextId: nat)

  const EMPTY := Table(map[], 0, map[], 0)

  // ----- the atomic sections, in the order the code runs them

  function TakeId(t: Table): Table {
    t.(nextId := t.nextId + 1)
  }

  function Insert(t: Table, id: nat, row: ClientRecord): Table {
    t.(clients := t.clients[id := row])
  }

  function CountActive(t: Table): Table {
    t.(active := t.active + 1)
  }

  function CountIp(t: Table, ip: IpAddr): Table {
    t.(perIp := t.perIp[ip := At(t.perIp, ip) + 1])
  }

  function UncountActive(t: Table): Table {
    t.(active := WrappingDec(t.active))
  }

  function UncountIp(t: Table, ip: IpAddr): Table {
    if ip !in t.perIp then t
    else if t.perIp[ip] <= 1 then t.(perIp := t.perIp - {ip})
    else t.(perIp := t.perIp[ip := t.perIp[ip] - 1])
  }

  function Remove(t: Table, id: nat): Table {
    t.(clients := t.clients - {id})
  }

  function Tag(t: Table, id: nat, command: SockCommand): Table {
    if id in t.clients
    then t.(clients := t.clients[id := t.clients[id].(command := Some(command))])
    else t
  }

  // ----- every connection is somewhere along the sequence

  /** Fresh: id taken. Listed: row inserted. Counted: `active` raised. Held: the
      guard lives. Uncounted: `active` lowered. Released: per-IP count lowered. */
  datatype Phase = Fresh | Listed | Counted | Held | Uncounted | Released

  datatype Task = Task(peer: SocketAddr, phase: Phase)

  datatype World = World(table: Table, tasks: map<nat, Task>)

  datatype Step =
    | Begin(peer: SocketAddr)
    | DoInsert(id: nat, local: Option<SocketAddr>)
    | DoCountActive(id: nat)
    | DoCountIp(id: nat)
    | DoUncountActive(id: nat)
    | DoUncountIp(id: nat)
    | DoRemove(id: nat)
    | DoTag(id: nat, command: SockCommand)

  predicate IsAt(w: World, id: nat, phase: Phase) {
    id in w.tasks && w.tasks[id].phase == phase
  }

  predicate Enabled(w: World, s: Step) {
    match s
    case Begin(_) => true
    case DoInsert(id, _) => IsAt(w, id, Fresh)
    case DoCountActive(id) => IsAt(w, id, Listed)
    case DoCountIp(id) => IsAt(w, id, Counted)
    case DoUncountActive(id) => IsAt(w, id, Held)
    case DoUncountIp(id) => IsAt(w, id, Uncounted)
    case DoRemove(id) => IsAt(w, id, Released)
    case DoTag(_, _) => true
  }

  function Move(w: World, id: nat, phase: Phase): map<nat, Task>
    requires id in w.tasks
  {
    w.tasks[id := w.tasks[id].(phase := phase)]
  }

  function Apply(w: World, s: Step): World
    requires Enabled(w, s)
  {
    match s
    case Begin(peer) => World(TakeId(w.table), w.tasks[w.table.nextId := Task(peer, Fresh)])
    case DoInsert(id, local) =>
      World(Insert(w.table, id, ClientRecord(w.tasks[id].peer, local, None)), Move(w, id, Listed))
    case DoCountActive(id) => World(CountActive(w.table), Move(w, id, Counted))
    case DoCountIp(id) => World(CountIp(w.table, w.tasks[id].peer.ip), Move(w, id, Held))
    case DoUncountActive(id) => World(UncountActive(w.table), Move(w, id, Uncounted))
    case DoUncountIp(id) => World(UncountIp(w.table, w.tasks[id].peer.ip), Move(w, id, Released))
    case DoRemove(id) => World(Remove(w.table, id), w.tasks - {id})
    case DoTag(id, command) => World(Tag(w.table, id, command), w.tasks)
  }

  const START := World(EMPTY, map[])

  /** The world after an interleaving, or None when it is not one the code allows. */
  function Run(steps: seq<Step>): Option<World> {
    if steps == [] then Some(START) else
    match Run(steps[..|steps| - 1])
    case None => None
    case Some(w) =>
      var s := steps[|steps| - 1];
      if Enabled(w, s) then Some(Apply(w, s)) else None
  }

  predicate InRows(t: Task) {
    t.phase != Fresh
  }

  predicate InActive(t: Task) {
    t.phase == Counted || t.phase == Held
  }

  predicate InPerIp(t: Task) {
    t.phase == Held || t.phase == Uncounted
  }

  predicate MidTransition(t: Task) {
    t.phase == Counted || t.phase == Uncounted
  }

  function InPerIpAs(ip: IpAddr): Task -> bool {
    (t: Task) => InPerIp(t) && t.peer.ip == ip
  }

  ghost predicate RowsMatch(w: World) {
    && (forall id <- w.tasks :: id < w.table.nextId)
    && (forall id :: id in w.table.clients <==> id in w.tasks && InRows(w.tasks[id]))
    && (forall id <- w.table.clients :: w.table.clients[id].peer == w.tasks[id].peer)
  }

  ghost predicate CountsMatch(w: World) {
    && w.table.active == Count(w.tasks, InActive)
    && (forall ip :: At(w.table.perIp, ip) == Count(w.tasks, InPerIpAs(ip)))
    && (forall ip <- w.table.perIp :: w.table.perIp[ip] > 0)
    && Sum(w.table.perIp) == Count(w.tasks, InPerIp)
  }

  ghost predicate Inv(w: World) {
    RowsMatch(w) && CountsMatch(w)
  }

  // ----- preservation

  lemma CountsAfterMove(tasks: map<nat, Task>, id: nat, t: Task, after: map<nat, Task>)
    requires after == tasks[id := t]
    requires id in tasks ==> tasks[id].peer == t.peer
    ensures Count(after, InActive) == Count(tasks, InActive) - One(id in tasks && InActive(tasks[id])) + One(InActive(t))
    ensures Count(after, InPerIp) == Count(tasks, InPerIp) - One(id in tasks && InPerIp(tasks[id])) + One(InPerIp(t))
    ensures forall ip :: Count(after, InPerIpAs(ip)) == Count(tasks, InPerIpAs(ip))
              + if ip == t.peer.ip then One(InPerIp(t)) - One(id in tasks && InPerIp(tasks[id])) else 0
  {
    CountUpdate(tasks, id, t, InActive);
    CountUpdate(tasks, id, t, InPerIp);
    forall ip
      ensures Count(after, InPerIpAs(ip)) == Count(tasks, InPerIpAs(ip))
                + if ip == t.peer.ip then One(InPerIp(t)) - One(id in tasks && InPerIp(tasks[id])) else 0
    {
      CountUpdate(tasks, id, t, InPerIpAs(ip));
    }
  }

  lemma RowsKept(w: World, s: Step)
    requires RowsMatch(w) && Enabled(w, s)
    ensures RowsMatch(Apply(w, s))
  {
  }

  lemma IpCounted(w: World, id: nat)
    requires Inv(w) && Enabled(w, DoCountIp(id))
    ensures CountsMatch(Apply(w, DoCountIp(id)))
  {
    var v := Apply(w, DoCountIp(id));
    var ip := w.tasks[id].peer.ip;
    CountsAfterMove(w.tasks, id, v.tasks[id], v.tasks);
    SumUpdate(w.table.perIp, ip, At(w.table.perIp, ip) + 1);
  }

  lemma UncountIpIsExact(t: Table, ip: IpAddr)
    requires ip in t.perIp && forall i <- t.perIp :: t.perIp[i] > 0
    ensures var after := UncountIp(t, ip).perIp;
            && (forall i :: At(after, i) == At(t.perIp, i) - One(i == ip))
            && (forall i <- after :: after[i] > 0)
            && Sum(after) == Sum(t.perIp) - 1
  {
    if t.perIp[ip] == 1 {
      SumRemove(t.perIp, ip);
    } else {
      SumUpdate(t.perIp, ip, t.perIp[ip] - 1);
    }
  }

  lemma IpUncounted(w: World, id: nat)
    requires Inv(w) && Enabled(w, DoUncountIp(id))
    ensures CountsMatch(Apply(w, DoUncountIp(id)))
  {
    var v := Apply(w, DoUncountIp(id));
    var ip := w.tasks[id].peer.ip;
    CountsAfterMove(w.tasks, id, v.tasks[id], v.tasks);
    CountPositive(w.tasks, id, InPerIpAs(ip));
    assert At(w.table.perIp, ip) > 0;
    UncountIpIsExact(w.table, ip);
  }

  lemma RowRemoved(w: World, id: nat)
    requires Inv(w) && Enabled(w, DoRemove(id))
    ensures CountsMatch(Apply(w, DoRemove(id)))
  {
    var v := Apply(w, DoRemove(id));
    CountRemove(w.tasks, id, InActive);
    CountRemove(w.tasks, id, InPerIp);
    forall ip ensures Count(v.tasks, InPerIpAs(ip)) == Count(w.tasks, InPerIpAs(ip)) {
      CountRemove(w.tasks, id, InPerIpAs(ip));
    }
  }

  lemma NewTask(w: World, peer: SocketAddr)
    requires Inv(w)
    ensures CountsMatch(Apply(w, Begin(peer)))
  {
    CountsAfterMove(w.tasks, w.table.nextId, Task(peer, Fresh), Apply(w, Begin(peer)).tasks);
  }

  lemma ActiveCounted(w: World, id: nat)
    requires Inv(w) && Enabled(w, DoCountActive(id))
    ensures CountsMatch(Apply(w, DoCountActive(id)))
  {
    var v := Apply(w, DoCountActive(id));
    CountsAfterMove(w.tasks, id, v.tasks[id], v.tasks);
  }

  lemma ActiveUncounted(w: World, id: nat)
    requires Inv(w) && Enabled(w, DoUncountActive(id))
    ensures CountsMatch(Apply(w, DoUncountActive(id)))
  {
    var v := Apply(w, DoUncountActive(id));
    CountPositive(w.tasks, id, InActive);
    CountsAfterMove(w.tasks, id, v.tasks[id], v.tasks);
  }

  lemma RowListed(w: World, id: nat, local: Option<SocketAddr>)
    requires Inv(w) && Enabled(w, DoInsert(id, local))
    ensures CountsMatch(Apply(w, DoInsert(id, local)))
  {
    var v := Apply(w, DoInsert(id, local));
    CountsAfterMove(w.tasks, id, v.tasks[id], v.tasks);
  }

  lemma CountsKept(w: World, s: Step)
    requires Inv(w) && Enabled(w, s)
    ensures CountsMatch(Apply(w, s))
  {
    match s {
      case Begin(peer) => NewTask(w, peer);
      case DoInsert(id, local) => RowListed(w, id, local);
      case DoCountActive(id) => ActiveCounted(w, id);
      case DoUncountActive(id) => ActiveUncounted(w, id);
      case DoCountIp(id) => IpCounted(w, id);
      case DoUncountIp(id) => IpUncounted(w, id);
      case DoRemove(id) => RowRemoved(w, id);
      case DoTag(_, _) =>
    }
  }

  lemma {:induction false} ReachableInv(steps: seq<Step>, w: World)
    requires Run(steps) == Some(w)
    ensures Inv(w)
    decreases |steps|
  {
    if steps == [] {
      CountNone(w.tasks, InActive);
      CountNone(w.tasks, InPerIp);
      forall ip ensures Count(w.tasks, InPerIpAs(ip)) == 0 {
        CountNone(w.tasks, InPerIpAs(ip));
      }
    } else {
      var v := Run(steps[..|steps| - 1]).value;
      ReachableInv(steps[..|steps| - 1], v);
      RowsKept(v, steps[|steps| - 1]);
      CountsKept(v, steps[|steps| - 1]);
    }
  }

  // ----- what holds whatever the interleaving

  lemma CountersBounded(steps: seq<Step>, w: World)
    requires Run(steps) == Some(w)
    ensures 0 <= w.table.active <= |w.table.clients|
    ensures Sum(w.table.perIp) <= |w.table.clients|
    ensures w.table.active - Sum(w.table.perIp) <= Count(w.tasks, MidTransition)
    ensures Sum(w.table.perIp) - w.table.active <= Count(w.tasks, MidTransition)
    ensures forall ip <- w.table.perIp :: w.table.perIp[ip] > 0
  {
    ReachableInv(steps, w);
    assert Select(w.tasks, InRows) == w.table.clients.Keys;
    CountMono(w.tasks, InActive, InRows);
    CountMono(w.tasks, InPerIp, InRows);
    CountCover(w.tasks, InActive, InPerIp, MidTransition);
    CountCover(w.tasks, InPerIp, InActive, MidTransition);
  }

  /** No decrement goes below zero and no insert lands on a live row. */
  lemma StepsAreSafe(steps: seq<Step>, w: World, s: Step)
    requires Run(steps) == Some(w) && Enabled(w, s)
    ensures s.DoInsert? ==> s.id !in w.table.clients
    ensures s.DoUncountActive? ==> w.table.active > 0
    ensures s.DoUncountIp? ==> At(w.table.perIp, w.tasks[s.id].peer.ip) > 0
    ensures s.DoRemove? ==> s.id in w.table.clients
    ensures s.Begin? ==> w.table.nextId !in w.tasks && w.table.nextId !in w.table.clients
  {
    ReachableInv(steps, w);
    match s {
      case DoUncountActive(id) => CountPositive(w.tasks, id, InActive);
      case DoUncountIp(id) => CountPositive(w.tasks, id, InPerIpAs(w.tasks[id].peer.ip));
      case _ =>
    }
  }

  predicate Quiescent(w: World) {
    forall id <- w.tasks :: w.tasks[id].phase == Held
  }

  ghost function RowsOf(t: Table, ip: IpAddr): set<nat> {
    set id | id in t.clients && t.clients[id].peer.ip == ip
  }

  /** With no connection in mid-transition the three structures agree, in total
      and per address; with no connection at all they are empty. */
  lemma QuiescentAgreement(steps: seq<Step>, w: World)
    requires Run(steps) == Some(w) && Quiescent(w)
    ensures w.table.active == Sum(w.table.perIp) == |w.table.clients|
    ensures forall ip :: At(w.table.perIp, ip) == |RowsOf(w.table, ip)|
    ensures w.tasks == map[] ==> w.table == EMPTY.(nextId := w.table.nextId)
  {
    ReachableInv(steps, w);
    assert Select(w.tasks, InActive) == w.table.clients.Keys;
    assert Select(w.tasks, InPerIp) == w.table.clients.Keys;
    forall ip ensures At(w.table.perIp, ip) == |RowsOf(w.table, ip)| {
      assert Select(w.tasks, InPerIpAs(ip)) == RowsOf(w.table, ip);
    }
    if w.tasks == map[] {
      assert w.table.clients == map[];
      forall ip ensures ip !in w.table.perIp {
        assert RowsOf(w.table, ip) == {};
      }
    }
  }
}
