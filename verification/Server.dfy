/** The whole server: admission and the live-client registry side by side. A connection
    registers itself while it holds its permit and slot, and gives them back only once
    its guard has been dropped. */
module Server {
  import opened Wrappers
  import opened Wire
  import opened Counting
  import Admission
  import Registry

  /** `serving` says which connection each registry task belongs to. */
  datatype World = World(
    hall: Admission.Hall,
    registry: Registry.World,
    serving: map<nat, nat>,
    started: set<nat>)

  datatype Step =
    | Admit(hallStep: Admission.Step)
    | Start(conn: nat, peer: SocketAddr)
    | Register(registryStep: Registry.Step)

  /** What the connection was admitted with and still owns all of. */
  predicate Whole(cfg: Admission.Config, c: Admission.Conn) {
    c.permit && (cfg.perIp.Some? ==> c.slot)
  }

  predicate GivesBack(s: Admission.Step) {
    s.DropIpSlot? || s.DropPermit?
  }

  predicate Enabled(cfg: Admission.Config, w: World, s: Step) {
    match s
    case Admit(e) => Admission.Enabled(w.hall, e) && (GivesBack(e) ==> e.c !in w.serving.Values)
    case Start(c, peer) =>
      && c in w.hall.conns && c !in w.started
      && Whole(cfg, w.hall.conns[c]) && w.hall.conns[c].ip == peer.ip
    case Register(e) => !e.Begin? && Registry.Enabled(w.registry, e)
  }

  function Apply(cfg: Admission.Config, w: World, s: Step): World
    requires Enabled(cfg, w, s)
  {
    match s
    case Admit(e) => w.(hall := Admission.Apply(cfg, w.hall, e))
    case Start(c, peer) =>
      World(w.hall, Registry.Apply(w.registry, Registry.Begin(peer)),
            w.serving[w.registry.table.nextId := c], w.started + {c})
    case Register(e) =>
      w.(registry := Registry.Apply(w.registry, e),
         serving := if e.DoRemove? then w.serving - {e.id} else w.serving)
  }

  function Run(cfg: Admission.Config, loops: set<nat>, steps: seq<Step>): Option<World> {
    if steps == [] then Some(World(Admission.Open(cfg, loops), Registry.START, map[], {})) else
    match Run(cfg, loops, steps[..|steps| - 1])
    case None => None
    case Some(w) =>
      var s := steps[|steps| - 1];
      if Enabled(cfg, w, s) then Some(Apply(cfg, w, s)) else None
  }

  // ----- each side is the system modelled on its own

  function HallSteps(steps: seq<Step>): seq<Admission.Step> {
    if steps == [] then [] else
    HallSteps(steps[..|steps| - 1])
    + match steps[|steps| - 1]
      case Admit(e) => [e]
      case _ => []
  }

  function RegistrySteps(steps: seq<Step>): seq<Registry.Step> {
    if steps == [] then [] else
    RegistrySteps(steps[..|steps| - 1])
    + match steps[|steps| - 1]
      case Admit(_) => []
      case Start(_, peer) => [Registry.Begin(peer)]
      case Register(e) => [e]
  }

  lemma {:induction false} SidesRunAlone(cfg: Admission.Config, loops: set<nat>, steps: seq<Step>, w: World)
    requires Run(cfg, loops, steps) == Some(w)
    ensures Admission.Run(cfg, loops, HallSteps(steps)) == Some(w.hall)
    ensures Registry.Run(RegistrySteps(steps)) == Some(w.registry)
    decreases |steps|
  {
    if steps != [] {
      var front, s := steps[..|steps| - 1], steps[|steps| - 1];
      SidesRunAlone(cfg, loops, front, Run(cfg, loops, front).value);
      var hall, registry := HallSteps(front), RegistrySteps(front);
      match s {
        case Admit(e) => assert (hall + [e])[..|hall|] == hall;
        case Start(_, peer) => assert (registry + [Registry.Begin(peer)])[..|registry|] == registry;
        case Register(e) => assert (registry + [e])[..|registry|] == registry;
      }
      assert hall + [] == hall && registry + [] == registry;
    }
  }

  // ----- who is registered holds a permit and a slot

  /** The connection behind a task, which still owns what it was admitted with. */
  predicate Backed(cfg: Admission.Config, w: World, id: nat)
    requires id in w.serving && id in w.registry.tasks
  {
    var c := w.serving[id];
    && c in w.hall.conns && c in w.started
    && Whole(cfg, w.hall.conns[c]) && w.hall.conns[c].ip == w.registry.tasks[id].peer.ip
  }

  ghost predicate Linked(cfg: Admission.Config, w: World) {
    && w.serving.Keys == w.registry.tasks.Keys
    && (forall id <- w.serving :: Backed(cfg, w, id))
    && (forall i <- w.serving, j <- w.serving :: w.serving[i] == w.serving[j] ==> i == j)
  }

  lemma AdmitKeepsLinked(cfg: Admission.Config, w: World, e: Admission.Step)
    requires Linked(cfg, w) && Enabled(cfg, w, Admit(e))
    requires forall c <- w.hall.conns :: c < w.hall.nextConn
    ensures Linked(cfg, Apply(cfg, w, Admit(e)))
  {
    var v := Apply(cfg, w, Admit(e));
    forall id <- w.serving ensures Backed(cfg, v, id) {
      var c := w.serving[id];
      assert Backed(cfg, w, id);
      assert c in w.serving.Values;
      assert v.hall.conns[c] == w.hall.conns[c];
    }
  }

  lemma StartKeepsLinked(cfg: Admission.Config, w: World, c: nat, peer: SocketAddr)
    requires Linked(cfg, w) && Enabled(cfg, w, Start(c, peer))
    requires forall id <- w.registry.tasks :: id < w.registry.table.nextId
    ensures Linked(cfg, Apply(cfg, w, Start(c, peer)))
  {
    var v := Apply(cfg, w, Start(c, peer));
    forall id <- v.serving ensures Backed(cfg, v, id) {
      if id != w.registry.table.nextId {
        assert Backed(cfg, w, id);
      }
    }
    forall id <- w.serving ensures w.serving[id] != c {
      assert Backed(cfg, w, id);
    }
  }

  lemma RegisterKeepsLinked(cfg: Admission.Config, w: World, e: Registry.Step)
    requires Linked(cfg, w) && Enabled(cfg, w, Register(e))
    ensures Linked(cfg, Apply(cfg, w, Register(e)))
  {
    var v := Apply(cfg, w, Register(e));
    forall id <- v.serving ensures Backed(cfg, v, id) {
      assert Backed(cfg, w, id);
    }
  }

  lemma {:induction false} ReachableLinked(cfg: Admission.Config, loops: set<nat>, steps: seq<Step>, w: World)
    requires cfg.Valid() && Run(cfg, loops, steps) == Some(w)
    ensures Linked(cfg, w)
    decreases |steps|
  {
    if steps != [] {
      var front, s := steps[..|steps| - 1], steps[|steps| - 1];
      var before := Run(cfg, loops, front).value;
      ReachableLinked(cfg, loops, front, before);
      SidesRunAlone(cfg, loops, front, before);
      Admission.ReachableInv(cfg, loops, HallSteps(front), before.hall);
      Registry.ReachableInv(RegistrySteps(front), before.registry);
      match s {
        case Admit(e) => AdmitKeepsLinked(cfg, before, e);
        case Start(c, peer) => StartKeepsLinked(cfg, before, c, peer);
        case Register(e) => RegisterKeepsLinked(cfg, before, e);
      }
    }
  }

  // ----- the caps carry over to the registry

  /** Distinct tasks of one kind belong to distinct connections of another. */
  lemma TasksFit(w: World, p: Registry.Task -> bool, q: Admission.Conn -> bool)
    requires w.serving.Keys == w.registry.tasks.Keys
    requires forall i <- w.serving, j <- w.serving :: w.serving[i] == w.serving[j] ==> i == j
    requires forall id <- w.serving :: p(w.registry.tasks[id]) ==> w.serving[id] in w.hall.conns && q(w.hall.conns[w.serving[id]])
    ensures Count(w.registry.tasks, p) <= Count(w.hall.conns, q)
  {
    Pigeons(Select(w.registry.tasks, p), w.serving, Select(w.hall.conns, q));
  }

  lemma {:induction false} Pigeons(a: set<nat>, f: map<nat, nat>, b: set<nat>)
    requires a <= f.Keys && forall i <- a :: f[i] in b
    requires forall i <- a, j <- a :: f[i] == f[j] ==> i == j
    ensures |a| <= |b|
  {
    if a != {} {
      var i :| i in a;
      Pigeons(a - {i}, f, b - {f[i]});
    }
  }

  function ListedAs(ip: IpAddr): Registry.Task -> bool {
    (t: Registry.Task) => Registry.InRows(t) && t.peer.ip == ip
  }

  lemma RowsHoldPermits(cfg: Admission.Config, w: World)
    requires Linked(cfg, w) && Registry.RowsMatch(w.registry)
    ensures |w.registry.table.clients| <= Count(w.hall.conns, Admission.ConnPermit)
  {
    assert forall id <- w.serving :: Backed(cfg, w, id);
    assert Select(w.registry.tasks, Registry.InRows) == w.registry.table.clients.Keys;
    TasksFit(w, Registry.InRows, Admission.ConnPermit);
  }

  lemma RowsHoldSlots(cfg: Admission.Config, w: World, ip: IpAddr)
    requires cfg.perIp.Some? && Linked(cfg, w) && Registry.RowsMatch(w.registry)
    ensures |Registry.RowsOf(w.registry.table, ip)| <= Count(w.hall.conns, Admission.ConnSlot(ip))
  {
    assert forall id <- w.serving :: Backed(cfg, w, id);
    assert Select(w.registry.tasks, ListedAs(ip)) == Registry.RowsOf(w.registry.table, ip);
    TasksFit(w, ListedAs(ip), Admission.ConnSlot(ip));
  }

  lemma CountedHoldSlots(cfg: Admission.Config, w: World, ip: IpAddr)
    requires cfg.perIp.Some? && Linked(cfg, w) && Registry.CountsMatch(w.registry)
    ensures At(w.registry.table.perIp, ip) <= Count(w.hall.conns, Admission.ConnSlot(ip))
  {
    assert forall id <- w.serving :: Backed(cfg, w, id);
    TasksFit(w, Registry.InPerIpAs(ip), Admission.ConnSlot(ip));
  }

  /** In every reachable state of the server the registry lists no more connections
      than hold a permit, and no more of one address than hold one of its slots; so
      what it reports never exceeds the configured caps. */
  lemma RegistryWithinCaps(cfg: Admission.Config, loops: set<nat>, steps: seq<Step>, w: World, ip: IpAddr)
    requires cfg.Valid() && Run(cfg, loops, steps) == Some(w)
    ensures |w.registry.table.clients| <= Count(w.hall.conns, Admission.ConnPermit) <= cfg.maxConnections
    ensures w.registry.table.active <= cfg.maxConnections && Sum(w.registry.table.perIp) <= cfg.maxConnections
    ensures cfg.perIp.Some? ==>
              && |Registry.RowsOf(w.registry.table, ip)| <= Count(w.hall.conns, Admission.ConnSlot(ip)) <= cfg.perIp.value
              && At(w.registry.table.perIp, ip) <= cfg.perIp.value
  {
    ReachableLinked(cfg, loops, steps, w);
    SidesRunAlone(cfg, loops, steps, w);
    Admission.CapsHold(cfg, loops, HallSteps(steps), w.hall, ip);
    Registry.CountersBounded(RegistrySteps(steps), w.registry);
    Registry.ReachableInv(RegistrySteps(steps), w.registry);
    RowsHoldPermits(cfg, w);
    if cfg.perIp.Some? {
      RowsHoldSlots(cfg, w, ip);
      CountedHoldSlots(cfg, w, ip);
    }
  }
}
