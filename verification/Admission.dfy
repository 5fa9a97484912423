/** Admission control: the accept loops, the connection semaphore and the
    per-source limiter they share. */
module Admission {
  import opened Wrappers
  import opened Wire
  import opened Counting

  // ----- the limiter

  /** Reserve a slot: the table afterwards, and whether one was free. */
  function Reserve(counts: map<IpAddr, nat>, limit: nat, ip: IpAddr): (map<IpAddr, nat>, bool) {
    var entry := counts[ip := At(counts, ip)];
    if entry[ip] >= limit then (entry, false) else (entry[ip := entry[ip] + 1], true)
  }

  /** Give a slot back, as dropping an `IpSlot` does. */
  function Release(counts: map<IpAddr, nat>, ip: IpAddr): map<IpAddr, nat> {
    if ip !in counts then counts else
    var held := WrappingDec(counts[ip]);
    if held == 0 then counts - {ip} else counts[ip := held]
  }

  class PerIpLimiter {
    const limit: nat
    var counts: map<IpAddr, nat>

    constructor (limit: nat)
      ensures this.limit == Max1(limit) && counts == map[]
    {
      this.limit := Max1(limit);
      counts := map[];
    }

    method TryAcquire(ip: IpAddr) returns (acquired: bool)
      modifies this
      ensures (counts, acquired) == Reserve(old(counts), limit, ip)
      ensures acquired <==> At(old(counts), ip) < limit
      ensures At(counts, ip) == At(old(counts), ip) + (if acquired then 1 else 0)
      ensures forall i :: i != ip ==> At(counts, i) == At(old(counts), i) && (i in counts <==> i in old(counts))
    {
      if ip !in counts {
        counts := counts[ip := 0];
      }
      assert counts == old(counts)[ip := At(old(counts), ip)];
      if counts[ip] >= limit {
        return false;
      }
      counts := counts[ip := counts[ip] + 1];
      return true;
    }

    method DropSlot(ip: IpAddr)
      modifies this
      ensures counts == Release(old(counts), ip)
      ensures At(old(counts), ip) >= 1 ==> At(counts, ip) == At(old(counts), ip) - 1
      ensures At(old(counts), ip) == 1 ==> ip !in counts
      ensures ip !in old(counts) ==> counts == old(counts)
      ensures forall i :: i != ip ==> At(counts, i) == At(old(counts), i) && (i in counts <==> i in old(counts))
    {
      if ip in counts {
        counts := counts[ip := WrappingDec(counts[ip])];
        if counts[ip] == 0 {
          counts := counts - {ip};
        }
      }
    }
  }

  /** `max(1)`: neither the semaphore nor the limiter is ever configured at zero. */
  function Max1(n: nat): (r: nat)
    ensures r >= 1
    ensures n >= 1 ==> r == n
    ensures n == 0 ==> r == 1
  {
    if n == 0 then 1 else n
  }

  /** Releasing what was just reserved restores a table without zero entries. */
  lemma ReserveThenRelease(counts: map<IpAddr, nat>, limit: nat, ip: IpAddr)
    requires forall i <- counts :: counts[i] > 0
    requires Reserve(counts, limit, ip).1
    ensures Release(Reserve(counts, limit, ip).0, ip) == counts
  {
    if ip !in counts {
      assert Reserve(counts, limit, ip).0 - {ip} == counts;
    }
  }

  // ----- loops and connections

  /** Where an accept loop is: every state but Idle owns a permit. */
  datatype Loop =
    | Idle
    | Permitted
    | Accepted(ip: IpAddr)
    | Admitted(ip: IpAddr, slot: bool)
    | Refusing

  datatype Conn = Conn(ip: IpAddr, permit: bool, slot: bool)

  datatype Config = Config(maxConnections: nat, perIp: Option<nat>) {
    /** As the setters leave it. */
    predicate Valid() {
      maxConnections >= 1 && (perIp.Some? ==> perIp.value >= 1)
    }
  }

  datatype Hall = Hall(
    free: nat,
    counts: map<IpAddr, nat>,
    loops: map<nat, Loop>,
    conns: map<nat, Conn>,
    nextConn: nat)

  datatype Step =
    | Acquire(l: nat)
    | AcceptFailed(l: nat)
    | Accept(l: nat, ip: IpAddr)
    | CheckLimit(l: nat)
    | Refuse(l: nat)
    | Spawn(l: nat)
    | DropIpSlot(c: nat)
    | DropPermit(c: nat)

  function Open(cfg: Config, loops: set<nat>): Hall {
    Hall(cfg.maxConnections, map[], map l | l in loops :: Idle, map[], 0)
  }

  predicate Enabled(h: Hall, s: Step) {
    match s
    case Acquire(l) => l in h.loops && h.loops[l].Idle? && h.free > 0
    case AcceptFailed(l) => l in h.loops && h.loops[l].Permitted?
    case Accept(l, _) => l in h.loops && h.loops[l].Permitted?
    case CheckLimit(l) => l in h.loops && h.loops[l].Accepted?
    case Refuse(l) => l in h.loops && h.loops[l].Refusing?
    case Spawn(l) => l in h.loops && h.loops[l].Admitted?
    case DropIpSlot(c) => c in h.conns && h.conns[c].slot
    case DropPermit(c) => c in h.conns && h.conns[c].permit
  }

  /** A connection is gone once it owns nothing. */
  function Settle(conns: map<nat, Conn>, c: nat, conn: Conn): map<nat, Conn> {
    if conn.permit || conn.slot then conns[c := conn] else conns - {c}
  }

  function Apply(cfg: Config, h: Hall, s: Step): Hall
    requires Enabled(h, s)
  {
    match s
    case Acquire(l) => h.(free := h.free - 1, loops := h.loops[l := Permitted])
    case AcceptFailed(l) => h.(free := h.free + 1, loops := h.loops[l := Idle])
    case Accept(l, ip) => h.(loops := h.loops[l := Accepted(ip)])
    case CheckLimit(l) =>
      var ip := h.loops[l].ip;
      (match cfg.perIp
       case None => h.(loops := h.loops[l := Admitted(ip, false)])
       case Some(limit) =>
         var (counts, acquired) := Reserve(h.counts, limit, ip);
         h.(counts := counts, loops := h.loops[l := if acquired then Admitted(ip, true) else Refusing]))
    case Refuse(l) => h.(free := h.free + 1, loops := h.loops[l := Idle])
    case Spawn(l) =>
      h.(loops := h.loops[l := Idle],
         conns := h.conns[h.nextConn := Conn(h.loops[l].ip, true, h.loops[l].slot)],
         nextConn := h.nextConn + 1)
    case DropIpSlot(c) =>
      h.(counts := Release(h.counts, h.conns[c].ip),
         conns := Settle(h.conns, c, h.conns[c].(slot := false)))
    case DropPermit(c) =>
      h.(free := h.free + 1,
         conns := Settle(h.conns, c, h.conns[c].(permit := false)))
  }

  function Run(cfg: Config, loops: set<nat>, steps: seq<Step>): Option<Hall> {
    if steps == [] then Some(Open(cfg, loops)) else
    match Run(cfg, loops, steps[..|steps| - 1])
    case None => None
    case Some(h) =>
      var s := steps[|steps| - 1];
      if Enabled(h, s) then Some(Apply(cfg, h, s)) else None
  }

  // ----- who owns what

  predicate LoopPermit(l: Loop) {
    !l.Idle?
  }

  predicate ConnPermit(c: Conn) {
    c.permit
  }

  function LoopSlot(ip: IpAddr): Loop -> bool {
    (l: Loop) => l.Admitted? && l.slot && l.ip == ip
  }

  function ConnSlot(ip: IpAddr): Conn -> bool {
    (c: Conn) => c.slot && c.ip == ip
  }

  /** Slots of `ip` handed out and not yet returned. */
  ghost function Outstanding(h: Hall, ip: IpAddr): nat {
    Count(h.loops, LoopSlot(ip)) + Count(h.conns, ConnSlot(ip))
  }

  ghost predicate PermitsConserved(cfg: Config, h: Hall) {
    h.free + Count(h.loops, LoopPermit) + Count(h.conns, ConnPermit) == cfg.maxConnections
  }

  ghost predicate CountsExact(cfg: Config, h: Hall) {
    && (forall ip :: At(h.counts, ip) == Outstanding(h, ip))
    && (forall ip <- h.counts :: cfg.perIp.Some? && 1 <= h.counts[ip] <= cfg.perIp.value)
  }

  ghost predicate Inv(cfg: Config, h: Hall) {
    && PermitsConserved(cfg, h)
    && CountsExact(cfg, h)
    && (forall c <- h.conns :: c < h.nextConn)
  }

  lemma LoopMoves(h: Hall, l: nat, next: Loop)
    requires l in h.loops
    ensures Count(h.loops[l := next], LoopPermit)
         == Count(h.loops, LoopPermit) - One(LoopPermit(h.loops[l])) + One(LoopPermit(next))
    ensures forall ip ::
              Count(h.loops[l := next], LoopSlot(ip))
              == Count(h.loops, LoopSlot(ip)) - One(LoopSlot(ip)(h.loops[l])) + One(LoopSlot(ip)(next))
  {
    CountUpdate(h.loops, l, next, LoopPermit);
    forall ip
      ensures Count(h.loops[l := next], LoopSlot(ip))
           == Count(h.loops, LoopSlot(ip)) - One(LoopSlot(ip)(h.loops[l])) + One(LoopSlot(ip)(next))
    {
      CountUpdate(h.loops, l, next, LoopSlot(ip));
    }
  }

  lemma ConnMoves(conns: map<nat, Conn>, c: nat, next: Conn, after: map<nat, Conn>)
    requires c in conns ==> after == Settle(conns, c, next)
    requires c !in conns ==> after == conns[c := next]
    ensures Count(after, ConnPermit) == Count(conns, ConnPermit) - One(c in conns && ConnPermit(conns[c])) + One(ConnPermit(next))
    ensures forall ip ::
              Count(after, ConnSlot(ip))
              == Count(conns, ConnSlot(ip)) - One(c in conns && ConnSlot(ip)(conns[c])) + One(ConnSlot(ip)(next))
  {
    OneConnMoves(conns, c, next, after, ConnPermit);
    forall ip
      ensures Count(after, ConnSlot(ip))
           == Count(conns, ConnSlot(ip)) - One(c in conns && ConnSlot(ip)(conns[c])) + One(ConnSlot(ip)(next))
    {
      OneConnMoves(conns, c, next, after, ConnSlot(ip));
    }
  }

  lemma OneConnMoves(conns: map<nat, Conn>, c: nat, next: Conn, after: map<nat, Conn>, p: Conn -> bool)
    requires c in conns ==> after == Settle(conns, c, next)
    requires c !in conns ==> after == conns[c := next]
    requires !next.permit && !next.slot ==> !p(next)
    ensures Count(after, p) == Count(conns, p) - One(c in conns && p(conns[c])) + One(p(next))
  {
    if after == conns[c := next] {
      CountUpdate(conns, c, next, p);
    } else {
      CountRemove(conns, c, p);
    }
  }

  lemma LimitChecked(cfg: Config, h: Hall, l: nat)
    requires cfg.Valid() && Inv(cfg, h) && Enabled(h, CheckLimit(l))
    ensures Inv(cfg, Apply(cfg, h, CheckLimit(l)))
  {
    var g := Apply(cfg, h, CheckLimit(l));
    var ip := h.loops[l].ip;
    LoopMoves(h, l, g.loops[l]);
    assert At(h.counts, ip) == Outstanding(h, ip);
    forall i ensures At(g.counts, i) == Outstanding(g, i) {
      assert At(h.counts, i) == Outstanding(h, i);
      assert At(g.counts, i) == At(h.counts, i) + One(i == ip && g.loops[l] == Admitted(ip, true));
    }
  }

  lemma SlotDropped(cfg: Config, h: Hall, c: nat)
    requires cfg.Valid() && Inv(cfg, h) && Enabled(h, DropIpSlot(c))
    ensures Inv(cfg, Apply(cfg, h, DropIpSlot(c)))
  {
    var g := Apply(cfg, h, DropIpSlot(c));
    var ip := h.conns[c].ip;
    ConnMoves(h.conns, c, h.conns[c].(slot := false), g.conns);
    CountPositive(h.conns, c, ConnSlot(ip));
    assert At(h.counts, ip) == Outstanding(h, ip) > 0;
    forall i ensures At(g.counts, i) == Outstanding(g, i) {
      assert At(h.counts, i) == Outstanding(h, i);
      assert At(g.counts, i) == At(h.counts, i) - One(i == ip);
    }
  }

  /** A loop step that neither takes nor hands over a slot. */
  lemma LoopStepKeepsInv(cfg: Config, h: Hall, s: Step)
    requires cfg.Valid() && Inv(cfg, h) && Enabled(h, s)
    requires s.Acquire? || s.AcceptFailed? || s.Accept? || s.Refuse?
    ensures Inv(cfg, Apply(cfg, h, s))
  {
    var g := Apply(cfg, h, s);
    LoopMoves(h, s.l, g.loops[s.l]);
    forall ip ensures At(g.counts, ip) == Outstanding(g, ip) {
      assert At(h.counts, ip) == Outstanding(h, ip);
    }
  }

  lemma SpawnKeepsInv(cfg: Config, h: Hall, l: nat)
    requires cfg.Valid() && Inv(cfg, h) && Enabled(h, Spawn(l))
    ensures Inv(cfg, Apply(cfg, h, Spawn(l)))
  {
    var g := Apply(cfg, h, Spawn(l));
    LoopMoves(h, l, Idle);
    ConnMoves(h.conns, h.nextConn, Conn(h.loops[l].ip, true, h.loops[l].slot), g.conns);
    forall ip ensures At(g.counts, ip) == Outstanding(g, ip) {
      assert At(h.counts, ip) == Outstanding(h, ip);
    }
  }

  lemma PermitDropped(cfg: Config, h: Hall, c: nat)
    requires cfg.Valid() && Inv(cfg, h) && Enabled(h, DropPermit(c))
    ensures Inv(cfg, Apply(cfg, h, DropPermit(c)))
  {
    var g := Apply(cfg, h, DropPermit(c));
    ConnMoves(h.conns, c, h.conns[c].(permit := false), g.conns);
    forall ip ensures At(g.counts, ip) == Outstanding(g, ip) {
      assert At(h.counts, ip) == Outstanding(h, ip);
    }
  }

  lemma StepKeepsInv(cfg: Config, h: Hall, s: Step)
    requires cfg.Valid() && Inv(cfg, h) && Enabled(h, s)
    ensures Inv(cfg, Apply(cfg, h, s))
  {
    match s {
      case CheckLimit(l) => LimitChecked(cfg, h, l);
      case Spawn(l) => SpawnKeepsInv(cfg, h, l);
      case DropIpSlot(c) => SlotDropped(cfg, h, c);
      case DropPermit(c) => PermitDropped(cfg, h, c);
      case _ => LoopStepKeepsInv(cfg, h, s);
    }
  }

  lemma {:induction false} ReachableInv(cfg: Config, loops: set<nat>, steps: seq<Step>, h: Hall)
    requires cfg.Valid() && Run(cfg, loops, steps) == Some(h)
    ensures Inv(cfg, h)
    decreases |steps|
  {
    if steps == [] {
      CountNone(h.loops, LoopPermit);
      CountNone(h.conns, ConnPermit);
      forall ip ensures Outstanding(h, ip) == 0 {
        CountNone(h.loops, LoopSlot(ip));
        CountNone(h.conns, ConnSlot(ip));
      }
    } else {
      var g := Run(cfg, loops, steps[..|steps| - 1]).value;
      ReachableInv(cfg, loops, steps[..|steps| - 1], g);
      StepKeepsInv(cfg, g, steps[|steps| - 1]);
    }
  }

  /** The caps hold in every reachable state. */
  lemma CapsHold(cfg: Config, loops: set<nat>, steps: seq<Step>, h: Hall, ip: IpAddr)
    requires cfg.Valid() && Run(cfg, loops, steps) == Some(h)
    ensures PermitsConserved(cfg, h) && Count(h.conns, ConnPermit) <= cfg.maxConnections
    ensures At(h.counts, ip) == Outstanding(h, ip)
    ensures ip in h.counts ==> h.counts[ip] >= 1
    ensures cfg.perIp.Some? ==> Outstanding(h, ip) <= cfg.perIp.value
    ensures cfg.perIp.None? ==> h.counts == map[]
  {
    ReachableInv(cfg, loops, steps, h);
  }

  /** Every slot given back was still counted, so the decrement cannot wrap. */
  lemma ReleaseNeverWraps(cfg: Config, loops: set<nat>, steps: seq<Step>, h: Hall, c: nat)
    requires cfg.Valid() && Run(cfg, loops, steps) == Some(h) && Enabled(h, DropIpSlot(c))
    ensures At(h.counts, h.conns[c].ip) >= 1
    ensures At(Release(h.counts, h.conns[c].ip), h.conns[c].ip) == At(h.counts, h.conns[c].ip) - 1
  {
    ReachableInv(cfg, loops, steps, h);
    CountPositive(h.conns, c, ConnSlot(h.conns[c].ip));
  }

  /** A connection is refused exactly when its address holds all the slots it may; every
      other one is admitted, with a slot if there is a limit. */
  lemma RefusedExactly(cfg: Config, loops: set<nat>, steps: seq<Step>, h: Hall, l: nat)
    requires cfg.Valid() && Run(cfg, loops, steps) == Some(h) && Enabled(h, CheckLimit(l))
    ensures var ip, after := h.loops[l].ip, Apply(cfg, h, CheckLimit(l));
            && (after.loops[l].Refusing? <==> cfg.perIp.Some? && Outstanding(h, ip) == cfg.perIp.value)
            && (!after.loops[l].Refusing? ==> after.loops[l] == Admitted(ip, cfg.perIp.Some?))
            && after.free == h.free && after.conns == h.conns
  {
    CapsHold(cfg, loops, steps, h, h.loops[l].ip);
  }

  /** An idle loop waits exactly while every permit is with a loop or a connection. */
  lemma WaitsExactlyWhenFull(cfg: Config, loops: set<nat>, steps: seq<Step>, h: Hall, l: nat)
    requires cfg.Valid() && Run(cfg, loops, steps) == Some(h) && l in h.loops && h.loops[l].Idle?
    ensures !Enabled(h, Acquire(l)) <==> Count(h.loops, LoopPermit) + Count(h.conns, ConnPermit) == cfg.maxConnections
  {
    ReachableInv(cfg, loops, steps, h);
  }

  /** When every connection has ended and none is being handed over, nothing leaked:
      the only permits out are those of loops waiting in `accept`, and a server with
      no loop waiting has them all back. */
  lemma NothingLeaks(cfg: Config, loops: set<nat>, steps: seq<Step>, h: Hall)
    requires cfg.Valid() && Run(cfg, loops, steps) == Some(h)
    requires h.conns == map[] && forall l <- h.loops :: !h.loops[l].Admitted?
    ensures h.free + Count(h.loops, LoopPermit) == cfg.maxConnections
    ensures h.counts == map[]
    ensures (forall l <- h.loops :: h.loops[l].Idle?) ==> h.free == cfg.maxConnections
  {
    ReachableInv(cfg, loops, steps, h);
    CountNone(h.conns, ConnPermit);
    if forall l <- h.loops :: h.loops[l].Idle? {
      CountNone(h.loops, LoopPermit);
    }
    forall ip ensures ip !in h.counts {
      CountNone(h.loops, LoopSlot(ip));
      CountNone(h.conns, ConnSlot(ip));
      assert At(h.counts, ip) == Outstanding(h, ip);
    }
  }
}
