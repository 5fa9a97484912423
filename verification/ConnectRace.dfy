/** `connect_any`: racing connection attempts that report through a channel of
    capacity one, received until the first success. */
module ConnectRace {
  import opened Wrappers
  import opened Counting

  /** How an attempt would end if left alone. */
  datatype Fate = Connects | Fails(kind: IoKind) | Hangs

  /** What came through the channel: which attempt, and its error if it failed. */
  datatype Report = Report(index: nat, error: Option<IoKind>)

  /** The address that won, or the error `connect_any` returns. */
  datatype RaceOutcome = Won(index: nat) | Lost(kind: IoKind)

  const NO_ADDRESS: IoKind := AddrNotAvailable

  /** The receive loop on what it received before the channel closed: the first
      success, else the last failure, else the error for no address at all. */
  function RaceResult(received: seq<Report>): RaceOutcome {
    if received == [] then Lost(NO_ADDRESS) else
    match Winner(received)
    case Some(i) => Won(i)
    case None => Lost(received[|received| - 1].error.value)
  }

  function Winner(received: seq<Report>): (w: Option<nat>)
    ensures w == None <==> forall r <- received :: r.error.Some?
  {
    if received == [] then None
    else if received[0].error.None? then Some(received[0].index)
    else Winner(received[1..])
  }

  /** The loop itself; it stops at the first success and reads no further. */
  method ReceiveOutcome(reports: seq<Report>) returns (outcome: RaceOutcome, received: nat)
    ensures received <= |reports| && outcome == RaceResult(reports[..received])
    ensures outcome == RaceResult(reports)
    ensures outcome.Won? ==> received > 0 && reports[received - 1] == Report(outcome.index, None)
    ensures forall r <- reports[..if outcome.Won? then received - 1 else received] :: r.error.Some?
    ensures outcome.Lost? ==> received == |reports|
  {
    var lastError: Option<IoKind> := None;
    received := 0;
    while received < |reports|
      invariant received <= |reports|
      invariant forall r <- reports[..received] :: r.error.Some?
      invariant lastError == if received == 0 then None else reports[received - 1].error
    {
      var report := reports[received];
      received := received + 1;
      assert reports[..received] == reports[..received - 1] + [report];
      match report.error {
        case None =>
          FirstSuccess(reports[..received - 1], report, reports[received..]);
          FirstSuccess(reports[..received - 1], report, []);
          assert reports == reports[..received - 1] + [report] + reports[received..];
          assert reports[..received] == reports[..received - 1] + [report] + [];
          return Won(report.index), received;
        case Some(_) =>
          lastError := report.error;
      }
    }
    assert reports[..received] == reports;
    return Lost(if lastError.Some? then lastError.value else NO_ADDRESS), received;
  }

  lemma {:induction false} FirstSuccess(failures: seq<Report>, success: Report, rest: seq<Report>)
    requires (forall r <- failures :: r.error.Some?) && success.error.None?
    ensures Winner(failures + [success] + rest) == Some(success.index)
  {
    var all := failures + [success] + rest;
    if failures != [] {
      assert all[1..] == failures[1..] + [success] + rest;
      FirstSuccess(failures[1..], success, rest);
    }
  }

  // ----- the race

  /** An attempt is waiting or connecting, blocked on the full channel, done, or
      aborted. */
  datatype Attempt = Trying | Sending | Delivered | Aborted

  datatype Race = Race(
    attempts: seq<Attempt>,
    channel: Option<Report>,
    received: seq<Report>,
    returned: Option<RaceOutcome>)

  datatype Step = Settle(i: nat) | Send(i: nat) | Receive | SeeClosed

  function ReportOf(fates: seq<Fate>, i: nat): Report
    requires i < |fates|
  {
    Report(i, if fates[i].Fails? then Some(fates[i].kind) else None)
  }

  predicate Is(r: Race, i: nat, a: Attempt) {
    i < |r.attempts| && r.attempts[i] == a
  }

  predicate Enabled(fates: seq<Fate>, r: Race, s: Step) {
    r.returned.None? &&
    match s
    case Settle(i) => i < |fates| && Is(r, i, Trying) && !fates[i].Hangs?
    case Send(i) => i < |fates| && Is(r, i, Sending) && r.channel.None?
    case Receive => r.channel.Some?
    case SeeClosed => r.channel.None? && forall i | 0 <= i < |r.attempts| :: r.attempts[i] == Delivered
  }

  function Abort(attempts: seq<Attempt>): seq<Attempt> {
    seq(|attempts|, i requires 0 <= i < |attempts| => if attempts[i] == Delivered then Delivered else Aborted)
  }

  function Apply(fates: seq<Fate>, r: Race, s: Step): Race
    requires Enabled(fates, r, s)
  {
    match s
    case Settle(i) => r.(attempts := r.attempts[i := Sending])
    case Send(i) => r.(attempts := r.attempts[i := Delivered], channel := Some(ReportOf(fates, i)))
    case Receive =>
      var report := r.channel.value;
      if report.error.None?
      then Race(Abort(r.attempts), None, r.received + [report], Some(Won(report.index)))
      else r.(channel := None, received := r.received + [report])
    case SeeClosed =>
      r.(attempts := Abort(r.attempts),
         returned := Some(Lost(if r.received == [] then NO_ADDRESS
                               else match r.received[|r.received| - 1].error
                                    case Some(kind) => kind
                                    case None => NO_ADDRESS)))
  }

  function Start(n: nat): Race {
    Race(seq(n, _ => Trying), None, [], None)
  }

  function Run(fates: seq<Fate>, steps: seq<Step>): Option<Race> {
    if steps == [] then Some(Start(|fates|)) else
    match Run(fates, steps[..|steps| - 1])
    case None => None
    case Some(r) =>
      var s := steps[|steps| - 1];
      if Enabled(fates, r, s) then Some(Apply(fates, r, s)) else None
  }

  /** Everything sent so far, in order. */
  function Log(r: Race): seq<Report> {
    r.received + if r.channel.Some? then [r.channel.value] else []
  }

  ghost predicate LogInv(fates: seq<Fate>, r: Race) {
    var log := Log(r);
    && |r.attempts| == |fates|
    && (forall k | 0 <= k < |log| :: log[k].index < |fates| && !fates[log[k].index].Hangs?
                                     && log[k] == ReportOf(fates, log[k].index)
                                     && Is(r, log[k].index, Delivered))
    && (forall j, k | 0 <= j < k < |log| :: log[j].index != log[k].index)
    && (forall i | 0 <= i < |r.attempts| :: r.attempts[i] == Delivered ==> ReportOf(fates, i) in log)
  }

  ghost predicate ResultInv(fates: seq<Fate>, r: Race) {
    match r.returned
    case None =>
      && (forall x <- r.received :: x.error.Some?)
      && (forall i | 0 <= i < |r.attempts| :: r.attempts[i] != Aborted)
    case Some(Won(i)) =>
      && r.received != [] && r.received[|r.received| - 1] == Report(i, None)
      && (forall x <- r.received[..|r.received| - 1] :: x.error.Some?)
      && r.channel == None
    case Some(Lost(kind)) =>
      && (forall x <- r.received :: x.error.Some?)
      && (forall i | 0 <= i < |r.attempts| :: r.attempts[i] == Delivered)
      && r.channel == None
      && Lost(kind) == RaceResult(r.received)
  }

  ghost predicate Inv(fates: seq<Fate>, r: Race) {
    && |r.attempts| == |fates|
    && (forall i | 0 <= i < |fates| :: r.attempts[i] == Sending ==> !fates[i].Hangs?)
    && LogInv(fates, r)
    && ResultInv(fates, r)
  }

  lemma SendKeepsInv(fates: seq<Fate>, r: Race, i: nat)
    requires Inv(fates, r) && Enabled(fates, r, Send(i))
    ensures Inv(fates, Apply(fates, r, Send(i)))
  {
    var after := Apply(fates, r, Send(i));
    assert Log(after) == Log(r) + [ReportOf(fates, i)];
  }

  lemma ReceiveKeepsInv(fates: seq<Fate>, r: Race)
    requires Inv(fates, r) && Enabled(fates, r, Receive)
    ensures Inv(fates, Apply(fates, r, Receive))
  {
    var after := Apply(fates, r, Receive);
    assert Log(after) == Log(r);
  }

  lemma StepKeepsInv(fates: seq<Fate>, r: Race, s: Step)
    requires Inv(fates, r) && Enabled(fates, r, s)
    ensures Inv(fates, Apply(fates, r, s))
  {
    match s {
      case Settle(i) => assert Log(Apply(fates, r, s)) == Log(r);
      case Send(i) => SendKeepsInv(fates, r, i);
      case Receive => ReceiveKeepsInv(fates, r);
      case SeeClosed =>
        assert Log(Apply(fates, r, s)) == Log(r);
        assert Winner(r.received) == None;
    }
  }

  lemma {:induction false} ReachableInv(fates: seq<Fate>, steps: seq<Step>, r: Race)
    requires Run(fates, steps) == Some(r)
    ensures Inv(fates, r)
    decreases |steps|
  {
    if steps != [] {
      var before := Run(fates, steps[..|steps| - 1]).value;
      ReachableInv(fates, steps[..|steps| - 1], before);
      StepKeepsInv(fates, before, steps[|steps| - 1]);
    }
  }

  // ----- how the race ends

  ghost function Indices(log: seq<Report>): set<nat> {
    set x | x in log :: x.index
  }

  ghost function Below(n: nat): (s: set<nat>)
    ensures |s| == n && forall i: nat :: i in s <==> i < n
  {
    if n == 0 then {} else Below(n - 1) + {n - 1}
  }

  lemma {:induction false} IndicesSize(log: seq<Report>)
    requires forall j, k | 0 <= j < k < |log| :: log[j].index != log[k].index
    ensures |Indices(log)| == |log|
  {
    if log != [] {
      var front := log[..|log| - 1];
      IndicesSize(front);
      assert log == front + [log[|log| - 1]];
      assert Indices(log) == Indices(front) + {log[|log| - 1].index};
    }
  }

  /** Distinct indices below `n` number at most `n`, and `n` if none is missing. */
  lemma DistinctIndices(log: seq<Report>, n: nat)
    requires forall k | 0 <= k < |log| :: log[k].index < n
    requires forall j, k | 0 <= j < k < |log| :: log[j].index != log[k].index
    ensures |log| <= n
    ensures Below(n) <= Indices(log) ==> |log| == n
  {
    IndicesSize(log);
    SubsetSize(Indices(log), Below(n));
    if Below(n) <= Indices(log) {
      SubsetSize(Below(n), Indices(log));
    }
  }

  /** Each attempt is received at most once. */
  lemma AtMostOnce(fates: seq<Fate>, steps: seq<Step>, r: Race)
    requires Run(fates, steps) == Some(r)
    ensures |r.received| <= |fates|
    ensures forall j, k | 0 <= j < k < |r.received| :: r.received[j].index != r.received[k].index
    ensures forall k | 0 <= k < |r.received| ::
              r.received[k].index < |fates| && r.received[k] == ReportOf(fates, r.received[k].index)
  {
    ReachableInv(fates, steps, r);
    assert Log(r)[..|r.received|] == r.received;
    forall k | 0 <= k < |r.received| ensures r.received[k] == Log(r)[k] {
    }
    DistinctIndices(r.received, |fates|);
  }

  /** Success is the first success received; failure is reported only after every
      attempt failed and was received, and it is the last one received. */
  lemma ResultIsRight(fates: seq<Fate>, steps: seq<Step>, r: Race)
    requires Run(fates, steps) == Some(r) && r.returned.Some?
    ensures r.returned.value == RaceResult(r.received)
    ensures r.returned.value.Won? ==>
              && r.returned.value.index < |fates| && fates[r.returned.value.index].Connects?
              && forall x <- r.received[..|r.received| - 1] :: x.error.Some?
    ensures r.returned.value.Lost? ==>
              && (forall f <- fates :: f.Fails?)
              && |r.received| == |fates|
              && (fates != [] ==> r.received[|r.received| - 1].error == Some(r.returned.value.kind))
              && (fates == [] ==> r.returned.value.kind == NO_ADDRESS)
  {
    ReachableInv(fates, steps, r);
    AtMostOnce(fates, steps, r);
    assert Log(r) == r.received;
    match r.returned.value {
      case Won(i) =>
        var before := r.received[..|r.received| - 1];
        FirstSuccess(before, Report(i, None), []);
        assert r.received == before + [Report(i, None)] + [];
      case Lost(_) =>
        forall i | 0 <= i < |fates| ensures fates[i].Fails? && i in Indices(r.received) {
          assert ReportOf(fates, i) in r.received && ReportOf(fates, i).index == i;
        }
        DistinctIndices(r.received, |fates|);
    }
  }

  /** Once the race has returned nothing of it is left running, and until then nothing
      is called off. */
  lemma {:induction false} NothingLeftRunning(fates: seq<Fate>, steps: seq<Step>, r: Race)
    requires Run(fates, steps) == Some(r)
    ensures |r.attempts| == |fates|
    ensures r.returned.Some? ==> forall i | 0 <= i < |fates| :: r.attempts[i] == Delivered || r.attempts[i] == Aborted
    ensures r.returned.None? ==> forall i | 0 <= i < |fates| :: r.attempts[i] != Aborted
    decreases |steps|
  {
    ReachableInv(fates, steps, r);
    if steps != [] {
      NothingLeftRunning(fates, steps[..|steps| - 1], Run(fates, steps[..|steps| - 1]).value);
    }
  }

  ghost predicate Stuck(fates: seq<Fate>, r: Race) {
    forall s :: !Enabled(fates, r, s)
  }

  /** A race that can go no further has returned, unless every attempt that finishes
      failed and some attempt never will: it wins exactly when some attempt connects,
      and loses exactly when all of them fail. */
  lemma RaceEnds(fates: seq<Fate>, steps: seq<Step>, r: Race)
    requires Run(fates, steps) == Some(r) && Stuck(fates, r)
    ensures (r.returned.Some? && r.returned.value.Won?) <==> exists f <- fates :: f.Connects?
    ensures (r.returned.Some? && r.returned.value.Lost?) <==> forall f <- fates :: f.Fails?
    ensures r.returned.None? ==> exists f <- fates :: f.Hangs?
  {
    ReachableInv(fates, steps, r);
    if r.returned.Some? {
      ResultIsRight(fates, steps, r);
    } else {
      assert !Enabled(fates, r, Receive) && !Enabled(fates, r, SeeClosed);
      forall i | 0 <= i < |fates| ensures r.attempts[i] == Delivered || (r.attempts[i] == Trying && fates[i].Hangs?) {
        assert !Enabled(fates, r, Settle(i)) && !Enabled(fates, r, Send(i));
      }
      assert Log(r) == r.received;
      forall i | 0 <= i < |fates| ensures !fates[i].Connects? {
        if r.attempts[i] == Delivered {
          assert ReportOf(fates, i) in r.received;
        }
      }
      var i :| 0 <= i < |fates| && r.attempts[i] != Delivered;
      assert fates[i] in fates;
    }
  }

  function Cost(a: Attempt): nat {
    match a
    case Trying => 3
    case Sending => 2
    case _ => 0
  }

  function Costs(a: seq<Attempt>): nat {
    if a == [] then 0 else Cost(a[0]) + Costs(a[1..])
  }

  lemma {:induction false} CostsUpdate(a: seq<Attempt>, i: nat, x: Attempt)
    requires i < |a|
    ensures Costs(a[i := x]) == Costs(a) - Cost(a[i]) + Cost(x)
  {
    if i > 0 {
      CostsUpdate(a[1..], i - 1, x);
      assert a[i := x][1..] == a[1..][i - 1 := x];
    }
  }

  lemma {:induction false} AbortCosts(a: seq<Attempt>)
    ensures Costs(Abort(a)) == 0
  {
    if a != [] {
      AbortCosts(a[1..]);
      assert Abort(a)[1..] == Abort(a[1..]);
    }
  }

  function Left(r: Race): nat {
    Costs(r.attempts) + One(r.channel.Some?) + One(r.returned.None?)
  }

  lemma StepCosts(fates: seq<Fate>, r: Race, s: Step)
    requires Enabled(fates, r, s)
    ensures Left(Apply(fates, r, s)) < Left(r)
  {
    match s {
      case Settle(i) => CostsUpdate(r.attempts, i, Sending);
      case Send(i) => CostsUpdate(r.attempts, i, Delivered);
      case Receive => AbortCosts(r.attempts);
      case SeeClosed => AbortCosts(r.attempts);
    }
  }

  /** Every race is over after at most 3N + 1 steps, N of them receives. */
  lemma {:induction false} RaceIsBounded(fates: seq<Fate>, steps: seq<Step>, r: Race)
    requires Run(fates, steps) == Some(r)
    ensures |steps| + Left(r) <= 3 * |fates| + 1
    decreases |steps|
  {
    if steps == [] {
      AllTrying(|fates|);
    } else {
      var before := Run(fates, steps[..|steps| - 1]).value;
      RaceIsBounded(fates, steps[..|steps| - 1], before);
      StepCosts(fates, before, steps[|steps| - 1]);
    }
  }

  lemma {:induction false} AllTrying(n: nat)
    ensures Costs(seq(n, _ => Trying)) == 3 * n
  {
    if n > 0 {
      AllTrying(n - 1);
      assert seq(n, _ => Trying)[1..] == seq(n - 1, _ => Trying);
    }
  }
}
