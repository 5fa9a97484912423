/** The counted relay: two directions driven by one `select!`, and the ticker that
    publishes their progress, under every scheduling, chunking and failure. */
module Relay {
  import opened Wrappers
  import opened Wire

  const RELAY_BUF_SIZE: nat := 8192

  /** One direction: everything its source will send before EOF, how much has been
      read, what its sink received, and the counters kept for it. */
  datatype Lane = Lane(
    input: seq<byte>,
    taken: nat,
    given: seq<byte>,
    open: bool,
    shut: bool,
    progress: nat,
    live: nat)

  /** Where the relay future is: at the `select!`, or inside one of its branches. */
  datatype Pc =
    | Choosing
    | Writing(up: bool, left: seq<byte>, size: nat)
    | Flushing(up: bool, size: nat)
    | Shutting(up: bool)
    | Finished
    | Broken(kind: IoKind)

  datatype State = State(up: Lane, down: Lane, pc: Pc) {
    function At(isUp: bool): Lane {
      if isUp then up else down
    }

    function With(isUp: bool, lane: Lane, next: Pc): State {
      if isUp then State(lane, down, next) else State(up, lane, next)
    }
  }

  datatype Step =
    | Read(up: bool, size: nat)
    | ReadEof(up: bool)
    | ReadFails(up: bool, kind: IoKind)
    | Write(size: nat)
    | WriteFails(size: nat, kind: IoKind)
    | Flush
    | FlushFails(kind: IoKind)
    | Shut
    | Finish
    | Publish

  function Fresh(input: seq<byte>): Lane {
    Lane(input, 0, [], true, false, 0, 0)
  }

  function Start(upInput: seq<byte>, downInput: seq<byte>): State {
    State(Fresh(upInput), Fresh(downInput), Choosing)
  }

  predicate Final(s: State) {
    s.pc.Finished? || s.pc.Broken?
  }

  predicate Enabled(s: State, e: Step) {
    match e
    case Read(up, n) => s.pc.Choosing? && s.At(up).open && 1 <= n <= RELAY_BUF_SIZE && s.At(up).taken + n <= |s.At(up).input|
    case ReadEof(up) => s.pc.Choosing? && s.At(up).open && s.At(up).taken == |s.At(up).input|
    case ReadFails(up, _) => s.pc.Choosing? && s.At(up).open
    case Write(n) => s.pc.Writing? && 1 <= n <= |s.pc.left|
    case WriteFails(n, _) => s.pc.Writing? && n <= |s.pc.left|
    case Flush => s.pc.Flushing?
    case FlushFails(_) => s.pc.Flushing?
    case Shut => s.pc.Shutting?
    case Finish => s.pc.Choosing? && !s.up.open && !s.down.open
    case Publish => !Final(s)
  }

  function Publishing(lane: Lane): Lane {
    lane.(live := lane.progress)
  }

  function Apply(s: State, e: Step): State
    requires Enabled(s, e)
  {
    match e
    case Read(up, n) =>
      var lane := s.At(up);
      s.With(up, lane.(taken := lane.taken + n), Writing(up, lane.input[lane.taken..lane.taken + n], n))
    case ReadEof(up) => s.With(up, s.At(up).(open := false), Shutting(up))
    case ReadFails(_, kind) => s.(pc := Broken(kind))
    case Write(n) =>
      var lane := s.At(s.pc.up);
      var left := s.pc.left[n..];
      s.With(s.pc.up, lane.(given := lane.given + s.pc.left[..n]),
             if left == [] then Flushing(s.pc.up, s.pc.size) else Writing(s.pc.up, left, s.pc.size))
    case WriteFails(n, kind) =>
      var lane := s.At(s.pc.up);
      s.With(s.pc.up, lane.(given := lane.given + s.pc.left[..n]), Broken(kind))
    case Flush =>
      var lane := s.At(s.pc.up);
      s.With(s.pc.up, lane.(progress := lane.progress + s.pc.size), Choosing)
    case FlushFails(kind) => s.(pc := Broken(kind))
    case Shut => s.With(s.pc.up, s.At(s.pc.up).(shut := true), Choosing)
    case Finish => State(Publishing(s.up), Publishing(s.down), Finished)
    case Publish => State(Publishing(s.up), Publishing(s.down), s.pc)
  }

  function Run(start: State, steps: seq<Step>): Option<State> {
    if steps == [] then Some(start) else
    match Run(start, steps[..|steps| - 1])
    case None => None
    case Some(s) =>
      var e := steps[|steps| - 1];
      if Enabled(s, e) then Some(Apply(s, e)) else None
  }

  // ----- the invariant, one lane at a time

  /** What this lane has read and not yet delivered, and how much of what it
      delivered is not yet counted. */
  function Pending(s: State, up: bool): seq<byte> {
    if s.pc.Writing? && s.pc.up == up then s.pc.left else []
  }

  function Uncounted(s: State, up: bool): nat {
    if (s.pc.Writing? || s.pc.Flushing?) && s.pc.up == up then s.pc.size else 0
  }

  predicate LaneInv(s: State, up: bool) {
    var lane := s.At(up);
    && lane.taken <= |lane.input|
    && lane.given <= lane.input
    && lane.live <= lane.progress <= |lane.given|
    && (!Final(s) ==>
          && lane.given + Pending(s, up) == lane.input[..lane.taken]
          && lane.progress + Uncounted(s, up) == lane.taken)
    && (s.pc.Writing? && s.pc.up == up ==> lane.open && s.pc.left != [])
    && (s.pc.Flushing? && s.pc.up == up ==> lane.open)
    && (!lane.open ==> lane.given == lane.input && lane.progress == |lane.input|)
    && (s.pc.Shutting? && s.pc.up == up ==> !lane.open)
    && (lane.shut ==> !lane.open)
    && (!lane.open && !lane.shut ==> Final(s) || s.pc == Shutting(up))
    && (s.pc.Finished? ==> lane.shut && lane.live == lane.progress)
  }

  predicate Inv(s: State) {
    LaneInv(s, true) && LaneInv(s, false)
  }

  /** Which lane a step works on, if it works on one. */
  function Worker(s: State, e: Step): Option<bool>
    requires Enabled(s, e)
  {
    match e
    case Read(up, _) => Some(up)
    case ReadEof(up) => Some(up)
    case Write(_) => Some(s.pc.up)
    case WriteFails(_, _) => Some(s.pc.up)
    case Flush => Some(s.pc.up)
    case Shut => Some(s.pc.up)
    case _ => None
  }

  lemma OtherLaneKept(s: State, e: Step, up: bool)
    requires LaneInv(s, up) && Enabled(s, e) && Worker(s, e) == Some(!up)
    ensures LaneInv(Apply(s, e), up)
  {
  }

  /** Delivering the front of what was read extends what was delivered by it. */
  lemma Delivered(given: seq<byte>, left: seq<byte>, n: nat, input: seq<byte>, taken: nat)
    requires n <= |left| && taken <= |input| && given + left == input[..taken]
    ensures (given + left[..n]) + left[n..] == input[..taken]
    ensures given + left[..n] <= input
  {
    assert left == left[..n] + left[n..];
    assert given + left[..n] == (given + left)[..|given| + n] == input[..|given| + n];
  }

  lemma ReadKept(s: State, up: bool, n: nat)
    requires LaneInv(s, up) && Enabled(s, Read(up, n))
    ensures LaneInv(Apply(s, Read(up, n)), up)
  {
    var lane := s.At(up);
    assert lane.input[..lane.taken] + lane.input[lane.taken..lane.taken + n] == lane.input[..lane.taken + n];
  }

  lemma WriteKept(s: State, e: Step, up: bool)
    requires LaneInv(s, up) && Enabled(s, e) && s.pc.Writing? && s.pc.up == up
    requires e.Write? || e.WriteFails?
    ensures LaneInv(Apply(s, e), up)
  {
    var lane := s.At(up);
    Delivered(lane.given, s.pc.left, e.size, lane.input, lane.taken);
  }

  lemma WorkedLaneKept(s: State, e: Step, up: bool)
    requires LaneInv(s, up) && Enabled(s, e) && Worker(s, e) == Some(up)
    ensures LaneInv(Apply(s, e), up)
  {
    match e {
      case Read(_, n) => ReadKept(s, up, n);
      case Write(_) => WriteKept(s, e, up);
      case WriteFails(_, _) => WriteKept(s, e, up);
      case _ =>
    }
  }

  lemma LaneKept(s: State, e: Step, up: bool)
    requires Inv(s) && Enabled(s, e)
    ensures LaneInv(Apply(s, e), up)
  {
    assert LaneInv(s, up);
    match Worker(s, e) {
      case None =>
      case Some(w) =>
        if w == up {
          WorkedLaneKept(s, e, up);
        } else {
          OtherLaneKept(s, e, up);
        }
    }
  }

  lemma {:induction false} ReachableInv(upInput: seq<byte>, downInput: seq<byte>, steps: seq<Step>, s: State)
    requires Run(Start(upInput, downInput), steps) == Some(s)
    ensures Inv(s) && s.up.input == upInput && s.down.input == downInput
    decreases |steps|
  {
    if steps != [] {
      var e := steps[|steps| - 1];
      var before := Run(Start(upInput, downInput), steps[..|steps| - 1]).value;
      ReachableInv(upInput, downInput, steps[..|steps| - 1], before);
      LaneKept(before, e, true);
      LaneKept(before, e, false);
      InputsKept(before, e);
    }
  }

  lemma InputsKept(s: State, e: Step)
    requires Enabled(s, e)
    ensures Apply(s, e).up.input == s.up.input && Apply(s, e).down.input == s.down.input
  {
  }

  // ----- safety

  /** No loss, duplication or reordering; a side is shut only once the other side's
      stream ended and was delivered whole; counters stay behind delivery. */
  lemma RelaySafety(upInput: seq<byte>, downInput: seq<byte>, steps: seq<Step>, s: State)
    requires Run(Start(upInput, downInput), steps) == Some(s)
    ensures s.up.given <= upInput && s.down.given <= downInput
    ensures s.up.shut ==> s.up.given == upInput
    ensures s.down.shut ==> s.down.given == downInput
    ensures s.up.live <= s.up.progress <= |s.up.given|
    ensures s.down.live <= s.down.progress <= |s.down.given|
  {
    ReachableInv(upInput, downInput, steps, s);
  }

  /** Nothing is written to a side once it has been shut down, and a side is shut
      down at most once. */
  lemma NoWriteAfterShut(upInput: seq<byte>, downInput: seq<byte>, steps: seq<Step>, s: State, e: Step)
    requires Run(Start(upInput, downInput), steps) == Some(s) && Enabled(s, e)
    requires e.Write? || e.WriteFails? || e.Flush? || e.FlushFails? || e.Shut?
    ensures !s.At(s.pc.up).shut
  {
    ReachableInv(upInput, downInput, steps, s);
    if e.Shut? && s.At(s.pc.up).shut {
      ShutOnce(upInput, downInput, steps, s);
    }
  }

  lemma {:induction false} ShutOnce(upInput: seq<byte>, downInput: seq<byte>, steps: seq<Step>, s: State)
    requires Run(Start(upInput, downInput), steps) == Some(s)
    ensures s.pc.Shutting? ==> !s.At(s.pc.up).shut
    decreases |steps|
  {
    if steps != [] {
      var before := Run(Start(upInput, downInput), steps[..|steps| - 1]).value;
      ShutOnce(upInput, downInput, steps[..|steps| - 1], before);
      ReachableInv(upInput, downInput, steps[..|steps| - 1], before);
    }
  }

  /** A clean finish delivered, counted and published both streams whole. */
  lemma CleanFinish(upInput: seq<byte>, downInput: seq<byte>, steps: seq<Step>, s: State)
    requires Run(Start(upInput, downInput), steps) == Some(s) && s.pc.Finished?
    ensures s.up.given == upInput && s.down.given == downInput
    ensures s.up.shut && s.down.shut
    ensures s.up.live == s.up.progress == |upInput|
    ensures s.down.live == s.down.progress == |downInput|
  {
    ReachableInv(upInput, downInput, steps, s);
  }

  lemma LaneGrows(s: State, e: Step, up: bool)
    requires LaneInv(s, up) && Enabled(s, e)
    ensures s.At(up).live <= Apply(s, e).At(up).live && s.At(up).given <= Apply(s, e).At(up).given
  {
  }

  /** Along any run the published counters only grow. */
  lemma {:induction false} LiveCountersGrow(upInput: seq<byte>, downInput: seq<byte>, steps: seq<Step>, i: nat, s: State)
    requires i <= |steps| && Run(Start(upInput, downInput), steps) == Some(s)
    ensures var earlier := Run(Start(upInput, downInput), steps[..i]);
            && earlier.Some?
            && earlier.value.up.live <= s.up.live && earlier.value.down.live <= s.down.live
            && earlier.value.up.given <= s.up.given && earlier.value.down.given <= s.down.given
    decreases |steps|
  {
    if i == |steps| {
      assert steps[..i] == steps;
    } else {
      var prefix := steps[..|steps| - 1];
      var before := Run(Start(upInput, downInput), prefix).value;
      LiveCountersGrow(upInput, downInput, prefix, i, before);
      assert prefix[..i] == steps[..i];
      ReachableInv(upInput, downInput, prefix, before);
      LaneGrows(before, steps[|steps| - 1], true);
      LaneGrows(before, steps[|steps| - 1], false);
    }
  }

  // ----- progress

  function LaneWork(lane: Lane): int {
    3 * (|lane.input| - lane.taken) + if lane.open then 3 else 0
  }

  function PcWork(pc: Pc): nat {
    match pc
    case Choosing => 1
    case Writing(_, left, _) => |left| + 2
    case Flushing(_, _) => 2
    case Shutting(_) => 2
    case Finished => 0
    case Broken(_) => 0
  }

  function Work(s: State): int {
    LaneWork(s.up) + LaneWork(s.down) + PcWork(s.pc)
  }

  /** Every step but publishing uses up work, so finite inputs end the relay. */
  lemma WorkDecreases(s: State, e: Step)
    requires Inv(s) && Enabled(s, e)
    ensures if e.Publish? then Work(Apply(s, e)) == Work(s) else Work(Apply(s, e)) < Work(s)
  {
  }

  function Moves(steps: seq<Step>): nat {
    if steps == [] then 0
    else Moves(steps[..|steps| - 1]) + if steps[|steps| - 1].Publish? then 0 else 1
  }

  /** However often the ticker fires, a run has at most this many other steps. */
  lemma {:induction false} RunsAreBounded(upInput: seq<byte>, downInput: seq<byte>, steps: seq<Step>, s: State)
    requires Run(Start(upInput, downInput), steps) == Some(s)
    ensures Moves(steps) + Work(s) <= 3 * (|upInput| + |downInput|) + 7
    ensures Moves(steps) <= 3 * (|upInput| + |downInput|) + 7
    decreases |steps|
  {
    ReachableInv(upInput, downInput, steps, s);
    if steps != [] {
      var before := Run(Start(upInput, downInput), steps[..|steps| - 1]).value;
      RunsAreBounded(upInput, downInput, steps[..|steps| - 1], before);
      ReachableInv(upInput, downInput, steps[..|steps| - 1], before);
      WorkDecreases(before, steps[|steps| - 1]);
    }
  }

  /** Short of its end the relay is never stuck, even if nothing ever fails. */
  lemma NeverStuck(upInput: seq<byte>, downInput: seq<byte>, steps: seq<Step>, s: State)
    requires Run(Start(upInput, downInput), steps) == Some(s) && !Final(s)
    ensures exists e :: Enabled(s, e) && !e.Publish? && !e.ReadFails? && !e.WriteFails? && !e.FlushFails?
  {
    ReachableInv(upInput, downInput, steps, s);
    match s.pc {
      case Writing(_, _, _) => assert Enabled(s, Write(1));
      case Flushing(_, _) => assert Enabled(s, Flush);
      case Shutting(_) => assert Enabled(s, Shut);
      case Choosing =>
        if s.up.open {
          assert Enabled(s, Read(true, 1)) || Enabled(s, ReadEof(true));
        } else if s.down.open {
          assert Enabled(s, Read(false, 1)) || Enabled(s, ReadEof(false));
        } else {
          assert Enabled(s, Finish);
        }
    }
  }
}
