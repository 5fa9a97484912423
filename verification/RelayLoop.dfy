/** `copy_bidirectional_counted` as the loop it is, over two mutable endpoints, and
    the accounting its callers do with the result. */
module RelayLoop {
  import opened Wrappers
  import opened Wire
  import opened Statistics
  import Relay

  /** A connected socket: what its peer will still send, what was sent to it, and the
      error it reported, if it did. */
  class Endpoint {
    var unread: seq<byte>
    var sent: seq<byte>
    var closed: bool
    var fault: Option<IoKind>

    constructor (unread: seq<byte>)
      ensures this.unread == unread && sent == [] && !closed && fault == None
    {
      this.unread, sent, closed, fault := unread, [], false, None;
    }

    /** One `read`: an error, any non-empty part of what is available, or the end. */
    method Read(max: nat) returns (r: Result<seq<byte>>)
      requires max > 0
      modifies this`unread, this`fault
      ensures r.Err? ==> unread == old(unread) && r.error.Io? && fault == Some(r.error.kind)
      ensures r.Ok? ==> fault == old(fault)
      ensures r.Ok? ==> |r.value| <= max && old(unread) == r.value + unread
      ensures r.Ok? ==> (r.value == [] <==> old(unread) == [])
    {
      var fails: bool := *;
      if fails {
        var kind: IoKind := *;
        fault := Some(kind);
        return Err(Io(kind));
      }
      if unread == [] {
        return Ok([]);
      }
      var n: nat :| 1 <= n <= max && n <= |unread|;
      r := Ok(unread[..n]);
      unread := unread[n..];
    }

    /** `write_all` and `flush`: everything, or an error after some of it. */
    method WriteAll(data: seq<byte>) returns (r: Result<()>)
      requires !closed
      modifies this`sent, this`fault
      ensures r.Ok? ==> sent == old(sent) + data && fault == old(fault)
      ensures r.Err? ==> old(sent) <= sent <= old(sent) + data && r.error.Io? && fault == Some(r.error.kind)
    {
      var n: nat :| n <= |data|;
      sent := sent + data[..n];
      var flushes: bool := *;
      if n == |data| && flushes {
        return Ok(());
      }
      var kind: IoKind := *;
      fault := Some(kind);
      return Err(Io(kind));
    }

    method Shutdown()
      modifies this`closed
      ensures closed
    {
      closed := true;
    }
  }

  class LiveCounters {
    var up: nat
    var down: nat
  }

  // ----- the relay steps one branch stands for

  lemma {:induction false} RunAppend(start: Relay.State, first: seq<Relay.Step>, mid: Relay.State, second: seq<Relay.Step>)
    requires Relay.Run(start, first) == Some(mid)
    ensures Relay.Run(start, first + second) == Relay.Run(mid, second)
    decreases |second|
  {
    if second == [] {
      assert first + second == first;
    } else {
      var front := second[..|second| - 1];
      RunAppend(start, first, mid, front);
      assert (first + second)[..|first + second| - 1] == first + front;
    }
  }

  lemma ExtendRun(start: Relay.State, steps: seq<Relay.Step>, s: Relay.State, e: Relay.Step)
    requires Relay.Run(start, steps) == Some(s) && Relay.Enabled(s, e)
    ensures Relay.Run(start, steps + [e]) == Some(Relay.Apply(s, e))
  {
    assert (steps + [e])[..|steps|] == steps;
  }

  lemma RunOne(s: Relay.State, e: Relay.Step)
    requires Relay.Enabled(s, e)
    ensures Relay.Run(s, [e]) == Some(Relay.Apply(s, e))
  {
    assert [e][..0] == [];
  }

  lemma RunTwo(s: Relay.State, e: Relay.Step, f: Relay.Step)
    requires Relay.Enabled(s, e) && Relay.Enabled(Relay.Apply(s, e), f)
    ensures Relay.Run(s, [e, f]) == Some(Relay.Apply(Relay.Apply(s, e), f))
  {
    RunOne(s, e);
    assert [e, f][..1] == [e];
  }

  function Ended(lane: Relay.Lane): Relay.Lane {
    lane.(open := false, shut := true)
  }

  /** The lane after reading `n` bytes and delivering the first `m` of them. */
  function Carried(lane: Relay.Lane, n: nat, m: nat): Relay.Lane
    requires m <= n && lane.taken + n <= |lane.input|
  {
    lane.(taken := lane.taken + n, given := lane.given + lane.input[lane.taken..lane.taken + m])
  }

  /** The endpoints of one direction are where the lane says: what the source still
      has to give, and what the sink got on top of the `base` it had before. */
  predicate Tracks(lane: Relay.Lane, unread: seq<byte>, sent: seq<byte>, closed: bool, base: seq<byte>) {
    && lane.taken <= |lane.input|
    && unread == lane.input[lane.taken..]
    && sent == base + lane.given
    && closed == lane.shut == !lane.open
  }

  lemma EndTrace(s: Relay.State, up: bool, sent: seq<byte>, base: seq<byte>)
    requires s.pc.Choosing? && Tracks(s.At(up), [], sent, false, base)
    ensures Relay.Run(s, [Relay.ReadEof(up), Relay.Shut]) == Some(s.With(up, Ended(s.At(up)), Relay.Choosing))
    ensures Tracks(Ended(s.At(up)), [], sent, true, base)
  {
    assert s.At(up).taken == |s.At(up).input|;
    RunTwo(s, Relay.ReadEof(up), Relay.Shut);
  }

  function Counted(lane: Relay.Lane, n: nat): Relay.Lane {
    lane.(progress := lane.progress + n)
  }

  /** Reading a chunk off the front of the source. */
  lemma ChunkRead(lane: Relay.Lane, chunk: seq<byte>, rest: seq<byte>)
    requires lane.taken <= |lane.input| && lane.input[lane.taken..] == chunk + rest
    ensures lane.taken + |chunk| <= |lane.input|
    ensures chunk == lane.input[lane.taken..lane.taken + |chunk|] && rest == lane.input[lane.taken + |chunk|..]
    ensures forall m | 0 <= m <= |chunk| :: chunk[..m] == lane.input[lane.taken..lane.taken + m]
  {
    assert |chunk + rest| == |chunk| + |rest|;
  }

  /** Slices of what was read, in terms of the whole input. */
  lemma Piece(input: seq<byte>, at: nat, n: nat, m: nat)
    requires m <= n && at + n <= |input|
    ensures input[at..at + n][..m] == input[at..at + m]
    ensures m == n ==> input[at..at + n][m..] == []
  {
  }

  /** The relay reads `n` bytes and its write breaks after `m` of them. */
  lemma BrokenWriteRun(s: Relay.State, up: bool, n: nat, m: nat, kind: IoKind)
    requires s.pc.Choosing? && s.At(up).open && m <= n && 1 <= n <= Relay.RELAY_BUF_SIZE
    requires s.At(up).taken + n <= |s.At(up).input|
    ensures Relay.Run(s, [Relay.Read(up, n), Relay.WriteFails(m, kind)])
         == Some(s.With(up, Carried(s.At(up), n, m), Relay.Broken(kind)))
  {
    Piece(s.At(up).input, s.At(up).taken, n, m);
    RunTwo(s, Relay.Read(up, n), Relay.WriteFails(m, kind));
  }

  lemma WriteRun(s: Relay.State, up: bool, n: nat)
    requires s.pc.Choosing? && s.At(up).open && 1 <= n <= Relay.RELAY_BUF_SIZE
    requires s.At(up).taken + n <= |s.At(up).input|
    ensures Relay.Run(s, [Relay.Read(up, n), Relay.Write(n)])
         == Some(s.With(up, Carried(s.At(up), n, n), Relay.Flushing(up, n)))
  {
    Piece(s.At(up).input, s.At(up).taken, n, n);
    RunTwo(s, Relay.Read(up, n), Relay.Write(n));
  }

  /** The relay reads `n` bytes, writes them all and flushes. */
  lemma ChunkRun(s: Relay.State, up: bool, n: nat)
    requires s.pc.Choosing? && s.At(up).open && 1 <= n <= Relay.RELAY_BUF_SIZE
    requires s.At(up).taken + n <= |s.At(up).input|
    ensures Relay.Run(s, [Relay.Read(up, n), Relay.Write(n)] + [Relay.Flush])
         == Some(s.With(up, Counted(Carried(s.At(up), n, n), n), Relay.Choosing))
  {
    WriteRun(s, up, n);
    ExtendRun(s, [Relay.Read(up, n), Relay.Write(n)], s.With(up, Carried(s.At(up), n, n), Relay.Flushing(up, n)), Relay.Flush);
  }

  /** The sink of a lane that carried a chunk got the part of it that was delivered. */
  lemma SinkCarried(lane: Relay.Lane, chunk: seq<byte>, rest: seq<byte>, m: nat, sent: seq<byte>, base: seq<byte>)
    requires m <= |chunk| && Tracks(lane, chunk + rest, sent, false, base)
    ensures lane.taken + |chunk| <= |lane.input|
    ensures sent + chunk[..m] == base + Carried(lane, |chunk|, m).given
  {
    ChunkRead(lane, chunk, rest);
    assert base + lane.given + chunk[..m] == base + (lane.given + chunk[..m]);
  }

  lemma ChunkTracked(lane: Relay.Lane, chunk: seq<byte>, rest: seq<byte>, sent: seq<byte>, base: seq<byte>)
    requires Tracks(lane, chunk + rest, sent, false, base)
    ensures lane.taken + |chunk| <= |lane.input|
    ensures Tracks(Counted(Carried(lane, |chunk|, |chunk|), |chunk|), rest, sent + chunk, false, base)
  {
    ChunkRead(lane, chunk, rest);
    SinkCarried(lane, chunk, rest, |chunk|, sent, base);
    assert chunk[..|chunk|] == chunk;
  }

  /** What one branch did to its lane: carried `n` bytes or ended it, unless it failed. */
  predicate Pumped(s: Relay.State, up: bool, r: Result<nat>, after: Relay.State) {
    && after.At(!up) == s.At(!up)
    && after.At(up).live == s.At(up).live
    && match r
       case Ok(n) =>
         && after.pc.Choosing? && after.At(up).open == (n != 0)
         && after.At(up).progress == s.At(up).progress + n
       case Err(e) => e.Io? && after.pc == Relay.Broken(e.kind) && after.At(up).open && !after.At(up).shut
  }

  /** One branch of the `select!`: move a chunk, or pass on the end of the stream. The
      ghost results are the relay steps it stands for and where they lead. */
  method Pump(source: Endpoint, sink: Endpoint, ghost up: bool, ghost s: Relay.State, ghost base: seq<byte>)
    returns (r: Result<nat>, ghost steps: seq<Relay.Step>, ghost after: Relay.State)
    requires source != sink && s.pc.Choosing? && s.At(up).open
    requires Tracks(s.At(up), source.unread, sink.sent, sink.closed, base)
    modifies source`unread, source`fault, sink`sent, sink`closed, sink`fault
    ensures Relay.Run(s, steps) == Some(after) && Pumped(s, up, r, after)
    ensures r.Ok? ==> Tracks(after.At(up), source.unread, sink.sent, sink.closed, base)
    ensures r.Ok? ==> |source.unread| + r.value == |old(source.unread)|
    ensures r.Err? ==> sink.sent == base + after.At(up).given && !sink.closed
    ensures if r.Err? then source.fault == Some(r.error.kind) || sink.fault == Some(r.error.kind)
            else source.fault == old(source.fault) && sink.fault == old(sink.fault)
  {
    ghost var sent := sink.sent;
    var chunk := source.Read(Relay.RELAY_BUF_SIZE);
    if chunk.Err? {
      RunOne(s, Relay.ReadFails(up, chunk.error.kind));
      return Err(chunk.error), [Relay.ReadFails(up, chunk.error.kind)], s.(pc := Relay.Broken(chunk.error.kind));
    }
    ghost var n, rest := |chunk.value|, source.unread;
    if chunk.value == [] {
      sink.Shutdown();
      EndTrace(s, up, sent, base);
      return Ok(0), [Relay.ReadEof(up), Relay.Shut], s.With(up, Ended(s.At(up)), Relay.Choosing);
    }
    var written := sink.WriteAll(chunk.value);
    if written.Err? {
      ghost var m := |sink.sent| - |sent|;
      PartialWrite(sent, chunk.value, sink.sent);
      SinkCarried(s.At(up), chunk.value, rest, m, sent, base);
      BrokenWriteRun(s, up, n, m, written.error.kind);
      return Err(written.error), [Relay.Read(up, n), Relay.WriteFails(m, written.error.kind)],
             s.With(up, Carried(s.At(up), n, m), Relay.Broken(written.error.kind));
    }
    ChunkTracked(s.At(up), chunk.value, rest, sent, base);
    ChunkRun(s, up, n);
    return Ok(|chunk.value|), [Relay.Read(up, n), Relay.Write(n)] + [Relay.Flush],
           s.With(up, Counted(Carried(s.At(up), n, n), n), Relay.Choosing);
  }

  /** The same branch at the end of a longer run. */
  method PumpOn(source: Endpoint, sink: Endpoint, ghost up: bool, ghost base: seq<byte>,
                ghost start: Relay.State, ghost steps: seq<Relay.Step>, ghost s: Relay.State)
    returns (r: Result<nat>, ghost longer: seq<Relay.Step>, ghost after: Relay.State)
    requires source != sink && s.pc.Choosing? && s.At(up).open && Relay.Run(start, steps) == Some(s)
    requires Tracks(s.At(up), source.unread, sink.sent, sink.closed, base)
    modifies source`unread, source`fault, sink`sent, sink`closed, sink`fault
    ensures Relay.Run(start, longer) == Some(after) && Pumped(s, up, r, after)
    ensures r.Ok? ==> Tracks(after.At(up), source.unread, sink.sent, sink.closed, base)
    ensures r.Ok? ==> |source.unread| + r.value == |old(source.unread)|
    ensures r.Err? ==> sink.sent == base + after.At(up).given && !sink.closed
    ensures if r.Err? then source.fault == Some(r.error.kind) || sink.fault == Some(r.error.kind)
            else source.fault == old(source.fault) && sink.fault == old(sink.fault)
  {
    ghost var own;
    r, own, after := Pump(source, sink, up, s, base);
    RunAppend(start, steps, s, own);
    longer := steps + own;
  }

  lemma PartialWrite(before: seq<byte>, data: seq<byte>, after: seq<byte>)
    requires before <= after <= before + data
    ensures after == before + data[..|after| - |before|]
  {
  }

  lemma PublishRun(start: Relay.State, steps: seq<Relay.Step>, s: Relay.State)
    requires Relay.Run(start, steps) == Some(s) && s.pc.Choosing?
    ensures Relay.Run(start, steps + [Relay.Publish])
         == Some(Relay.State(Relay.Publishing(s.up), Relay.Publishing(s.down), Relay.Choosing))
  {
    ExtendRun(start, steps, s, Relay.Publish);
  }

  lemma FinishRun(start: Relay.State, steps: seq<Relay.Step>, s: Relay.State)
    requires Relay.Run(start, steps) == Some(s) && s.pc.Choosing? && !s.up.open && !s.down.open
    ensures Relay.Run(start, steps + [Relay.Finish])
         == Some(Relay.State(Relay.Publishing(s.up), Relay.Publishing(s.down), Relay.Finished))
  {
    ExtendRun(start, steps, s, Relay.Finish);
  }

  /** A firing of the ticker, which publishes both progress counters. */
  method Tick(live: LiveCounters, up: nat, down: nat, ghost start: Relay.State, ghost steps: seq<Relay.Step>, ghost s: Relay.State)
    returns (ghost longer: seq<Relay.Step>, ghost after: Relay.State)
    requires Relay.Run(start, steps) == Some(s) && s.pc.Choosing? && up == s.up.progress && down == s.down.progress
    modifies live
    ensures Relay.Run(start, longer) == Some(after)
    ensures after == Relay.State(Relay.Publishing(s.up), Relay.Publishing(s.down), Relay.Choosing)
    ensures live.up == after.up.live && live.down == after.down.live
  {
    live.up, live.down := up, down;
    PublishRun(start, steps, s);
    longer, after := steps + [Relay.Publish], Relay.State(Relay.Publishing(s.up), Relay.Publishing(s.down), Relay.Choosing);
  }

  /** Between branches: both directions are where the relay is, and nothing failed. */
  ghost predicate InStep(a: Endpoint, b: Endpoint, s: Relay.State, toA: seq<byte>, toB: seq<byte>)
    reads a, b
  {
    && s.pc.Choosing? && a.fault == b.fault == None
    && Tracks(s.up, a.unread, b.sent, b.closed, toB)
    && Tracks(s.down, b.unread, a.sent, a.closed, toA)
  }

  /** After a failure: what was delivered until then, and the error one endpoint gave. */
  ghost predicate BrokenOff(a: Endpoint, b: Endpoint, s: Relay.State, e: MerinoError, toA: seq<byte>, toB: seq<byte>)
    reads a, b
  {
    && e.Io? && s.pc == Relay.Broken(e.kind) && (a.fault == Some(e.kind) || b.fault == Some(e.kind))
    && b.sent == toB + s.up.given && a.sent == toA + s.down.given
    && b.closed == s.up.shut && a.closed == s.down.shut
  }

  /** The branch that was picked, with both directions in view. */
  method Turn(a: Endpoint, b: Endpoint, up: bool, ghost toA: seq<byte>, ghost toB: seq<byte>,
              ghost start: Relay.State, ghost steps: seq<Relay.Step>, ghost s: Relay.State)
    returns (n: Result<nat>, ghost longer: seq<Relay.Step>, ghost after: Relay.State)
    requires a != b && InStep(a, b, s, toA, toB) && s.At(up).open && Relay.Run(start, steps) == Some(s)
    modifies a, b
    ensures Relay.Run(start, longer) == Some(after) && Pumped(s, up, n, after)
    ensures if n.Ok? then InStep(a, b, after, toA, toB) else BrokenOff(a, b, after, n.error, toA, toB)
    ensures n.Ok? ==> |a.unread| + |b.unread| + n.value == old(|a.unread| + |b.unread|)
  {
    if up {
      n, longer, after := PumpOn(a, b, true, toB, start, steps, s);
    } else {
      n, longer, after := PumpOn(b, a, false, toA, start, steps, s);
    }
  }

  /** The `select!` loop: whatever it picks, what it did is a run of the relay, and
      the endpoints and counters are left where that run says. */
  method SelectLoop(a: Endpoint, b: Endpoint, live: LiveCounters)
    returns (r: Result<(nat, nat)>, ghost steps: seq<Relay.Step>, ghost s: Relay.State)
    requires a != b && !a.closed && !b.closed && a.fault == b.fault == None && live.up == live.down == 0
    modifies a, b, live
    ensures Relay.Run(Relay.Start(old(a.unread), old(b.unread)), steps) == Some(s)
    ensures b.sent == old(b.sent) + s.up.given && a.sent == old(a.sent) + s.down.given
    ensures b.closed == s.up.shut && a.closed == s.down.shut
    ensures live.up == s.up.live && live.down == s.down.live
    ensures r.Ok? ==> s.pc.Finished? && r.value == (s.up.progress, s.down.progress)
    ensures r.Err? ==> r.error.Io? && s.pc == Relay.Broken(r.error.kind)
    ensures if r.Err? then a.fault == Some(r.error.kind) || b.fault == Some(r.error.kind) else a.fault == b.fault == None
  {
    var up, down := 0, 0;
    var aOpen, bOpen := true, true;
    ghost var start := Relay.Start(a.unread, b.unread);
    ghost var toA, toB := a.sent, b.sent;
    steps, s := [], start;
    while aOpen || bOpen
      invariant Relay.Run(start, steps) == Some(s) && InStep(a, b, s, toA, toB)
      invariant aOpen == s.up.open && bOpen == s.down.open
      invariant up == s.up.progress && down == s.down.progress
      invariant live.up == s.up.live && live.down == s.down.live
      decreases |a.unread| + |b.unread|, (if aOpen then 1 else 0) + (if bOpen then 1 else 0)
    {
      var ticked: bool := *;
      if ticked {
        steps, s := Tick(live, up, down, start, steps, s);
      }
      var n: Result<nat>;
      if
      case aOpen =>
        n, steps, s := Turn(a, b, true, toA, toB, start, steps, s);
        if n.Err? {
          return Err(n.error), steps, s;
        }
        aOpen, up := n.value != 0, up + n.value;
      case bOpen =>
        n, steps, s := Turn(a, b, false, toA, toB, start, steps, s);
        if n.Err? {
          return Err(n.error), steps, s;
        }
        bOpen, down := n.value != 0, down + n.value;
    }
    live.up, live.down := up, down;
    FinishRun(start, steps, s);
    steps, s := steps + [Relay.Finish], Relay.State(Relay.Publishing(s.up), Relay.Publishing(s.down), Relay.Finished);
    return Ok((up, down)), steps, s;
  }

  /** For every scheduling of the two directions, every chunking, every firing of
      the ticker between branches and every failure, the loop is a run of the
      relay, so all that holds of runs holds of it. */
  method CopyBidirectionalCounted(a: Endpoint, b: Endpoint, live: LiveCounters)
    returns (r: Result<(nat, nat)>, ghost steps: seq<Relay.Step>, ghost s: Relay.State)
    requires a != b && !a.closed && !b.closed && a.fault == b.fault == None && live.up == live.down == 0
    modifies a, b, live
    ensures Relay.Run(Relay.Start(old(a.unread), old(b.unread)), steps) == Some(s)
    ensures b.sent == old(b.sent) + s.up.given && a.sent == old(a.sent) + s.down.given
    ensures b.closed == s.up.shut && a.closed == s.down.shut
    ensures live.up == s.up.live && live.down == s.down.live
    ensures old(b.sent) <= b.sent <= old(b.sent + a.unread)
    ensures old(a.sent) <= a.sent <= old(a.sent + b.unread)
    ensures b.closed ==> b.sent == old(b.sent + a.unread)
    ensures a.closed ==> a.sent == old(a.sent + b.unread)
    ensures live.up <= |b.sent| - |old(b.sent)| && live.down <= |a.sent| - |old(a.sent)|
    ensures r.Ok? <==> s.pc.Finished?
    ensures r.Err? ==> r.error.Io? && s.pc == Relay.Broken(r.error.kind)
    ensures if r.Err? then a.fault == Some(r.error.kind) || b.fault == Some(r.error.kind) else a.fault == b.fault == None
    ensures r.Ok? ==> b.sent == old(b.sent + a.unread) && a.sent == old(a.sent + b.unread)
    ensures r.Ok? ==> a.closed && b.closed && r.value == (|old(a.unread)|, |old(b.unread)|) == (live.up, live.down)
  {
    ghost var fromA, fromB := a.unread, b.unread;
    r, steps, s := SelectLoop(a, b, live);
    Relay.RelaySafety(fromA, fromB, steps, s);
    if r.Ok? {
      Relay.CleanFinish(fromA, fromB, steps, s);
    }
  }

  /** What CONNECT and BIND do with it. A relay that finished is reported with the bytes
      that came back and both its streams are added to the totals; one that broke is
      reported with the error an endpoint gave, unless that is of being unconnected,
      and adds nothing. */
  method RelayAndCount(a: Endpoint, b: Endpoint, live: LiveCounters, stats: Stats)
    returns (r: Result<nat>, ghost steps: seq<Relay.Step>, ghost s: Relay.State)
    requires a != b && !a.closed && !b.closed && a.fault == b.fault == None && live.up == live.down == 0
    modifies a, b, live, stats`clientToTarget, stats`targetToClient
    ensures Relay.Run(Relay.Start(old(a.unread), old(b.unread)), steps) == Some(s) && Relay.Final(s)
    ensures b.sent == old(b.sent) + s.up.given && a.sent == old(a.sent) + s.down.given
    ensures s.pc.Finished? <==> a.fault == b.fault == None
    ensures s.pc.Finished? ==> r == Ok(|old(b.unread)|) && a.closed && b.closed
    ensures s.pc.Finished? ==> b.sent == old(b.sent + a.unread) && a.sent == old(a.sent + b.unread)
    ensures s.pc.Broken? ==> a.fault == Some(s.pc.kind) || b.fault == Some(s.pc.kind)
    ensures s.pc == Relay.Broken(NotConnected) ==> r == Ok(0)
    ensures s.pc.Broken? && s.pc.kind != NotConnected ==> r == Err(Io(s.pc.kind))
    ensures stats.clientToTarget == old(stats.clientToTarget) + if s.pc.Finished? then |old(a.unread)| else 0
    ensures stats.targetToClient == old(stats.targetToClient) + if s.pc.Finished? then |old(b.unread)| else 0
  {
    var copied;
    copied, steps, s := CopyBidirectionalCounted(a, b, live);
    match copied {
      case Err(Io(NotConnected)) => r := Ok(0);
      case Err(e) => r := Err(e);
      case Ok((up, down)) =>
        stats.NoteRelay(up, down);
        r := Ok(down);
    }
  }
}
