/** The client's side of a TCP stream: input arriving in arbitrary pieces, a
    transcript of what reached the client, and a write half that can be shut. */
module Streams {
  import opened Wrappers
  import opened Wire

  /** What follows the last byte of input: an orderly end, a broken connection,
      or silence until the handshake timer fires. */
  datatype Ending = Eof | Reset(kind: IoKind) | Stall

  /** How an awaited step ends. Elapsed: the timer dropped the whole negotiation
      while it was waiting here. */
  datatype Outcome<+T> = Done(value: T) | Failed(error: MerinoError) | Elapsed {
    predicate IsFailure() {
      !Done?
    }

    function PropagateFailure<U>(): Outcome<U>
      requires !Done?
    {
      if Failed? then Failed(error) else Elapsed
    }

    function Extract(): T
      requires Done?
    {
      value
    }
  }

  /** The abstract state of a stream. `room` is how many more bytes the client
      takes before it goes away; `closeFault` is the error shutting down reports. */
  datatype Link = Link(
    unread: seq<byte>,
    ending: Ending,
    sent: seq<byte>,
    closed: bool,
    room: nat,
    closeFault: Option<IoKind>)
  {
    function Skip(n: nat): Link
      requires n <= |unread|
    {
      this.(unread := unread[n..])
    }

    function Drained(): Link {
      this.(unread := [])
    }

    /** What a read running past the input comes to. */
    function Cut<T>(): Outcome<T> {
      match ending
      case Eof => Failed(TRUNCATED)
      case Reset(kind) => Failed(Io(kind))
      case Stall => Elapsed
    }

    function Write(data: seq<byte>): Link {
      if closed then this
      else if |data| <= room then this.(sent := sent + data, room := room - |data|)
      else this.(sent := sent + data[..room], room := 0)
    }

    function WriteOutcome(data: seq<byte>): Outcome<()> {
      if closed || |data| > room then Failed(Io(BrokenPipe)) else Done(())
    }

    /** Bytes delivered so far plus bytes the client would still take. */
    function Total(): nat {
      |sent| + room
    }

    function Shut(): Link {
      this.(closed := true)
    }

    function ShutOutcome(): Outcome<()> {
      match closeFault
      case None => Done(())
      case Some(kind) => Failed(Io(kind))
    }
  }

  function Flatten(chunks: seq<seq<byte>>): seq<byte> {
    if chunks == [] then [] else chunks[0] + Flatten(chunks[1..])
  }

  class Stream {
    var chunks: seq<seq<byte>>
    var sent: seq<byte>
    var closed: bool
    var room: nat
    const ending: Ending
    const closeFault: Option<IoKind>

    predicate Valid()
      reads this
    {
      forall i | 0 <= i < |chunks| :: chunks[i] != []
    }

    function View(): Link
      reads this
    {
      Link(Flatten(chunks), ending, sent, closed, room, closeFault)
    }

    constructor (chunks: seq<seq<byte>>, ending: Ending, room: nat, closeFault: Option<IoKind>)
      requires forall i | 0 <= i < |chunks| :: chunks[i] != []
      ensures Valid()
      ensures View() == Link(Flatten(chunks), ending, [], false, room, closeFault)
    {
      this.chunks, this.ending, this.room, this.closeFault := chunks, ending, room, closeFault;
      sent, closed := [], false;
    }

    /** One `read`: some of the piece at the front, or nothing at the end of input. */
    method Read(max: nat) returns (data: seq<byte>)
      requires Valid() && max > 0
      modifies this`chunks
      ensures Valid() && |data| <= max
      ensures data == [] <==> old(View()).unread == []
      ensures old(View()).unread == data + View().unread
    {
      if chunks == [] {
        return [];
      }
      var piece := chunks[0];
      if |piece| <= max {
        data, chunks := piece, chunks[1..];
      } else {
        data := piece[..max];
        chunks := [piece[max..]] + chunks[1..];
        assert piece == piece[..max] + piece[max..];
      }
    }

    /** `read_exact`: loops over `read`, so only the concatenation matters. */
    method ReadExact(n: nat) returns (r: Outcome<seq<byte>>)
      requires Valid()
      modifies this`chunks
      ensures Valid()
      ensures var l := old(View());
              if n <= |l.unread| then r == Done(l.unread[..n]) && View() == l.Skip(n)
              else r == l.Cut() && View() == l.Drained()
    {
      var got: seq<byte> := [];
      ghost var all := View().unread;
      while |got| < n
        invariant Valid() && |got| <= n
        invariant all == got + View().unread
        decreases n - |got|
      {
        var data := Read(n - |got|);
        if data == [] {
          return View().Cut();
        }
        got := got + data;
      }
      return Done(got);
    }

    method WriteAll(data: seq<byte>) returns (r: Outcome<()>)
      modifies this`sent, this`room
      ensures r == old(View()).WriteOutcome(data) && View() == old(View()).Write(data)
    {
      if closed {
        return Failed(Io(BrokenPipe));
      }
      if |data| > room {
        sent, room := sent + data[..room], 0;
        return Failed(Io(BrokenPipe));
      }
      sent, room := sent + data, room - |data|;
      return Done(());
    }

    method Shutdown() returns (r: Outcome<()>)
      modifies this`closed
      ensures r == old(View()).ShutOutcome() && View() == old(View()).Shut()
    {
      closed := true;
      match closeFault {
        case None => return Done(());
        case Some(kind) => return Failed(Io(kind));
      }
    }
  }
}
