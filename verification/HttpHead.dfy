/** The statistics listener's request head: read in pieces into a bounded buffer
    until the blank line, wherever the pieces split. */
module HttpHead {
  import opened Wrappers
  import opened Wire
  import opened Credentials
  import opened Streams

  const MAX_HEAD: nat := 8192
  const CHUNK: nat := 512
  const TERMINATOR: seq<byte> := [0x0D, 0x0A, 0x0D, 0x0A]

  predicate EndsAt(buf: seq<byte>, i: nat) {
    i + 4 <= |buf| && buf[i..i + 4] == TERMINATOR
  }

  /** Where the first terminator from `i` on starts. */
  function FindEnd(buf: seq<byte>, i: nat): (r: Option<nat>)
    ensures r.Some? ==> i <= r.value && EndsAt(buf, r.value) && forall j | i <= j < r.value :: !EndsAt(buf, j)
    ensures r.None? ==> forall j | i <= j :: !EndsAt(buf, j)
    decreases |buf| - i
  {
    if i + 4 > |buf| then None
    else if buf[i..i + 4] == TERMINATOR then Some(i)
    else FindEnd(buf, i + 1)
  }

  predicate HasHeaderEnd(buf: seq<byte>) {
    FindEnd(buf, 0).Some?
  }

  function HeaderBytes(buf: seq<byte>): seq<byte> {
    match FindEnd(buf, 0)
    case Some(end) => buf[..end]
    case None => buf
  }

  /** A prefix reaching past the first terminator has it, and at the same place; a
      shorter one has none. */
  lemma EndInPrefix(buf: seq<byte>, total: seq<byte>)
    requires buf <= total
    ensures HasHeaderEnd(buf) <==> HasHeaderEnd(total) && FindEnd(total, 0).value + 4 <= |buf|
    ensures HasHeaderEnd(buf) ==> FindEnd(buf, 0) == FindEnd(total, 0) && HeaderBytes(buf) == HeaderBytes(total)
  {
    forall i: nat ensures EndsAt(buf, i) <==> EndsAt(total, i) && i + 4 <= |buf| {
      if i + 4 <= |buf| {
        assert buf[i..i + 4] == total[i..i + 4];
      }
    }
  }

  predicate BlankLineAt(buf: seq<byte>, i: nat) {
    i + 4 <= |buf| && buf[i] == 13 && buf[i + 1] == 10 && buf[i + 2] == 13 && buf[i + 3] == 10
  }

  /** The header bytes are what stands before the first blank line, or everything when
      there is none. */
  lemma HeaderBytesExactly(buf: seq<byte>)
    ensures if exists i: nat :: BlankLineAt(buf, i)
            then exists i: nat :: BlankLineAt(buf, i) && HeaderBytes(buf) == buf[..i] && forall j: nat | j < i :: !BlankLineAt(buf, j)
            else HeaderBytes(buf) == buf
  {
    forall i: nat ensures BlankLineAt(buf, i) <==> EndsAt(buf, i) {
      if i + 4 <= |buf| {
        assert buf[i..i + 4] == [buf[i], buf[i + 1], buf[i + 2], buf[i + 3]];
      }
    }
    if HasHeaderEnd(buf) {
      var end := FindEnd(buf, 0).value;
      assert BlankLineAt(buf, end) && forall j: nat | j < end :: !EndsAt(buf, j);
    }
  }

  predicate Pieces(chunks: seq<seq<byte>>) {
    forall i | 0 <= i < |chunks| :: 1 <= |chunks[i]| <= CHUNK
  }

  /** What reading `chunks` onto `buf` comes to. */
  function Head(chunks: seq<seq<byte>>, buf: seq<byte>): Option<seq<byte>> {
    if chunks == [] then
      if buf == [] then None else Some(buf)
    else
      var grown := buf + chunks[0];
      if HasHeaderEnd(grown) then Some(grown)
      else if |grown| > MAX_HEAD then None
      else Head(chunks[1..], grown)
  }

  /** The same when the reads may end in an error instead of the end of the stream. */
  function Reading(chunks: seq<seq<byte>>, buf: seq<byte>, fault: Option<IoKind>): Result<Option<seq<byte>>> {
    if chunks == [] then
      match fault
      case Some(kind) => Err(Io(kind))
      case None => Ok(if buf == [] then None else Some(buf))
    else
      var grown := buf + chunks[0];
      if HasHeaderEnd(grown) then Ok(Some(grown))
      else if |grown| > MAX_HEAD then Ok(None)
      else Reading(chunks[1..], grown, fault)
  }

  /** A failing read is reported exactly when what came before it neither ended the
      head nor overran the limit; otherwise it is never reached. */
  lemma {:induction false} FailingRead(chunks: seq<seq<byte>>, buf: seq<byte>, fault: Option<IoKind>)
    requires !HasHeaderEnd(buf) && |buf| <= MAX_HEAD
    ensures var total := buf + Flatten(chunks);
            Reading(chunks, buf, fault) ==
              if fault.Some? && !HasHeaderEnd(total) && |total| <= MAX_HEAD then Err(Io(fault.value))
              else Ok(Head(chunks, buf))
  {
    var total := buf + Flatten(chunks);
    if chunks == [] {
      assert total == buf;
    } else {
      var grown := buf + chunks[0];
      assert total == grown + Flatten(chunks[1..]);
      assert total[..|grown|] == grown;
      if HasHeaderEnd(grown) {
        EndInPrefix(grown, total);
      } else if |grown| <= MAX_HEAD {
        FailingRead(chunks[1..], grown, fault);
      }
    }
  }

  method ReadHead(chunks: seq<seq<byte>>, fault: Option<IoKind>) returns (r: Result<Option<seq<byte>>>)
    requires Pieces(chunks)
    ensures r == Reading(chunks, [], fault)
  {
    var buf: seq<byte> := [];
    var i := 0;
    while true
      invariant i <= |chunks|
      invariant Reading(chunks, [], fault) == Reading(chunks[i..], buf, fault)
      decreases |chunks| - i
    {
      if i == |chunks| {
        match fault {
          case Some(kind) => return Err(Io(kind));
          case None => return Ok(if buf == [] then None else Some(buf));
        }
      }
      assert chunks[i..][1..] == chunks[i + 1..];
      buf := buf + chunks[i];
      i := i + 1;
      if HasHeaderEnd(buf) {
        return Ok(Some(buf));
      }
      if |buf| > MAX_HEAD {
        return Ok(None);
      }
    }
  }

  /** A place where the input was split. */
  ghost predicate Boundary(chunks: seq<seq<byte>>, start: nat, at: nat) {
    exists i :: 0 <= i <= |chunks| && at == start + |Flatten(chunks[..i])|
  }

  lemma BoundaryShifts(chunks: seq<seq<byte>>, start: nat, at: nat)
    requires chunks != []
    ensures Boundary(chunks, start, at) <==> at == start || Boundary(chunks[1..], start + |chunks[0]|, at)
  {
    assert Flatten(chunks[..0]) == [];
    if Boundary(chunks, start, at) {
      var i :| 0 <= i <= |chunks| && at == start + |Flatten(chunks[..i])|;
      if i > 0 {
        assert chunks[..i][1..] == chunks[1..][..i - 1];
      }
    }
    if Boundary(chunks[1..], start + |chunks[0]|, at) {
      var i :| 0 <= i <= |chunks[1..]| && at == start + |chunks[0]| + |Flatten(chunks[1..][..i])|;
      assert chunks[..i + 1][1..] == chunks[1..][..i];
    }
  }

  /** Reading gives up exactly on empty input, or when some split falls beyond the
      limit and still short of the end of the first terminator. */
  ghost predicate GivesUp(chunks: seq<seq<byte>>, start: nat, total: seq<byte>) {
    total == [] || exists at :: MAX_HEAD < at <= |total| && Boundary(chunks, start, at) && !HasHeaderEnd(total[..at])
  }

  lemma {:induction false} HeadOutcome(chunks: seq<seq<byte>>, buf: seq<byte>)
    requires Pieces(chunks) && !HasHeaderEnd(buf) && |buf| <= MAX_HEAD
    ensures var total := buf + Flatten(chunks);
            match Head(chunks, buf)
            case None => GivesUp(chunks, |buf|, total)
            case Some(h) =>
              && !GivesUp(chunks, |buf|, total)
              && h <= total && |h| <= MAX_HEAD + CHUNK
              && (HasHeaderEnd(h) || h == total)
  {
    var total := buf + Flatten(chunks);
    if chunks != [] {
      var grown := buf + chunks[0];
      assert total == grown + Flatten(chunks[1..]);
      assert total[..|grown|] == grown;
      forall at ensures Boundary(chunks, |buf|, at) <==> at == |buf| || Boundary(chunks[1..], |grown|, at) {
        BoundaryShifts(chunks, |buf|, at);
      }
      assert Flatten(chunks[1..][..0]) == [];
      assert Boundary(chunks[1..], |grown|, |grown|);
      if HasHeaderEnd(grown) {
        forall at | |grown| <= at <= |total| ensures HasHeaderEnd(total[..at]) {
          EndInPrefix(grown, total[..at]);
        }
        forall at: nat | Boundary(chunks[1..], |grown|, at) ensures at >= |grown| {
        }
      } else if |grown| <= MAX_HEAD {
        HeadOutcome(chunks[1..], grown);
      }
    } else {
      forall at: nat | Boundary(chunks, |buf|, at) ensures at == |buf| {
      }
    }
  }

  /** `head` is `buf` and the pieces up to the `i`-th, which is the first to complete
      the blank line. */
  ghost predicate CompletedBy(chunks: seq<seq<byte>>, buf: seq<byte>, head: seq<byte>, i: nat) {
    i < |chunks| && head == buf + Flatten(chunks[..i]) + chunks[i] && !HasHeaderEnd(buf + Flatten(chunks[..i]))
  }

  /** Reading stops with the piece that completes the blank line and not before it. */
  lemma {:induction false} HeadStopsAtOnce(chunks: seq<seq<byte>>, buf: seq<byte>)
    requires !HasHeaderEnd(buf) && Head(chunks, buf).Some? && HasHeaderEnd(Head(chunks, buf).value)
    ensures exists i: nat :: CompletedBy(chunks, buf, Head(chunks, buf).value, i)
  {
    var grown := buf + chunks[0];
    if HasHeaderEnd(grown) {
      assert buf + Flatten(chunks[..0]) == buf;
      assert CompletedBy(chunks, buf, grown, 0);
    } else {
      HeadStopsAtOnce(chunks[1..], grown);
      var head := Head(chunks[1..], grown).value;
      var i: nat :| CompletedBy(chunks[1..], grown, head, i);
      assert chunks[..i + 1][1..] == chunks[1..][..i];
      assert buf + Flatten(chunks[..i + 1]) == grown + Flatten(chunks[1..][..i]);
      assert CompletedBy(chunks, buf, head, i + 1);
    }
  }

  /** A request whose first blank line ends within the limit is read under every
      fragmentation, with the same header bytes. */
  lemma FragmentationIrrelevant(chunks: seq<seq<byte>>)
    requires Pieces(chunks)
    requires HasHeaderEnd(Flatten(chunks)) && FindEnd(Flatten(chunks), 0).value + 4 <= MAX_HEAD + 1
    ensures Head(chunks, []).Some?
    ensures HeaderBytes(Head(chunks, []).value) == HeaderBytes(Flatten(chunks))
    ensures |Head(chunks, []).value| <= MAX_HEAD + CHUNK
  {
    var total := Flatten(chunks);
    assert [] + total == total;
    HeadOutcome(chunks, []);
    forall at | MAX_HEAD < at <= |total| ensures HasHeaderEnd(total[..at]) {
      EndInPrefix(total[..at], total);
    }
    EndInPrefix(Head(chunks, []).value, total);
  }

  function Bytewise(s: seq<byte>): seq<seq<byte>> {
    if s == [] then [] else [[s[0]]] + Bytewise(s[1..])
  }

  lemma {:induction false} BytewisePieces(s: seq<byte>)
    ensures Pieces(Bytewise(s)) && |Bytewise(s)| == |s| && Flatten(Bytewise(s)) == s
  {
    if s != [] {
      BytewisePieces(s[1..]);
      assert Bytewise(s)[1..] == Bytewise(s[1..]);
    }
  }

  lemma {:induction false} BytewisePrefix(s: seq<byte>, at: nat)
    requires at <= |s| == |Bytewise(s)|
    ensures Bytewise(s)[..at] == Bytewise(s[..at])
  {
    if at > 0 {
      BytewisePieces(s[1..]);
      BytewisePrefix(s[1..], at - 1);
      assert s[..at][1..] == s[1..][..at - 1];
    }
  }

  function Filler(n: nat): seq<byte> {
    seq(n, _ => 0x61)
  }

  /** A head one byte over the limit, accepted however it is cut up. */
  lemma OverLimitHeadWitness(chunks: seq<seq<byte>>)
    requires Pieces(chunks) && Flatten(chunks) == Filler(8189) + TERMINATOR
    ensures Head(chunks, []).Some? && |Head(chunks, []).value| == MAX_HEAD + 1
  {
    var total := Filler(8189) + TERMINATOR;
    assert EndsAt(total, 8189);
    var end := FindEnd(total, 0).value;
    assert total[end..end + 4][0] == total[end];
    FragmentationIrrelevant(chunks);
    assert [] + total == total;
    HeadOutcome(chunks, []);
    EndInPrefix(Head(chunks, []).value, total);
  }

  /** And that bound is exact: whatever the bytes, every fragmentation succeeds if
      and only if the terminator ends at most one byte past the limit. */
  lemma ReadableUnderEveryFragmentation(total: seq<byte>)
    requires HasHeaderEnd(total)
    ensures (forall chunks :: Pieces(chunks) && Flatten(chunks) == total ==> Head(chunks, []).Some?)
       <==> FindEnd(total, 0).value + 4 <= MAX_HEAD + 1
  {
    if FindEnd(total, 0).value + 4 <= MAX_HEAD + 1 {
      forall chunks | Pieces(chunks) && Flatten(chunks) == total ensures Head(chunks, []).Some? {
        FragmentationIrrelevant(chunks);
      }
    } else {
      var chunks := Bytewise(total);
      var at := MAX_HEAD + 1;
      BytewisePieces(total);
      BytewisePrefix(total, at);
      BytewisePieces(total[..at]);
      assert [] + total == total;
      HeadOutcome(chunks, []);
      EndInPrefix(total[..at], total);
      assert Boundary(chunks, 0, at);
      assert GivesUp(chunks, 0, total);
      assert Head(chunks, []).None?;
    }
  }

  lemma {:induction false} FlattenConcat(a: seq<seq<byte>>, b: seq<seq<byte>>)
    ensures Flatten(a + b) == Flatten(a) + Flatten(b)
  {
    if a == [] {
      assert a + b == b;
    } else {
      FlattenConcat(a[1..], b);
      assert (a + b)[1..] == a[1..] + b && (a + b)[0] == a[0];
      assert a[0] + (Flatten(a[1..]) + Flatten(b)) == a[0] + Flatten(a[1..]) + Flatten(b);
    }
  }

  /** Pieces within the limit and short of the terminator are just buffered. */
  lemma {:induction false} HeadBuffers(front: seq<seq<byte>>, rest: seq<seq<byte>>, buf: seq<byte>)
    requires !HasHeaderEnd(buf + Flatten(front)) && |buf + Flatten(front)| <= MAX_HEAD
    ensures Head(front + rest, buf) == Head(rest, buf + Flatten(front))
  {
    if front == [] {
      assert front + rest == rest && buf + [] == buf;
    } else {
      var grown := buf + front[0];
      assert buf + Flatten(front) == grown + Flatten(front[1..]);
      EndInPrefix(grown, grown + Flatten(front[1..]));
      assert (front + rest)[1..] == front[1..] + rest;
      HeadBuffers(front[1..], rest, grown);
    }
  }

  /** The input cut at `cut`, then one piece up to `end`, then single bytes. */
  function CutAt(total: seq<byte>, cut: nat, end: nat): seq<seq<byte>>
    requires cut <= end <= |total|
  {
    Bytewise(total[..cut]) + ([total[cut..end]] + Bytewise(total[end..]))
  }

  lemma CoveringPiece(covering: seq<byte>, behind: seq<byte>)
    requires 1 <= |covering| <= CHUNK
    ensures var rest := [covering] + Bytewise(behind);
            Pieces(rest) && Flatten(rest) == covering + behind
  {
    BytewisePieces(behind);
    assert ([covering] + Bytewise(behind))[1..] == Bytewise(behind);
  }

  lemma CutAtIsFragmentation(total: seq<byte>, cut: nat, end: nat)
    requires cut < end <= |total| && end - cut <= CHUNK
    ensures Pieces(CutAt(total, cut, end)) && Flatten(CutAt(total, cut, end)) == total
  {
    var rest := [total[cut..end]] + Bytewise(total[end..]);
    BytewisePieces(total[..cut]);
    CoveringPiece(total[cut..end], total[end..]);
    FlattenConcat(Bytewise(total[..cut]), rest);
    JoinSlices(total, cut, end);
    assert total[..cut] + (total[cut..end] + total[end..]) == total[..cut] + total[cut..end] + total[end..];
  }

  lemma HeadCovers(covering: seq<byte>, more: seq<seq<byte>>, buf: seq<byte>)
    requires HasHeaderEnd(buf + covering)
    ensures Head([covering] + more, buf) == Some(buf + covering)
  {
  }

  lemma JoinSlices(s: seq<byte>, i: nat, j: nat)
    requires i <= j <= |s|
    ensures s[..i] + s[i..j] == s[..j] && s[..j] + s[j..] == s
  {
  }

  lemma ReadPast(front: seq<byte>, covering: seq<byte>, more: seq<seq<byte>>)
    requires !HasHeaderEnd(front) && |front| <= MAX_HEAD && HasHeaderEnd(front + covering)
    ensures Head(Bytewise(front) + ([covering] + more), []) == Some(front + covering)
  {
    BytewisePieces(front);
    assert [] + Flatten(Bytewise(front)) == front;
    HeadBuffers(Bytewise(front), [covering] + more, []);
    HeadCovers(covering, more, front);
  }

  /** Cutting within the limit and covering the terminator with the next piece gets
      any head through that ends less than a piece later. */
  lemma CutAtIsRead(total: seq<byte>, cut: nat, end: nat)
    requires HasHeaderEnd(total) && end == FindEnd(total, 0).value + 4
    requires cut <= MAX_HEAD && cut < end
    ensures Head(CutAt(total, cut, end), []) == Some(total[..end])
  {
    EndInPrefix(total[..cut], total);
    EndInPrefix(total[..end], total);
    JoinSlices(total, cut, end);
    ReadPast(total[..cut], total[cut..end], Bytewise(total[end..]));
  }

  /** Rejection has its own exact bound: every fragmentation fails if and only if the
      terminator ends more than one piece past the limit. */
  lemma RejectedUnderEveryFragmentation(total: seq<byte>)
    requires HasHeaderEnd(total)
    ensures (forall chunks :: Pieces(chunks) && Flatten(chunks) == total ==> Head(chunks, []).None?)
       <==> FindEnd(total, 0).value + 4 > MAX_HEAD + CHUNK
  {
    var end := FindEnd(total, 0).value + 4;
    if end > MAX_HEAD + CHUNK {
      forall chunks | Pieces(chunks) && Flatten(chunks) == total ensures Head(chunks, []).None? {
        assert [] + total == total;
        HeadOutcome(chunks, []);
        if Head(chunks, []).Some? {
          EndInPrefix(Head(chunks, []).value, total);
        }
      }
    } else if end > MAX_HEAD {
      CutAtIsFragmentation(total, MAX_HEAD, end);
      CutAtIsRead(total, MAX_HEAD, end);
    } else {
      BytewisePieces(total);
      FragmentationIrrelevant(Bytewise(total));
    }
  }

  /** The bearer-token comparison always covers both strings, so it is equality. */
  method TokensEqual(a: seq<byte>, b: seq<byte>) returns (equal: bool)
    ensures equal <==> a == b
  {
    var width := Max(|a|, |b|);
    var compared;
    equal, compared := CtEq(a, b, width);
    AgreementIsEquality(b, width);
    assert Agrees(a, b, width) <==> a == b;
  }
}
