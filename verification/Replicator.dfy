/**
 The replicator (pkg/replicator/replicator.go) over a reader of the segmented log (pkg/walfs/walog.go: Reader.Next,
 NewReaderWithStart).

 A reader works on a snapshot of the segment list. When it has read every segment of its snapshot to the end, the
 replicator opens a new one at the last record it took and skips that record. The log is written, sealed and rotated
 between any two steps. What one segment's reader returns is proved in Tail.
 */
module Replicator {
  import opened Basics
  import opened Framing
  import opened Segments
  import opened WalLayout

  datatype Sent = Sent(pos: Position, data: Bytes)

  /** Segments first..upto are in the snapshot; next is the one to open when none is being read. */
  datatype Reader = Reader(first: nat, upto: nat, start: nat, next: nat, at: Option<Position>, skip: bool)

  datatype State = State(
    shape: Shape,
    lastSealed: bool,
    published: nat,
    lastOffset: Option<Position>,
    reader: Option<Reader>,
    batch: seq<Sent>,
    sent: seq<seq<Sent>>,
    failed: bool)

  datatype Step =
    | WriteRecord(data: Bytes)
    | SealLast
    | NewSegment
    | PublishSnapshot
    | OpenReader
    | ReaderNext

  predicate Enabled(s: State, step: Step) {
    && s.shape != []
    && match step
       case WriteRecord(_) => !s.lastSealed
       case SealLast => true
       case NewSegment => s.lastSealed
       case PublishSnapshot => true
       case OpenReader => s.reader.None? && !s.failed
       case ReaderNext => s.reader.Some? && !s.failed
  }

  function Flush(s: State): State {
    if s.batch == [] then s else s.(sent := s.sent + [s.batch], batch := [])
  }

  predicate SegmentSealed(s: State, g: nat) {
    g < |s.shape| || s.lastSealed
  }

  /** getReader: from the beginning, or at the last record taken, which will be skipped. */
  function Opened(s: State): State {
    match s.lastOffset
    case None => s.(reader := Some(Reader(1, s.published, SEGMENT_HEADER_SIZE, 1, None, false)))
    case Some(p) =>
      if p.segment < 1 || p.segment > s.published then s.(failed := true)
      else s.(reader := Some(Reader(p.segment, s.published, p.offset, p.segment, None, true)))
  }

  /** The record of a segment at an offset. */
  ghost predicate RecordAt(ps: seq<Bytes>, off: nat, k: nat) {
    k < |ps| && Offset(ps[..k]) == off
  }

  /** One round of the loop in Reader.Next: open the next segment, or ask the open one. */
  ghost function Next(s: State, batchSize: nat): State
    requires Enabled(s, ReaderNext)
  {
    var r := s.reader.value;
    match r.at
    case None =>
      if r.next > r.upto then Flush(s).(reader := None)
      else
        var off := if r.next == r.first && r.start > SEGMENT_HEADER_SIZE then r.start else SEGMENT_HEADER_SIZE;
        s.(reader := Some(r.(at := Some(Position(r.next, off)), next := r.next + 1)))
    case Some(p) =>
      if !(1 <= p.segment <= |s.shape|) then s.(failed := true)
      else
        var ps := s.shape[p.segment - 1];
        if p.offset >= Offset(ps) then
          if SegmentSealed(s, p.segment) then s.(reader := Some(r.(at := None)))
          else Flush(s).(reader := if r.skip then None else s.reader)
        else if k: nat :| RecordAt(ps, p.offset, k) then
          Take(s, batchSize, p, ps[k])
        else s.(failed := true)
  }

  /** A record was read: the skipped one is dropped, any other goes into the batch. */
  function Take(s: State, batchSize: nat, p: Position, data: Bytes): State
    requires s.reader.Some?
  {
    var r := s.reader.value.(at := Some(Position(p.segment, p.offset + EntrySize(|data|))));
    if r.skip then s.(reader := Some(r.(skip := false)))
    else
      var taken := s.(reader := Some(r), batch := s.batch + [Sent(p, data)], lastOffset := Some(p));
      if |taken.batch| >= batchSize then Flush(taken) else taken
  }

  ghost function Do(s: State, batchSize: nat, step: Step): State
    requires Enabled(s, step)
  {
    match step
    case WriteRecord(data) => s.(shape := Stretched(s.shape, [data]))
    case SealLast => s.(lastSealed := true)
    case NewSegment => s.(shape := s.shape + [[]], lastSealed := false)
    case PublishSnapshot => s.(published := |s.shape|)
    case OpenReader => Opened(s)
    case ReaderNext => Next(s, batchSize)
  }

  ghost predicate IsRun(s: State, batchSize: nat, steps: seq<Step>, s': State)
    decreases |steps|
  {
    if steps == [] then s == s'
    else Enabled(s, steps[0]) && IsRun(Do(s, batchSize, steps[0]), batchSize, steps[1..], s')
  }

  // ---- Records by number, segment and offset ----

  /** Number of the first record of segment g. */
  function FirstOf(shape: Shape, g: nat): nat
    requires 1 <= g <= |shape| + 1
  {
    Count(shape[..g - 1])
  }

  lemma FirstOfNext(shape: Shape, g: nat)
    requires 1 <= g <= |shape|
    ensures FirstOf(shape, g + 1) == FirstOf(shape, g) + |shape[g - 1]|
  {
    assert Front(shape[..g]) == shape[..g - 1] && Last(shape[..g]) == shape[g - 1];
  }

  lemma FirstOfEnd(shape: Shape)
    ensures FirstOf(shape, |shape| + 1) == Count(shape)
  {
    assert shape[..|shape|] == shape;
  }

  /** Record k of segment g. */
  lemma {:induction false} Located(shape: Shape, g: nat, k: nat)
    requires 1 <= g <= |shape| && k < |shape[g - 1]|
    ensures var i := FirstOf(shape, g) + k;
            && i < Count(shape)
            && PositionOf(shape, i) == Position(g, Offset(shape[g - 1][..k]))
            && Flatten(shape)[i] == shape[g - 1][k]
    decreases |shape|
  {
    hide Offset;
    assert Front(shape) == shape[..|shape| - 1];
    if g < |shape| {
      Located(Front(shape), g, k);
      assert Front(shape)[..g - 1] == shape[..g - 1];
    }
  }

  /** The i-th record of the log as it is sent. */
  function SentAt(shape: Shape, i: nat): Sent
    requires i < Count(shape)
  {
    Sent(PositionOf(shape, i), Flatten(shape)[i])
  }

  /** Records a up to b of the log, as they are to be sent. */
  function Stream(shape: Shape, a: nat, b: nat): seq<Sent>
    requires a <= b <= Count(shape)
  {
    seq(b - a, i requires 0 <= i < b - a => SentAt(shape, a + i))
  }

  lemma StreamSnoc(shape: Shape, a: nat, b: nat)
    requires a <= b < Count(shape)
    ensures Stream(shape, a, b + 1) == Stream(shape, a, b) + [SentAt(shape, b)]
  {
    hide SentAt, Count;
    var longer, shorter := Stream(shape, a, b + 1), Stream(shape, a, b) + [SentAt(shape, b)];
    assert |longer| == |shorter|;
    forall i | 0 <= i < |longer| ensures longer[i] == shorter[i] {
    }
  }

  // ---- Writing does not disturb what is already in the log ----

  /** A log that has grown: segments only gain records at the end, and only the last one does. */
  ghost predicate Grows(a: Shape, b: Shape) {
    && a != [] && |a| <= |b|
    && (forall g | 0 <= g < |a| :: a[g] <= b[g])
    && (forall g | 1 <= g <= |a| :: FirstOf(a, g) == FirstOf(b, g))
    && Count(a) <= Count(b)
    && (forall i | 0 <= i < Count(a) :: SentAt(a, i) == SentAt(b, i))
  }

  lemma GrowsByRecord(shape: Shape, p: Bytes)
    requires shape != []
    ensures Grows(shape, Stretched(shape, [p]))
  {
    hide PositionOf, Offset;
    var more := Stretched(shape, [p]);
    StretchedContents(shape, [p]);
    forall g | 1 <= g <= |shape| ensures FirstOf(shape, g) == FirstOf(more, g) {
      assert shape[..g - 1] == more[..g - 1];
    }
    forall i | 0 <= i < Count(shape) ensures SentAt(shape, i) == SentAt(more, i) {
      PlaceKeepsPosition(Offset(Last(shape) + [p]), shape, p, i);
    }
  }

  lemma GrowsBySegment(shape: Shape)
    requires shape != []
    ensures Grows(shape, shape + [[]])
  {
    hide Offset;
    var more := shape + [[]];
    assert Front(more) == shape && Last(more) == [];
    forall g | 1 <= g <= |shape| ensures FirstOf(shape, g) == FirstOf(more, g) {
      assert shape[..g - 1] == more[..g - 1];
    }
  }

  lemma StreamGrows(a: Shape, b: Shape, i: nat, j: nat)
    requires Grows(a, b) && i <= j <= Count(a)
    ensures Stream(a, i, j) == Stream(b, i, j)
  {
    hide SentAt;
    var x, y := Stream(a, i, j), Stream(b, i, j);
    forall k | 0 <= k < j - i ensures x[k] == y[k] {
      assert SentAt(a, i + k) == SentAt(b, i + k);
    }
  }

  // ---- The invariant ----

  /** A segment reader stands in front of record i of the log. */
  ghost predicate InFrontOf(shape: Shape, p: Position, i: nat) {
    && 1 <= p.segment <= |shape|
    && FirstOf(shape, p.segment) <= i <= FirstOf(shape, p.segment) + |shape[p.segment - 1]|
    && p.offset == Offset(shape[p.segment - 1][..i - FirstOf(shape, p.segment)])
  }

  ghost predicate ReaderOk(s: State, r: Reader, n: nat)
    requires n <= Count(s.shape) && s.published <= |s.shape|
  {
    && 1 <= r.first <= r.next <= r.upto + 1 <= s.published + 1
    && (r.skip ==> n > 0)
    && match r.at
       case None =>
         if r.skip then r.next == r.first && r.first <= r.upto && Position(r.first, r.start) == PositionOf(s.shape, n - 1)
         else
           && FirstOf(s.shape, r.next) == n
           && (r.next == r.first ==> r.start == SEGMENT_HEADER_SIZE)
           && (r.next == |s.shape| + 1 ==> s.lastSealed)
       case Some(p) =>
         && r.first <= p.segment <= r.upto && r.next == p.segment + 1
         && InFrontOf(s.shape, p, if r.skip then n - 1 else n)
         && (r.skip ==> p == PositionOf(s.shape, n - 1))
  }

  /** Records start up to n have been taken, and nothing else. */
  ghost predicate Inv(s: State, start: nat, n: nat) {
    && s.shape != [] && !s.failed
    && start <= n <= Count(s.shape)
    && 1 <= s.published <= |s.shape|
    && Flatten(s.sent) + s.batch == Stream(s.shape, start, n)
    && s.lastOffset == (if n == 0 then None else Some(PositionOf(s.shape, n - 1)))
    && (s.lastOffset.Some? ==> 1 <= s.lastOffset.value.segment <= s.published)
    && (s.reader.Some? ==> ReaderOk(s, s.reader.value, n))
  }

  lemma InFrontGrows(a: Shape, b: Shape, p: Position, i: nat)
    requires Grows(a, b) && InFrontOf(a, p, i)
    ensures InFrontOf(b, p, i)
  {
    hide Offset;
    var k := i - FirstOf(a, p.segment);
    assert a[p.segment - 1] <= b[p.segment - 1];
    assert a[p.segment - 1][..k] == b[p.segment - 1][..k];
  }

  /** The log grows between two steps of the replicator. */
  lemma KeepsGrowth(s: State, shape: Shape, lastSealed: bool, start: nat, n: nat)
    requires Inv(s, start, n) && Grows(s.shape, shape)
    requires s.lastSealed ==> |shape| > |s.shape| && FirstOf(shape, |s.shape| + 1) == FirstOf(s.shape, |s.shape| + 1)
    ensures Inv(s.(shape := shape, lastSealed := lastSealed), start, n)
  {
    hide PositionOf, Offset, Stream, InFrontOf;
    StreamGrows(s.shape, shape, start, n);
    if n > 0 {
      assert SentAt(s.shape, n - 1) == SentAt(shape, n - 1);
    }
    if s.reader.Some? && s.reader.value.at.Some? {
      InFrontGrows(s.shape, shape, s.reader.value.at.value, if s.reader.value.skip then n - 1 else n);
    }
  }

  lemma KeepsWriter(s: State, batchSize: nat, step: Step, start: nat, n: nat)
    requires Inv(s, start, n) && Enabled(s, step) && !step.OpenReader? && !step.ReaderNext?
    ensures Inv(Do(s, batchSize, step), start, n)
  {
    hide PositionOf, Offset, Stream, InFrontOf, Stretched;
    match step {
      case WriteRecord(data) =>
        GrowsByRecord(s.shape, data);
        KeepsGrowth(s, Stretched(s.shape, [data]), false, start, n);
      case NewSegment =>
        GrowsBySegment(s.shape);
        assert (s.shape + [[]])[..|s.shape|] == s.shape[..|s.shape|];
        KeepsGrowth(s, s.shape + [[]], false, start, n);
      case SealLast =>
      case PublishSnapshot =>
    }
  }

  lemma KeepsOpen(s: State, batchSize: nat, start: nat, n: nat)
    requires Inv(s, start, n) && Enabled(s, OpenReader)
    ensures Inv(Do(s, batchSize, OpenReader), start, n)
  {
    hide PositionOf, Offset, Stream, InFrontOf;
    assert s.shape[..0] == [];
  }

  // ---- One round of the reader ----

  lemma FlushKeeps(s: State, start: nat, n: nat)
    requires Inv(s, start, n)
    ensures Inv(Flush(s), start, n) && Flush(s).batch == []
  {
    hide PositionOf, Stream, InFrontOf, FirstOf;
    assert Front(s.sent + [s.batch]) == s.sent && Last(s.sent + [s.batch]) == s.batch;
    assert Flatten(s.sent) + s.batch + [] == Flatten(s.sent) + s.batch;
  }

  lemma KeepsOpenSegment(s: State, batchSize: nat, start: nat, n: nat)
    requires Inv(s, start, n) && Enabled(s, ReaderNext) && s.reader.value.at.None?
    ensures Inv(Do(s, batchSize, ReaderNext), start, n)
  {
    hide Offset, Stream;
    var r := s.reader.value;
    if r.next > r.upto {
      FlushKeeps(s, start, n);
    } else if r.skip {
      OpensAtRecord(s.shape, Position(r.first, r.start), n - 1);
    } else {
      OpensAtStart(s.shape, r.next);
    }
  }

  lemma OpensAtStart(shape: Shape, g: nat)
    requires 1 <= g <= |shape|
    ensures InFrontOf(shape, Position(g, SEGMENT_HEADER_SIZE), FirstOf(shape, g))
  {
    assert shape[g - 1][..0] == [];
  }

  lemma {:induction false} OpensAtRecord(shape: Shape, p: Position, i: nat)
    requires i < Count(shape) && p == PositionOf(shape, i)
    ensures InFrontOf(shape, p, i) && p.offset >= SEGMENT_HEADER_SIZE
    ensures i < FirstOf(shape, p.segment) + |shape[p.segment - 1]|
    decreases |shape|
  {
    hide Offset;
    PositionInside(shape, i);
    assert Front(shape) == shape[..|shape| - 1];
    if i < Count(Front(shape)) {
      OpensAtRecord(Front(shape), p, i);
      assert Front(shape)[..p.segment - 1] == shape[..p.segment - 1];
    }
  }

  /** What a segment reader in front of record i finds. */
  lemma AtCursor(shape: Shape, p: Position, i: nat)
    requires InFrontOf(shape, p, i)
    ensures var ps, k := shape[p.segment - 1], i - FirstOf(shape, p.segment);
            && (p.offset >= Offset(ps) <==> k == |ps|)
            && (k < |ps| ==>
                  && RecordAt(ps, p.offset, k)
                  && (forall j: nat | RecordAt(ps, p.offset, j) :: j == k)
                  && i < Count(shape) && SentAt(shape, i) == Sent(p, ps[k])
                  && InFrontOf(shape, Position(p.segment, p.offset + EntrySize(|ps[k]|)), i + 1))
            && (k == |ps| ==> FirstOf(shape, p.segment + 1) == i)
  {
    hide Offset, PositionOf;
    var g := p.segment;
    var ps, k := shape[g - 1], i - FirstOf(shape, g);
    assert ps[..|ps|] == ps;
    OffsetsOrdered(ps, k, |ps|);
    FirstOfNext(shape, g);
    if k < |ps| {
      Located(shape, g, k);
      NextOffset(ps, k);
      forall j: nat | RecordAt(ps, p.offset, j) ensures j == k {
        OffsetsOrdered(ps, j, k);
        OffsetsOrdered(ps, k, j);
      }
    }
  }

  lemma NextOffset(ps: seq<Bytes>, k: nat)
    requires k < |ps|
    ensures Offset(ps[..k + 1]) == Offset(ps[..k]) + EntrySize(|ps[k]|)
  {
    EndGrows(SEGMENT_HEADER_SIZE, ps, k);
  }

  /** A reader at the end of a segment is in front of the first record of the next one. */
  lemma Exhausted(s: State, start: nat, n: nat)
    requires Inv(s, start, n) && s.reader.Some? && s.reader.value.at.Some?
    requires var p := s.reader.value.at.value; p.offset >= Offset(s.shape[p.segment - 1])
    ensures var r := s.reader.value;
            var g := r.at.value.segment;
            !r.skip && 1 <= g <= |s.shape| && FirstOf(s.shape, g + 1) == n && (g == |s.shape| ==> n == Count(s.shape))
  {
    hide Offset, PositionOf, Stream, SentAt, InFrontOf, RecordAt, FirstOf;
    var r := s.reader.value;
    var p := r.at.value;
    CursorInside(s.shape, p, if r.skip then n - 1 else n);
    AtCursor(s.shape, p, if r.skip then n - 1 else n);
    if r.skip {
      OpensAtRecord(s.shape, p, n - 1);
    }
    FirstOfEnd(s.shape);
  }

  lemma KeepsExhausted(s: State, batchSize: nat, start: nat, n: nat)
    requires Inv(s, start, n) && Enabled(s, ReaderNext) && s.reader.value.at.Some?
    requires var p := s.reader.value.at.value; p.offset >= Offset(s.shape[p.segment - 1])
    ensures Inv(Do(s, batchSize, ReaderNext), start, n)
    ensures !SegmentSealed(s, s.reader.value.at.value.segment) ==>
              n == Count(s.shape) && Do(s, batchSize, ReaderNext).batch == []
  {
    hide Offset, PositionOf, Stream, InFrontOf, RecordAt, FirstOf, Count, Flush;
    Exhausted(s, start, n);
    FlushKeeps(s, start, n);
    FlushReader(s);
  }

  lemma FlushReader(s: State)
    ensures Flush(s).reader == s.reader
  {
  }

  lemma KeepsTake(s: State, batchSize: nat, start: nat, n: nat)
    requires Inv(s, start, n) && Enabled(s, ReaderNext) && s.reader.value.at.Some?
    requires var p := s.reader.value.at.value; p.offset < Offset(s.shape[p.segment - 1])
    ensures Inv(Do(s, batchSize, ReaderNext), start, if s.reader.value.skip then n else n + 1)
  {
    hide Offset, PositionOf, Stream, InFrontOf, RecordAt, FirstOf, Flush;
    var r := s.reader.value;
    var p := r.at.value;
    var i := if r.skip then n - 1 else n;
    CursorInside(s.shape, p, i);
    AtCursor(s.shape, p, i);
    var k := i - FirstOf(s.shape, p.segment);
    var data := s.shape[p.segment - 1][k];
    assert Do(s, batchSize, ReaderNext) == Take(s, batchSize, p, data);
    if !r.skip {
      TakeKeeps(s, p, data, start, n);
      var r' := r.(at := Some(Position(p.segment, p.offset + EntrySize(|data|))));
      FlushKeeps(s.(reader := Some(r'), batch := s.batch + [Sent(p, data)], lastOffset := Some(p)), start, n + 1);
    }
  }

  lemma CursorInside(shape: Shape, p: Position, i: nat)
    requires InFrontOf(shape, p, i)
    ensures 1 <= p.segment <= |shape|
    ensures FirstOf(shape, p.segment) <= i <= FirstOf(shape, p.segment) + |shape[p.segment - 1]|
  {
  }

  lemma TakeKeeps(s: State, p: Position, data: Bytes, start: nat, n: nat)
    requires Inv(s, start, n) && s.reader.Some? && s.reader.value.at == Some(p) && !s.reader.value.skip
    requires n < Count(s.shape) && SentAt(s.shape, n) == Sent(p, data)
    requires InFrontOf(s.shape, Position(p.segment, p.offset + EntrySize(|data|)), n + 1)
    ensures var r' := s.reader.value.(at := Some(Position(p.segment, p.offset + EntrySize(|data|))));
            Inv(s.(reader := Some(r'), batch := s.batch + [Sent(p, data)], lastOffset := Some(p)), start, n + 1)
  {
    hide Offset, PositionOf, Stream, InFrontOf, FirstOf, Count;
    StreamSnoc(s.shape, start, n);
    Associative(Flatten(s.sent), s.batch, [Sent(p, data)]);
    CursorInside(s.shape, p, n);
  }

  lemma {:induction false} RunKeepsInvariant(s: State, batchSize: nat, steps: seq<Step>, s': State, start: nat, n: nat)
    returns (n': nat)
    requires Inv(s, start, n) && IsRun(s, batchSize, steps, s')
    ensures Inv(s', start, n')
    decreases |steps|
  {
    hide Inv, Enabled, Do, Offset;
    n' := n;
    if steps != [] {
      var step := steps[0];
      if step.OpenReader? {
        KeepsOpen(s, batchSize, start, n);
      } else if step.ReaderNext? {
        n' := KeepsNext(s, batchSize, start, n);
      } else {
        KeepsWriter(s, batchSize, step, start, n);
      }
      n' := RunKeepsInvariant(Do(s, batchSize, step), batchSize, steps[1..], s', start, n');
    }
  }

  lemma KeepsNext(s: State, batchSize: nat, start: nat, n: nat) returns (n': nat)
    requires Inv(s, start, n) && Enabled(s, ReaderNext)
    ensures Inv(Do(s, batchSize, ReaderNext), start, n')
  {
    hide Do, Offset, PositionOf, Stream, InFrontOf;
    n' := n;
    match s.reader.value.at {
      case None =>
        KeepsOpenSegment(s, batchSize, start, n);
      case Some(p) =>
        CursorInside(s.shape, p, if s.reader.value.skip then n - 1 else n);
        if p.offset >= Offset(s.shape[p.segment - 1]) {
          KeepsExhausted(s, batchSize, start, n);
        } else {
          KeepsTake(s, batchSize, start, n);
          n' := if s.reader.value.skip then n else n + 1;
        }
    }
  }

  /** A replicator started on a log, behind its first `start` records. */
  ghost predicate Starts(s: State, start: nat) {
    && s.shape != [] && s.published == |s.shape| && start <= Count(s.shape)
    && s.lastOffset == (if start == 0 then None else Some(PositionOf(s.shape, start - 1)))
    && s.reader.None? && s.batch == [] && s.sent == [] && !s.failed
  }

  /**
   In every run, whatever is written, sealed and rotated meanwhile: what has been sent, followed by the batch being
   filled, is exactly the log's records from the start position on, in order, with their positions; no reader fails.
   */
  lemma SendsExactly(s: State, batchSize: nat, steps: seq<Step>, s': State, start: nat) returns (n: nat)
    requires Starts(s, start) && IsRun(s, batchSize, steps, s')
    ensures start <= n <= Count(s'.shape) && Flatten(s'.sent) + s'.batch == Stream(s'.shape, start, n)
    ensures !s'.failed
  {
    hide PositionOf;
    StartsOk(s, start);
    n := RunKeepsInvariant(s, batchSize, steps, s', start, start);
  }

  lemma StartsOk(s: State, start: nat)
    requires Starts(s, start)
    ensures Inv(s, start, start)
  {
    hide PositionOf;
    if start > 0 {
      PositionInside(s.shape, start - 1);
    }
  }

  /** Batches are sent as soon as they are full: none is empty, and none is longer than the batch size. */
  ghost predicate Batched(s: State, batchSize: nat) {
    && (forall b :: b in s.sent ==> 1 <= |b| <= Limit(batchSize))
    && |s.batch| < Limit(batchSize)
  }

  /** A batch size of zero acts like one. */
  function Limit(batchSize: nat): nat {
    if batchSize == 0 then 1 else batchSize
  }

  lemma {:induction false} BatchesBounded(s: State, batchSize: nat, steps: seq<Step>, s': State)
    requires Batched(s, batchSize) && IsRun(s, batchSize, steps, s')
    ensures Batched(s', batchSize)
    decreases |steps|
  {
    hide Do, Enabled, Batched;
    if steps != [] {
      StepBatched(s, batchSize, steps[0]);
      BatchesBounded(Do(s, batchSize, steps[0]), batchSize, steps[1..], s');
    }
  }

  lemma StepBatched(s: State, batchSize: nat, step: Step)
    requires Batched(s, batchSize) && Enabled(s, step)
    ensures Batched(Do(s, batchSize, step), batchSize)
  {
    hide Offset, Flush, Take, Stretched;
    if step.ReaderNext? {
      FlushBatched(s, batchSize);
      if s.reader.value.at.Some? && 1 <= s.reader.value.at.value.segment <= |s.shape| {
        var p := s.reader.value.at.value;
        var ps := s.shape[p.segment - 1];
        forall k: nat | RecordAt(ps, p.offset, k) && k < |ps| ensures Batched(Take(s, batchSize, p, ps[k]), batchSize) {
          TakeBatched(s, batchSize, p, ps[k]);
        }
      }
    }
  }

  lemma FlushBatched(s: State, batchSize: nat)
    requires (forall b :: b in s.sent ==> 1 <= |b| <= Limit(batchSize)) && |s.batch| <= Limit(batchSize)
    ensures Batched(Flush(s), batchSize) && Flush(s).batch == []
  {
  }

  lemma TakeBatched(s: State, batchSize: nat, p: Position, data: Bytes)
    requires Batched(s, batchSize) && s.reader.Some?
    ensures Batched(Take(s, batchSize, p, data), batchSize)
  {
    hide Flush;
    var r := s.reader.value.(at := Some(Position(p.segment, p.offset + EntrySize(|data|))));
    FlushBatched(s.(reader := Some(r), batch := s.batch + [Sent(p, data)], lastOffset := Some(p)), batchSize);
  }

  /** In every run no batch that was sent is empty or longer than the batch size. */
  lemma BatchSizes(s: State, batchSize: nat, steps: seq<Step>, s': State, start: nat)
    requires Starts(s, start) && IsRun(s, batchSize, steps, s')
    ensures forall b :: b in s'.sent ==> 1 <= |b| <= if batchSize == 0 then 1 else batchSize
  {
    BatchesBounded(s, batchSize, steps, s');
  }

  /** When the reader reports that there is nothing new, every record of the log has been sent. */
  lemma CaughtUp(s: State, batchSize: nat, steps: seq<Step>, s': State, start: nat)
    requires Starts(s, start) && IsRun(s, batchSize, steps, s')
    requires s'.reader.Some? && s'.reader.value.at.Some?
    requires var p := s'.reader.value.at.value;
             && 1 <= p.segment <= |s'.shape| && p.offset >= Offset(s'.shape[p.segment - 1])
             && !SegmentSealed(s', p.segment)
    ensures Enabled(s', ReaderNext) && start <= Count(s'.shape)
    ensures Flatten(Do(s', batchSize, ReaderNext).sent) == Stream(s'.shape, start, Count(s'.shape))
  {
    hide PositionOf, Stream, InFrontOf;
    StartsOk(s, start);
    var n := RunKeepsInvariant(s, batchSize, steps, s', start, start);
    KeepsExhausted(s', batchSize, start, n);
    FlushKeeps(s', start, n);
  }

  // ---- The reader gets to the end ----

  /** All records are in segments that readers know of. */
  ghost predicate Published(s: State) {
    s.published <= |s.shape| && FirstOf(s.shape, s.published + 1) == Count(s.shape)
  }

  ghost predicate AllSent(s: State, n: nat) {
    n == Count(s.shape) && s.batch == []
  }

  /** Snapshots to finish: an old one still has to be read out and replaced. */
  function Laps(s: State): nat {
    match s.reader
    case None => 1
    case Some(r) => if r.upto < s.published then 2 else 0
  }

  /** Steps left in the snapshot while no record is taken. */
  function Moves(s: State): nat {
    match s.reader
    case None => 0
    case Some(r) =>
      (if r.next <= r.upto then 2 * (r.upto + 1 - r.next) else 0) + (if r.at.Some? then 1 else 0) + if r.skip then 1 else 0
  }

  ghost predicate Nearer(s: State, n: nat, s': State, n': nat) {
    || AllSent(s', n') || n' > n
    || (n' == n && (Laps(s') < Laps(s) || (Laps(s') == Laps(s) && Moves(s') < Moves(s))))
  }

  predicate SameDisk(s: State, s': State) {
    s'.shape == s.shape && s'.published == s.published && s'.lastSealed == s.lastSealed
  }

  lemma OpenNears(s: State, batchSize: nat, start: nat, n: nat)
    requires Inv(s, start, n) && s.reader.None?
    ensures Enabled(s, OpenReader)
    ensures var s' := Do(s, batchSize, OpenReader); Inv(s', start, n) && SameDisk(s, s') && Nearer(s, n, s', n)
  {
    hide PositionOf, Offset, Stream, InFrontOf;
    KeepsOpen(s, batchSize, start, n);
  }

  lemma SegmentNears(s: State, batchSize: nat, start: nat, n: nat)
    requires Inv(s, start, n) && Published(s) && s.reader.Some? && s.reader.value.at.None?
    ensures Enabled(s, ReaderNext)
    ensures var s' := Do(s, batchSize, ReaderNext); Inv(s', start, n) && SameDisk(s, s') && Nearer(s, n, s', n)
  {
    hide Inv, Do, Next, FirstOf, Nearer;
    CanRead(s, start, n);
    KeepsOpenSegment(s, batchSize, start, n);
    if s.reader.value.next > s.reader.value.upto {
      ReadOut(s, batchSize, start, n);
    } else {
      OpensNext(s, batchSize, start, n);
    }
  }

  lemma CanRead(s: State, start: nat, n: nat)
    requires Inv(s, start, n) && s.reader.Some?
    ensures Enabled(s, ReaderNext)
  {
    hide PositionOf, Offset, Stream, InFrontOf, FirstOf, ReaderOk;
  }

  /** The snapshot has been read to its end. */
  lemma ReadOut(s: State, batchSize: nat, start: nat, n: nat)
    requires Inv(s, start, n) && Published(s) && Enabled(s, ReaderNext)
    requires s.reader.value.at.None? && s.reader.value.next > s.reader.value.upto
    ensures var s' := Do(s, batchSize, ReaderNext); SameDisk(s, s') && Nearer(s, n, s', n)
  {
    hide PositionOf, Offset, Stream, InFrontOf, FirstOf, Flush;
    FlushKeeps(s, start, n);
    FlushDisk(s);
  }

  lemma OpensNext(s: State, batchSize: nat, start: nat, n: nat)
    requires Enabled(s, ReaderNext) && s.reader.value.at.None? && s.reader.value.next <= s.reader.value.upto
    ensures var s' := Do(s, batchSize, ReaderNext); SameDisk(s, s') && Nearer(s, n, s', n)
  {
    hide Offset;
  }

  lemma ExhaustedNears(s: State, batchSize: nat, start: nat, n: nat)
    requires Inv(s, start, n) && s.reader.Some? && s.reader.value.at.Some?
    requires var p := s.reader.value.at.value;
             1 <= p.segment <= |s.shape| && p.offset >= Offset(s.shape[p.segment - 1])
    ensures Enabled(s, ReaderNext)
    ensures var s' := Do(s, batchSize, ReaderNext); Inv(s', start, n) && SameDisk(s, s') && Nearer(s, n, s', n)
  {
    hide Inv, Do, Next, Laps, Moves;
    CanRead(s, start, n);
    KeepsExhausted(s, batchSize, start, n);
    ExhaustedStep(s, batchSize, n);
  }

  lemma ExhaustedStep(s: State, batchSize: nat, n: nat)
    requires Enabled(s, ReaderNext) && s.reader.value.at.Some?
    requires var p := s.reader.value.at.value;
             1 <= p.segment <= |s.shape| && p.offset >= Offset(s.shape[p.segment - 1])
    ensures var s' := Do(s, batchSize, ReaderNext);
            && SameDisk(s, s')
            && (SegmentSealed(s, s.reader.value.at.value.segment) ==> Nearer(s, n, s', n))
  {
    hide Offset, Flush;
    FlushDisk(s);
  }

  lemma TakeNears(s: State, batchSize: nat, start: nat, n: nat) returns (n': nat)
    requires Inv(s, start, n) && s.reader.Some? && s.reader.value.at.Some?
    requires var p := s.reader.value.at.value;
             1 <= p.segment <= |s.shape| && p.offset < Offset(s.shape[p.segment - 1])
    ensures Enabled(s, ReaderNext)
    ensures var s' := Do(s, batchSize, ReaderNext); Inv(s', start, n') && SameDisk(s, s') && Nearer(s, n, s', n')
  {
    hide PositionOf, Offset, Stream, InFrontOf, RecordAt, FirstOf, Flush;
    var r := s.reader.value;
    var p := r.at.value;
    n' := if r.skip then n else n + 1;
    KeepsTake(s, batchSize, start, n);
    var i := if r.skip then n - 1 else n;
    CursorInside(s.shape, p, i);
    AtCursor(s.shape, p, i);
    var data := s.shape[p.segment - 1][i - FirstOf(s.shape, p.segment)];
    assert Do(s, batchSize, ReaderNext) == Take(s, batchSize, p, data);
    FlushDisk(s.(reader := Some(r.(at := Some(Position(p.segment, p.offset + EntrySize(|data|))))),
                 batch := s.batch + [Sent(p, data)], lastOffset := Some(p)));
  }

  lemma FlushDisk(s: State)
    ensures SameDisk(s, Flush(s))
  {
  }

  lemma ReadStep(s: State, batchSize: nat, start: nat, n: nat) returns (step: Step, n': nat)
    requires Inv(s, start, n) && Published(s)
    ensures step in {OpenReader, ReaderNext} && Enabled(s, step)
    ensures var s' := Do(s, batchSize, step); Inv(s', start, n') && SameDisk(s, s') && Nearer(s, n, s', n')
  {
    hide Do, PositionOf, Offset, Stream, Nearer, FirstOf;
    n' := n;
    if s.reader.None? {
      step := OpenReader;
      OpenNears(s, batchSize, start, n);
    } else {
      step := ReaderNext;
      match s.reader.value.at {
        case None =>
          SegmentNears(s, batchSize, start, n);
        case Some(p) =>
          CursorInside(s.shape, p, if s.reader.value.skip then n - 1 else n);
          if p.offset >= Offset(s.shape[p.segment - 1]) {
            ExhaustedNears(s, batchSize, start, n);
          } else {
            n' := TakeNears(s, batchSize, start, n);
          }
      }
    }
  }

  predicate Reading(steps: seq<Step>) {
    forall i :: 0 <= i < |steps| ==> steps[i] in {OpenReader, ReaderNext}
  }

  /** Reading alone gets every record sent, from wherever the reader stands. */
  lemma {:induction false} ReadsAll(s: State, batchSize: nat, start: nat, n: nat) returns (steps: seq<Step>, s': State)
    requires Inv(s, start, n) && Published(s)
    ensures IsRun(s, batchSize, steps, s') && Reading(steps) && SameDisk(s, s')
    ensures Inv(s', start, Count(s.shape)) && s'.batch == []
    decreases if n <= Count(s.shape) then Count(s.shape) - n else 0, Laps(s), Moves(s)
  {
    hide Do, Enabled, FirstOf, PositionOf, Stream, Laps, Moves, ReaderOk;
    if AllSent(s, n) {
      steps, s' := [], s;
    } else {
      var step, n' := ReadStep(s, batchSize, start, n);
      var mid := Do(s, batchSize, step);
      var rest;
      if AllSent(mid, n') {
        rest, s' := [], mid;
      } else {
        rest, s' := ReadsAll(mid, batchSize, start, n');
      }
      steps := [step] + rest;
      assert steps[1..] == rest;
    }
  }
}
