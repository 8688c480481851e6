/**
 The whole way from the primary's segments to the replica (pkg/walfs/walog.go, pkg/replicator/replicator.go,
 internal/services/streamer/grpc_streamer.go, grpc_streamer_client.go).

 Replication lets the server send any stretch of the primary's log. Here the stretch is what the replicator has read
 from the segments, byte for byte, while they are written, sealed and rotated; the server forwards it in portions of its
 own, and the client decodes it. Every run of this machine is a run of Replication.
 */
module Pipeline {
  import opened Basics
  import opened Cells
  import opened LogRecords
  import opened MemPuts
  import opened Framing
  import opened Segments
  import opened WalLayout
  import opened Replica
  import Replication
  import Replicator

  /** Node, decoding of what node.encode writes, and the replicator's batch size. */
  datatype Setup = Setup(node: Node, decode: Bytes -> Record, batchSize: nat)

  ghost predicate SetupOk(c: Setup) {
    forall r :: c.decode(c.node.encode(r)) == r
  }

  /** One replicator serves a stream, from record start on; rotating is for the record that did not fit the last segment. */
  datatype State = State(sys: Replication.System, rep: Replicator.State, start: nat, rotating: Option<Record>)

  datatype Step =
    | AppendFails(record: Record)
    | SealFor(record: Record)
    | NewSegment
    | Publish
    | Write(record: Record)
    | Connect
    | OpenReader
    | ReaderNext
    | Forward(count: nat)
    | Receive
    | ApplyNext
    | Break

  const INIT := State(Replication.INIT, Replicator.State([[]], false, 1, None, None, [], [], false), 0, None)

  function Numbered(s: State, r: Record): Record {
    r.(lsn := s.sys.seen + 1)
  }

  /** What the replicator has handed to the server and the server has not forwarded. */
  function Buffered(s: State): seq<Replicator.Sent>
    requires s.sys.stream.Some?
  {
    var all := Flatten(s.rep.sent);
    if s.start <= s.sys.stream.value <= s.start + |all| then all[s.sys.stream.value - s.start..] else []
  }

  function Decoded(c: Setup, sent: seq<Replicator.Sent>): Replication.Batch {
    Replication.Batch(seq(|sent|, i requires 0 <= i < |sent| => c.decode(sent[i].data)),
                      seq(|sent|, i requires 0 <= i < |sent| => sent[i].pos))
  }

  ghost predicate Enabled(c: Setup, s: State, step: Step) {
    match step
    case AppendFails(r) => s.rotating.None?
    case SealFor(r) =>
      && s.rotating.None? && s.rep.shape != [] && WellFormed(s.sys.primary + [Numbered(s, r)])
      && !Oversize(c.node.size, c.node.encode(Numbered(s, r)))
      && Offset(Last(s.rep.shape) + [c.node.encode(Numbered(s, r))]) > c.node.size
    case NewSegment => s.rotating.Some? && s.rep.shape != [] && s.rep.lastSealed
    case Publish => s.rotating.Some? && s.rep.shape != []
    case Write(r) =>
      && s.rep.shape != [] && !s.rep.lastSealed && s.rep.published == |s.rep.shape|
      && if s.rotating.Some? then s.rotating.value == r && Last(s.rep.shape) == []
         else
           && WellFormed(s.sys.primary + [Numbered(s, r)]) && !Oversize(c.node.size, c.node.encode(Numbered(s, r)))
           && Offset(Last(s.rep.shape) + [c.node.encode(Numbered(s, r))]) <= c.node.size
    case Connect => Replication.Enabled(c.node, s.sys, Replication.Connect)
    case OpenReader => s.sys.stream.Some? && Replicator.Enabled(s.rep, Replicator.OpenReader)
    case ReaderNext => s.sys.stream.Some? && Replicator.Enabled(s.rep, Replicator.ReaderNext)
    case Forward(n) => s.sys.stream.Some? && 0 < n <= |Buffered(s)|
    case Receive => Replication.Enabled(c.node, s.sys, Replication.Receive)
    case ApplyNext => Replication.Enabled(c.node, s.sys, Replication.ApplyNext)
    case Break => Replication.Enabled(c.node, s.sys, Replication.Break)
  }

  ghost function Do(c: Setup, s: State, step: Step): State
    requires Enabled(c, s, step)
  {
    match step
    case AppendFails(_) => s.(sys := s.sys.(seen := s.sys.seen + 1))
    case SealFor(r) => s.(rotating := Some(r), rep := Replicator.Do(s.rep, c.batchSize, Replicator.SealLast))
    case NewSegment => s.(rep := Replicator.Do(s.rep, c.batchSize, Replicator.NewSegment))
    case Publish => s.(rep := Replicator.Do(s.rep, c.batchSize, Replicator.PublishSnapshot))
    case Write(r) =>
      s.(sys := s.sys.(seen := s.sys.seen + 1, primary := s.sys.primary + [Numbered(s, r)]),
         rep := Replicator.Do(s.rep, c.batchSize, Replicator.WriteRecord(c.node.encode(Numbered(s, r)))),
         rotating := None)
    case Connect =>
      var sys := Replication.Do(c.node, s.sys, Replication.Connect);
      State(sys, s.rep.(lastOffset := s.sys.offset, reader := None, batch := [], sent := [], failed := false),
            sys.stream.value, s.rotating)
    case OpenReader => s.(rep := Replicator.Do(s.rep, c.batchSize, Replicator.OpenReader))
    case ReaderNext => s.(rep := Replicator.Do(s.rep, c.batchSize, Replicator.ReaderNext))
    case Forward(n) =>
      s.(sys := s.sys.(wire := s.sys.wire + [Decoded(c, Buffered(s)[..n])], stream := Some(s.sys.stream.value + n)))
    case Receive => s.(sys := Replication.Do(c.node, s.sys, Replication.Receive))
    case ApplyNext => s.(sys := Replication.Do(c.node, s.sys, Replication.ApplyNext))
    case Break => s.(sys := Replication.Do(c.node, s.sys, Replication.Break))
  }

  ghost predicate IsRun(c: Setup, s: State, steps: seq<Step>, s': State)
    decreases |steps|
  {
    if steps == [] then s == s'
    else Enabled(c, s, steps[0]) && IsRun(c, Do(c, s, steps[0]), steps[1..], s')
  }

  // ---- The invariant ----

  /** The segments as laid out for the primary's log, with a new empty one at the end while rotating. */
  ghost predicate DiskOk(c: Setup, s: State) {
    var laid := Layout(c.node.size, Encoded(c.node, s.sys.primary));
    && s.rep.shape != [] && |laid| <= s.rep.published <= |s.rep.shape|
    && (s.rotating.None? ==> s.rep.shape == laid && !s.rep.lastSealed)
    && (s.rotating.Some? ==>
          && WellFormed(s.sys.primary + [Numbered(s, s.rotating.value)])
          && laid != [] && !Oversize(c.node.size, c.node.encode(Numbered(s, s.rotating.value)))
          && Offset(Last(laid) + [c.node.encode(Numbered(s, s.rotating.value))]) > c.node.size
          && if s.rep.lastSealed then s.rep.shape == laid else s.rep.shape == laid + [[]])
  }

  ghost predicate StreamOk(c: Setup, s: State, n: nat) {
    s.sys.stream.Some? ==>
      && Replicator.Inv(s.rep, s.start, n)
      && s.start <= s.sys.stream.value <= s.start + |Flatten(s.rep.sent)|
  }

  ghost predicate Inv(c: Setup, s: State, n: nat) {
    DiskOk(c, s) && StreamOk(c, s, n)
  }

  // ---- What the segments hold ----

  lemma OnDisk(c: Setup, s: State)
    requires DiskOk(c, s)
    ensures Flatten(s.rep.shape) == Encoded(c.node, s.sys.primary) && Count(s.rep.shape) == |s.sys.primary|
  {
    hide Layout, Encoded, Oversize;
    var laid := Layout(c.node.size, Encoded(c.node, s.sys.primary));
    LayoutContents(c.node.size, Encoded(c.node, s.sys.primary));
    assert Front(laid + [[]]) == laid && Last(laid + [[]]) == [];
  }

  /** Every record is at its position, in a segment that readers know of. */
  lemma AtPosition(c: Setup, s: State, i: nat)
    requires DiskOk(c, s) && i < |s.sys.primary|
    ensures i < Count(s.rep.shape) && PositionOf(s.rep.shape, i) == LogPosition(c.node, s.sys.primary, i)
    ensures 1 <= PositionOf(s.rep.shape, i).segment <= s.rep.published
  {
    hide Layout, Encoded, Oversize, LogPosition;
    var laid := Layout(c.node.size, Encoded(c.node, s.sys.primary));
    OnDisk(c, s);
    LayoutContents(c.node.size, Encoded(c.node, s.sys.primary));
    PositionIs(c.node, s.sys.primary, i, laid);
    PositionInside(laid, i);
    assert Front(laid + [[]]) == laid;
  }

  /** What the server forwards is, decoded, the next stretch of the primary's log with its positions. */
  lemma ForwardsSlice(c: Setup, s: State, n: nat, k: nat)
    requires SetupOk(c) && Inv(c, s, n) && s.sys.stream.Some? && k <= |Buffered(s)|
    ensures s.sys.stream.value + k <= |s.sys.primary|
    ensures Decoded(c, Buffered(s)[..k]) ==
            Replication.Slice(c.node, s.sys.primary, s.sys.stream.value, s.sys.stream.value + k)
  {
    hide DiskOk, LogPosition, StreamOk, SetupOk, Buffered;
    var v := s.sys.stream.value;
    if k > 0 {
      BufferedAt(c, s, n, k - 1);
    } else {
      StreamInside(c, s, n);
    }
    var part := Buffered(s)[..k];
    var batch, slice := Decoded(c, part), Replication.Slice(c.node, s.sys.primary, v, v + k);
    forall i | 0 <= i < k ensures batch.records[i] == slice.records[i] && batch.offsets[i] == slice.offsets[i] {
      BufferedAt(c, s, n, i);
    }
    assert batch.records == slice.records && batch.offsets == slice.offsets;
  }

  lemma StreamInside(c: Setup, s: State, n: nat)
    requires Inv(c, s, n) && s.sys.stream.Some?
    ensures s.sys.stream.value <= |s.sys.primary|
  {
    hide DiskOk, PositionOf, Replicator.ReaderOk;
    OnDisk(c, s);
    assert |Flatten(s.rep.sent) + s.rep.batch| == n - s.start;
  }

  lemma BufferedAt(c: Setup, s: State, n: nat, i: nat)
    requires SetupOk(c) && Inv(c, s, n) && s.sys.stream.Some? && i < |Buffered(s)|
    ensures var j := s.sys.stream.value + i;
            && j < |s.sys.primary| && c.decode(Buffered(s)[i].data) == s.sys.primary[j]
            && Buffered(s)[i].pos == LogPosition(c.node, s.sys.primary, j)
  {
    hide DiskOk, LogPosition, PositionOf, Replicator.ReaderOk, Encoded;
    OnDisk(c, s);
    var v, all := s.sys.stream.value, Flatten(s.rep.sent);
    var j := v - s.start + i;
    assert Buffered(s)[i] == all[j] == (all + s.rep.batch)[j] == Replicator.SentAt(s.rep.shape, v + i);
    AtPosition(c, s, v + i);
    EncodedAt(c.node, s.sys.primary, v + i);
  }

  lemma EncodedAt(node: Node, log: Log, i: nat)
    requires i < |log|
    ensures Encoded(node, log)[i] == node.encode(log[i])
  {
  }

  // ---- Every step is a step of Replication, or none ----

  lemma WriterRefines(c: Setup, s: State, step: Step, n: nat) returns (rs: seq<Replication.Step>)
    requires Inv(c, s, n) && Enabled(c, s, step)
    requires step.AppendFails? || step.SealFor? || step.NewSegment? || step.Publish? || step.Write?
    ensures Inv(c, Do(c, s, step), n) && Replication.IsRun(c.node, s.sys, rs, Do(c, s, step).sys)
  {
    hide Layout, Encoded, Oversize, WellFormed, Replicator.Inv, LogPosition;
    rs := [];
    var s' := Do(c, s, step);
    match step {
      case AppendFails(r) =>
        rs := [Replication.Append(r, false)];
        Replication.LastStep(c.node, s.sys, rs[0], s'.sys);
      case SealFor(r) =>
        if s.sys.stream.Some? { Replicator.KeepsWriter(s.rep, c.batchSize, Replicator.SealLast, s.start, n); }
      case NewSegment =>
        if s.sys.stream.Some? { Replicator.KeepsWriter(s.rep, c.batchSize, Replicator.NewSegment, s.start, n); }
      case Publish =>
        if s.sys.stream.Some? { Replicator.KeepsWriter(s.rep, c.batchSize, Replicator.PublishSnapshot, s.start, n); }
      case Write(r) =>
        rs := [Replication.Append(r, true)];
        WriteLays(c, s, r);
        Replication.LastStep(c.node, s.sys, rs[0], s'.sys);
        if s.sys.stream.Some? {
          Replicator.KeepsWriter(s.rep, c.batchSize, Replicator.WriteRecord(c.node.encode(Numbered(s, r))), s.start, n);
        }
    }
  }

  lemma WriteLays(c: Setup, s: State, r: Record)
    requires DiskOk(c, s) && Enabled(c, s, Write(r))
    ensures DiskOk(c, Do(c, s, Write(r)))
    ensures WellFormed(s.sys.primary + [Numbered(s, r)]) && !Oversize(c.node.size, c.node.encode(Numbered(s, r)))
  {
    hide Layout, Encoded, Oversize, WellFormed, Offset;
    var log, rec := s.sys.primary, Numbered(s, r);
    var laid, p := Layout(c.node.size, Encoded(c.node, log)), c.node.encode(rec);
    LayoutGrows(c.node, log, [rec]);
    EncodedOne(c.node, rec);
    PlaceOne(c.node.size, laid, p);
    assert Front(laid + [[]]) == laid && Last(laid + [[]]) == [] && [] + [p] == [p];
  }

  lemma EncodedOne(node: Node, r: Record)
    ensures Encoded(node, [r]) == [node.encode(r)]
  {
  }

  lemma ConnectRefines(c: Setup, s: State, n: nat) returns (rs: seq<Replication.Step>, n': nat)
    requires Inv(c, s, n) && Enabled(c, s, Connect)
    ensures Inv(c, Do(c, s, Connect), n') && Replication.IsRun(c.node, s.sys, rs, Do(c, s, Connect).sys)
  {
    hide Layout, Encoded, Oversize, WellFormed, LogPosition, PositionOf;
    var s' := Do(c, s, Connect);
    rs, n' := [Replication.Connect], s'.start;
    Replication.LastStep(c.node, s.sys, Replication.Connect, s'.sys);
    OnDisk(c, s);
    assert Replication.StartsAt(c.node, s.sys.primary, s.sys.offset, n');
    if n' > 0 {
      AtPosition(c, s, n' - 1);
    }
    assert Replicator.Stream(s.rep.shape, n', n') == [];
  }

  lemma ReaderRefines(c: Setup, s: State, step: Step, n: nat) returns (n': nat)
    requires Inv(c, s, n) && Enabled(c, s, step) && (step.OpenReader? || step.ReaderNext?)
    ensures Inv(c, Do(c, s, step), n') && Do(c, s, step).sys == s.sys
  {
    hide Layout, Encoded, Oversize, WellFormed, Replicator.Inv, Replicator.Next;
    n' := n;
    if step.OpenReader? {
      Replicator.KeepsOpen(s.rep, c.batchSize, s.start, n);
    } else {
      n' := Replicator.KeepsNext(s.rep, c.batchSize, s.start, n);
      NextSends(s.rep, c.batchSize);
    }
  }

  /** Reading changes nothing on disk, and only adds to what has been sent. */
  lemma NextSends(r: Replicator.State, batchSize: nat)
    requires Replicator.Enabled(r, Replicator.ReaderNext)
    ensures var r' := Replicator.Do(r, batchSize, Replicator.ReaderNext);
            && r'.shape == r.shape && r'.lastSealed == r.lastSealed && r'.published == r.published
            && |Flatten(r'.sent)| >= |Flatten(r.sent)|
  {
    hide Offset, Replicator.Flush, Flatten;
    FlushSends(r);
    if r.reader.value.at.Some? {
      var p := r.reader.value.at.value;
      forall data ensures TakeSends(r, Replicator.Take(r, batchSize, p, data)) {
        TakeAdds(r, batchSize, p, data);
      }
    }
  }

  ghost predicate TakeSends(r: Replicator.State, r': Replicator.State) {
    Replicator.SameDisk(r, r') && |Flatten(r'.sent)| >= |Flatten(r.sent)|
  }

  lemma TakeAdds(r: Replicator.State, batchSize: nat, p: Position, data: Bytes)
    requires r.reader.Some?
    ensures TakeSends(r, Replicator.Take(r, batchSize, p, data))
  {
    hide Replicator.Flush, Flatten;
    var next := r.reader.value.(at := Some(Position(p.segment, p.offset + EntrySize(|data|))));
    FlushSends(r.(reader := Some(next), batch := r.batch + [Replicator.Sent(p, data)], lastOffset := Some(p)));
  }

  lemma FlushSends(r: Replicator.State)
    ensures TakeSends(r, Replicator.Flush(r)) && Replicator.Flush(r).reader == r.reader
  {
    assert Front(r.sent + [r.batch]) == r.sent;
  }

  lemma ForwardRefines(c: Setup, s: State, k: nat, n: nat) returns (rs: seq<Replication.Step>)
    requires SetupOk(c) && Inv(c, s, n) && Enabled(c, s, Forward(k))
    ensures Inv(c, Do(c, s, Forward(k)), n) && Replication.IsRun(c.node, s.sys, rs, Do(c, s, Forward(k)).sys)
  {
    hide Layout, Encoded, Oversize, WellFormed, LogPosition, Replicator.Inv, Replication.Slice, Decoded;
    ForwardsSlice(c, s, n, k);
    rs := [Replication.Send(k)];
    Replication.LastStep(c.node, s.sys, rs[0], Do(c, s, Forward(k)).sys);
  }

  lemma ClientRefines(c: Setup, s: State, step: Step, n: nat) returns (rs: seq<Replication.Step>)
    requires Inv(c, s, n) && Enabled(c, s, step) && (step.Receive? || step.ApplyNext? || step.Break?)
    ensures Inv(c, Do(c, s, step), n) && Replication.IsRun(c.node, s.sys, rs, Do(c, s, step).sys)
  {
    hide Layout, Encoded, Oversize, WellFormed, LogPosition, Replicator.Inv, Received;
    rs := [if step.Receive? then Replication.Receive else if step.ApplyNext? then Replication.ApplyNext else Replication.Break];
    Replication.LastStep(c.node, s.sys, rs[0], Do(c, s, step).sys);
  }

  lemma StepRefines(c: Setup, s: State, step: Step, n: nat) returns (rs: seq<Replication.Step>, n': nat)
    requires SetupOk(c) && Inv(c, s, n) && Enabled(c, s, step)
    ensures Inv(c, Do(c, s, step), n') && Replication.IsRun(c.node, s.sys, rs, Do(c, s, step).sys)
  {
    hide Inv, Do, Enabled;
    rs, n' := [], n;
    match step {
      case Connect =>
        rs, n' := ConnectRefines(c, s, n);
      case OpenReader =>
        n' := ReaderRefines(c, s, step, n);
      case ReaderNext =>
        n' := ReaderRefines(c, s, step, n);
      case Forward(k) =>
        rs := ForwardRefines(c, s, k, n);
      case Receive =>
        rs := ClientRefines(c, s, step, n);
      case ApplyNext =>
        rs := ClientRefines(c, s, step, n);
      case Break =>
        rs := ClientRefines(c, s, step, n);
      case _ =>
        rs := WriterRefines(c, s, step, n);
    }
  }

  /** Every run is, in its log, its stream and its replica, a run of Replication. */
  lemma {:induction false} RunRefines(c: Setup, s: State, steps: seq<Step>, s': State, n: nat)
    returns (rs: seq<Replication.Step>, n': nat)
    requires SetupOk(c) && Inv(c, s, n) && IsRun(c, s, steps, s')
    ensures Inv(c, s', n') && Replication.IsRun(c.node, s.sys, rs, s'.sys)
    decreases |steps|
  {
    hide Inv, Do, Enabled, Replication.Do, Replication.Enabled, SetupOk;
    rs, n' := [], n;
    if steps != [] {
      var more;
      var mid := Do(c, s, steps[0]);
      rs, n' := StepRefines(c, s, steps[0], n);
      more, n' := RunRefines(c, mid, steps[1..], s', n');
      Replication.RunsCompose(c.node, s.sys, rs, mid.sys, more, s'.sys);
      rs := rs + more;
    }
  }

  lemma InitInv(c: Setup)
    ensures Inv(c, INIT, 0)
  {
    assert Encoded(c.node, []) == [];
  }

  /**
   From end to end: in every run of writer, replicator, server and client, the replica's log is a prefix of the
   primary's, each record at the same position on both, and unless the stream has stopped with an error its memtables
   hold exactly the contents of that prefix; no reader fails.
   */
  lemma ReplicaFollowsSegments(c: Setup, steps: seq<Step>, s: State)
    requires SetupOk(c) && IsRun(c, INIT, steps, s)
    ensures |s.sys.replica.log| <= |s.sys.primary| && s.sys.replica.log == s.sys.primary[..|s.sys.replica.log|]
    ensures forall i | 0 <= i < |s.sys.replica.log| ::
              LogPosition(c.node, s.sys.replica.log, i) == LogPosition(c.node, s.sys.primary, i)
    ensures s.sys.stopped.None? ==>
              && PutsOk(s.sys.replica.log, s.sys.replica.puts)
              && Fold(ResolveAll(s.sys.replica.log, s.sys.replica.puts)) == Contents(s.sys.primary[..|s.sys.replica.log|])
    ensures s.sys.stopped.Some? ==> s.sys.stopped.value.InvalidLsn? || s.sys.stopped.value.ArenaExceeded?
    ensures s.sys.stream.Some? ==> !s.rep.failed
  {
    hide Do, Enabled, Replication.IsRun, DiskOk, LogPosition, SetupOk, Fold, PutsOk;
    InitInv(c);
    var rs, n := RunRefines(c, INIT, steps, s, 0);
    Replication.ReplicaFollows(c.node, rs, s.sys);
  }

  /** The reader stands at the end of the last segment, and everything it has read has gone all the way. */
  ghost predicate Idle(s: State) {
    && s.sys.stream.Some? && s.rep.batch == [] && Buffered(s) == [] && s.sys.wire == [] && s.sys.queue == []
    && s.rep.reader.Some? && s.rep.reader.value.at.Some?
    && var p := s.rep.reader.value.at.value;
       && 1 <= p.segment <= |s.rep.shape| && p.offset >= Offset(s.rep.shape[p.segment - 1])
       && !Replicator.SegmentSealed(s.rep, p.segment)
  }

  /** When nothing is under way any more, the replica has every record of the primary's segments. */
  lemma IdleMeansComplete(c: Setup, steps: seq<Step>, s: State)
    requires SetupOk(c) && IsRun(c, INIT, steps, s) && s.sys.stopped.None? && Idle(s)
    ensures s.sys.replica.log == s.sys.primary && Encoded(c.node, s.sys.replica.log) == Flatten(s.rep.shape)
  {
    hide Do, Enabled, IsRun, Replication.IsRun, DiskOk, SetupOk, Replicator.Next, Replicator.Do, Offset;
    InitInv(c);
    var rs, n := RunRefines(c, INIT, steps, s, 0);
    AllRead(c, s, n);
    Replication.QuietMeansComplete(c.node, rs, s.sys);
    OnDisk(c, s);
  }

  lemma AllRead(c: Setup, s: State, n: nat)
    requires Inv(c, s, n) && Idle(s)
    ensures s.sys.stream == Some(|s.sys.primary|)
  {
    hide DiskOk, Replicator.Next, Offset, Replicator.ReaderOk;
    OnDisk(c, s);
    Replicator.KeepsExhausted(s.rep, c.batchSize, s.start, n);
    assert |Replicator.Stream(s.rep.shape, s.start, n)| == n - s.start;
    assert Flatten(s.rep.sent) + [] == Flatten(s.rep.sent);
  }

  // ---- Everything gets through ----

  /** Steps of replicator, server and client: nothing is written and the stream does not break. */
  predicate Streaming(steps: seq<Step>) {
    forall i :: 0 <= i < |steps| ==> steps[i] in {Connect, OpenReader, ReaderNext, Receive, ApplyNext} || steps[i].Forward?
  }

  ghost predicate Healthy(c: Setup, s: State, n: nat) {
    SetupOk(c) && Inv(c, s, n) && Replication.Healthy(c.node, s.sys)
  }

  lemma StaysHealthy(c: Setup, s: State, steps: seq<Step>, s': State, n: nat) returns (n': nat)
    requires Healthy(c, s, n) && IsRun(c, s, steps, s') && s'.sys.stopped.None? && s'.sys.primary == s.sys.primary
    ensures Healthy(c, s', n')
  {
    hide Inv, IsRun, Replication.IsRun, Replication.Inv, SetupOk;
    var rs;
    rs, n' := RunRefines(c, s, steps, s', n);
    Replication.RunKeepsInvariant(c.node, s.sys, rs, s'.sys);
  }

  lemma {:induction false} RunsJoin(c: Setup, s: State, a: seq<Step>, s1: State, b: seq<Step>, s2: State)
    requires IsRun(c, s, a, s1) && IsRun(c, s1, b, s2)
    ensures IsRun(c, s, a + b, s2)
    decreases |a|
  {
    hide Do, Enabled;
    if a == [] {
      assert a + b == b;
    } else {
      assert (a + b)[0] == a[0] && (a + b)[1..] == a[1..] + b;
      RunsJoin(c, Do(c, s, a[0]), a[1..], s1, b, s2);
    }
  }

  lemma OneStep(c: Setup, s: State, step: Step)
    requires Enabled(c, s, step)
    ensures IsRun(c, s, [step], Do(c, s, step))
  {
    hide Do, Enabled;
    assert [step][1..] == [];
  }

  /** The client's steps are steps of the whole. */
  lemma {:induction false} LiftReceiving(c: Setup, s: State, rs: seq<Replication.Step>, sys: Replication.System) returns (steps: seq<Step>)
    requires Replication.IsRun(c.node, s.sys, rs, sys) && Replication.Receiving(rs)
    ensures IsRun(c, s, steps, s.(sys := sys)) && Streaming(steps)
    decreases |rs|
  {
    hide Replication.Do, Replication.Enabled;
    if rs == [] {
      steps := [];
    } else {
      var step := if rs[0].Receive? then Receive else ApplyNext;
      var mid := Do(c, s, step);
      var rest := LiftReceiving(c, mid, rs[1..], sys);
      steps := [step] + rest;
      assert steps[1..] == rest;
    }
  }

  /** So are the replicator's. */
  lemma {:induction false} LiftReading(c: Setup, s: State, rs: seq<Replicator.Step>, rep: Replicator.State) returns (steps: seq<Step>)
    requires s.sys.stream.Some? && Replicator.IsRun(s.rep, c.batchSize, rs, rep) && Replicator.Reading(rs)
    ensures IsRun(c, s, steps, s.(rep := rep)) && Streaming(steps)
    decreases |rs|
  {
    hide Replicator.Do, Replicator.Enabled;
    if rs == [] {
      steps := [];
    } else {
      var step := if rs[0].OpenReader? then OpenReader else ReaderNext;
      var mid := Do(c, s, step);
      var rest := LiftReading(c, mid, rs[1..], rep);
      steps := [step] + rest;
      assert steps[1..] == rest;
    }
  }

  lemma Drained(c: Setup, s: State, n: nat) returns (steps: seq<Step>, s': State, n': nat)
    requires Healthy(c, s, n)
    ensures IsRun(c, s, steps, s') && Streaming(steps) && Healthy(c, s', n') && s'.sys.primary == s.sys.primary
    ensures s'.sys.queue == [] && s'.sys.wire == [] && s'.sys.stream == s.sys.stream && s'.rep == s.rep && s'.start == s.start
  {
    hide Inv, Do, Enabled, IsRun, Replication.IsRun, SetupOk, Replication.Inv;
    var rs, sys := Replication.Drain(c.node, s.sys);
    s' := s.(sys := sys);
    steps := LiftReceiving(c, s, rs, sys);
    n' := StaysHealthy(c, s, steps, s', n);
  }

  lemma StreamUp(c: Setup, s: State, n: nat) returns (steps: seq<Step>, s': State, n': nat)
    requires Healthy(c, s, n) && s.sys.queue == [] && s.sys.wire == []
    ensures IsRun(c, s, steps, s') && Streaming(steps) && Healthy(c, s', n') && s'.sys.primary == s.sys.primary
    ensures s'.sys.stream.Some?
  {
    hide Inv, IsRun, LogPosition, Replication.IsRun, SetupOk;
    steps, s', n' := [], s, n;
    if s.sys.stream.None? {
      ConnectEnabled(c.node, s.sys);
      s' := Do(c, s, Connect);
      OneStep(c, s, Connect);
      steps := [Connect];
      n' := StaysHealthy(c, s, steps, s', n);
    } else {
      Stays(c, s);
    }
  }

  lemma Stays(c: Setup, s: State)
    ensures IsRun(c, s, [], s)
  {
  }

  lemma ConnectEnabled(node: Node, s: Replication.System)
    requires Replication.Healthy(node, s) && s.stream.None? && s.queue == [] && s.wire == []
    ensures Replication.Enabled(node, s, Replication.Connect)
  {
    hide LogPosition, Synced, WellFormed, Replication.Gapless;
    assert Replication.StartsAt(node, s.primary, s.offset, |s.replica.log|);
  }

  lemma AllKnown(c: Setup, s: State)
    requires DiskOk(c, s)
    ensures Replicator.Published(s.rep) && Count(s.rep.shape) == |s.sys.primary|
  {
    hide Layout, Encoded, Oversize, WellFormed;
    OnDisk(c, s);
    var laid := Layout(c.node.size, Encoded(c.node, s.sys.primary));
    LayoutContents(c.node.size, Encoded(c.node, s.sys.primary));
    assert s.rep.shape[..|s.rep.shape|] == s.rep.shape;
    if s.rep.published < |s.rep.shape| {
      assert s.rep.shape[..s.rep.published] == laid;
    }
  }

  lemma ReadOut(c: Setup, s: State, n: nat) returns (steps: seq<Step>, s': State)
    requires Healthy(c, s, n) && s.sys.stream.Some?
    ensures IsRun(c, s, steps, s') && Streaming(steps) && s'.sys == s.sys && s'.start == s.start
    ensures Healthy(c, s', |s.sys.primary|) && s'.rep.batch == []
  {
    hide Do, Enabled, Replicator.IsRun, Replicator.Do, Replicator.Enabled, Replicator.Inv, Layout, Encoded, Replication.Healthy;
    AllKnown(c, s);
    var rs, rep := Replicator.ReadsAll(s.rep, c.batchSize, s.start, n);
    s' := s.(rep := rep);
    steps := LiftReading(c, s, rs, rep);
    SentGrows(s.rep, c.batchSize, rs, rep);
  }

  lemma {:induction false} SentGrows(r: Replicator.State, batchSize: nat, rs: seq<Replicator.Step>, r': Replicator.State)
    requires Replicator.IsRun(r, batchSize, rs, r') && Replicator.Reading(rs)
    ensures |Flatten(r'.sent)| >= |Flatten(r.sent)|
    decreases |rs|
  {
    hide Replicator.Next;
    if rs != [] {
      if rs[0].ReaderNext? {
        NextSends(r, batchSize);
      }
      SentGrows(Replicator.Do(r, batchSize, rs[0]), batchSize, rs[1..], r');
    }
  }

  lemma Forwarded(c: Setup, s: State) returns (steps: seq<Step>, s': State, n': nat)
    requires Healthy(c, s, |s.sys.primary|) && s.sys.stream.Some? && s.rep.batch == []
    ensures IsRun(c, s, steps, s') && Streaming(steps) && Healthy(c, s', n')
    ensures s'.sys.primary == s.sys.primary && s'.sys.stream == Some(|s.sys.primary|)
  {
    hide Do, IsRun, DiskOk, SetupOk, Replicator.ReaderOk, PositionOf, Replication.Inv, Replication.Gapless, Replication.PutsFit;
    steps, s', n' := [], s, |s.sys.primary|;
    var k := |Buffered(s)|;
    assert Flatten(s.rep.sent) + [] == Flatten(s.rep.sent);
    assert s.sys.stream.value + k == |s.sys.primary|;
    if k == 0 {
      Stays(c, s);
    } else {
      steps := [Forward(k)];
      OneStep(c, s, Forward(k));
      s' := Do(c, s, Forward(k));
      ForwardKeeps(c, s, k);
      n' := StaysHealthy(c, s, steps, s', n');
    }
  }

  lemma ForwardKeeps(c: Setup, s: State, k: nat)
    requires Enabled(c, s, Forward(k)) && s.sys.stopped.None?
    ensures var s' := Do(c, s, Forward(k));
            && s'.sys.primary == s.sys.primary && s'.sys.stopped.None? && s'.sys.stream == Some(s.sys.stream.value + k)
  {
    hide Decoded, Buffered;
  }

  /**
   Everything gets through: from every reachable state in which the replica has not stopped, in the middle of a rotation
   or a batch or with the stream broken, if the primary's numbers have no gap and all entries fit, replicator, server and
   client alone lead to a state in which the replica has every record of the primary's segments.
   */
  lemma CanCompleteFromSegments(c: Setup, steps: seq<Step>, s: State) returns (more: seq<Step>, s': State)
    requires SetupOk(c) && IsRun(c, INIT, steps, s) && s.sys.stopped.None?
    requires Replication.Gapless(s.sys.primary, |s.sys.primary|)
    requires Replication.PutsFit(c.node, s.sys.primary, 0, |s.sys.primary|)
    ensures IsRun(c, s, more, s') && Streaming(more)
    ensures s'.sys.primary == s.sys.primary == s'.sys.replica.log && s'.sys.stopped.None?
  {
    hide Inv, Do, Enabled, IsRun, Replication.IsRun, SetupOk, Replication.Gapless, Replication.PutsFit;
    InitInv(c);
    var rs, n := RunRefines(c, INIT, steps, s, 0);
    Replication.InitInv(c.node);
    Replication.RunKeepsInvariant(c.node, Replication.INIT, rs, s.sys);
    var rest, s1, s2, s3, s4;
    more, s1, n := Drained(c, s, n);
    rest, s2, n := StreamUp(c, s1, n);
    RunsJoin(c, s, more, s1, rest, s2);
    more := more + rest;
    rest, s3 := ReadOut(c, s2, n);
    RunsJoin(c, s, more, s2, rest, s3);
    more := more + rest;
    rest, s4, n := Forwarded(c, s3);
    RunsJoin(c, s, more, s3, rest, s4);
    more := more + rest;
    rest, s', n := Drained(c, s4, n);
    RunsJoin(c, s, more, s4, rest, s');
    more := more + rest;
    StreamedAll(c.node, s'.sys);
  }

  lemma StreamedAll(node: Node, s: Replication.System)
    requires Replication.Healthy(node, s) && s.queue == [] && s.wire == [] && s.stream == Some(|s.primary|)
    ensures s.replica.log == s.primary && s.stopped.None?
  {
    hide LogPosition, Synced, WellFormed, Replication.Gapless;
    assert s.queue + s.wire == [];
  }
}
