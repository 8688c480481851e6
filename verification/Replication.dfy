/**
 Streaming the log to a replica (internal/services/streamer/grpc_streamer_client.go, dbkernel/replica.go).

 A state machine over the primary's appends, the server's batches, the client's receive loop and writer goroutine,
 and breaks and resumes of the stream at any moment. A batch is on the wire, then in the client's channel, then
 applied; a break loses what is on the wire, and the channel is drained before the client reconnects from the offset
 of the last batch it applied.
 */
module Replication {
  import opened Basics
  import opened Cells
  import opened LogRecords
  import opened MemPuts
  import opened Segments
  import opened WalLayout
  import opened Replica

  datatype Batch = Batch(records: seq<Record>, offsets: seq<Position>)

  datatype System = System(
    primary: Log,
    seen: nat,
    replica: View,
    offset: Option<Position>,
    stream: Option<nat>,
    wire: seq<Batch>,
    queue: seq<Batch>,
    stopped: Option<ApplyError>)

  datatype Step =
    | Append(record: Record, walOk: bool)
    | Connect
    | Send(count: nat)
    | Receive
    | ApplyNext
    | Break

  const INIT := System([], 0, View([], 0, []), None, None, [], [], None)

  /** Records a up to b of a log, with their positions. */
  function Slice(node: Node, log: Log, a: nat, b: nat): Batch
    requires a <= b <= |log|
  {
    Batch(log[a..b], seq(b - a, i requires 0 <= i < b - a => LogPosition(node, log, a + i)))
  }

  /** A stream serves the records strictly after the client's offset. */
  ghost predicate StartsAt(node: Node, log: Log, offset: Option<Position>, next: nat) {
    match offset
    case None => next == 0
    case Some(p) => 1 <= next <= |log| && LogPosition(node, log, next - 1) == p
  }

  /** The primary appends only records its engine writes, and only those the log accepts. */
  ghost predicate Enabled(node: Node, s: System, step: Step) {
    match step
    case Append(r, walOk) =>
      walOk ==> WellFormed(s.primary + [r.(lsn := s.seen + 1)]) && !Oversize(node.size, node.encode(r.(lsn := s.seen + 1)))
    case Connect => s.stream.None? && s.queue == [] && s.stopped.None? && exists n :: StartsAt(node, s.primary, s.offset, n)
    case Send(count) => s.stream.Some? && count > 0 && s.stream.value + count <= |s.primary|
    case Receive => s.stream.Some? && s.wire != []
    case ApplyNext => s.queue != [] && s.stopped.None?
    case Break => s.stream.Some?
  }

  ghost function Do(node: Node, s: System, step: Step): System
    requires Enabled(node, s, step)
  {
    match step
    case Append(r, walOk) =>
      s.(seen := s.seen + 1, primary := if walOk then s.primary + [r.(lsn := s.seen + 1)] else s.primary)
    case Connect =>
      var n :| StartsAt(node, s.primary, s.offset, n);
      s.(stream := Some(n))
    case Send(count) =>
      var next := s.stream.value;
      s.(wire := s.wire + [Slice(node, s.primary, next, next + count)], stream := Some(next + count))
    case Receive => s.(queue := s.queue + [s.wire[0]], wire := s.wire[1..])
    case ApplyNext =>
      var b := s.queue[0];
      var (v, err) := Received(node, s.replica, b.records, b.offsets);
      if err.Some? then s.(replica := v, stopped := err, queue := [])
      else s.(replica := v, queue := s.queue[1..], offset := if b.offsets == [] then s.offset else Some(Last(b.offsets)))
    case Break => s.(stream := None, wire := [])
  }

  ghost predicate IsRun(node: Node, s: System, steps: seq<Step>, s': System)
    decreases |steps|
  {
    if steps == [] then s == s'
    else Enabled(node, s, steps[0]) && IsRun(node, Do(node, s, steps[0]), steps[1..], s')
  }

  /** Batches that continue one another, starting with record a. */
  ghost predicate Chained(node: Node, log: Log, bs: seq<Batch>, a: nat) {
    bs != [] ==>
      var m := a + |bs[0].records|;
      a < m <= |log| && bs[0] == Slice(node, log, a, m) && Chained(node, log, bs[1..], m)
  }

  function EndOf(bs: seq<Batch>, a: nat): nat {
    if bs == [] then a else EndOf(bs[1..], a + |bs[0].records|)
  }

  /** Sequence numbers of the first n records have no gap. */
  ghost predicate Gapless(log: Log, n: nat) {
    forall i | 0 <= i < n && i < |log| :: log[i].lsn == i + 1
  }

  ghost predicate PrimaryOk(node: Node, log: Log) {
    WellFormed(log) && AllFit(node.size, Encoded(node, log))
  }

  ghost predicate Following(node: Node, s: System) {
    var n := |s.replica.log|;
    && n <= |s.primary|
    && s.replica.log == s.primary[..n]
    && Gapless(s.primary, n)
  }

  ghost predicate Streaming(node: Node, s: System)
    requires |s.replica.log| <= |s.primary|
  {
    var n := |s.replica.log|;
    && Synced(s.replica)
    && s.offset == (if n == 0 then None else Some(LogPosition(node, s.primary, n - 1)))
    && Chained(node, s.primary, s.queue + s.wire, n)
    && (s.stream.Some? ==> s.stream.value == EndOf(s.queue + s.wire, n))
    && (s.stream.None? ==> s.wire == [])
  }

  ghost predicate Inv(node: Node, s: System) {
    && PrimaryOk(node, s.primary)
    && Following(node, s)
    && (s.stopped.None? ==> Streaming(node, s))
    && (s.stopped.Some? ==> s.stopped.value.InvalidLsn? || s.stopped.value.ArenaExceeded?)
    && (s.stopped == Some(InvalidLsn) ==> !Gapless(s.primary, |s.primary|))
  }

  // ---- Chains of batches ----

  lemma {:induction false} ChainedConcat(node: Node, log: Log, x: seq<Batch>, y: seq<Batch>, a: nat)
    ensures Chained(node, log, x + y, a) <==> Chained(node, log, x, a) && Chained(node, log, y, EndOf(x, a))
    ensures EndOf(x + y, a) == EndOf(y, EndOf(x, a))
    decreases |x|
  {
    hide Slice;
    if x == [] {
      assert x + y == y;
    } else {
      assert (x + y)[0] == x[0] && (x + y)[1..] == x[1..] + y;
      ChainedConcat(node, log, x[1..], y, a + |x[0].records|);
    }
  }

  lemma SliceGrow(node: Node, log: Log, r: Record, a: nat, b: nat)
    requires a <= b <= |log|
    ensures Slice(node, log + [r], a, b) == Slice(node, log, a, b)
  {
    hide LogPosition;
    var longer, shorter := Slice(node, log + [r], a, b).offsets, Slice(node, log, a, b).offsets;
    forall i | 0 <= i < b - a ensures longer[i] == shorter[i] {
      LogPositionStable(node, log, [r], a + i);
    }
    assert (log + [r])[a..b] == log[a..b];
  }

  lemma {:induction false} ChainedGrow(node: Node, log: Log, r: Record, bs: seq<Batch>, a: nat)
    requires Chained(node, log, bs, a)
    ensures Chained(node, log + [r], bs, a)
    decreases |bs|
  {
    hide Slice;
    if bs != [] {
      var m := a + |bs[0].records|;
      SliceGrow(node, log, r, a, m);
      ChainedGrow(node, log, r, bs[1..], m);
    }
  }

  // ---- Every step keeps the invariant ----

  lemma KeepsAppend(node: Node, s: System, step: Step)
    requires Inv(node, s) && step.Append? && Enabled(node, s, step)
    ensures Inv(node, Do(node, s, step))
  {
    hide WellFormed, Synced, LogPosition, Chained;
    if step.walOk {
      var r := step.record.(lsn := s.seen + 1);
      var n := |s.replica.log|;
      PrimaryGrows(node, s.primary, r);
      assert (s.primary + [r])[..n] == s.primary[..n];
      if !Gapless(s.primary, |s.primary|) {
        GapStays(s.primary, r);
      }
      if s.stopped.None? {
        ChainedGrow(node, s.primary, r, s.queue + s.wire, n);
        if n > 0 {
          LogPositionStable(node, s.primary, [r], n - 1);
        }
      }
    }
  }

  lemma GapStays(log: Log, r: Record)
    requires !Gapless(log, |log|)
    ensures !Gapless(log + [r], |log| + 1)
  {
    var i :| 0 <= i < |log| && log[i].lsn != i + 1;
    assert (log + [r])[i] == log[i];
  }

  lemma PrimaryGrows(node: Node, log: Log, r: Record)
    requires PrimaryOk(node, log) && WellFormed(log + [r]) && !Oversize(node.size, node.encode(r))
    ensures PrimaryOk(node, log + [r])
  {
    hide WellFormed, Oversize;
    assert Encoded(node, log + [r]) == Encoded(node, log) + [node.encode(r)];
  }

  /** The server resumes exactly behind the last record the replica has. */
  lemma ResumePoint(node: Node, s: System, next: nat)
    requires Inv(node, s) && s.stopped.None? && StartsAt(node, s.primary, s.offset, next)
    ensures next == |s.replica.log|
  {
    hide WellFormed, Synced, LogPosition, Chained;
    var n := |s.replica.log|;
    if n > 0 && next < n {
      LogPositionsIncrease(node, s.primary, next - 1, n - 1);
    } else if n > 0 && n < next {
      LogPositionsIncrease(node, s.primary, n - 1, next - 1);
    }
  }

  lemma KeepsConnect(node: Node, s: System)
    requires Inv(node, s) && Enabled(node, s, Connect)
    ensures Inv(node, Do(node, s, Connect))
  {
    hide WellFormed, Synced, LogPosition;
    ResumePoint(node, s, Do(node, s, Connect).stream.value);
    assert s.queue + s.wire == [];
  }

  lemma KeepsSend(node: Node, s: System, step: Step)
    requires Inv(node, s) && step.Send? && Enabled(node, s, step)
    ensures Inv(node, Do(node, s, step))
  {
    hide WellFormed, Synced, Slice, PrimaryOk, Gapless;
    if s.stopped.None? {
      var n, next := |s.replica.log|, s.stream.value;
      var b := Slice(node, s.primary, next, next + step.count);
      ChainedConcat(node, s.primary, s.queue + s.wire, [b], n);
      Associative(s.queue, s.wire, [b]);
      OneBatch(node, s.primary, next, next + step.count);
    }
  }

  lemma OneBatch(node: Node, log: Log, a: nat, b: nat)
    requires a < b <= |log|
    ensures Chained(node, log, [Slice(node, log, a, b)], a) && EndOf([Slice(node, log, a, b)], a) == b
  {
    assert [Slice(node, log, a, b)][1..] == [];
  }

  lemma KeepsReceive(node: Node, s: System)
    requires Inv(node, s) && Enabled(node, s, Receive)
    ensures Inv(node, Do(node, s, Receive))
  {
    hide WellFormed, Synced, LogPosition, Chained;
    assert s.wire == [s.wire[0]] + s.wire[1..];
    Associative(s.queue, [s.wire[0]], s.wire[1..]);
  }

  lemma KeepsBreak(node: Node, s: System)
    requires Inv(node, s) && Enabled(node, s, Break)
    ensures Inv(node, Do(node, s, Break))
  {
    hide WellFormed, Synced, LogPosition, Chained;
    if s.stopped.None? {
      ChainedConcat(node, s.primary, s.queue, s.wire, |s.replica.log|);
      assert s.queue + [] == s.queue;
    }
  }

  // ---- Applying a batch ----

  lemma SliceFits(node: Node, log: Log, a: nat, b: nat)
    requires AllFit(node.size, Encoded(node, log)) && a <= b <= |log|
    ensures AllFit(node.size, Encoded(node, log[a..b]))
  {
    hide Oversize;
    forall p | p in Encoded(node, log[a..b]) ensures p in Encoded(node, log) {
      var i :| 0 <= i < b - a && Encoded(node, log[a..b])[i] == p;
      assert Encoded(node, log)[a + i] == p;
    }
  }

  lemma SlicePlaces(node: Node, log: Log, a: nat, b: nat)
    requires a <= b <= |log|
    ensures log[..a] + log[a..b] == log[..b]
    ensures SamePlaces(node, log[..b], a, Slice(node, log, a, b).offsets)
    ensures forall i | 0 <= i < b - a :: Slice(node, log, a, b).offsets[i].offset != 0
  {
    hide LogPosition;
    assert log == log[..b] + log[b..];
    var offsets := Slice(node, log, a, b).offsets;
    forall i | 0 <= i < |offsets| && a + i < b
      ensures LogPosition(node, log[..b], a + i) == offsets[i]
      ensures offsets[i].offset != 0
    {
      LogPositionStable(node, log[..b], log[b..], a + i);
      PositionNotZero(node, log, a + i);
    }
  }

  /**
   A batch the primary sent is rejected exactly when a sequence number in it is not the record's number in the log;
   otherwise it is appended at the primary's positions, and can only fail by not fitting the memtable arena.
   */
  lemma BatchOutcome(node: Node, s: System, m: nat)
    requires Inv(node, s) && s.stopped.None? && |s.replica.log| < m <= |s.primary|
    ensures var n := |s.replica.log|;
            var b := Slice(node, s.primary, n, m);
            var (v, err) := Received(node, s.replica, b.records, b.offsets);
            && (err == Some(InvalidLsn) <==> !Gapless(s.primary, m))
            && (err == Some(InvalidLsn) ==> v == s.replica)
            && (err != Some(InvalidLsn) ==> v.log == s.primary[..m] && (err.None? || err == Some(ArenaExceeded)))
            && (err.None? ==> Synced(v))
  {
    hide PutsMatchLog, LogPosition, Fitting, PutsBetween, SamePlaces, AllFit, RecordOk, BackLinked;
    var n := |s.replica.log|;
    var b := Slice(node, s.primary, n, m);
    SlicePlaces(node, s.primary, n, m);
    SliceFits(node, s.primary, n, m);
    SliceCheck(node, s.primary, n, m);
    WellFormedPrefix(s.primary, m);
    if Received(node, s.replica, b.records, b.offsets).1.None? {
      ReceivedSynced(node, s.replica, b.records, b.offsets);
    }
  }

  lemma SliceCheck(node: Node, log: Log, n: nat, m: nat)
    requires n < m <= |log| && Gapless(log, n)
    ensures var b := Slice(node, log, n, m);
            var bad := Precheck(n, b.records, b.offsets, 0);
            && (bad.None? <==> Gapless(log, m))
            && (bad.Some? ==> bad == Some(InvalidLsn))
  {
    hide LogPosition, SamePlaces;
    var b := Slice(node, log, n, m);
    SlicePlaces(node, log, n, m);
    PrecheckPasses(n, b.records, b.offsets, 0);
    OnlyLsn(n, b.records, b.offsets, 0);
    if Gapless(log, m) {
      forall j | 0 <= j < m - n ensures b.records[j].lsn == n + 1 + j {
        assert b.records[j] == log[n + j];
      }
    } else {
      var i :| 0 <= i < m && i < |log| && log[i].lsn != i + 1;
      assert b.records[i - n] == log[i];
    }
  }

  lemma {:induction false} OnlyLsn(seen: nat, records: seq<Record>, offsets: seq<Position>, i: nat)
    requires |records| == |offsets| && i <= |records| && forall j | 0 <= j < |offsets| :: offsets[j].offset != 0
    ensures Precheck(seen, records, offsets, i).Some? ==> Precheck(seen, records, offsets, i) == Some(InvalidLsn)
    decreases |records| - i
  {
    if i < |records| {
      OnlyLsn(seen, records, offsets, i + 1);
    }
  }

  lemma GapWithin(log: Log, m: nat)
    ensures !Gapless(log, m) ==> !Gapless(log, |log|)
  {
  }

  lemma KeepsApply(node: Node, s: System)
    requires Inv(node, s) && Enabled(node, s, ApplyNext)
    ensures Inv(node, Do(node, s, ApplyNext))
  {
    hide WellFormed, Synced, LogPosition, Received, Gapless;
    var n, b := |s.replica.log|, s.queue[0];
    var m := n + |b.records|;
    assert (s.queue + s.wire)[0] == b && (s.queue + s.wire)[1..] == s.queue[1..] + s.wire;
    assert Chained(node, s.primary, s.queue[1..] + s.wire, m);
    BatchOutcome(node, s, m);
    GapWithin(s.primary, m);
    assert b.offsets != [] && Last(b.offsets) == LogPosition(node, s.primary, m - 1);
  }

  lemma {:induction false} RunKeepsInvariant(node: Node, s: System, steps: seq<Step>, s': System)
    requires Inv(node, s) && IsRun(node, s, steps, s')
    ensures Inv(node, s')
    decreases |steps|
  {
    hide Inv, Enabled, Do;
    if steps != [] {
      match steps[0] {
        case Append(_, _) => KeepsAppend(node, s, steps[0]);
        case Connect => KeepsConnect(node, s);
        case Send(_) => KeepsSend(node, s, steps[0]);
        case Receive => KeepsReceive(node, s);
        case ApplyNext => KeepsApply(node, s);
        case Break => KeepsBreak(node, s);
      }
      RunKeepsInvariant(node, Do(node, s, steps[0]), steps[1..], s');
    }
  }

  lemma InitInv(node: Node)
    ensures Inv(node, INIT)
  {
    assert Encoded(node, []) == [];
    assert INIT.queue + INIT.wire == [];
  }

  // ---- What holds of every run ----

  /**
   In every run, with breaks and resumes at any moment: the replica's log is a prefix of the primary's, each record at
   the same position on both, and unless the stream has stopped with an error its memtables hold exactly the contents
   of that prefix. No check on positions or sizes ever fails.
   */
  lemma ReplicaFollows(node: Node, steps: seq<Step>, s: System)
    requires IsRun(node, INIT, steps, s)
    ensures |s.replica.log| <= |s.primary| && s.replica.log == s.primary[..|s.replica.log|]
    ensures forall i | 0 <= i < |s.replica.log| :: LogPosition(node, s.replica.log, i) == LogPosition(node, s.primary, i)
    ensures s.stopped.None? ==>
              && PutsOk(s.replica.log, s.replica.puts)
              && Fold(ResolveAll(s.replica.log, s.replica.puts)) == Contents(s.primary[..|s.replica.log|])
    ensures s.stopped.Some? ==> s.stopped.value.InvalidLsn? || s.stopped.value.ArenaExceeded?
  {
    hide LogPosition, PrimaryOk, Chained, WellFormed;
    InitInv(node);
    RunKeepsInvariant(node, INIT, steps, s);
    var n := |s.replica.log|;
    assert s.primary == s.primary[..n] + s.primary[n..];
    forall i | 0 <= i < n ensures LogPosition(node, s.replica.log, i) == LogPosition(node, s.primary, i) {
      LogPositionStable(node, s.primary[..n], s.primary[n..], i);
    }
  }

  /** A stream with nothing under way has delivered everything. */
  lemma QuietMeansComplete(node: Node, steps: seq<Step>, s: System)
    requires IsRun(node, INIT, steps, s) && s.stopped.None?
    requires s.stream == Some(|s.primary|) && s.wire == [] && s.queue == []
    ensures s.replica.log == s.primary
  {
    hide LogPosition, PrimaryOk, WellFormed, Synced;
    InitInv(node);
    RunKeepsInvariant(node, INIT, steps, s);
    assert s.queue + s.wire == [];
  }

  /** After a break the client can always resume. */
  lemma CanReconnect(node: Node, steps: seq<Step>, s: System)
    requires IsRun(node, INIT, steps, s) && s.stopped.None? && s.stream.None? && s.queue == []
    ensures Enabled(node, s, Connect) && Do(node, s, Connect).stream == Some(|s.replica.log|)
  {
    hide LogPosition, PrimaryOk, WellFormed, Synced;
    InitInv(node);
    RunKeepsInvariant(node, INIT, steps, s);
    assert StartsAt(node, s.primary, s.offset, |s.replica.log|);
    ResumePoint(node, s, Do(node, s, Connect).stream.value);
  }

  /**
   Sequence numbers decide how far a replica can get. A failed append on the primary uses up a number, so a later
   record's number runs ahead of its place; no replica ever accepts that record or one after it.
   */
  lemma GapBlocksReplica(node: Node, steps: seq<Step>, s: System, g: nat)
    requires IsRun(node, INIT, steps, s) && g < |s.primary| && s.primary[g].lsn != g + 1
    ensures |s.replica.log| <= g
  {
    hide LogPosition, PrimaryOk, WellFormed, Synced, Streaming;
    InitInv(node);
    RunKeepsInvariant(node, INIT, steps, s);
  }

  ghost predicate Numbered(s: System) {
    && |s.primary| <= s.seen
    && (forall i | 0 <= i < |s.primary| :: i + 1 <= s.primary[i].lsn <= s.seen)
    && (s.seen == |s.primary| ==> Gapless(s.primary, |s.primary|))
  }

  lemma {:induction false} RunNumbers(node: Node, s: System, steps: seq<Step>, s': System)
    requires Numbered(s) && IsRun(node, s, steps, s')
    ensures Numbered(s')
    decreases |steps|
  {
    if steps != [] {
      StepNumbers(node, s, steps[0]);
      RunNumbers(node, Do(node, s, steps[0]), steps[1..], s');
    }
  }

  lemma StepNumbers(node: Node, s: System, step: Step)
    requires Numbered(s) && Enabled(node, s, step)
    ensures Numbered(Do(node, s, step))
  {
    hide WellFormed, Received, Slice, StartsAt;
  }

  /** While no append has failed on the primary, no sequence number is ever refused. */
  lemma NoFailureNoRefusal(node: Node, steps: seq<Step>, s: System)
    requires IsRun(node, INIT, steps, s) && s.seen == |s.primary|
    ensures s.stopped != Some(InvalidLsn)
  {
    hide Do, Enabled, PrimaryOk, Following, Streaming;
    InitInv(node);
    RunKeepsInvariant(node, INIT, steps, s);
    RunNumbers(node, INIT, steps, s);
  }

  /** One failed append on the primary is enough: the next record is refused, and the stream ends with an error. */
  lemma FailedAppendStopsReplica(node: Node, r: Record) returns (s: System)
    requires WellFormed([r.(lsn := 2)]) && !Oversize(node.size, node.encode(r.(lsn := 2)))
    ensures IsRun(node, INIT, [Append(r, false), Append(r, true), Connect, Send(1), Receive, ApplyNext], s)
    ensures s.primary == [r.(lsn := 2)] && s.replica.log == [] && s.stopped == Some(InvalidLsn)
  {
    hide LogPosition, WellFormed;
    var appended := r.(lsn := 2);
    var s2 := INIT.(seen := 2, primary := [appended]);
    assert [] + [appended] == [appended];
    assert StartsAt(node, s2.primary, s2.offset, 0);
    var s3 := Do(node, s2, Connect);
    assert s3 == s2.(stream := Some(0));
    var s4 := Do(node, s3, Send(1));
    var b := Slice(node, [appended], 0, 1);
    assert s4 == s2.(stream := Some(1), wire := [b]);
    var s5 := Do(node, s4, Receive);
    assert s5 == s2.(stream := Some(1), queue := [b]);
    SlicePlaces(node, [appended], 0, 1);
    assert b.records[0] == appended;
    s := Do(node, s5, ApplyNext);
    LastStep(node, s5, ApplyNext, s);
    OneMore(node, s4, Receive, [ApplyNext], s);
    OneMore(node, s3, Send(1), [Receive, ApplyNext], s);
    OneMore(node, s2, Connect, [Send(1), Receive, ApplyNext], s);
    OneMore(node, INIT.(seen := 1), Append(r, true), [Connect, Send(1), Receive, ApplyNext], s);
    OneMore(node, INIT, Append(r, false), [Append(r, true), Connect, Send(1), Receive, ApplyNext], s);
  }

  lemma LastStep(node: Node, s: System, step: Step, s': System)
    requires Enabled(node, s, step) && Do(node, s, step) == s'
    ensures IsRun(node, s, [step], s')
  {
    assert [step][1..] == [];
  }

  lemma OneMore(node: Node, s: System, step: Step, rest: seq<Step>, s': System)
    requires Enabled(node, s, step) && IsRun(node, Do(node, s, step), rest, s')
    ensures IsRun(node, s, [step] + rest, s')
  {
    assert ([step] + rest)[1..] == rest;
  }

  lemma {:induction false} RunsCompose(node: Node, s: System, a: seq<Step>, s1: System, b: seq<Step>, s2: System)
    requires IsRun(node, s, a, s1) && IsRun(node, s1, b, s2)
    ensures IsRun(node, s, a + b, s2)
    decreases |a|
  {
    hide Do, Enabled;
    if a == [] {
      assert a + b == b;
    } else {
      assert (a + b)[0] == a[0] && (a + b)[1..] == a[1..] + b;
      RunsCompose(node, Do(node, s, a[0]), a[1..], s1, b, s2);
    }
  }

  // ---- Batches are applied ----

  /** What records n up to m put into the memtables all fits. */
  ghost predicate PutsFit(node: Node, log: Log, n: nat, m: nat)
    requires n <= m <= |log|
  {
    forall p | p in PutsBetween(log, n, m) :: node.fits(p)
  }

  lemma {:induction false} PutsBetweenPrefix(log: Log, n: nat, m: nat, k: nat)
    requires n <= k <= m <= |log|
    ensures PutsBetween(log[..m], n, k) == PutsBetween(log, n, k)
    decreases k
  {
    hide RecordPuts;
    if n < k {
      PutsBetweenPrefix(log, n, m, k - 1);
      assert log == log[..m] + log[m..];
      RecordPutsStable(log[..m], log[m..], k - 1);
    }
  }

  lemma PutsFitWithin(node: Node, log: Log, n: nat, m: nat)
    requires n <= m <= |log| && PutsFit(node, log, 0, |log|)
    ensures PutsFit(node, log, n, m)
  {
    PutsSplit(log, 0, n, |log|);
    PutsSplit(log, n, m, |log|);
    forall p | p in PutsBetween(log, n, m) ensures node.fits(p) {
      assert p in PutsBetween(log, n, |log|);
      assert p in PutsBetween(log, 0, |log|);
    }
  }

  lemma {:induction false} PutsSplit(log: Log, a: nat, b: nat, c: nat)
    requires a <= b <= c <= |log|
    ensures PutsBetween(log, a, c) == PutsBetween(log, a, b) + PutsBetween(log, b, c)
    decreases c
  {
    hide RecordPuts;
    if b < c {
      PutsSplit(log, a, b, c - 1);
      Associative(PutsBetween(log, a, b), PutsBetween(log, b, c - 1), RecordPuts(log, c - 1));
    } else {
      assert PutsBetween(log, a, b) + [] == PutsBetween(log, a, b);
    }
  }

  /**
   What applying the next batch does: it fails if and only if a sequence number of it is not the record's place in the
   log or one of its entries does not fit the memtables; otherwise the replica has the batch's records too, the batch is
   off the queue, and the offset to resume from is that of its last record. After a failure the queue is dropped. A batch
   refused for its numbers changes nothing on the replica; one with an entry that does not fit is in its log all the same.
   */
  lemma ApplyOutcome(node: Node, s: System)
    requires Inv(node, s) && Enabled(node, s, ApplyNext)
    ensures var m, s' := |s.replica.log| + |s.queue[0].records|, Do(node, s, ApplyNext);
            && |s.replica.log| < m <= |s.primary|
            && (s'.stopped.None? <==> Gapless(s.primary, m) && PutsFit(node, s.primary, |s.replica.log|, m))
            && (s'.stopped.None? ==>
                && s'.replica.log == s.primary[..m] && s'.queue == s.queue[1..]
                && s'.offset == Some(LogPosition(node, s.primary, m - 1)))
            && (s'.stopped.Some? ==> s'.queue == [] && s'.offset == s.offset)
            && (!Gapless(s.primary, m) ==> s'.replica == s.replica)
            && (Gapless(s.primary, m) ==> s'.replica.log == s.primary[..m])
            && s'.primary == s.primary && s'.wire == s.wire && s'.stream == s.stream
  {
    hide WellFormed, Synced, LogPosition, Received, Gapless, PutsFit;
    var n, b := |s.replica.log|, s.queue[0];
    var m := n + |b.records|;
    assert (s.queue + s.wire)[0] == b;
    BatchOutcome(node, s, m);
    if Gapless(s.primary, m) {
      BatchFits(node, s, m);
    }
    assert b.offsets != [] && Last(b.offsets) == LogPosition(node, s.primary, m - 1);
  }

  lemma BatchFits(node: Node, s: System, m: nat)
    requires Inv(node, s) && s.stopped.None? && |s.replica.log| < m <= |s.primary| && Gapless(s.primary, m)
    ensures var b := Slice(node, s.primary, |s.replica.log|, m);
            Received(node, s.replica, b.records, b.offsets).1.None? <==> PutsFit(node, s.primary, |s.replica.log|, m)
  {
    hide PutsMatchLog, LogPosition, Fitting, PutsBetween, SamePlaces, AllFit, RecordOk, BackLinked;
    var n := |s.replica.log|;
    var b := Slice(node, s.primary, n, m);
    SlicePlaces(node, s.primary, n, m);
    SliceFits(node, s.primary, n, m);
    SliceCheck(node, s.primary, n, m);
    WellFormedPrefix(s.primary, m);
    PutsBetweenPrefix(s.primary, n, m, m);
    FittingAll(node.fits, PutsBetween(s.primary, n, m));
  }

  /** Steps of the stream and the client alone. */
  predicate Quiet(steps: seq<Step>) {
    forall i :: 0 <= i < |steps| ==> !steps[i].Append? && !steps[i].Break?
  }

  ghost predicate Healthy(node: Node, s: System) {
    && Inv(node, s) && s.stopped.None?
    && Gapless(s.primary, |s.primary|) && PutsFit(node, s.primary, 0, |s.primary|)
  }

  predicate Receiving(steps: seq<Step>) {
    forall i :: 0 <= i < |steps| ==> steps[i] in {Receive, ApplyNext}
  }

  /** What is on the wire and in the queue gets applied. */
  lemma {:induction false} Drain(node: Node, s: System) returns (steps: seq<Step>, s': System)
    requires Healthy(node, s)
    ensures IsRun(node, s, steps, s') && Receiving(steps) && Healthy(node, s') && s'.primary == s.primary
    ensures s'.queue == [] && s'.wire == [] && s'.stream == s.stream
    decreases |s.queue| + 2 * |s.wire|
  {
    hide WellFormed, Synced, LogPosition, Gapless, PutsFit, Received, Chained, Slice, IsRun;
    if s.queue == [] && s.wire == [] {
      steps, s' := [], s;
      NoStep(node, s);
    } else {
      var step := if s.queue != [] then ApplyNext else Receive;
      if s.queue == [] {
        KeepsReceive(node, s);
      } else {
        KeepsApply(node, s);
        Successful(node, s);
      }
      var mid, rest := Do(node, s, step), [];
      rest, s' := Drain(node, mid);
      OneMore(node, s, step, rest, s');
      steps := [step] + rest;
    }
  }

  lemma NoStep(node: Node, s: System)
    ensures IsRun(node, s, [], s)
  {
  }

  lemma Successful(node: Node, s: System)
    requires Healthy(node, s) && Enabled(node, s, ApplyNext)
    ensures Do(node, s, ApplyNext).stopped.None? && Do(node, s, ApplyNext).queue == s.queue[1..]
    ensures Do(node, s, ApplyNext).primary == s.primary && Do(node, s, ApplyNext).wire == s.wire
    ensures Do(node, s, ApplyNext).stream == s.stream
  {
    hide WellFormed, Synced, LogPosition, PutsFit, Received;
    ApplyOutcome(node, s);
    PutsFitWithin(node, s.primary, |s.replica.log|, |s.replica.log| + |s.queue[0].records|);
  }

  /**
   A replica can always be completed: from every reachable state in which it has not stopped, if the primary's numbers
   have no gap and all entries fit, the stream and the client alone lead to a state in which it has the whole log.
   */
  lemma CanComplete(node: Node, steps: seq<Step>, s: System) returns (more: seq<Step>, s': System)
    requires IsRun(node, INIT, steps, s) && s.stopped.None?
    requires Gapless(s.primary, |s.primary|) && PutsFit(node, s.primary, 0, |s.primary|)
    ensures IsRun(node, s, more, s') && Quiet(more)
    ensures s'.primary == s.primary == s'.replica.log && s'.stopped.None?
  {
    hide WellFormed, Synced, LogPosition, Gapless, PutsFit, IsRun, Do, Enabled, Inv;
    InitInv(node);
    RunKeepsInvariant(node, INIT, steps, s);
    var rest, s1, s2;
    more, s1 := Drain(node, s);
    rest, s2 := Connected(node, s1);
    RunsCompose(node, s, more, s1, rest, s2);
    more := more + rest;
    rest, s' := SendRest(node, s2);
    RunsCompose(node, s, more, s2, rest, s');
    more := more + rest;
  }

  lemma Connected(node: Node, s: System) returns (steps: seq<Step>, s': System)
    requires Healthy(node, s) && s.queue == [] && s.wire == []
    ensures IsRun(node, s, steps, s') && Quiet(steps) && Healthy(node, s') && s'.primary == s.primary
    ensures s'.queue == [] && s'.wire == [] && s'.stream == Some(|s'.replica.log|)
  {
    hide WellFormed, Synced, LogPosition, Gapless, PutsFit, IsRun;
    assert s.queue + s.wire == [];
    if s.stream.Some? {
      steps, s' := [], s;
      NoStep(node, s);
    } else {
      assert StartsAt(node, s.primary, s.offset, |s.replica.log|);
      s' := Do(node, s, Connect);
      KeepsConnect(node, s);
      ResumePoint(node, s, s'.stream.value);
      LastStep(node, s, Connect, s');
      steps := [Connect];
    }
  }

  lemma SendRest(node: Node, s: System) returns (steps: seq<Step>, s': System)
    requires Healthy(node, s) && s.queue == [] && s.wire == [] && s.stream == Some(|s.replica.log|)
    ensures IsRun(node, s, steps, s') && Quiet(steps)
    ensures s'.primary == s.primary == s'.replica.log && s'.stopped.None?
  {
    hide WellFormed, Synced, LogPosition, Gapless, PutsFit, IsRun, Slice;
    var n := |s.replica.log|;
    if n == |s.primary| {
      steps, s' := [], s;
      NoStep(node, s);
    } else {
      var step := Send(|s.primary| - n);
      var mid := Do(node, s, step);
      KeepsSend(node, s, step);
      var rest;
      rest, s' := Drain(node, mid);
      OneMore(node, s, step, rest, s');
      steps := [step] + rest;
      assert s'.queue + s'.wire == [];
    }
  }
}
