/**
 Record counts and log sequence numbers (dbkernel/engine.go:327-409, 736-744, 850-871).

 For a log of plain records, every checkpoint counts exactly the records at or before its position, so the
 sequence number given out after a restart continues the log. Recovery counts every record of the transactions that
 were committed, and none of the others. A flush counts a transaction differently, which Scenarios shows, and an append
 that fails uses up a number, so both are set apart.
 */
module Counts {
  import opened Basics
  import opened Cells
  import opened LogRecords
  import opened Transactions
  import opened Engine

  predicate PlainLog(log: Log) {
    forall i :: 0 <= i < |log| ==> log[i].state.TxnNone?
  }

  /** Each table's last offset is the record its cumulative count has reached. */
  predicate CountsOk(base: nat, ts: seq<Table>)
    decreases |ts|
  {
    ts == [] ||
    (&& (if ts[0].lastOffset.None? then ts[0].offsetCount == 0
         else ts[0].lastOffset.value + 1 == base + ts[0].offsetCount)
     && CountsOk(base + ts[0].offsetCount, ts[1..]))
  }

  function Total(base: nat, ts: seq<Table>): nat
    decreases |ts|
  {
    if ts == [] then base else Total(base + ts[0].offsetCount, ts[1..])
  }

  predicate MetaCounts(ms: seq<Meta>) {
    forall i :: 0 <= i < |ms| && ms[i].pos.Some? ==> ms[i].count == ms[i].pos.value + 1
  }

  predicate CheckpointCounts(disk: Disk) {
    disk.checkpoint.Some? ==> disk.checkpoint.value.count == disk.checkpoint.value.pos + 1
  }

  predicate MemCounts(log: Log, mem: Memory) {
    && CountsOk(mem.opsFlushed, Live(mem))
    && Total(mem.opsFlushed, Live(mem)) == mem.cur
    && MetaCounts(mem.pending)
    && MetaCounts(mem.saving)
    && mem.writeSeen == |log| + mem.failed
  }

  predicate CountInv(s: State) {
    PlainLog(s.disk.log) ==>
      && CheckpointCounts(s.disk)
      && match s
         case Running(disk, mem) => MemCounts(disk.log, mem)
         case Recovering(disk, next, recovered, _) => StartOf(disk) <= next && recovered == next - StartOf(disk)
  }

  lemma {:induction false} CountsSnoc(base: nat, a: seq<Table>, t: Table)
    ensures CountsOk(base, a + [t]) <==> CountsOk(base, a) && CountsOk(Total(base, a), [t])
    ensures Total(base, a + [t]) == Total(base, a) + t.offsetCount
    decreases |a|
  {
    if a == [] {
      assert a + [t] == [t] && [t][1..] == [];
    } else {
      CountsSnoc(base + a[0].offsetCount, a[1..], t);
      assert (a + [t])[1..] == a[1..] + [t];
    }
  }

  /** Replacing the newest table by one with the same or the next offset. */
  lemma CountsActive(mem: Memory, mem': Memory)
    requires CountsOk(mem.opsFlushed, Live(mem))
    requires mem'.sealed == mem.sealed && mem'.flush == mem.flush && mem'.opsFlushed == mem.opsFlushed
    requires
      || (mem'.active.lastOffset == mem.active.lastOffset && mem'.active.offsetCount == mem.active.offsetCount)
      || (&& mem'.active.lastOffset == Some(Total(mem.opsFlushed, Live(mem)))
          && mem'.active.offsetCount == mem.active.offsetCount + 1)
    ensures CountsOk(mem.opsFlushed, Live(mem'))
    ensures Total(mem.opsFlushed, Live(mem')) ==
            Total(mem.opsFlushed, Live(mem)) + mem'.active.offsetCount - mem.active.offsetCount
  {
    var older := Live(mem)[..|Live(mem)| - 1];
    assert Live(mem) == older + [mem.active] && Live(mem') == older + [mem'.active];
    CountsSnoc(mem.opsFlushed, older, mem.active);
    CountsSnoc(mem.opsFlushed, older, mem'.active);
    assert [mem.active][1..] == [] && [mem'.active][1..] == [];
  }

  lemma CountsRotate(mem: Memory, mem': Memory)
    requires mem'.sealed == mem.sealed + [mem.active] && mem'.active == EmptyTable
    requires mem'.flush == mem.flush && mem'.opsFlushed == mem.opsFlushed
    requires mem.flush.Queued? ==> mem.sealed != []
    requires CountsOk(mem.opsFlushed, Live(mem))
    ensures CountsOk(mem.opsFlushed, Live(mem'))
    ensures Total(mem.opsFlushed, Live(mem')) == Total(mem.opsFlushed, Live(mem))
  {
    assert Live(mem') == Live(mem) + [EmptyTable];
    CountsSnoc(mem.opsFlushed, Live(mem), EmptyTable);
    assert [EmptyTable][1..] == [];
  }

  lemma CountsFresh(mem: Memory)
    requires mem.active == EmptyTable && mem.sealed == []
    ensures CountsOk(mem.opsFlushed, Live(mem)) && Total(mem.opsFlushed, Live(mem)) == mem.opsFlushed
  {
    assert Live(mem) == [EmptyTable] && [EmptyTable][1..] == [];
  }

  lemma {:induction false} PlainHasNoLobs(log: Log, lost: Lost, n: nat)
    requires PlainLog(log) && n <= |log|
    ensures forall m :: m in Kept(log, lost, n) ==> !m.SetLob?
  {
    if n > 0 {
      PlainHasNoLobs(log, lost, n - 1);
      if RecordOk(log, n - 1) {
        NoLobEntries(log[n - 1].op, log[n - 1].kind, log[n - 1].entries);
      }
    }
  }

  lemma {:induction false} NoLobEntries(op: Op, kind: Kind, es: seq<Entry>)
    requires !kind.Chunked? && Supported(op, kind)
    ensures forall m :: m in EntryMutations(op, kind, es) ==> !m.SetLob?
  {
    if es != [] {
      NoLobEntries(op, kind, Front(es));
    }
  }

  lemma {:induction false} NoChunks(ops: seq<Mutation>)
    requires forall i :: 0 <= i < |ops| ==> !ops[i].SetLob?
    ensures ChunkCount(ops) == 0
  {
    if ops != [] {
      NoChunks(Front(ops));
    }
  }

  /** A flush of a plain log's table counts nothing but the table's offsets. */
  lemma PlainFlushCount(s: State)
    requires Inv(s) && Enabled(s, FlushEnd) && PlainLog(s.disk.log)
    ensures ChunkCount(s.mem.flush.ops) == 0
  {
    hide Effect, Kept, ChunkCount;
    var log, lost, puts, ops := s.disk.log, s.mem.lost, s.mem.sealed[0].puts, s.mem.flush.ops;
    var ap, ms := Applied(log, lost, s.mem.cur, s.mem.done), Kept(log, lost, |log|);
    AppliedPrefix(log, lost, s.mem.cur, s.mem.done);
    PlainHasNoLobs(log, lost, |log|);
    OldestFirst(ap, s.mem);
    forall i | 0 <= i < |ops| ensures !ops[i].SetLob? {
      FlushSubset(puts, ops, i);
      var j :| 0 <= j < |puts| && puts[j] == ops[i];
      var d := |Durable(ap, s.mem)|;
      assert puts[j] == ap[d..d + |puts|][j] == ap[d + j] == ms[..|ap|][d + j];
    }
    NoChunks(ops);
  }

  lemma CountsEnd(s: State)
    requires Inv(s) && Enabled(s, FlushEnd) && PlainLog(s.disk.log) && MemCounts(s.disk.log, s.mem)
    ensures MemCounts(s.disk.log, Do(s, FlushEnd).mem)
  {
    hide Effect, Kept, ChunkCount;
    var mem, mem' := s.mem, Do(s, FlushEnd).mem;
    PlainFlushCount(s);
    assert Live(mem)[0] == mem.sealed[0];
    assert Live(mem)[1..] == Live(mem');
  }

  lemma KeepsCountsRunning(s: State, step: Step)
    requires Inv(s) && CountInv(s) && Enabled(s, step) && PlainLog(s.disk.log) && s.Running?
    requires !step.PutFails? && !step.Append? && !step.Crash? && !step.FlushFails? && !step.SaveMeta?
    ensures MemCounts(s.disk.log, Do(s, step).mem)
  {
    hide Effect, Kept, ChunkCount;
    var mem, mem' := s.mem, Do(s, step).mem;
    if step.Put? || step.Finish? {
      CountsActive(mem, mem');
    } else if step.Rotate? {
      CountsRotate(mem, mem');
    } else if step.FlushEnd? {
      CountsEnd(s);
    } else {
      assert Live(mem') == Live(mem);
    }
  }

  lemma KeepsCounts(s: State, step: Step)
    requires Inv(s) && CountInv(s) && Enabled(s, step) && !step.PutFails?
    ensures CountInv(Do(s, step))
  {
    hide Effect, Kept, ChunkCount;
    var s' := Do(s, step);
    if PlainLog(s'.disk.log) {
      match step
      case Append(r) =>
        assert forall i :: 0 <= i < |s.disk.log| ==> s.disk.log[i] == s'.disk.log[i];
        assert Live(s'.mem) == Live(s.mem);
      case SaveMeta(i) =>
        if s.mem.saving[i].pos.Some? {
          assert Live(s'.mem) == Live(s.mem);
        }
      case Crash =>
      case FlushFails(_) =>
      case RecoverFails =>
      case RecoverRecord =>
        assert s.disk.log[s.next].state.TxnNone?;
      case RecoverDone =>
        CountsFresh(s'.mem);
      case _ => KeepsCountsRunning(s, step);
    }
  }

  lemma {:induction false} RunKeepsCounts(s: State, steps: seq<Step>, s': State)
    requires Inv(s) && CountInv(s) && IsRun(s, steps, s') && AllFit(steps)
    ensures Inv(s') && CountInv(s')
    decreases |steps|
  {
    if steps != [] {
      KeepsInvariant(s, steps[0]);
      KeepsCounts(s, steps[0]);
      RunKeepsCounts(Do(s, steps[0]), steps[1..], s');
    }
  }

  /** Every checkpoint of a plain log counts exactly the records at or before its position. */
  lemma CheckpointCountsRecords(steps: seq<Step>, s: State)
    requires IsRun(Init, steps, s) && AllFit(steps) && PlainLog(s.disk.log)
    ensures StartOf(s.disk) <= |s.disk.log|
    ensures CountOf(s.disk) == |s.disk.log[..StartOf(s.disk)]|
  {
    InitInv();
    RunKeepsCounts(Init, steps, s);
    KeepsCrash(s);
  }

  /**
   After any run the next sequence number is one more than the number of records in the log, exactly when no
   append has failed since the engine started; right after a restart that is always so.
   */
  lemma NextLsnContinuesLog(steps: seq<Step>, s: State)
    requires IsRun(Init, steps, s) && AllFit(steps) && PlainLog(s.disk.log)
    ensures s.Running? ==> (s.mem.writeSeen + 1 == |s.disk.log| + 1 <==> s.mem.failed == 0)
    ensures s.Recovering? && s.next == |s.disk.log| ==>
              Do(s, RecoverDone).mem.writeSeen + 1 == |s.disk.log| + 1
  {
    InitInv();
    RunKeepsCounts(Init, steps, s);
  }

  // ---- The numbers of the records ----

  /** Every record's number is its place in the log, which is what a replica insists on. */
  predicate Consecutive(log: Log) {
    forall i :: 0 <= i < |log| ==> log[i].lsn == i + 1
  }

  /** Some append of the run came after one that failed in the same process. */
  ghost predicate AppendsAfterFailure(s: State, steps: seq<Step>, s': State)
    requires IsRun(s, steps, s')
    decreases |steps|
  {
    steps != [] &&
    ((steps[0].Append? && s.mem.failed > 0) || AppendsAfterFailure(Do(s, steps[0]), steps[1..], s'))
  }

  lemma StepNumbers(s: State, step: Step)
    requires Inv(s) && CountInv(s) && Enabled(s, step)
    ensures s.disk.log <= Do(s, step).disk.log
    ensures PlainLog(s.disk.log) ==>
              (Consecutive(Do(s, step).disk.log) <==> Consecutive(s.disk.log) && !(step.Append? && s.mem.failed > 0))
  {
    hide Effect, Inv, Unrecoverable, FlushOrder, ChunkCount, CountsOk, Total, Live;
    if step.Append? {
      var log := s.disk.log;
      assert forall i :: 0 <= i < |log| ==> (log + [step.record])[i] == log[i];
      assert (log + [step.record])[|log|] == step.record;
    }
  }

  lemma {:induction false} RunNumbers(s: State, steps: seq<Step>, s': State)
    requires Inv(s) && CountInv(s) && IsRun(s, steps, s') && AllFit(steps)
    ensures s.disk.log <= s'.disk.log
    ensures PlainLog(s'.disk.log) ==>
              (Consecutive(s'.disk.log) <==> Consecutive(s.disk.log) && !AppendsAfterFailure(s, steps, s'))
    decreases |steps|
  {
    hide Inv, CountInv, Do, Enabled, Consecutive;
    if steps != [] {
      var mid := Do(s, steps[0]);
      KeepsInvariant(s, steps[0]);
      KeepsCounts(s, steps[0]);
      StepNumbers(s, steps[0]);
      RunNumbers(mid, steps[1..], s');
      if PlainLog(s'.disk.log) {
        PlainPrefix(s.disk.log, s'.disk.log);
      }
    }
  }

  lemma PlainPrefix(a: Log, b: Log)
    requires a <= b && PlainLog(b)
    ensures PlainLog(a)
  {
    forall i | 0 <= i < |a| ensures a[i].state.TxnNone? {
      assert a[i] == b[i];
    }
  }

  /**
   In every run over plain records, whatever crashes and restarts it holds, every record's number is its place in the
   log if and only if no record was appended after an append that failed in the same process.
   */
  lemma NumbersFollowPlaces(steps: seq<Step>, s: State)
    requires IsRun(Init, steps, s) && AllFit(steps) && PlainLog(s.disk.log)
    ensures Consecutive(s.disk.log) <==> !AppendsAfterFailure(Init, steps, s)
  {
    InitInv();
    RunNumbers(Init, steps, s);
  }

  // ---- What recovery counts ----

  ghost predicate CommittedIn(log: Log, n: nat, id: Bytes)
    requires n <= |log|
  {
    exists j :: 0 <= j < n && log[j].state.TxnCommit? && log[j].txnId == id
  }

  /** Of the first k records, those of transactions that have no commit among the first n. */
  ghost function Uncommitted(log: Log, n: nat, k: nat): nat
    requires k <= n <= |log|
  {
    if k == 0 then 0
    else
      var r := log[k - 1];
      Uncommitted(log, n, k - 1) +
      if (r.state.TxnBegin? || r.state.TxnPrepare?) && !CommittedIn(log, n, r.txnId) then 1 else 0
  }

  /** A commit takes exactly its own records out of the uncommitted ones. */
  lemma {:induction false} CommitSettles(log: Log, n: nat, k: nat)
    requires k <= n < |log| && log[n].state.TxnCommit? && NoCommit(log[..n], log[n].txnId)
    ensures Uncommitted(log, n, k) == Uncommitted(log, n + 1, k) + |OwnRecords(log[..k], log[n].txnId)|
  {
    var id := log[n].txnId;
    if k > 0 {
      CommitSettles(log, n, k - 1);
      OwnSnoc(log[..k - 1], log[k - 1], id);
      assert log[..k] == log[..k - 1] + [log[k - 1]];
      CommittedNext(log, n, log[k - 1].txnId);
      assert !CommittedIn(log, n, id) by {
        forall j | 0 <= j < n && log[j].state.TxnCommit? ensures log[j].txnId != id {
          assert log[..n][j] in log[..n];
        }
      }
    }
  }

  lemma CommittedNext(log: Log, n: nat, id: Bytes)
    requires n < |log|
    ensures CommittedIn(log, n + 1, id) <==> CommittedIn(log, n, id) || (log[n].state.TxnCommit? && log[n].txnId == id)
  {
    if log[n].state.TxnCommit? && log[n].txnId == id {
      assert 0 <= n < n + 1;
    }
  }

  lemma {:induction false} UncommittedKept(log: Log, n: nat, k: nat)
    requires k <= n < |log| && !log[n].state.TxnCommit?
    ensures Uncommitted(log, n + 1, k) == Uncommitted(log, n, k)
  {
    if k > 0 {
      UncommittedKept(log, n, k - 1);
      CommittedNext(log, n, log[k - 1].txnId);
    }
  }

  /** Recovery from nothing counts every record but those of transactions that were never committed. */
  lemma {:induction false} RecoveryCounts(log: Log, n: nat)
    requires ChainsExact(log) && n <= |log|
    ensures CountRecovered(log, 0, n) + Uncommitted(log, n, n) == n
  {
    hide Walk, CommittedIn;
    if n > 0 {
      var r := log[n - 1];
      RecoveryCounts(log, n - 1);
      if r.state.TxnCommit? {
        assert CommitExact(log, n - 1) && NoCommit(log[..n - 1], r.txnId);
        CommitSettles(log, n - 1, n - 1);
      } else {
        UncommittedKept(log, n - 1, n - 1);
        if !r.state.TxnNone? {
          assert NoCommit(log[..n - 1], r.txnId);
          NotCommitted(log, n, r.txnId);
        }
      }
    }
  }

  lemma NotCommitted(log: Log, n: nat, id: Bytes)
    requires 0 < n <= |log| && NoCommit(log[..n - 1], id) && !log[n - 1].state.TxnCommit?
    ensures !CommittedIn(log, n, id)
  {
    forall j | 0 <= j < n && log[j].state.TxnCommit? ensures log[j].txnId != id {
      assert log[..n - 1][j] in log[..n - 1];
    }
  }

  /** While recovering, what has been counted is what the records replayed so far count. */
  predicate RecoveredOk(s: State) {
    s.Recovering? ==>
      && StartOf(s.disk) <= s.next <= |s.disk.log|
      && s.recovered == CountRecovered(s.disk.log, StartOf(s.disk), s.next)
  }

  lemma {:induction false} RunCountsRecovered(s: State, steps: seq<Step>, s': State)
    requires Inv(s) && RecoveredOk(s) && IsRun(s, steps, s')
    ensures RecoveredOk(s')
    decreases |steps|
  {
    hide Effect, Kept, Effects, ChunkCount, FlushOrder, Unrecoverable;
    if steps != [] {
      KeepsInvariant(s, steps[0]);
      KeepsCrash(s);
      RunCountsRecovered(Do(s, steps[0]), steps[1..], s');
    }
  }

  /**
   In every run, the sequence number given out next after a start without a checkpoint is one more than the number of
   records in the log that belong to no uncommitted transaction. So it continues the log if and only if there are none.
   */
  lemma NextLsnAfterFullRecovery(steps: seq<Step>, s: State)
    requires IsRun(Init, steps, s) && Enabled(s, RecoverDone) && s.disk.checkpoint.None? && ChainsExact(s.disk.log)
    ensures var n := |s.disk.log|;
            && Uncommitted(s.disk.log, n, n) <= n
            && Do(s, RecoverDone).mem.writeSeen == n - Uncommitted(s.disk.log, n, n)
  {
    hide ChainsExact, Effect;
    InitInv();
    RunCountsRecovered(Init, steps, s);
    RecoveryCounts(s.disk.log, |s.disk.log|);
  }

  lemma {:induction false} SomethingCounted(log: Log, first: nat, end: nat)
    requires first <= end <= |log|
    ensures CountRecovered(log, first, end) > 0 <==>
            exists i :: first <= i < end && (log[i].state.TxnNone? || log[i].state.TxnCommit?)
    decreases end
  {
    hide Prepared;
    if first < end {
      SomethingCounted(log, first, end - 1);
    }
  }

  /**
   What a start has replayed it does not leave for the next: it queues a checkpoint if and only if a plain record or a
   commit was replayed, and once that is saved, a further start has nothing to replay and continues with the same number.
   */
  lemma StartQueuesCheckpoint(steps: seq<Step>, s: State)
    requires IsRun(Init, steps, s) && Enabled(s, RecoverDone)
    ensures var log, up := s.disk.log, Do(s, RecoverDone);
            && (Enabled(up, Dequeue) <==>
                exists i :: StartOf(s.disk) <= i < |log| && (log[i].state.TxnNone? || log[i].state.TxnCommit?))
            && (Enabled(up, Dequeue) ==>
                && Enabled(Do(up, Dequeue), SaveMeta(0))
                && var again := Do(Do(Do(up, Dequeue), SaveMeta(0)), Crash);
                Enabled(again, RecoverDone) && Do(again, RecoverDone).mem.writeSeen == up.mem.writeSeen)
  {
    hide Effect, Inv, IsRun, Do, Unrecoverable, FlushOrder, ChunkCount;
    InitInv();
    RunCountsRecovered(Init, steps, s);
    SomethingCounted(s.disk.log, StartOf(s.disk), |s.disk.log|);
    var up := StartedUp(s);
    if up.mem.pending != [] {
      var saved := SavedOnce(up);
      StartsAgain(saved);
    }
  }

  lemma StartedUp(s: State) returns (up: State)
    requires Enabled(s, RecoverDone)
    ensures up == Do(s, RecoverDone) && up.Running? && up.disk == s.disk && up.mem.saving == []
    ensures up.mem.pending ==
            if s.recovered > 0 && |s.disk.log| > 0 then [Meta(Some(|s.disk.log| - 1), up.mem.writeSeen)] else []
  {
    up := Do(s, RecoverDone);
  }

  lemma SavedOnce(up: State) returns (saved: State)
    requires up.Running? && up.mem.saving == [] && |up.mem.pending| == 1 && up.mem.pending[0].pos.Some?
    ensures Enabled(up, Dequeue) && Enabled(Do(up, Dequeue), SaveMeta(0))
    ensures saved == Do(Do(up, Dequeue), SaveMeta(0)) && saved.Running?
    ensures saved.disk == up.disk.(checkpoint := Some(Checkpoint(up.mem.pending[0].pos.value, up.mem.pending[0].count)))
  {
    var mid := Do(up, Dequeue);
    assert mid.mem.saving == [up.mem.pending[0]];
    saved := Do(mid, SaveMeta(0));
  }

  lemma StartsAgain(s: State)
    requires s.Running? && s.disk.checkpoint.Some? && s.disk.checkpoint.value.pos + 1 == |s.disk.log|
    ensures Enabled(s, Crash) && Enabled(Do(s, Crash), RecoverDone)
    ensures Do(Do(s, Crash), RecoverDone).mem.writeSeen == s.disk.checkpoint.value.count
  {
  }
}
