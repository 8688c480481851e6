/**
 The queue of sealed memtables (dbkernel/engine.go: memTableWrite, rotateMemTable, handleFlush).

 A put that fits neither the active table nor a new one leaves the active table sealed, even if nothing had been put
 into it. The flusher looks at the head of the queue only, and takes no empty table.
 */
module FlushQueue {
  import opened Basics
  import opened Cells
  import opened LogRecords
  import opened Engine

  predicate HasEmpty(ts: seq<Table>) {
    exists t :: t in ts && t.puts == []
  }

  /** The table being flushed is not an empty one. */
  predicate QueueOk(s: State) {
    s.Running? && !s.mem.flush.NoFlush? ==> s.mem.sealed != [] && s.mem.sealed[0].puts != []
  }

  /** Since the last start, a put has failed while the active table was empty. */
  ghost predicate FailedOnEmpty(s: State, steps: seq<Step>, s': State, before: bool)
    requires IsRun(s, steps, s')
    decreases |steps|
  {
    if steps == [] then before
    else FailedOnEmpty(Do(s, steps[0]), steps[1..], s', FailedBy(s, steps[0], before))
  }

  ghost predicate FailedBy(s: State, step: Step, before: bool)
    requires Enabled(s, step)
  {
    s.Running? && Do(s, step).Running? && (before || (step.PutFails? && s.mem.active.puts == []))
  }

  lemma StepQueues(s: State, step: Step, failed: bool)
    requires Enabled(s, step) && QueueOk(s) && (s.Running? ==> (HasEmpty(s.mem.sealed) <==> failed))
    ensures var s' := Do(s, step);
            QueueOk(s') && (s'.Running? ==> (HasEmpty(s'.mem.sealed) <==> FailedBy(s, step, failed)))
  {
    hide Effect, ChunkCount, FlushOrder, Unrecoverable, AnyRefused;
    var s' := Do(s, step);
    if s.Running? && s'.Running? {
      var ts, ts' := s.mem.sealed, s'.mem.sealed;
      if step.Rotate? || step.PutFails? {
        HasEmptySnoc(ts, s.mem.active);
      } else if step.FlushDrop? {
        HasEmptyRest(ts);
      }
    }
  }

  lemma HasEmptySnoc(ts: seq<Table>, t: Table)
    ensures HasEmpty(ts + [t]) <==> HasEmpty(ts) || t.puts == []
  {
    assert t in ts + [t];
    forall u | u in ts ensures u in ts + [t] {
    }
  }

  lemma HasEmptyRest(ts: seq<Table>)
    requires ts != [] && ts[0].puts != []
    ensures HasEmpty(ts[1..]) <==> HasEmpty(ts)
  {
    assert ts == [ts[0]] + ts[1..];
  }

  lemma {:induction false} RunQueues(s: State, steps: seq<Step>, s': State, failed: bool)
    requires IsRun(s, steps, s') && QueueOk(s) && (s.Running? ==> (HasEmpty(s.mem.sealed) <==> failed))
    ensures QueueOk(s') && (s'.Running? ==> (HasEmpty(s'.mem.sealed) <==> FailedOnEmpty(s, steps, s', failed)))
    decreases |steps|
  {
    hide HasEmpty, QueueOk, Do, Enabled, FailedBy;
    if steps != [] {
      StepQueues(s, steps[0], failed);
      RunQueues(Do(s, steps[0]), steps[1..], s', FailedBy(s, steps[0], failed));
    }
  }

  /** In every run, an empty table is in the queue if and only if a put has failed on an empty active table since the start. */
  lemma EmptyTableQueued(steps: seq<Step>, s: State)
    requires IsRun(Init, steps, s) && s.Running?
    ensures HasEmpty(s.mem.sealed) <==> FailedOnEmpty(Init, steps, s, false)
  {
    RunQueues(Init, steps, s, false);
  }

  /** An empty table and everything behind it stay in the queue until the next start. */
  lemma {:induction false} NothingPasses(s: State, steps: seq<Step>, s': State, j: nat)
    requires QueueOk(s) && IsUpRun(s, steps, s') && j < |s.mem.sealed| && s.mem.sealed[j].puts == []
    ensures s'.Running? && exists k :: 0 <= k <= j && s.mem.sealed[k..] <= s'.mem.sealed
    decreases |steps|
  {
    hide Do, Enabled, QueueOk;
    if steps == [] {
      assert s.mem.sealed[0..] <= s'.mem.sealed;
    } else {
      var mid := Do(s, steps[0]);
      assert mid.Running?;
      var d := QueueMoves(s, steps[0], j);
      NothingPasses(mid, steps[1..], s', j - d);
      var k :| 0 <= k <= j - d && mid.mem.sealed[k..] <= s'.mem.sealed;
      Suffixes(s.mem.sealed, mid.mem.sealed, s'.mem.sealed, d, k);
    }
  }

  /** One step takes at most the head from the queue, and never an empty one. */
  lemma QueueMoves(s: State, step: Step, j: nat) returns (d: nat)
    requires QueueOk(s) && Enabled(s, step) && s.Running? && Do(s, step).Running?
    requires j < |s.mem.sealed| && s.mem.sealed[j].puts == []
    ensures d <= j && d <= 1 && QueueOk(Do(s, step)) && s.mem.sealed[d..] <= Do(s, step).mem.sealed
    ensures j - d < |Do(s, step).mem.sealed| && Do(s, step).mem.sealed[j - d].puts == []
  {
    hide Effect, ChunkCount, FlushOrder, Unrecoverable, AnyRefused;
    d := if step.FlushDrop? then 1 else 0;
    assert s.mem.sealed[0..] == s.mem.sealed;
    assert s.mem.sealed[d..][j - d] == s.mem.sealed[j];
  }

  lemma Suffixes<T>(a: seq<T>, b: seq<T>, c: seq<T>, d: nat, k: nat)
    requires d <= |a| && a[d..] <= b && k + d <= |a| && k <= |b| && b[k..] <= c
    ensures a[k + d..] <= c
  {
    assert a[k + d..] == a[d..][k..] == b[..|a| - d][k..];
  }

  /** An empty table at the head of the queue. */
  predicate Blocked(s: State) {
    s.Running? && s.mem.flush.NoFlush? && s.mem.sealed != [] && s.mem.sealed[0].puts == []
  }

  predicate CheckpointFrom(cp: Option<Checkpoint>, ms: seq<Meta>) {
    cp.Some? && exists m :: m in ms && m.pos == Some(cp.value.pos)
  }

  /**
   From then on, until the next start, nothing leaves the queue and nothing more reaches the store; and the only
   checkpoints that can still be saved are those of tables that had been flushed before.
   */
  lemma {:induction false} BlockedStays(s: State, steps: seq<Step>, s': State)
    requires Blocked(s) && IsUpRun(s, steps, s')
    ensures Blocked(s') && s.mem.sealed <= s'.mem.sealed && s'.disk.store == s.disk.store
    ensures forall m :: m in s'.mem.pending + s'.mem.saving ==> m in s.mem.pending + s.mem.saving
    ensures s'.disk.checkpoint == s.disk.checkpoint || CheckpointFrom(s'.disk.checkpoint, s.mem.pending + s.mem.saving)
    decreases |steps|
  {
    hide Effect, ChunkCount, FlushOrder, Unrecoverable, AnyRefused;
    if steps != [] {
      var mid := Do(s, steps[0]);
      assert mid.Running?;
      BlockedStep(s, steps[0]);
      BlockedStays(mid, steps[1..], s');
    }
  }

  lemma BlockedStep(s: State, step: Step)
    requires Blocked(s) && Enabled(s, step) && Do(s, step).Running?
    ensures var s' := Do(s, step);
            && Blocked(s') && s.mem.sealed <= s'.mem.sealed && s'.disk.store == s.disk.store
            && (forall m :: m in s'.mem.pending + s'.mem.saving ==> m in s.mem.pending + s.mem.saving)
            && (s'.disk.checkpoint == s.disk.checkpoint || CheckpointFrom(s'.disk.checkpoint, s.mem.pending + s.mem.saving))
  {
    hide Effect, ChunkCount, FlushOrder, Unrecoverable, AnyRefused;
    if step.SaveMeta? {
      assert s.mem.saving[step.i] in s.mem.pending + s.mem.saving;
    }
  }

  // ---- What gets into the store ----

  /** No byte key of the cell is longer than the store allows. */
  predicate Fits(c: Cell, v: Value) {
    match c
    case KVCell(k) => |k| <= 32768
    case ColCell(row, col) => |row| + |col| <= 32768
    case LobCell(k) => |k| + (if v.Lob? && v.chunks != [] then 9 else 0) <= 32768
  }

  predicate StoreFits(st: Store) {
    forall c :: c in st ==> Fits(c, st[c])
  }

  lemma ApplyFits(st: Store, m: Mutation)
    requires StoreFits(st) && !Refused(m)
    ensures StoreFits(Apply(st, m))
  {
    hide Apply;
    var st' := Apply(st, m);
    forall c | c in st' ensures Fits(c, st'[c]) {
      ApplyLookup(st, m, c);
      if !Touches(m, c) {
        assert Lookup(st, c) == Some(st'[c]);
      } else if m.SetCells? {
        assert c.col in m.columns && |m.row + c.col| == |m.row| + |c.col|;
      }
    }
  }

  lemma {:induction false} ApplyAllFits(st: Store, ms: seq<Mutation>)
    requires StoreFits(st) && !AnyRefused(ms)
    ensures StoreFits(ApplyAll(st, ms))
  {
    if ms != [] {
      assert forall m :: m in Front(ms) ==> m in ms;
      assert Last(ms) in ms;
      ApplyAllFits(st, Front(ms));
      ApplyFits(ApplyAll(st, Front(ms)), Last(ms));
    }
  }

  lemma {:induction false} RunFits(s: State, steps: seq<Step>, s': State)
    requires IsRun(s, steps, s') && StoreFits(s.disk.store)
    ensures StoreFits(s'.disk.store)
    decreases |steps|
  {
    hide StoreFits, AnyRefused, ApplyAll, Effect, EmptyInsert, FlushOrder, ChunkCount, RecoveredBy, NextBatch;
    if steps != [] {
      if steps[0].FlushCommit? {
        ApplyAllFits(s.disk.store, NextBatch(s.mem.flush, steps[0].n));
      } else if steps[0].RecoverRecord? {
        ApplyAllFits(s.disk.store, Effect(s.disk.log, s.next));
      }
      RunFits(Do(s, steps[0]), steps[1..], s');
    }
  }

  /** In every run, whatever is logged, no key longer than the store allows gets into it, by a flush or by recovery. */
  lemma StoreKeysFit(steps: seq<Step>, s: State)
    requires IsRun(Init, steps, s)
    ensures StoreFits(s.disk.store)
  {
    RunFits(Init, steps, s);
  }
}
