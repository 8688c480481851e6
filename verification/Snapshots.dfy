/**
 What reads see of a running engine (dbkernel/engine_public.go: GetKV, GetRowColumns; dbkernel/engine.go: rotateMemTable,
 handleFlush).

 A read has three moments: the table pointers are copied under the lock, the active table is then read without it, and
 the store is read last. Writes, rotations and flushes go on in between.
 */
module Snapshots {
  import opened Basics
  import opened Cells
  import opened LogRecords
  import opened Engine
  import opened Reads

  // ---- Moving on without a restart ----

  function AppliedIn(s: State): seq<Mutation>
    requires s.Running? && PointOk(s.disk.log, s.mem.lost, s.mem.cur, s.mem.done)
  {
    Applied(s.disk.log, s.mem.lost, s.mem.cur, s.mem.done)
  }

  /** The engine has moved on from s to later without a restart. */
  ghost predicate Grown(s: State, later: State)
    requires Inv(s) && Inv(later) && s.Running? && later.Running?
  {
    && AppliedIn(s) <= AppliedIn(later)
    && |Durable(AppliedIn(s), s.mem)| <= |Durable(AppliedIn(later), later.mem)|
  }

  lemma AppendGrows(s: State, r: Record)
    requires Inv(s) && Enabled(s, Append(r)) && Inv(Do(s, Append(r)))
    ensures Grown(s, Do(s, Append(r)))
  {
    hide Effect, Kept;
    AppliedStable(s.disk.log, r, s.mem.lost, s.mem.cur, s.mem.done);
    assert Live(Do(s, Append(r)).mem) == Live(s.mem);
  }

  /** Putting extends what has been applied by exactly what the active table gains. */
  lemma PutGrows(s: State, step: Step)
    requires Inv(s) && s.Running? && Enabled(s, step) && (step.Put? || step.Finish?) && Inv(Do(s, step))
    ensures Grown(s, Do(s, step))
    ensures var s' := Do(s, step);
            && AppliedIn(s') == AppliedIn(s) + s'.mem.active.puts[|s.mem.active.puts|..]
            && s.mem.active.puts <= s'.mem.active.puts
  {
    hide Effect, Kept, StoreOk, OffsetsOk;
    var s' := Do(s, step);
    var log, lost, cur := s.disk.log, s.mem.lost, s.mem.cur;
    assert AppliedIn(s) + [] == AppliedIn(s);
    if step.Put? {
      AppliedPut(log, lost, cur, s.mem.done);
      ActiveGrows(AppliedIn(s), s.mem, [Effect(log, cur)[s.mem.done]], s'.mem);
    } else {
      AppliedFinish(log, lost, cur);
      ActiveGrows(AppliedIn(s), s.mem, [], s'.mem);
    }
  }

  /** A put that fails applies nothing, and rotates the active table out. */
  lemma FailGrows(s: State)
    requires Inv(s) && s.Running? && Enabled(s, PutFails) && Inv(Do(s, PutFails))
    ensures Grown(s, Do(s, PutFails))
  {
    hide Effect, Kept, StoreOk, OffsetsOk, MetasOk;
    var s' := Do(s, PutFails);
    AppliedFails(s.disk.log, s.mem.lost, s.mem.cur, s.mem.done);
    assert Live(s'.mem) == Live(s.mem) + [EmptyTable];
    TablePutsSnoc(Live(s.mem), EmptyTable);
  }

  lemma FlushStepGrows(s: State, step: Step)
    requires Inv(s) && s.Running? && Enabled(s, step) && !step.Append? && !step.Put? && !step.Finish? && !step.PutFails?
    requires Do(s, step).Running? && Inv(Do(s, step))
    ensures AppliedIn(Do(s, step)) == AppliedIn(s) && Grown(s, Do(s, step))
  {
    hide Effect, Kept, Applied, ChunkCount, StoreOk, OffsetsOk, MetasOk;
    var s' := Do(s, step);
    assert AppliedIn(s') == AppliedIn(s);
    if step.Rotate? {
      assert Live(s'.mem) == Live(s.mem) + [EmptyTable];
      TablePutsSnoc(Live(s.mem), EmptyTable);
    } else if step.FlushEnd? {
      OldestFirst(AppliedIn(s), s.mem);
      assert Live(s'.mem) == s.mem.sealed[1..] + [s.mem.active];
    } else {
      assert Live(s'.mem) == Live(s.mem);
    }
  }

  lemma StepGrows(s: State, step: Step)
    requires Inv(s) && s.Running? && Enabled(s, step) && Do(s, step).Running?
    ensures Inv(Do(s, step)) && Grown(s, Do(s, step))
  {
    KeepsInvariant(s, step);
    if step.Append? {
      AppendGrows(s, step.record);
    } else if step.Put? || step.Finish? {
      PutGrows(s, step);
    } else if step.PutFails? {
      FailGrows(s);
    } else {
      FlushStepGrows(s, step);
    }
  }

  lemma {:induction false} RunGrows(s: State, steps: seq<Step>, s': State)
    requires Inv(s) && IsUpRun(s, steps, s')
    ensures Inv(s') && s'.Running? && Grown(s, s')
    decreases |steps|
  {
    hide Effect, Kept, Applied;
    if steps != [] {
      StepGrows(s, steps[0]);
      RunGrows(Do(s, steps[0]), steps[1..], s');
    }
  }

  // ---- The copied tables ----

  /** The tables of any reachable state hold the end of the operations applied so far. */
  lemma TablesHoldEnd(ap: seq<Mutation>, mem: Memory)
    requires TablesOk(ap, mem)
    ensures EndsWith(ap, TablePuts(mem.sealed + [mem.active]))
    ensures |TablePuts(mem.sealed + [mem.active])| >= |TablePuts(Live(mem))|
  {
    var tables := mem.sealed + [mem.active];
    if mem.flush.Queued? {
      assert tables[1..] == Live(mem);
      var d, p := Durable(ap, mem), mem.sealed[0].puts;
      assert ap == d + TablePuts(Live(mem));
      assert d[|d| - |p|..] == p;
      assert ap[|d| - |p|..] == p + TablePuts(Live(mem));
    } else {
      assert tables == Live(mem);
    }
  }

  predicate NoRotate(steps: seq<Step>) {
    forall i :: 0 <= i < |steps| ==> !steps[i].Rotate? && !steps[i].PutFails?
  }

  /** While it is not rotated out, the active table gains exactly what is applied. */
  lemma {:induction false} ActiveGains(s: State, steps: seq<Step>, s': State)
    requires Inv(s) && IsUpRun(s, steps, s') && NoRotate(steps)
    ensures Inv(s') && s'.Running? && s.mem.active.puts <= s'.mem.active.puts
    ensures AppliedIn(s') == AppliedIn(s) + s'.mem.active.puts[|s.mem.active.puts|..]
    decreases |steps|
  {
    hide Effect, Kept, Applied, TablesInv;
    if steps == [] {
      assert AppliedIn(s) + [] == AppliedIn(s);
    } else {
      var mid := Do(s, steps[0]);
      StepGrows(s, steps[0]);
      StepGains(s, steps[0]);
      ActiveGains(mid, steps[1..], s');
      var a, b, c := s.mem.active.puts, mid.mem.active.puts, s'.mem.active.puts;
      assert c[|a|..] == b[|a|..] + c[|b|..];
      Associative(AppliedIn(s), b[|a|..], c[|b|..]);
    }
  }

  lemma StepGains(s: State, step: Step)
    requires Inv(s) && s.Running? && Enabled(s, step) && !step.Rotate? && !step.PutFails? && Do(s, step).Running? && Inv(Do(s, step))
    ensures var s' := Do(s, step);
            && s.mem.active.puts <= s'.mem.active.puts
            && AppliedIn(s') == AppliedIn(s) + s'.mem.active.puts[|s.mem.active.puts|..]
  {
    hide Effect, Kept, Applied, TablesInv, ChunkCount;
    assert AppliedIn(s) + [] == AppliedIn(s);
    if step.Put? || step.Finish? {
      PutGrows(s, step);
    } else if step.Append? {
      AppliedStable(s.disk.log, step.record, s.mem.lost, s.mem.cur, s.mem.done);
    } else {
      FlushStepGrows(s, step);
    }
  }

  /** Tables copied at s with the active one read at mid hold the end of what has been applied by mid. */
  lemma CopiedTables(s: State, steps: seq<Step>, mid: State)
    requires Inv(s) && IsUpRun(s, steps, mid) && NoRotate(steps)
    ensures Inv(mid) && mid.Running?
    ensures var puts := TablePuts(s.mem.sealed + [mid.mem.active]);
            && EndsWith(AppliedIn(mid), puts)
            && |AppliedIn(mid)| - |puts| <= |Durable(AppliedIn(s), s.mem)|
  {
    hide Effect, Kept, Applied, StoreOk, OffsetsOk, MetasOk, TablePuts;
    ActiveGains(s, steps, mid);
    var ap, ap' := AppliedIn(s), AppliedIn(mid);
    var a, a' := s.mem.active.puts, mid.mem.active.puts;
    var more := a'[|a|..];
    TablesHoldEnd(ap, s.mem);
    TablePutsSnoc(s.mem.sealed, s.mem.active);
    TablePutsSnoc(s.mem.sealed, mid.mem.active);
    var old_, puts := TablePuts(s.mem.sealed + [s.mem.active]), TablePuts(s.mem.sealed + [mid.mem.active]);
    assert a' == a + more;
    Associative(TablePuts(s.mem.sealed), a, more);
    EndsWithMore(ap, old_, more);
  }

  lemma EndsWithMore(s: seq<Mutation>, t: seq<Mutation>, more: seq<Mutation>)
    requires EndsWith(s, t)
    ensures EndsWith(s + more, t + more)
  {
    assert (s + more)[|s| - |t|..] == s[|s| - |t|..] + more;
  }

  // ---- Reading ----

  /**
   Whatever has been flushed between the moments of a read, cell by cell: the read sees the moment at which it read the
   active table, unless an operation applied after that moment has reached the store and no copied table covers it.
   */
  lemma CellRead(s: State, steps: seq<Step>, mid: State, steps': seq<Step>, later: State, c: Cell)
    requires Inv(s) && IsUpRun(s, steps, mid) && NoRotate(steps) && IsUpRun(mid, steps', later)
    ensures Inv(mid) && mid.Running? && Inv(later) && later.Running? && AppliedIn(mid) <= AppliedIn(later)
    ensures var puts := TablePuts(s.mem.sealed + [mid.mem.active]);
            TouchedBy(puts, c) || !TouchedBy(NewerFlushed(mid, later), c) ==>
              Lookup(ApplyAll(later.disk.store, puts), c) == Lookup(Fold(AppliedIn(mid)), c)
  {
    hide Effect, Kept, Applied, OffsetsOk, MetasOk, TablePuts, ApplyAll, StoreOk, TouchedBy, LastTouch, Fold, Lookup, Reached, Durable;
    CopiedTables(s, steps, mid);
    RunGrows(s, steps, mid);
    RunGrows(mid, steps', later);
    var ap, ap' := AppliedIn(mid), AppliedIn(later);
    var puts := TablePuts(s.mem.sealed + [mid.mem.active]);
    var k := |ap| - |puts|;
    var extra := StoreExtra(ap', later.disk.store, later.mem, k);
    assert ap'[..k] == ap[..k];
    var e := Reached(ap', later.mem);
    assert |ap| <= e ==> NewerFlushed(mid, later) == ap'[|ap|..e];
    if TouchedBy(puts, c) || !TouchedBy(NewerFlushed(mid, later), c) {
      LaidOver(ap, ap', puts, k, e, later.disk.store, extra, c);
    }
  }

  /** Tables laid over a store that is ahead of them. */
  lemma LaidOver(ap: seq<Mutation>, ap': seq<Mutation>, puts: seq<Mutation>, k: nat, e: nat,
                 store: Store, extra: seq<Mutation>, c: Cell)
    requires ap <= ap' && k <= |ap| && ap[k..] == puts && k <= e <= |ap'|
    requires store == ApplyAll(Fold(ap[..k]), extra)
    requires forall i :: 0 <= i < |extra| ==> extra[i] in ap'[k..e]
    requires TouchedBy(puts, c) || (|ap| <= e ==> !TouchedBy(ap'[|ap|..e], c))
    ensures Lookup(ApplyAll(store, puts), c) == Lookup(Fold(ap), c)
  {
    hide ApplyAll, TouchedBy, LastTouch;
    assert ap == ap[..k] + puts;
    ApplyAllConcat(map[], ap[..k], puts);
    LastWriteWins(store, puts, c);
    LastWriteWins(Fold(ap[..k]), puts, c);
    LastTouchSome(puts, c);
    if !TouchedBy(puts, c) {
      SliceTouches(ap, ap', puts, k, e, c);
      UntouchedExtra(ap'[k..e], extra, c);
      UntouchedKeeps(Fold(ap[..k]), extra, c);
    }
  }

  /** Operations applied after the read's moment that may have reached the store. */
  ghost function NewerFlushed(mid: State, later: State): seq<Mutation>
    requires Inv(mid) && mid.Running? && Inv(later) && later.Running?
  {
    var ap := AppliedIn(later);
    var e := Reached(ap, later.mem);
    if |AppliedIn(mid)| <= e <= |ap| then ap[|AppliedIn(mid)|..e] else []
  }

  lemma SliceTouches(ap: seq<Mutation>, ap': seq<Mutation>, puts: seq<Mutation>, k: nat, e: nat, c: Cell)
    requires ap <= ap' && k <= |ap| && ap[k..] == puts && k <= e <= |ap'| && !TouchedBy(puts, c)
    requires |ap| <= e ==> !TouchedBy(ap'[|ap|..e], c)
    ensures !TouchedBy(ap'[k..e], c)
  {
    forall i | 0 <= i < e - k ensures !Touches(ap'[k..e][i], c) {
      if k + i < |ap| {
        assert ap'[k + i] == ap[k + i] == puts[i];
      } else {
        assert ap'[k + i] == ap'[|ap|..e][k + i - |ap|];
      }
    }
  }

  /**
   In every run, a read whose pointers were copied at s, whose active table was read at mid, or was sealed then, and
   whose store was read at later sees exactly what had been applied at mid, provided nothing newer has been flushed.
   */
  lemma ReadsAreConsistent(steps: seq<Step>, s: State, steps1: seq<Step>, mid: State, steps2: seq<Step>, later: State)
    requires IsRun(Init, steps, s) && IsUpRun(s, steps1, mid) && NoRotate(steps1) && IsUpRun(mid, steps2, later)
    ensures Inv(mid) && mid.Running? && Inv(later) && later.Running?
    ensures NewerFlushed(mid, later) == [] ==>
              ApplyAll(later.disk.store, TablePuts(s.mem.sealed + [mid.mem.active])) == Fold(AppliedIn(mid))
  {
    hide *;
    InitInv();
    RunKeepsInvariant(Init, steps, s);
    MomentRead(s, steps1, mid, steps2, later);
  }

  lemma MomentRead(s: State, steps: seq<Step>, mid: State, steps': seq<Step>, later: State)
    requires Inv(s) && IsUpRun(s, steps, mid) && NoRotate(steps) && IsUpRun(mid, steps', later)
    ensures Inv(mid) && mid.Running? && Inv(later) && later.Running?
    ensures NewerFlushed(mid, later) == [] ==>
              ApplyAll(later.disk.store, TablePuts(s.mem.sealed + [mid.mem.active])) == Fold(AppliedIn(mid))
  {
    hide Effect, Kept, Applied, TablePuts, ApplyAll, Fold, TablesInv, TouchedBy, NewerFlushed, Lookup;
    CellRead(s, steps, mid, steps', later, KVCell([]));
    var puts := TablePuts(s.mem.sealed + [mid.mem.active]);
    var seen, want := ApplyAll(later.disk.store, puts), Fold(AppliedIn(mid));
    if NewerFlushed(mid, later) == [] {
      forall c: Cell ensures Lookup(seen, c) == Lookup(want, c) {
        CellRead(s, steps, mid, steps', later, c);
        TouchedNothing(c);
      }
      SameLookups(seen, want);
    }
  }

  lemma TouchedNothing(c: Cell)
    ensures !TouchedBy([], c)
  {
  }

  /** In every reachable state the layers together show every operation applied so far, none lost, none stale. */
  lemma LayersShowEverything(steps: seq<Step>, s: State)
    requires IsRun(Init, steps, s) && s.Running?
    ensures Inv(s)
    ensures ApplyAll(s.disk.store, TablePuts(s.mem.sealed + [s.mem.active])) == Fold(AppliedIn(s))
    ensures s.mem.cur == |s.disk.log| && s.mem.lost == map[] ==>
              ApplyAll(s.disk.store, TablePuts(s.mem.sealed + [s.mem.active])) == Contents(s.disk.log)
  {
    hide Effect, Kept, TablePuts, ApplyAll;
    ReadsAreConsistent(steps, s, [], s, [], s);
    ReachedWithin(AppliedIn(s), s.mem);
    KeptAll(s.disk.log, |s.disk.log|);
    assert Effects(s.disk.log, |s.disk.log|) + [] == Effects(s.disk.log, |s.disk.log|);
  }

  lemma ReachedWithin(ap: seq<Mutation>, mem: Memory)
    requires TablesOk(ap, mem)
    ensures Reached(ap, mem) <= |ap|
  {
    if mem.flush.Writing? {
      OldestFirst(ap, mem);
    }
  }

  /** The stores a read can meet are typed, as the reads require. */
  lemma ReachableStoreTyped(s: State)
    requires Inv(s) && s.Running?
    ensures TypedStore(s.disk.store)
  {
    var base := Fold(Durable(AppliedIn(s), s.mem));
    TypedKept(map[], Durable(AppliedIn(s), s.mem));
    if s.mem.flush.Writing? {
      TypedKept(base, s.mem.flush.ops[..s.mem.flush.committed]);
    }
  }

  // ---- Row reads ----

  /** The row's unnamed column is in the store, wanted, and in no copied table: a scan of the store leaves it out. */
  ghost predicate UnnamedHidden(puts: seq<Mutation>, store: Store, row: Bytes, keep: Bytes -> bool) {
    keep([]) && ColCell(row, []) in store && !TouchedBy(puts, ColCell(row, []))
  }

  /** A scan of the store differs from the store in that one column at most. */
  lemma ScanDiffers(puts: seq<Mutation>, store: Store, row: Bytes, keep: Bytes -> bool)
    requires TypedStore(store)
    ensures var seen := Filter(RowOf(ApplyAll(Scannable(store, row), puts), row), keep);
            var whole := Filter(RowOf(ApplyAll(store, puts), row), keep);
            if UnnamedHidden(puts, store, row, keep) then [] in whole && seen == whole - {[]} else seen == whole
  {
    hide ApplyAll, RowOf, LastTouch, TouchedBy;
    TypedKept(store, puts);
    TypedKept(Scannable(store, row), puts);
    var a, b := RowOf(ApplyAll(Scannable(store, row), puts), row), RowOf(ApplyAll(store, puts), row);
    forall col: Bytes
      ensures col != [] || TouchedBy(puts, ColCell(row, [])) || ColCell(row, []) !in store ==> ColumnAt(a, col) == ColumnAt(b, col)
      ensures col == [] && !TouchedBy(puts, ColCell(row, [])) ==> col !in a && (col in b <==> ColCell(row, []) in store)
    {
      var c := ColCell(row, col);
      RowOfLookup(ApplyAll(Scannable(store, row), puts), row, col);
      RowOfLookup(ApplyAll(store, puts), row, col);
      LastWriteWins(Scannable(store, row), puts, c);
      LastWriteWins(store, puts, c);
      LastTouchSome(puts, c);
    }
    if UnnamedHidden(puts, store, row, keep) {
      forall col | col != [] ensures (col in a <==> col in b) && (col in a ==> a[col] == b[col]) {
        assert ColumnAt(a, col) == ColumnAt(b, col);
      }
      assert Filter(a, keep) == Filter(b, keep) - {[]};
    } else {
      forall col | keep(col) ensures ColumnAt(a, col) == ColumnAt(b, col) {
      }
      SameColumns(a, b, keep);
    }
  }

  /**
   In every run, a row read returns the row as the fold of the operations applied at its moment has it, filtered, and
   not-found only if that is empty, if and only if the row's unnamed column is not hidden; a hidden one is the only
   column missing. Nothing newer may have been flushed, as for all reads.
   */
  lemma RowReadIsFold(steps: seq<Step>, s: State, steps1: seq<Step>, mid: State, steps2: seq<Step>, later: State,
                      row: Bytes, keep: Bytes -> bool)
    requires IsRun(Init, steps, s) && IsUpRun(s, steps1, mid) && NoRotate(steps1) && IsUpRun(mid, steps2, later)
    ensures Inv(mid) && mid.Running? && Inv(later) && later.Running? && TypedStore(later.disk.store)
    ensures NewerFlushed(mid, later) == [] ==>
              var tables := s.mem.sealed + [mid.mem.active];
              var want, seen := Filter(RowOf(Fold(AppliedIn(mid)), row), keep), RowSeen(tables, later.disk.store, row, keep);
              if UnnamedHidden(TablePuts(tables), later.disk.store, row, keep) then [] in want && seen == want - {[]}
              else seen == want
  {
    hide Effect, Kept, Applied, TablePuts, ApplyAll, RunningOk, RowOf;
    ReadsAreConsistent(steps, s, steps1, mid, steps2, later);
    ReachableStoreTyped(later);
    ScanDiffers(TablePuts(s.mem.sealed + [mid.mem.active]), later.disk.store, row, keep);
  }
}
