/**
 Runs that show where the engine's guarantees end. Each is a sequence of steps from the initial state. An entry that
 rotates a table out is one too large for what is left of it; one whose put fails is too large for any table.
 */
module Scenarios {
  import opened Basics
  import opened Cells
  import opened LogRecords
  import opened Engine
  import opened Reads
  import opened Snapshots
  import opened FlushQueue

  // ---- Building runs ----

  lemma Prepended(s: State, step: Step, rest: seq<Step>, s': State) returns (steps: seq<Step>)
    requires s.Running? && Enabled(s, step) && IsUpRun(Do(s, step), rest, s')
    ensures steps == [step] + rest && IsUpRun(s, steps, s')
  {
    steps := [step] + rest;
    assert steps[1..] == rest;
  }

  lemma NoSteps(s: State)
    requires s.Running?
    ensures IsUpRun(s, [], s)
  {
  }

  lemma {:induction false} UpRunsCompose(s: State, a: seq<Step>, s1: State, b: seq<Step>, s2: State)
    requires IsUpRun(s, a, s1) && IsUpRun(s1, b, s2)
    ensures IsUpRun(s, a + b, s2)
    decreases |a|
  {
    if a == [] {
      assert a + b == b;
    } else {
      assert (a + b)[0] == a[0] && (a + b)[1..] == a[1..] + b;
      UpRunsCompose(Do(s, a[0]), a[1..], s1, b, s2);
    }
  }

  lemma {:induction false} UpRunIsRun(s: State, steps: seq<Step>, s': State)
    requires IsUpRun(s, steps, s')
    ensures IsRun(s, steps, s') && s'.Running?
    decreases |steps|
  {
    if steps != [] {
      UpRunIsRun(Do(s, steps[0]), steps[1..], s');
    }
  }

  /** The engine just started on an empty directory. */
  const STARTED := Running(Disk([], map[], None), Memory(0, 0, EmptyTable, [], NoFlush, [], [], 0, 0, 0, map[]))

  lemma RunFromInit(steps: seq<Step>, s: State)
    requires IsUpRun(STARTED, steps, s)
    ensures IsRun(Init, [RecoverDone] + steps, s)
  {
    hide Do, Enabled;
    UpRunIsRun(STARTED, steps, s);
    StartsEmpty();
    assert ([RecoverDone] + steps)[1..] == steps;
  }

  lemma StartsEmpty()
    ensures Enabled(Init, RecoverDone) && Do(Init, RecoverDone) == STARTED
  {
  }

  /** A plain record with one operation, appended and put. */
  lemma WriteOne(s: State, r: Record, op: Mutation) returns (steps: seq<Step>, s': State)
    requires s.Running? && s.mem.cur == |s.disk.log| && s.mem.done == 0
    requires r.lsn == s.mem.writeSeen + 1 && r.state.TxnNone? && Effect(s.disk.log + [r], |s.disk.log|) == [op]
    ensures IsUpRun(s, steps, s') && AllFit(steps)
    ensures var t := s.mem.active;
            s' == s.(disk := s.disk.(log := s.disk.log + [r]),
                     mem := s.mem.(cur := s.mem.cur + 1, writeSeen := s.mem.writeSeen + 1,
                                   active := Table(t.puts + [op], Some(|s.disk.log|), t.offsetCount + 1)))
  {
    hide Effect, IsUpRun;
    var s1 := Do(s, Append(r));
    var s2 := Do(s1, Put);
    s' := Do(s2, Finish);
    NoSteps(s');
    steps := Prepended(s2, Finish, [], s');
    steps := Prepended(s1, Put, steps, s');
    steps := Prepended(s, Append(r), steps, s');
  }

  /** The oldest sealed table, flushed in one batch and dropped. */
  lemma FlushOldest(s: State) returns (steps: seq<Step>, s': State)
    requires s.Running? && s.mem.flush.NoFlush? && s.mem.sealed != [] && s.mem.sealed[0].puts != []
    requires FlushOrder(s.mem.sealed[0].puts, s.mem.sealed[0].puts) && !AnyRefused(s.mem.sealed[0].puts)
    ensures IsUpRun(s, steps, s') && s'.Running? && AllFit(steps)
    ensures s'.disk == s.disk.(store := ApplyAll(s.disk.store, s.mem.sealed[0].puts))
    ensures s'.mem == s.mem.(sealed := s.mem.sealed[1..], opsFlushed := s'.mem.opsFlushed,
                             pending := s.mem.pending + [Meta(s.mem.sealed[0].lastOffset, s'.mem.opsFlushed)])
    ensures s'.mem.opsFlushed == s.mem.opsFlushed + s.mem.sealed[0].offsetCount + ChunkCount(s.mem.sealed[0].puts)
  {
    hide Effect, IsUpRun, ApplyAll, FlushOrder, ChunkCount;
    var p := s.mem.sealed[0].puts;
    assert p[0..|p|] == p;
    var s1 := Do(s, FlushStart(p));
    var s2 := Do(s1, FlushCommit(|p|));
    var s3 := Do(s2, FlushEnd);
    s' := Do(s3, FlushDrop);
    NoSteps(s');
    steps := Prepended(s3, FlushDrop, [], s');
    steps := Prepended(s2, FlushEnd, steps, s');
    steps := Prepended(s1, FlushCommit(|p|), steps, s');
    steps := Prepended(s, FlushStart(p), steps, s');
  }

  /** A plain record with one operation that does not fit the active table any more. */
  lemma WriteRotating(s: State, r: Record, op: Mutation) returns (steps: seq<Step>, s': State)
    requires s.Running? && s.mem.cur == |s.disk.log| && s.mem.done == 0 && s.mem.active.puts != []
    requires r.lsn == s.mem.writeSeen + 1 && r.state.TxnNone? && Effect(s.disk.log + [r], |s.disk.log|) == [op]
    ensures IsUpRun(s, steps, s') && AllFit(steps)
    ensures s' == s.(disk := s.disk.(log := s.disk.log + [r]),
                     mem := s.mem.(cur := s.mem.cur + 1, writeSeen := s.mem.writeSeen + 1,
                                   sealed := s.mem.sealed + [s.mem.active], active := Table([op], Some(|s.disk.log|), 1)))
  {
    hide Effect, IsUpRun;
    var s1 := Do(s, Append(r));
    var s2 := Do(s1, Rotate);
    var s3 := Do(s2, Put);
    s' := Do(s3, Finish);
    NoSteps(s');
    steps := Prepended(s3, Finish, [], s');
    steps := Prepended(s2, Put, steps, s');
    steps := Prepended(s1, Rotate, steps, s');
    steps := Prepended(s, Append(r), steps, s');
  }

  /** Any list of operations on one row may be flushed as it is. */
  lemma RowOrder(ops: seq<Mutation>, row: Bytes)
    requires forall m :: m in ops ==> GroupOf(m) == RowGroup(row)
    ensures FlushOrder(ops, ops)
  {
    forall g: Group ensures Project(ops, g) == Flushed(ops, g) {
      ProjectInGroup(ops, g);
      if g != RowGroup(row) && Project(ops, g) != [] {
        assert Project(ops, g)[0] in Project(ops, g);
        assert false;
      }
    }
  }

  function RowPut(lsn: nat, row: Bytes, columns: Columns): Record {
    Record(lsn, Insert, TxnNone, Row, [], None, [Entry(row, [], columns)], 0)
  }

  lemma RowPutEffect(log: Log, lsn: nat, row: Bytes, columns: Columns)
    ensures Effect(log + [RowPut(lsn, row, columns)], |log|) == [SetCells(row, columns)]
  {
    var l := log + [RowPut(lsn, row, columns)];
    assert l[|log|] == RowPut(lsn, row, columns);
    assert Front(l[|log|].entries) == [];
  }

  function PlainPut(lsn: nat, key: Bytes, value: Bytes): Record {
    Record(lsn, Insert, TxnNone, KV, [], None, [Entry(key, value, map[])], 0)
  }

  lemma PlainPutEffect(log: Log, lsn: nat, key: Bytes, value: Bytes)
    ensures Effect(log + [PlainPut(lsn, key, value)], |log|) == [PutKV(key, value)]
  {
    var l := log + [PlainPut(lsn, key, value)];
    assert l[|log|] == PlainPut(lsn, key, value);
    assert Front(l[|log|].entries) == [];
  }

  // ---- A column without a name ----

  /**
   A column with an empty name can be read while it is in a memtable, and not once it has been flushed. The write of
   another key rotates its table out.
   */
  lemma UnnamedColumnDisappears(row: Bytes, v: Bytes, key: Bytes, value: Bytes)
    returns (before: seq<Step>, s: State, after: seq<Step>, later: State)
    requires |row| <= MAX_KEY_SIZE
    ensures IsRun(Init, before, s) && s.Running? && IsUpRun(s, after, later) && later.Running?
    ensures var keep := _ => true;
            && RowSeen(s.mem.sealed + [s.mem.active], s.disk.store, row, keep) == map[[] := v]
            && !RowMissing(s.mem.active, s.mem.sealed, s.disk.store, row, keep)
            && RowMissing(later.mem.active, later.mem.sealed, later.disk.store, row, keep)
    ensures ColumnAt(RowOf(Contents(later.disk.log), row), []) == Some(Plain(v))
  {
    hide Effect, IsUpRun, ApplyAll, IsRun;
    var cols: Columns := map[[] := v];
    var r, op := RowPut(1, row, cols), SetCells(row, cols);
    RowPutEffect([], 1, row, cols);
    PlainPutEffect([r], 2, key, value);
    assert [] + [r] == [r] && [] + [op] == [op];
    var steps, flush, write, mid;
    steps, s := WriteOne(STARTED, r, op);
    RunFromInit(steps, s);
    before := [RecoverDone] + steps;
    write, mid := WriteRotating(s, PlainPut(2, key, value), PutKV(key, value));
    RowOrder([op], row);
    assert row + [] == row;
    flush, later := FlushOldest(mid);
    after := write + flush;
    UpRunsCompose(s, write, mid, flush, later);
    UnnamedSeen(row, v, key, value, s, later);
  }

  lemma UnnamedSeen(row: Bytes, v: Bytes, key: Bytes, value: Bytes, s: State, later: State)
    requires var op := SetCells(row, map[[] := v]);
             && s.Running? && s.mem.sealed == [] && s.mem.active.puts == [op] && s.disk.store == map[]
             && later.Running? && later.mem.sealed == [] && later.mem.active.puts == [PutKV(key, value)]
             && later.disk.store == ApplyAll(map[], [op])
             && later.disk.log == [RowPut(1, row, map[[] := v])] + [PlainPut(2, key, value)]
    ensures var keep := _ => true;
            && RowSeen(s.mem.sealed + [s.mem.active], s.disk.store, row, keep) == map[[] := v]
            && !RowMissing(s.mem.active, s.mem.sealed, s.disk.store, row, keep)
            && RowMissing(later.mem.active, later.mem.sealed, later.disk.store, row, keep)
    ensures ColumnAt(RowOf(Contents(later.disk.log), row), []) == Some(Plain(v))
  {
    hide RowOf, Effect, Apply, Effects;
    var op := SetCells(row, map[[] := v]);
    ApplyOne(map[], op);
    OneCell(ApplyAll(map[], [op]), row, v);
    OneTable(s.mem.active);
    OneTable(later.mem.active);
    assert [] + [s.mem.active] == [s.mem.active] && [] + [later.mem.active] == [later.mem.active];
    assert Scannable(map[], row) == map[];
    OneVersion(op, row);
    NoVersion(PutKV(key, value), row);
    UnnamedLogged(row, v, key, value);
  }

  lemma UnnamedLogged(row: Bytes, v: Bytes, key: Bytes, value: Bytes)
    ensures var log := [RowPut(1, row, map[[] := v])] + [PlainPut(2, key, value)];
            ColumnAt(RowOf(Contents(log), row), []) == Some(Plain(v))
  {
    hide RowOf, Effect, Apply, ApplyAll;
    var r, q, op := RowPut(1, row, map[[] := v]), PlainPut(2, key, value), SetCells(row, map[[] := v]);
    var log, c := [r] + [q], ColCell(row, []);
    RowPutEffect([], 1, row, map[[] := v]);
    PlainPutEffect([r], 2, key, value);
    assert [] + [r] == [r];
    EffectsAppend([], r);
    EffectsAppend([r], q);
    assert Effects([], 0) == [];
    var ms := [op] + [PutKV(key, value)];
    assert Effects(log, 2) == ms;
    LastTouchConcat([op], [PutKV(key, value)], c);
    LastTouchSnoc([], op, c);
    LastTouchSnoc([], PutKV(key, value), c);
    assert [] + [op] == [op] && [] + [PutKV(key, value)] == [PutKV(key, value)];
    LastWriteWins(map[], ms, c);
    TypedKept(map[], ms);
    RowOfLookup(Fold(ms), row, []);
  }

  lemma OneTable(t: Table)
    ensures TablePuts([t]) == t.puts
  {
    assert [t][1..] == [];
  }

  lemma OneVersion(op: Mutation, row: Bytes)
    requires GroupOf(op) == RowGroup(row)
    ensures Project([op], RowGroup(row)) == [op]
  {
    assert Front([op]) == [];
  }

  lemma NoVersion(op: Mutation, row: Bytes)
    requires GroupOf(op) != RowGroup(row)
    ensures Project([op], RowGroup(row)) == []
  {
    assert Front([op]) == [];
  }

  lemma OneCell(st: Store, row: Bytes, v: Bytes)
    requires st == Apply(map[], SetCells(row, map[[] := v]))
    ensures RowOf(st, row) == map[[] := v]
  {
    var op := SetCells(row, map[[] := v]);
    forall c: Cell ensures Lookup(st, c) == if c == ColCell(row, []) then Some(Plain(v)) else None {
      ApplyLookup(map[], op, c);
    }
    assert ColCell(row, []) in st && Lookup(st, ColCell(row, [])) == Some(Plain(v));
    assert RowOf(st, row).Keys == {[]};
  }

  // ---- A newer table flushed during a read ----

  /**
   The tables are copied while they hold one write of column c. Then c and d are overwritten, another write follows, and
   everything but that is flushed before the store is read. The row read finds the old c, from the table, and the new d,
   from the store: a row that no prefix of the log ever had.
   */
  lemma NewerFlushMixesMoments(row: Bytes, c: Bytes, d: Bytes, v: Bytes, w: Bytes, key: Bytes, value: Bytes)
    returns (before: seq<Step>, s: State, after: seq<Step>, later: State)
    requires c != d && v != w && c != [] && d != [] && |row + c| <= MAX_KEY_SIZE && |row + d| <= MAX_KEY_SIZE
    ensures IsRun(Init, before, s) && s.Running? && IsUpRun(s, after, later) && later.Running?
    ensures !RowMissing(s.mem.active, s.mem.sealed, later.disk.store, row, _ => true)
    ensures var seen := RowSeen(s.mem.sealed + [s.mem.active], later.disk.store, row, _ => true);
            && ColumnAt(seen, c) == Some(Plain(v)) && ColumnAt(seen, d) == Some(Plain(w))
            && forall n :: 0 <= n <= |later.disk.log| ==> seen != RowOf(Fold(Effects(later.disk.log, n)), row)
  {
    hide Effect, IsUpRun, ApplyAll, IsRun, RowSeen, RowMissing, RowOf, Effects, Do, Enabled, Refused, AnyRefused,
      FlushOrder, ChunkCount, AllFit, ColumnAt;
    var x, y, z := SetCells(row, map[c := v]), SetCells(row, map[c := w]), SetCells(row, map[d := w]);
    var r1, r2, r3 := RowPut(1, row, map[c := v]), RowPut(2, row, map[c := w]), RowPut(3, row, map[d := w]);
    RowPutEffect([], 1, row, map[c := v]);
    RowPutEffect([r1], 2, row, map[c := w]);
    RowPutEffect([r1, r2], 3, row, map[d := w]);
    PlainPutEffect([r1, r2, r3], 4, key, value);
    assert [] + [r1] == [r1] && [r1] + [r2] == [r1, r2] && [r1, r2] + [r3] == [r1, r2, r3];
    assert [] + [x] == [x] && [y] + [z] == [y, z];
    var steps, more, s1, s2, s3;
    steps, s := WriteOne(STARTED, r1, x);
    RunFromInit(steps, s);
    before := [RecoverDone] + steps;
    after, s1 := WriteRotating(s, r2, y);
    more, s2 := WriteOne(s1, r3, z);
    UpRunsCompose(s, after, s1, more, s2);
    after := after + more;
    more, s3 := WriteRotating(s2, PlainPut(4, key, value), PutKV(key, value));
    UpRunsCompose(s, after, s2, more, s3);
    after := after + more;
    RowOrder([x], row);
    RowOrder([y, z], row);
    RowAccepted(row, c, d, v, w);
    more, later := FlushTwo(s3);
    UpRunsCompose(s, after, s3, more, later);
    after := after + more;
    assert later.disk.log == [r1, r2, r3] + [PlainPut(4, key, value)];
    MixedRow(row, c, d, v, w, s, later);
    NoPrefix(row, c, d, v, w, key, value, RowSeen(s.mem.sealed + [s.mem.active], later.disk.store, row, _ => true));
  }

  /** Two sealed tables, flushed one after the other. */
  lemma FlushTwo(s: State) returns (steps: seq<Step>, s': State)
    requires s.Running? && s.mem.flush.NoFlush? && |s.mem.sealed| == 2
    requires forall t :: t in s.mem.sealed ==> t.puts != [] && FlushOrder(t.puts, t.puts) && !AnyRefused(t.puts)
    ensures IsUpRun(s, steps, s') && s'.Running?
    ensures s'.disk == s.disk.(store := ApplyAll(ApplyAll(s.disk.store, s.mem.sealed[0].puts), s.mem.sealed[1].puts))
  {
    hide Effect, IsUpRun, ApplyAll, Do, Enabled, AnyRefused, FlushOrder, ChunkCount, AllFit;
    assert s.mem.sealed[0] in s.mem.sealed && s.mem.sealed[1] in s.mem.sealed;
    var more, mid;
    steps, mid := FlushOldest(s);
    more, s' := FlushOldest(mid);
    UpRunsCompose(s, steps, mid, more, s');
    steps := steps + more;
  }

  lemma RowAccepted(row: Bytes, c: Bytes, d: Bytes, v: Bytes, w: Bytes)
    requires |row + c| <= MAX_KEY_SIZE && |row + d| <= MAX_KEY_SIZE
    ensures !AnyRefused([SetCells(row, map[c := v])])
    ensures !AnyRefused([SetCells(row, map[c := w]), SetCells(row, map[d := w])])
  {
  }

  lemma MixedRow(row: Bytes, c: Bytes, d: Bytes, v: Bytes, w: Bytes, s: State, later: State)
    requires c != d && v != w && c != [] && d != []
    requires var x, y, z := SetCells(row, map[c := v]), SetCells(row, map[c := w]), SetCells(row, map[d := w]);
             && s.Running? && s.mem.sealed == [] && s.mem.active.puts == [x]
             && later.disk.store == ApplyAll(ApplyAll(map[], [x]), [y, z])
    ensures !RowMissing(s.mem.active, s.mem.sealed, later.disk.store, row, _ => true)
    ensures var seen := RowSeen(s.mem.sealed + [s.mem.active], later.disk.store, row, _ => true);
            && ColumnAt(seen, c) == Some(Plain(v)) && ColumnAt(seen, d) == Some(Plain(w))
  {
    hide ApplyAll, RowOf, Effect, Effects;
    var x, y, z := SetCells(row, map[c := v]), SetCells(row, map[c := w]), SetCells(row, map[d := w]);
    OneTable(s.mem.active);
    assert [] + [s.mem.active] == [s.mem.active];
    OneVersion(x, row);
    var base := Scannable(later.disk.store, row);
    var st := ApplyAll(base, [x]);
    var cc, dd := ColCell(row, c), ColCell(row, d);
    LastWriteWins(ApplyAll(map[], [x]), [y, z], dd);
    LastTouchSnoc([y], z, dd);
    assert [y] + [z] == [y, z];
    ApplyOne(base, x);
    ApplyLookup(base, x, cc);
    ApplyLookup(base, x, dd);
    TypedKept(map[], [x]);
    TypedKept(ApplyAll(map[], [x]), [y, z]);
    TypedKept(base, [x]);
    RowOfLookup(st, row, c);
    RowOfLookup(st, row, d);
    assert RowSeen([s.mem.active], later.disk.store, row, _ => true) == RowOf(st, row);
  }

  /** No prefix of the log has the old c and a d. */
  lemma NoPrefix(row: Bytes, c: Bytes, d: Bytes, v: Bytes, w: Bytes, key: Bytes, value: Bytes, seen: Columns)
    requires c != d && v != w && ColumnAt(seen, c) == Some(Plain(v)) && ColumnAt(seen, d).Some?
    ensures var log := [RowPut(1, row, map[c := v]), RowPut(2, row, map[c := w]), RowPut(3, row, map[d := w])] +
                       [PlainPut(4, key, value)];
            forall n :: 0 <= n <= |log| ==> seen != RowOf(Fold(Effects(log, n)), row)
  {
    hide RowOf, Effects, ApplyAll, Touches, LastTouch;
    var log := [RowPut(1, row, map[c := v]), RowPut(2, row, map[c := w]), RowPut(3, row, map[d := w])] + [PlainPut(4, key, value)];
    var ops := [SetCells(row, map[c := v]), SetCells(row, map[c := w]), SetCells(row, map[d := w]), PutKV(key, value)];
    forall n | 0 <= n <= |log| ensures seen != RowOf(Fold(Effects(log, n)), row) {
      FourEffects(log, row, c, d, v, w, key, value, n);
      TypedKept(map[], ops[..n]);
      RowOfLookup(Fold(ops[..n]), row, c);
      RowOfLookup(Fold(ops[..n]), row, d);
      LastWriteWins(map[], ops[..n], ColCell(row, c));
      LastWriteWins(map[], ops[..n], ColCell(row, d));
      FourTouches(row, c, d, v, w, key, value, n);
    }
  }

  lemma FourTouches(row: Bytes, c: Bytes, d: Bytes, v: Bytes, w: Bytes, key: Bytes, value: Bytes, n: nat)
    requires n <= 4 && c != d
    ensures var ops := [SetCells(row, map[c := v]), SetCells(row, map[c := w]), SetCells(row, map[d := w]), PutKV(key, value)];
            if n < 3 then LastTouch(ops[..n], ColCell(row, d)) == None
            else LastTouch(ops[..n], ColCell(row, c)) == Some(Some(Plain(w)))
  {
    var ops := [SetCells(row, map[c := v]), SetCells(row, map[c := w]), SetCells(row, map[d := w]), PutKV(key, value)];
    if n < 3 {
      LastTouchSome(ops[..n], ColCell(row, d));
    } else {
      assert ops[..n] == [ops[0]] + [ops[1]] + ops[2..n];
      LastTouchConcat([ops[0]] + [ops[1]], ops[2..n], ColCell(row, c));
      LastTouchSome(ops[2..n], ColCell(row, c));
      LastTouchSnoc([ops[0]], ops[1], ColCell(row, c));
    }
  }

  lemma NoEffects(log: Log)
    ensures Effects(log, 0) == []
  {
  }

  lemma FourEffects(log: Log, row: Bytes, c: Bytes, d: Bytes, v: Bytes, w: Bytes, key: Bytes, value: Bytes, n: nat)
    requires n <= 4
    requires log == [RowPut(1, row, map[c := v]), RowPut(2, row, map[c := w]), RowPut(3, row, map[d := w])] +
                    [PlainPut(4, key, value)]
    ensures Effects(log, n) ==
            [SetCells(row, map[c := v]), SetCells(row, map[c := w]), SetCells(row, map[d := w]), PutKV(key, value)][..n]
  {
    hide Effect, Effects;
    var r1, r2, r3, r4 := log[0], log[1], log[2], log[3];
    RowPutEffect([], 1, row, map[c := v]);
    RowPutEffect([r1], 2, row, map[c := w]);
    RowPutEffect([r1, r2], 3, row, map[d := w]);
    PlainPutEffect([r1, r2, r3], 4, key, value);
    assert log == ([] + [r1]) + [r2, r3, r4] && log == ([r1] + [r2]) + [r3, r4] && log == ([r1, r2] + [r3]) + [r4];
    EffectStable([] + [r1], [r2, r3, r4], 0);
    EffectStable([r1] + [r2], [r3, r4], 1);
    EffectStable([r1, r2] + [r3], [r4], 2);
    EffectsStep(log, 0);
    EffectsStep(log, 1);
    EffectsStep(log, 2);
    EffectsStep(log, 3);
    NoEffects(log);
    var m1, m2, m3, m4 := SetCells(row, map[c := v]), SetCells(row, map[c := w]), SetCells(row, map[d := w]), PutKV(key, value);
    assert Effects(log, 1) == [m1] && Effects(log, 2) == [m1, m2] && Effects(log, 3) == [m1, m2, m3];
    assert [m1, m2, m3, m4][..1] == [m1] && [m1, m2, m3, m4][..2] == [m1, m2] && [m1, m2, m3, m4][..3] == [m1, m2, m3];
  }

  // ---- An entry too large for any memtable ----

  /** A record is appended and its only put fails; the active table is rotated out. */
  lemma PutOneFails(s: State, r: Record, op: Mutation) returns (steps: seq<Step>, s': State)
    requires s.Running? && s.mem.cur == |s.disk.log| && s.mem.done == 0
    requires r.lsn == s.mem.writeSeen + 1 && Effect(s.disk.log + [r], |s.disk.log|) == [op]
    ensures IsUpRun(s, steps, s')
    ensures s' == s.(disk := s.disk.(log := s.disk.log + [r]),
                     mem := s.mem.(cur := s.mem.cur + 1, writeSeen := s.mem.writeSeen + 1,
                                   sealed := s.mem.sealed + [s.mem.active], active := EmptyTable,
                                   lost := s.mem.lost[|s.disk.log| := 0]))
  {
    hide Effect, IsUpRun;
    var s1 := Do(s, Append(r));
    s' := Do(s1, PutFails);
    NoSteps(s');
    steps := Prepended(s1, PutFails, [], s');
    steps := Prepended(s, Append(r), steps, s');
  }

  /** The newest queued checkpoint is saved. */
  lemma SaveLast(s: State, pos: nat) returns (steps: seq<Step>, s': State)
    requires s.Running? && s.mem.pending != [] && Last(s.mem.pending).pos == Some(pos) && s.mem.saving == []
    ensures IsUpRun(s, steps, s') && AllFit(steps) && s'.Running? && s'.mem.lost == s.mem.lost
    ensures s'.disk == s.disk.(checkpoint := Some(Checkpoint(pos, Last(s.mem.pending).count)))
  {
    hide Effect, IsUpRun;
    var s1 := Do(s, Dequeue);
    s' := Do(s1, SaveMeta(0));
    NoSteps(s');
    steps := Prepended(s1, SaveMeta(0), [], s');
    steps := Prepended(s, Dequeue, steps, s');
  }

  function FourPuts(k: seq<Bytes>, v: seq<Bytes>): Log
    requires |k| == |v| == 4
  {
    [PlainPut(1, k[0], v[0]), PlainPut(2, k[1], v[1]), PlainPut(3, k[2], v[2]), PlainPut(4, k[3], v[3])]
  }

  /**
   Key 1 is too large for any memtable: it is in the log but in no table. Keys 0 and 2 are put before and after it, and
   key 3 rotates the table of key 2 out. With that table's checkpoint saved, recovery no longer brings key 1 back.
   */
  lemma OversizeEntryLost(k: seq<Bytes>, v: seq<Bytes>) returns (steps: seq<Step>, s: State)
    requires |k| == |v| == 4 && k[1] !in {k[0], k[2], k[3]} && |k[0]| <= MAX_KEY_SIZE && |k[2]| <= MAX_KEY_SIZE
    ensures IsRun(Init, steps, s) && StartOf(s.disk) <= |s.disk.log|
    ensures Lookup(Contents(s.disk.log), KVCell(k[1])) == Some(Plain(v[1]))
    ensures Lookup(Recovered(s.disk, |s.disk.log|), KVCell(k[1])) == None
  {
    hide Effect, IsUpRun, ApplyAll, IsRun, Effects, Kept, Recovered, Lookup, LastTouch, Do, Enabled;
    var log := FourPuts(k, v);
    PutEffects(k, v);
    assert [] + [log[0]] == log[..1] && log[..1] + [log[1]] == log[..2];
    assert log[..2] + [log[2]] == log[..3] && log[..3] + [log[3]] == log;
    assert [] + [PutKV(k[0], v[0])] == [PutKV(k[0], v[0])] && [] + [PutKV(k[2], v[2])] == [PutKV(k[2], v[2])];
    var more, s1, s2, s3, s4, s5, s6;
    steps, s1 := WriteOne(STARTED, log[0], PutKV(k[0], v[0]));
    more, s2 := PutOneFails(s1, log[1], PutKV(k[1], v[1]));
    UpRunsCompose(STARTED, steps, s1, more, s2);
    steps := steps + more;
    more, s3 := WriteOne(s2, log[2], PutKV(k[2], v[2]));
    UpRunsCompose(STARTED, steps, s2, more, s3);
    steps := steps + more;
    more, s4 := WriteRotating(s3, log[3], PutKV(k[3], v[3]));
    UpRunsCompose(STARTED, steps, s3, more, s4);
    steps := steps + more;
    KVOrder(PutKV(k[0], v[0]));
    KVOrder(PutKV(k[2], v[2]));
    more, s5 := FlushOldest(s4);
    UpRunsCompose(STARTED, steps, s4, more, s5);
    steps := steps + more;
    more, s6 := FlushOldest(s5);
    UpRunsCompose(STARTED, steps, s5, more, s6);
    steps := steps + more;
    more, s := SaveLast(s6, 2);
    UpRunsCompose(STARTED, steps, s6, more, s);
    RunFromInit(steps + more, s);
    steps := [RecoverDone] + (steps + more);
    RecoveredCell(steps, s, KVCell(k[1]));
    assert Crashed(s).lost == map[1 := 0];
    LostContents(k, v);
  }

  lemma KVOrder(op: Mutation)
    ensures FlushOrder([op], [op])
  {
    assert Front([op]) == [];
  }

  lemma PutEffects(k: seq<Bytes>, v: seq<Bytes>)
    requires |k| == |v| == 4
    ensures var log := FourPuts(k, v);
            forall i :: 0 <= i < 4 ==> Effect(log, i) == Effect(log[..i] + [log[i]], |log[..i]|) == [PutKV(k[i], v[i])]
  {
    hide Effect;
    var log := FourPuts(k, v);
    forall i | 0 <= i < 4 ensures Effect(log, i) == Effect(log[..i] + [log[i]], |log[..i]|) == [PutKV(k[i], v[i])] {
      PlainPutEffect(log[..i], i + 1, k[i], v[i]);
      assert log == (log[..i] + [log[i]]) + log[i + 1..];
      EffectStable(log[..i] + [log[i]], log[i + 1..], i);
    }
  }

  lemma LostContents(k: seq<Bytes>, v: seq<Bytes>)
    requires |k| == |v| == 4 && k[1] !in {k[0], k[2], k[3]}
    ensures var log := FourPuts(k, v);
            && Lookup(Contents(log), KVCell(k[1])) == Some(Plain(v[1]))
            && LastTouch(Kept(log, map[1 := 0], 4), KVCell(k[1])) == None
  {
    hide Effect, ApplyAll, LastTouch;
    var log, lost: Lost, c := FourPuts(k, v), map[1 := 0], KVCell(k[1]);
    PutEffects(k, v);
    var m := seq(4, i requires 0 <= i < 4 => PutKV(k[i], v[i]));
    forall i: nat | i < 4 ensures Effects(log, i + 1) == Effects(log, i) + [m[i]]
      ensures Kept(log, lost, i + 1) == Kept(log, lost, i) + if i == 1 then [] else [m[i]]
    {
      EffectsStep(log, i);
      KeptStep(log, lost, i);
    }
    assert Effects(log, 0) == [] && Kept(log, lost, 0) == [];
    assert Effects(log, 4) == [m[0]] + [m[1]] + [m[2], m[3]] && Kept(log, lost, 4) == [m[0], m[2], m[3]];
    LastTouchSome(Kept(log, lost, 4), c);
    LastTouchSome([m[2], m[3]], c);
    LastTouchConcat([m[0]] + [m[1]], [m[2], m[3]], c);
    LastTouchSnoc([m[0]], m[1], c);
    LastWriteWins(map[], Effects(log, 4), c);
  }

  /**
   The same entry as the first write after a start seals an empty table. From then on nothing is flushed and no
   checkpoint is saved until the next start, however much is written; and that start recovers everything.
   */
  lemma OversizeEntryBlocksFlush(k: Bytes, v: Bytes) returns (steps: seq<Step>, s: State)
    ensures IsRun(Init, steps, s) && Blocked(s)
    ensures forall more, later :: IsUpRun(s, more, later) ==>
              && Blocked(later) && later.disk.store == map[] && later.disk.checkpoint == None
              && Recovered(later.disk, |later.disk.log|) == Contents(later.disk.log)
  {
    hide Effect, IsUpRun, ApplyAll, IsRun, Effects, Kept, Recovered, Fold;
    PlainPutEffect([], 1, k, v);
    steps, s := PutOneFails(STARTED, PlainPut(1, k, v), PutKV(k, v));
    RunFromInit(steps, s);
    steps := [RecoverDone] + steps;
    forall more, later | IsUpRun(s, more, later)
      ensures Blocked(later) && later.disk.store == map[] && later.disk.checkpoint == None
      ensures Recovered(later.disk, |later.disk.log|) == Contents(later.disk.log)
    {
      BlockedStays(s, more, later);
      assert s.mem.pending + s.mem.saving == [];
      UpRunIsRun(s, more, later);
      RunsCompose(Init, steps, s, more, later);
      CrashRecovery(steps + more, later);
      assert Crashed(later).lost == map[];
    }
  }

  lemma {:induction false} RunsCompose(s: State, a: seq<Step>, s1: State, b: seq<Step>, s2: State)
    requires IsRun(s, a, s1) && IsRun(s1, b, s2)
    ensures IsRun(s, a + b, s2)
    decreases |a|
  {
    hide Do, Enabled;
    if a == [] {
      assert a + b == b;
    } else {
      assert (a + b)[0] == a[0] && (a + b)[1..] == a[1..] + b;
      RunsCompose(Do(s, a[0]), a[1..], s1, b, s2);
    }
  }

  // ---- A checkpoint without a position ----

  function TwoPuts(lsn: nat, k1: Bytes, v1: Bytes, k2: Bytes, v2: Bytes): Record {
    Record(lsn, Insert, TxnNone, KV, [], None, [Entry(k1, v1, map[]), Entry(k2, v2, map[])], 0)
  }

  lemma TwoPutsEffect(k1: Bytes, v1: Bytes, k2: Bytes, v2: Bytes)
    ensures Effect([TwoPuts(1, k1, v1, k2, v2)], 0) == [PutKV(k1, v1), PutKV(k2, v2)]
  {
    var es := TwoPuts(1, k1, v1, k2, v2).entries;
    assert Front(es) == [es[0]] && Front([es[0]]) == [];
    assert EntryMutations(Insert, KV, [es[0]]) == [PutKV(k1, v1)];
    assert EntryMutations(Insert, KV, es) == [PutKV(k1, v1), PutKV(k2, v2)];
  }

  /**
   A batch of two entries, each of which fits a table but not both one table. The first table is sealed before the
   batch is finished, so it has no offset; once it has been flushed, saving its checkpoint ends the process.
   */
  lemma SplitBatchEndsProcess(k1: Bytes, v1: Bytes, k2: Bytes, v2: Bytes) returns (steps: seq<Step>, s: State)
    requires |k1| <= MAX_KEY_SIZE
    ensures IsRun(Init, steps, s) && AllFit(steps) && Enabled(s, SaveMeta(0)) && Do(s, SaveMeta(0)) == Crashed(s)
    ensures s.mem.cur == |s.disk.log| == 1
  {
    hide Effect, IsUpRun, ApplyAll, IsRun, AnyRefused, Do, Enabled;
    var r := TwoPuts(1, k1, v1, k2, v2);
    TwoPutsEffect(k1, v1, k2, v2);
    var more, last, s1, s2;
    steps, s1 := WriteSplit(r, PutKV(k1, v1), PutKV(k2, v2));
    KVOrder(PutKV(k1, v1));
    NotRefused(k1, v1);
    more, s2 := FlushOldest(s1);
    UpRunsCompose(STARTED, steps, s1, more, s2);
    last, s := TakeLast(s2);
    UpRunsCompose(STARTED, steps + more, s2, last, s);
    RunFromInit(steps + more + last, s);
    steps := [RecoverDone] + (steps + more + last);
  }

  /** A plain record with two operations, of which the second goes into a new table. */
  lemma WriteSplit(r: Record, op1: Mutation, op2: Mutation) returns (steps: seq<Step>, s: State)
    requires r.lsn == 1 && r.state.TxnNone? && Effect([r], 0) == [op1, op2]
    ensures IsUpRun(STARTED, steps, s) && AllFit(steps)
    ensures s == Running(Disk([r], map[], None),
                         Memory(1, 0, Table([op2], Some(0), 1), [Table([op1], None, 0)], NoFlush, [], [], 0, 1, 0, map[]))
  {
    hide Effect, IsUpRun;
    assert [] + [r] == [r] && [] + [op1] == [op1];
    var s1 := Do(STARTED, Append(r));
    var s2 := Do(s1, Put);
    var s3 := Do(s2, Rotate);
    var s4 := Do(s3, Put);
    s := Do(s4, Finish);
    NoSteps(s);
    steps := Prepended(s4, Finish, [], s);
    steps := Prepended(s3, Put, steps, s);
    steps := Prepended(s2, Rotate, steps, s);
    steps := Prepended(s1, Put, steps, s);
    steps := Prepended(STARTED, Append(r), steps, s);
  }

  /** The newest queued checkpoint is dequeued, and has no position. */
  lemma TakeLast(s: State) returns (steps: seq<Step>, s': State)
    requires s.Running? && s.mem.pending != [] && Last(s.mem.pending).pos.None? && s.mem.saving == []
    ensures IsUpRun(s, steps, s') && AllFit(steps) && s'.Running? && s'.disk == s.disk && s'.mem.cur == s.mem.cur
    ensures Enabled(s', SaveMeta(0)) && Do(s', SaveMeta(0)) == Crashed(s')
  {
    hide Effect, IsUpRun;
    s' := Do(s, Dequeue);
    NoSteps(s');
    steps := Prepended(s, Dequeue, [], s');
  }

  lemma NotRefused(k: Bytes, v: Bytes)
    requires |k| <= MAX_KEY_SIZE
    ensures !AnyRefused([PutKV(k, v)])
  {
  }

  // ---- A key the store refuses ----

  /**
   A key longer than the store allows is logged and put like any other. Once another write has rotated its table out,
   the flush ends the process, and no later start ever succeeds, although the log has no empty insert.
   */
  lemma OverlongKeyBlocksStart(k: Bytes, v: Bytes, k2: Bytes, v2: Bytes) returns (steps: seq<Step>, s: State)
    requires |k| > MAX_KEY_SIZE
    ensures IsRun(Init, steps, s) && AllFit(steps) && Enabled(s, FlushFails(1)) && Do(s, FlushFails(1)) == Crashed(s)
    ensures forall i :: 0 <= i < |s.disk.log| ==> !EmptyInsert(s.disk.log, i)
    ensures forall more, up :: IsRun(Crashed(s), more, up) ==> !up.Running?
  {
    hide Effect, IsUpRun, IsRun, EmptyInsert, Do, Enabled;
    var r, q, op := PlainPut(1, k, v), PlainPut(2, k2, v2), PutKV(k, v);
    PlainPutEffect([], 1, k, v);
    PlainPutEffect([r], 2, k2, v2);
    assert [] + [r] == [r] && [] + [op] == [op];
    var more, s1, s2;
    steps, s1 := WriteOne(STARTED, r, op);
    more, s2 := WriteRotating(s1, q, PutKV(k2, v2));
    UpRunsCompose(STARTED, steps, s1, more, s2);
    steps := steps + more;
    more, s := FlushStopped(s2, op);
    UpRunsCompose(STARTED, steps, s2, more, s);
    RunFromInit(steps + more, s);
    steps := [RecoverDone] + (steps + more);
    assert op in [op];
    EffectStable([] + [r], [q], 0);
    NotEmpty(s.disk.log, r, q);
    assert Unrecoverable(s.disk.log, 0);
    OpensIffRecoverable(steps, s);
  }

  /** A flush of a table with one refused operation is about to fail. */
  lemma FlushStopped(s: State, op: Mutation) returns (steps: seq<Step>, s': State)
    requires s.Running? && s.mem.flush.NoFlush? && s.mem.sealed != [] && s.mem.sealed[0].puts == [op] && Refused(op)
    ensures IsUpRun(s, steps, s') && AllFit(steps) && s'.Running? && s'.disk == s.disk
    ensures Enabled(s', FlushFails(1)) && Do(s', FlushFails(1)) == Crashed(s')
  {
    hide Effect, IsUpRun;
    KVOrder(op);
    s' := Do(s, FlushStart([op]));
    NoSteps(s');
    steps := Prepended(s, FlushStart([op]), [], s');
    assert NextBatch(s'.mem.flush, 1) == [op];
    assert op in [op];
  }

  lemma NotEmpty(log: Log, r: Record, q: Record)
    requires log == [r] + [q] && r.state.TxnNone? && q.state.TxnNone? && r.entries != [] && q.entries != []
    ensures forall i :: 0 <= i < |log| ==> !EmptyInsert(log, i)
  {
  }

  // ---- A transaction and its count ----

  /** Begin, one Prepare and Commit of a transaction that puts one key, or one object of one chunk. */
  function TxnRecords(kind: Kind, id: Bytes, k: Bytes, v: Bytes): Log {
    [Record(1, NoOperation, TxnBegin, kind, id, None, [], 0),
     Record(2, Insert, TxnPrepare, kind, id, Some(0), [Entry(k, v, map[])], 0),
     Record(3, Insert, TxnCommit, kind, id, Some(1), [Entry(k, [], map[])], 0)]
  }

  function TxnPut(kind: Kind, k: Bytes, v: Bytes): Mutation {
    if kind.KV? then PutKV(k, v) else SetLob(k, [v], 0)
  }

  lemma TxnEffects(kind: Kind, id: Bytes, k: Bytes, v: Bytes)
    requires !kind.Row?
    ensures var log := TxnRecords(kind, id, k, v);
            Effect(log, 0) == [] && Effect(log, 1) == [] && Effect(log, 2) == [TxnPut(kind, k, v)]
  {
    hide Walk, EntriesOf, ChunksOf, EntryMutations;
    var log, e := TxnRecords(kind, id, k, v), Entry(k, v, map[]);
    TxnChain(kind, id, k, v);
    OnePrepared(log[1], e);
    OneEntry(e);
  }

  lemma TxnChain(kind: Kind, id: Bytes, k: Bytes, v: Bytes)
    ensures var log := TxnRecords(kind, id, k, v); Prepared(log, 2) == [log[1]]
  {
    var log := TxnRecords(kind, id, k, v);
    assert Walk(log, 0) == [log[0]] && Walk(log, 1) == [log[0]] + [log[1]];
  }

  lemma OnePrepared(r: Record, e: Entry)
    requires r.entries == [e]
    ensures EntriesOf([r]) == [e] && ChunksOf([r]) == [e.value]
  {
    assert Front([r]) == [];
  }

  lemma OneEntry(e: Entry)
    ensures EntryMutations(Insert, KV, [e]) == [PutKV(e.key, e.value)]
  {
    assert Front([e]) == [];
  }

  /** The transaction is appended, committed and put. */
  lemma WriteTxn(kind: Kind, id: Bytes, k: Bytes, v: Bytes) returns (steps: seq<Step>, s: State)
    requires !kind.Row?
    ensures IsUpRun(STARTED, steps, s) && AllFit(steps)
    ensures s == Running(Disk(TxnRecords(kind, id, k, v), map[], None),
                         Memory(3, 0, Table([TxnPut(kind, k, v)], Some(2), if kind.KV? then 2 else 1),
                                [], NoFlush, [], [], 0, 3, 0, map[]))
  {
    hide Effect, IsUpRun, Do, Enabled;
    var more, s1;
    steps, s1 := AppendTxn(kind, id, k, v);
    more, s := PutTxn(s1, kind, id, k, v);
    UpRunsCompose(STARTED, steps, s1, more, s);
    steps := steps + more;
  }

  lemma AppendTxn(kind: Kind, id: Bytes, k: Bytes, v: Bytes) returns (steps: seq<Step>, s: State)
    ensures IsUpRun(STARTED, steps, s) && AllFit(steps)
    ensures s == Running(Disk(TxnRecords(kind, id, k, v), map[], None),
                         Memory(0, 0, EmptyTable, [], NoFlush, [], [], 0, 3, 0, map[]))
  {
    hide Effect, IsUpRun, Do, Enabled;
    var log := TxnRecords(kind, id, k, v);
    assert [] + [log[0]] == [log[0]] && [log[0]] + [log[1]] == [log[0], log[1]] && [log[0], log[1]] + [log[2]] == log;
    var s1 := AppendOne(STARTED, log[0]);
    var s2 := AppendOne(s1, log[1]);
    s := AppendOne(s2, log[2]);
    NoSteps(s);
    steps := Prepended(s2, Append(log[2]), [], s);
    steps := Prepended(s1, Append(log[1]), steps, s);
    steps := Prepended(STARTED, Append(log[0]), steps, s);
  }

  lemma PutTxn(s: State, kind: Kind, id: Bytes, k: Bytes, v: Bytes) returns (steps: seq<Step>, s': State)
    requires !kind.Row?
    requires s == Running(Disk(TxnRecords(kind, id, k, v), map[], None),
                          Memory(0, 0, EmptyTable, [], NoFlush, [], [], 0, 3, 0, map[]))
    ensures IsUpRun(s, steps, s') && AllFit(steps)
    ensures s' == s.(mem := s.mem.(cur := 3, active := Table([TxnPut(kind, k, v)], Some(2), if kind.KV? then 2 else 1)))
  {
    hide Effect, IsUpRun;
    TxnEffects(kind, id, k, v);
    assert [] + [TxnPut(kind, k, v)] == [TxnPut(kind, k, v)];
    var s1 := Do(s, Finish);
    var s2 := Do(s1, Finish);
    var s3 := Do(s2, Put);
    s' := Do(s3, Finish);
    NoSteps(s');
    steps := Prepended(s3, Finish, [], s');
    steps := Prepended(s2, Put, steps, s');
    steps := Prepended(s1, Finish, steps, s');
    steps := Prepended(s, Finish, steps, s');
  }

  /**
   A committed transaction in a flushed table has its checkpoint saved at the commit. With a key, the checkpoint counts
   the put and the commit, two of the three records; with an object, all three and the commit once more.
   */
  lemma TransactionCheckpoint(kind: Kind, id: Bytes, k: Bytes, v: Bytes, k2: Bytes, v2: Bytes)
    returns (steps: seq<Step>, s: State)
    requires !kind.Row? && |k| + 9 <= MAX_KEY_SIZE
    ensures IsRun(Init, steps, s) && AllFit(steps) && s.Running?
    ensures s.disk.log == TxnRecords(kind, id, k, v) + [PlainPut(4, k2, v2)] && s.mem.lost == map[]
    ensures s.disk.checkpoint == Some(Checkpoint(2, if kind.KV? then 2 else 4)) && s.disk.log[2].state.TxnCommit?
  {
    hide Effect, IsUpRun, IsRun, ApplyAll, Do, Enabled, FlushOrder;
    var log, op := TxnRecords(kind, id, k, v), TxnPut(kind, k, v);
    var more, s1, s2, s3;
    steps, s1 := WriteTxn(kind, id, k, v);
    PlainPutEffect(log, 4, k2, v2);
    more, s2 := WriteRotating(s1, PlainPut(4, k2, v2), PutKV(k2, v2));
    UpRunsCompose(STARTED, steps, s1, more, s2);
    steps := steps + more;
    KVOrder(op);
    assert s2.mem.sealed[0].puts == [op];
    more, s3 := FlushOldest(s2);
    UpRunsCompose(STARTED, steps, s2, more, s3);
    steps := steps + more;
    assert Front([op]) == [];
    more, s := SaveLast(s3, 2);
    UpRunsCompose(STARTED, steps, s3, more, s);
    RunFromInit(steps + more, s);
    steps := [RecoverDone] + (steps + more);
  }

  /**
   So after the next start, which adds the one record after the checkpoint to that count, the sequence number given out
   next is 4 with a key, which a record of the log already has, and 6 with an object, which leaves a gap.
   */
  lemma TransactionShiftsNumbers(kind: Kind, id: Bytes, k: Bytes, v: Bytes, k2: Bytes, v2: Bytes)
    returns (steps: seq<Step>, s: State)
    requires !kind.Row? && |k| + 9 <= MAX_KEY_SIZE && |k2| <= MAX_KEY_SIZE
    ensures IsRun(Init, steps, s) && AllFit(steps) && s.Running?
    ensures |s.disk.log| == 4 == s.disk.log[3].lsn && s.mem.writeSeen + 1 == if kind.KV? then 4 else 6
  {
    hide Effect, IsRun;
    var before, s0 := TransactionCheckpoint(kind, id, k, v, k2, v2);
    var log := s0.disk.log;
    PlainPutEffect(TxnRecords(kind, id, k, v), 4, k2, v2);
    NotRefused(k2, v2);
    assert log[3] == PlainPut(4, k2, v2) && !Unrecoverable(log, 3);
    var s1 := Do(s0, Crash);
    var s2 := Do(s1, RecoverRecord);
    s := Do(s2, RecoverDone);
    ThreeSteps(s0, Crash, RecoverRecord, RecoverDone);
    RunsCompose(Init, before, s0, [Crash, RecoverRecord, RecoverDone], s);
    steps := before + [Crash, RecoverRecord, RecoverDone];
  }

  lemma ThreeSteps(s: State, a: Step, b: Step, c: Step)
    requires Enabled(s, a) && Enabled(Do(s, a), b) && Enabled(Do(Do(s, a), b), c)
    ensures IsRun(s, [a, b, c], Do(Do(Do(s, a), b), c))
  {
    hide Do, Enabled;
    assert [a, b, c][1..] == [b, c] && [b, c][1..] == [c] && [c][1..] == [];
    var s1 := Do(s, a);
    var s2 := Do(s1, b);
    assert IsRun(s2, [c], Do(s2, c));
    assert IsRun(s1, [b, c], Do(s2, c));
  }

  // ---- An insert without entries ----

  /**
   A key-value transaction committed without a single put is accepted and makes the log one that recovery refuses:
   after the next crash the engine never opens again.
   */
  lemma EmptyInsertBlocksStart(id: Bytes) returns (steps: seq<Step>, s: State)
    ensures IsRun(Init, steps, s) && AllFit(steps) && WellFormed(s.disk.log) && !CanRecover(s.disk)
    ensures forall more, up :: IsRun(Crashed(s), more, up) ==> !up.Running?
  {
    hide Do, Enabled, Effect, IsUpRun, IsRun, WellFormed, EmptyInsert, Unrecoverable;
    var begin := Record(1, NoOperation, TxnBegin, KV, id, None, [], 0);
    var commit := Record(2, Insert, TxnCommit, KV, id, Some(0), [Entry([], [], map[])], 0);
    assert [] + [begin] == [begin] && [begin] + [commit] == [begin, commit];
    var s1 := AppendOne(STARTED, begin);
    s := AppendOne(s1, commit);
    NoSteps(s);
    steps := Prepended(s1, Append(commit), [], s);
    steps := Prepended(STARTED, Append(begin), steps, s);
    RunFromInit(steps, s);
    steps := [RecoverDone] + steps;
    EmptyCommit(s.disk.log, begin, commit);
    OpensIffRecoverable(steps, s);
  }

  lemma AppendOne(s: State, r: Record) returns (s': State)
    requires s.Running? && r.lsn == s.mem.writeSeen + 1
    ensures Enabled(s, Append(r)) && s' == Do(s, Append(r))
    ensures s' == s.(disk := s.disk.(log := s.disk.log + [r]), mem := s.mem.(writeSeen := s.mem.writeSeen + 1))
  {
    s' := Do(s, Append(r));
  }

  lemma EmptyCommit(log: Log, begin: Record, commit: Record)
    requires log == [begin, commit] && begin.state.TxnBegin? && begin.prev.None?
    requires commit.state.TxnCommit? && commit.prev == Some(0) && commit.kind.KV? && commit.op.Insert?
    ensures WellFormed(log) && EmptyInsert(log, 1) && Unrecoverable(log, 1)
  {
    assert Walk(log, 0) == [begin];
    assert Prepared(log, 1) == [];
  }
}
