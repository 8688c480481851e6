/**
 The storage engine as a state machine (dbkernel/engine.go, dbkernel/internal/recovery/wal_recovery.go).

 Durable state is the log, the B-tree store and the saved checkpoint. A crash loses everything else, at
 any step: in the middle of a record that spans two memtables, between two batches of one flush, between
 flushing and saving the checkpoint, or during recovery itself.
 */
module Engine {
  import opened Basics
  import opened Cells
  import opened LogRecords

  /** A memtable: the operations put into it in arrival order, and its offset bookkeeping. */
  datatype Table = Table(puts: seq<Mutation>, lastOffset: Option<nat>, offsetCount: nat)

  const EmptyTable := Table([], None, 0)

  /** Metadata queued by a flush: the table's last offset, which a table may lack, and the record count. */
  datatype Meta = Meta(pos: Option<nat>, count: nat)

  datatype Checkpoint = Checkpoint(pos: nat, count: nat)

  /** How far the flusher is with the oldest sealed table. */
  datatype Flush =
    | NoFlush
    | Writing(ops: seq<Mutation>, committed: nat)
    | Queued

  datatype Disk = Disk(log: Log, store: Store, checkpoint: Option<Checkpoint>)

  datatype Memory = Memory(
    cur: nat,            // the record being put into the memtables
    done: nat,           // how many of its operations have been put
    active: Table,
    sealed: seq<Table>,  // oldest first
    flush: Flush,
    pending: seq<Meta>,
    saving: seq<Meta>,   // dequeued, not yet stored
    opsFlushed: nat,
    writeSeen: nat,
    failed: nat,         // appends that failed since the start, each of which used up a sequence number
    lost: Lost)

  /** History: records of which a put failed, with the number of their operations that were put before it. */
  type Lost = map<nat, nat>

  datatype State =
    | Running(disk: Disk, mem: Memory)
    | Recovering(disk: Disk, next: nat, recovered: nat, lost: Lost)

  datatype Step =
    | Append(record: Record)
    | AppendFails
    | Put
    | PutFails
    | Finish
    | Rotate
    | FlushStart(ops: seq<Mutation>)
    | FlushCommit(n: nat)
    | FlushFails(n: nat)
    | FlushEnd
    | FlushDrop
    | Dequeue
    | SaveMeta(i: nat)
    | Crash
    | RecoverRecord
    | RecoverFails
    | RecoverDone

  // ---- The steps ----

  function StartOf(disk: Disk): nat {
    if disk.checkpoint.None? then 0 else disk.checkpoint.value.pos + 1
  }

  function CountOf(disk: Disk): nat {
    if disk.checkpoint.None? then 0 else disk.checkpoint.value.count
  }

  /** Failed puts of records before the checkpoint stay lost; later records will be replayed in full. */
  function Surviving(lost: Lost, start: nat): Lost {
    map i | i in lost && i < start :: lost[i]
  }

  function LostIn(s: State): Lost {
    if s.Running? then s.mem.lost else s.lost
  }

  /** The state after the process has died: only the disk is left, and recovery starts at the checkpoint. */
  function Crashed(s: State): State {
    Recovering(s.disk, StartOf(s.disk), 0, Surviving(LostIn(s), StartOf(s.disk)))
  }

  const Init := Recovering(Disk([], map[], None), 0, 0, map[])

  /** How a record is counted by recovery. */
  function RecoveredBy(log: Log, i: nat): nat
    requires i < |log|
  {
    match log[i].state
    case TxnNone => 1
    case TxnCommit => 2 + |Prepared(log, i)|
    case TxnBegin => 0
    case TxnPrepare => 0
  }

  function CountRecovered(log: Log, first: nat, end: nat): nat
    requires first <= end <= |log|
  {
    if end == first then 0 else CountRecovered(log, first, end - 1) + RecoveredBy(log, end - 1)
  }

  /** A record's offset is set once its operations are in the memtables; Begin and Prepare set none. */
  predicate SetsOffset(r: Record) {
    r.state.TxnNone? || r.state.TxnCommit?
  }

  /** Operations of a key-value or row transaction advance the offset count one by one. */
  predicate CountsEachPut(r: Record) {
    r.state.TxnCommit? && !r.kind.Chunked?
  }

  /** An operation of the current record is to be put. */
  predicate PutPending(s: State) {
    s.Running? && s.mem.cur < |s.disk.log| && s.mem.done < |Effect(s.disk.log, s.mem.cur)|
  }

  /**
   Whether an entry fits the active table, or any table, is left open. One that does not fit the active table rotates it
   out and goes into a new one, if it fits there; otherwise the put fails, and the table that was active, even an empty
   one, stays rotated out.
   */
  ghost predicate Enabled(s: State, step: Step) {
    match step
    case Append(r) => s.Running? && r.lsn == s.mem.writeSeen + 1
    case AppendFails => s.Running?
    case Put => PutPending(s)
    case PutFails => PutPending(s)
    case Finish => s.Running? && s.mem.cur < |s.disk.log| && s.mem.done == |Effect(s.disk.log, s.mem.cur)|
    case Rotate => PutPending(s) && s.mem.active.puts != []
    case FlushStart(ops) =>
      && s.Running? && s.mem.flush.NoFlush?
      && s.mem.sealed != [] && s.mem.sealed[0].puts != [] && FlushOrder(s.mem.sealed[0].puts, ops)
    case FlushCommit(n) =>
      s.Running? && s.mem.flush.Writing? && s.mem.flush.committed + n <= |s.mem.flush.ops| && !AnyRefused(NextBatch(s.mem.flush, n))
    case FlushFails(n) =>
      s.Running? && s.mem.flush.Writing? && s.mem.flush.committed + n <= |s.mem.flush.ops| && AnyRefused(NextBatch(s.mem.flush, n))
    case FlushEnd =>
      && s.Running? && s.mem.flush.Writing? && s.mem.sealed != []
      && s.mem.flush.committed == |s.mem.flush.ops|
    case FlushDrop => s.Running? && s.mem.flush.Queued? && s.mem.sealed != []
    case Dequeue => s.Running? && s.mem.pending != []
    case SaveMeta(i) => s.Running? && i < |s.mem.saving|
    case Crash => true
    case RecoverRecord => s.Recovering? && s.next < |s.disk.log| && !Unrecoverable(s.disk.log, s.next)
    case RecoverFails => s.Recovering? && s.next < |s.disk.log| && Unrecoverable(s.disk.log, s.next)
    case RecoverDone => s.Recovering? && s.next == |s.disk.log|
  }

  ghost function Do(s: State, step: Step): State
    requires Enabled(s, step)
  {
    match step
    case Append(r) =>
      s.(disk := s.disk.(log := s.disk.log + [r]), mem := s.mem.(writeSeen := s.mem.writeSeen + 1))
    case AppendFails =>
      s.(mem := s.mem.(writeSeen := s.mem.writeSeen + 1, failed := s.mem.failed + 1))
    case Put =>
      var r := s.disk.log[s.mem.cur];
      var t := s.mem.active;
      s.(mem := s.mem.(
         done := s.mem.done + 1,
         active := t.(puts := t.puts + [Effect(s.disk.log, s.mem.cur)[s.mem.done]],
                      offsetCount := t.offsetCount + if CountsEachPut(r) then 1 else 0)))
    case PutFails =>
      s.(mem := s.mem.(cur := s.mem.cur + 1, done := 0, lost := s.mem.lost[s.mem.cur := s.mem.done],
                       sealed := s.mem.sealed + [s.mem.active], active := EmptyTable))
    case Finish =>
      var t := s.mem.active;
      var t' := if SetsOffset(s.disk.log[s.mem.cur])
                then t.(lastOffset := Some(s.mem.cur), offsetCount := t.offsetCount + 1) else t;
      s.(mem := s.mem.(cur := s.mem.cur + 1, done := 0, active := t'))
    case Rotate => s.(mem := s.mem.(sealed := s.mem.sealed + [s.mem.active], active := EmptyTable))
    case FlushStart(ops) => s.(mem := s.mem.(flush := Writing(ops, 0)))
    case FlushCommit(n) =>
      var f := s.mem.flush;
      s.(disk := s.disk.(store := ApplyAll(s.disk.store, NextBatch(f, n))),
         mem := s.mem.(flush := f.(committed := f.committed + n)))
    case FlushFails(_) => Crashed(s)  // the batch is rolled back, and the flusher ends the process
    case FlushEnd =>
      var t := s.mem.sealed[0];
      var count := s.mem.opsFlushed + t.offsetCount + ChunkCount(s.mem.flush.ops);
      s.(mem := s.mem.(flush := Queued, opsFlushed := count,
                       pending := s.mem.pending + [Meta(t.lastOffset, count)]))
    case FlushDrop => s.(mem := s.mem.(flush := NoFlush, sealed := s.mem.sealed[1..]))
    case Dequeue => s.(mem := s.mem.(pending := [], saving := s.mem.saving + [Last(s.mem.pending)]))
    case SaveMeta(i) =>
      var m := s.mem.saving[i];
      // encoding a missing position dereferences a nil pointer, which ends the process
      if m.pos.None? then Crashed(s)
      else s.(disk := s.disk.(checkpoint := Some(Checkpoint(m.pos.value, m.count))),
              mem := s.mem.(saving := s.mem.saving[..i] + s.mem.saving[i + 1..]))
    case Crash => Crashed(s)
    case RecoverRecord =>
      s.(disk := s.disk.(store := ApplyAll(s.disk.store, Effect(s.disk.log, s.next))),
         next := s.next + 1, recovered := s.recovered + RecoveredBy(s.disk.log, s.next))
    case RecoverFails => Crashed(s)  // the engine does not open; the next start recovers from the checkpoint again
    case RecoverDone =>
      var count := CountOf(s.disk) + s.recovered;
      var pending := if s.recovered > 0 && |s.disk.log| > 0 then [Meta(Some(|s.disk.log| - 1), count)] else [];
      Running(s.disk, Memory(|s.disk.log|, 0, EmptyTable, [], NoFlush, pending, [], count, count, 0, s.lost))
  }

  /** The operations of the next store transaction of a flush. */
  function NextBatch(f: Flush, n: nat): seq<Mutation>
    requires f.Writing? && f.committed + n <= |f.ops|
  {
    f.ops[f.committed..f.committed + n]
  }

  /** Large objects flushed from a table count their whole transaction. */
  function ChunkCount(ops: seq<Mutation>): nat {
    if ops == [] then 0
    else ChunkCount(Front(ops)) + if Last(ops).SetLob? then |Last(ops).chunks| + 2 else 0
  }

  /** A run: every step is enabled, each leads to the next state. */
  ghost predicate IsRun(s: State, steps: seq<Step>, s': State)
    decreases |steps|
  {
    if steps == [] then s == s'
    else Enabled(s, steps[0]) && IsRun(Do(s, steps[0]), steps[1..], s')
  }

  /** A run without a restart. */
  ghost predicate IsUpRun(s: State, steps: seq<Step>, s': State)
    decreases |steps|
  {
    && s.Running?
    && if steps == [] then s == s'
       else Enabled(s, steps[0]) && IsUpRun(Do(s, steps[0]), steps[1..], s')
  }

  /** Every entry fits an empty memtable, so no put ever fails after its record was appended. */
  predicate AllFit(steps: seq<Step>) {
    forall i :: 0 <= i < |steps| ==> !steps[i].PutFails?
  }

  // ---- The invariant ----

  function TablePuts(ts: seq<Table>): seq<Mutation> {
    if ts == [] then [] else ts[0].puts + TablePuts(ts[1..])
  }

  /** What is left of a record's operations: all, or those put before one failed. */
  function KeptOf(log: Log, lost: Lost, i: nat): seq<Mutation>
    requires i < |log|
  {
    var e := Effect(log, i);
    if i in lost && lost[i] <= |e| then e[..lost[i]] else e
  }

  function Kept(log: Log, lost: Lost, n: nat): seq<Mutation>
    requires n <= |log|
  {
    if n == 0 then [] else Kept(log, lost, n - 1) + KeptOf(log, lost, n - 1)
  }

  predicate Below(lost: Lost, n: nat) {
    forall i :: i in lost ==> i < n
  }

  predicate PointOk(log: Log, lost: Lost, cur: nat, done: nat) {
    && cur <= |log|
    && (if cur < |log| then done <= |Effect(log, cur)| else done == 0)
    && Below(lost, cur)
  }

  /** The operations that have been put into some memtable, ever. */
  function Applied(log: Log, lost: Lost, cur: nat, done: nat): seq<Mutation>
    requires PointOk(log, lost, cur, done)
  {
    Kept(log, lost, cur) + if cur < |log| then Effect(log, cur)[..done] else []
  }

  /** For each record, how many operations are kept up to and including it. */
  function Ends(log: Log, lost: Lost): (ends: seq<nat>)
    ensures |ends| == |log|
    ensures forall i :: 0 <= i < |log| ==> ends[i] == |Kept(log, lost, i + 1)|
  {
    seq(|log|, i requires 0 <= i < |log| => |Kept(log, lost, i + 1)|)
  }

  /** The tables whose operations the store does not yet hold in full, newest last. */
  function Live(mem: Memory): seq<Table> {
    (if mem.flush.Queued? && mem.sealed != [] then mem.sealed[1..] else mem.sealed) + [mem.active]
  }

  /** The memtables hold the end of the operations applied so far, split over the live tables in order. */
  predicate TablesOk(ap: seq<Mutation>, mem: Memory) {
    && (!mem.flush.NoFlush? ==> mem.sealed != [])
    && EndsWith(ap, TablePuts(Live(mem)))
    && (mem.flush.Queued? ==> EndsWith(Durable(ap, mem), mem.sealed[0].puts))
  }

  predicate EndsWith(s: seq<Mutation>, t: seq<Mutation>) {
    |t| <= |s| && s[|s| - |t|..] == t
  }

  /** The operations flushed in full. */
  function Durable(ap: seq<Mutation>, mem: Memory): seq<Mutation>
    requires EndsWith(ap, TablePuts(Live(mem)))
  {
    ap[..|ap| - |TablePuts(Live(mem))|]
  }

  ghost predicate StoreOk(ap: seq<Mutation>, store: Store, mem: Memory)
    requires TablesOk(ap, mem)
  {
    var base := Fold(Durable(ap, mem));
    match mem.flush
    case Writing(ops, n) =>
      FlushOrder(mem.sealed[0].puts, ops) && n <= |ops| && store == ApplyAll(base, ops[..n])
    case NoFlush => store == base
    case Queued => store == base
  }

  /** All records up to and including p have their operations among the first d. */
  predicate Covers(ends: seq<nat>, d: nat, p: nat) {
    p < |ends| && ends[p] <= d
  }

  /** A table's last offset never runs ahead of the operations in it and in the tables before it. */
  predicate OffsetsOk(ends: seq<nat>, d: nat, ts: seq<Table>)
    decreases |ts|
  {
    ts == [] ||
    (&& (ts[0].lastOffset.Some? ==> Covers(ends, d + |ts[0].puts|, ts[0].lastOffset.value))
     && OffsetsOk(ends, d + |ts[0].puts|, ts[1..]))
  }

  predicate MetasOk(ends: seq<nat>, d: nat, ms: seq<Meta>) {
    forall i :: 0 <= i < |ms| && ms[i].pos.Some? ==> Covers(ends, d, ms[i].pos.value)
  }

  ghost predicate TablesInv(ap: seq<Mutation>, ends: seq<nat>, store: Store, cp: Option<Checkpoint>, mem: Memory) {
    && TablesOk(ap, mem)
    && StoreOk(ap, store, mem)
    && var d := |Durable(ap, mem)|;
    && OffsetsOk(ends, d, Live(mem))
    && MetasOk(ends, d, mem.pending)
    && MetasOk(ends, d, mem.saving)
    && (cp.Some? ==> Covers(ends, d, cp.value.pos))
  }

  ghost predicate RunningOk(disk: Disk, mem: Memory) {
    && PointOk(disk.log, mem.lost, mem.cur, mem.done)
    && TablesInv(Applied(disk.log, mem.lost, mem.cur, mem.done), Ends(disk.log, mem.lost),
                 disk.store, disk.checkpoint, mem)
  }

  ghost predicate RecoveringOk(disk: Disk, next: nat, lost: Lost) {
    && StartOf(disk) <= next <= |disk.log|
    && Below(lost, StartOf(disk))
    && Agrees(disk.store, Kept(disk.log, lost, |disk.log|), |Kept(disk.log, lost, next)|)
  }

  ghost predicate Inv(s: State) {
    match s
    case Running(disk, mem) => RunningOk(disk, mem)
    case Recovering(disk, next, _, lost) => RecoveringOk(disk, next, lost)
  }

  // ---- Facts about tables and offsets ----

  lemma {:induction false} TablePutsConcat(a: seq<Table>, b: seq<Table>)
    ensures TablePuts(a + b) == TablePuts(a) + TablePuts(b)
  {
    if a == [] {
      assert a + b == b;
    } else {
      TablePutsConcat(a[1..], b);
      assert (a + b)[0] == a[0] && (a + b)[1..] == a[1..] + b;
      Associative(a[0].puts, TablePuts(a[1..]), TablePuts(b));
    }
  }

  lemma TablePutsSnoc(a: seq<Table>, t: Table)
    ensures TablePuts(a + [t]) == TablePuts(a) + t.puts
  {
    TablePutsConcat(a, [t]);
    assert [t][1..] == [];
  }

  lemma {:induction false} OffsetsSnoc(ends: seq<nat>, d: nat, a: seq<Table>, t: Table)
    ensures OffsetsOk(ends, d, a + [t]) <==>
            && OffsetsOk(ends, d, a)
            && (t.lastOffset.Some? ==> Covers(ends, d + |TablePuts(a + [t])|, t.lastOffset.value))
    decreases |a|
  {
    if a == [] {
      assert a + [t] == [t] && [t][1..] == [];
    } else {
      OffsetsSnoc(ends, d + |a[0].puts|, a[1..], t);
      assert (a + [t])[1..] == a[1..] + [t];
    }
  }

  lemma {:induction false} OffsetsLonger(ends: seq<nat>, more: seq<nat>, d: nat, ts: seq<Table>)
    requires OffsetsOk(ends, d, ts)
    ensures OffsetsOk(ends + more, d, ts)
    decreases |ts|
  {
    if ts != [] {
      OffsetsLonger(ends, more, d + |ts[0].puts|, ts[1..]);
    }
  }

  lemma EndsAppend(log: Log, lost: Lost, r: Record)
    ensures Ends(log + [r], lost) == Ends(log, lost) + [|Kept(log + [r], lost, |log| + 1)|]
  {
    hide Kept;
    forall i | 0 <= i < |log| ensures Ends(log + [r], lost)[i] == Ends(log, lost)[i] {
      KeptStable(log, r, lost, i + 1);
    }
  }

  // ---- What is kept of a log ----

  lemma {:induction false} KeptStable(log: Log, r: Record, lost: Lost, n: nat)
    requires n <= |log|
    ensures Kept(log + [r], lost, n) == Kept(log, lost, n)
  {
    hide Effect;
    if n > 0 {
      KeptStable(log, r, lost, n - 1);
      EffectStable(log, [r], n - 1);
    }
  }

  /** Only failures among the first n records matter for them. */
  lemma {:induction false} KeptSame(log: Log, a: Lost, b: Lost, n: nat)
    requires n <= |log| && forall i :: 0 <= i < n ==> (i in a <==> i in b) && (i in a ==> a[i] == b[i])
    ensures Kept(log, a, n) == Kept(log, b, n)
  {
    hide Effect;
    if n > 0 {
      KeptSame(log, a, b, n - 1);
    }
  }

  lemma {:induction false} KeptAll(log: Log, n: nat)
    requires n <= |log|
    ensures Kept(log, map[], n) == Effects(log, n)
  {
    hide Effect;
    if n > 0 {
      KeptAll(log, n - 1);
    }
  }

  lemma {:induction false} KeptSplit(log: Log, lost: Lost, k: nat, n: nat)
    requires k <= n <= |log|
    ensures |Kept(log, lost, k)| <= |Kept(log, lost, n)|
    ensures Kept(log, lost, n)[..|Kept(log, lost, k)|] == Kept(log, lost, k)
    decreases n
  {
    hide KeptOf;
    if k < n {
      KeptSplit(log, lost, k, n - 1);
      var a, b := Kept(log, lost, n - 1), KeptOf(log, lost, n - 1);
      assert (a + b)[..|Kept(log, lost, k)|] == a[..|Kept(log, lost, k)|];
    }
  }

  /** Records after the last failure are kept in full, and hold whatever a failing session kept of them. */
  lemma {:induction false} KeptWithin(log: Log, some: Lost, fewer: Lost, k: nat, n: nat)
    requires k <= n <= |log| && Below(fewer, k)
    requires |Kept(log, some, k)| <= |Kept(log, some, n)| && |Kept(log, fewer, k)| <= |Kept(log, fewer, n)|
    ensures forall m :: m in Kept(log, some, n)[|Kept(log, some, k)|..] ==> m in Kept(log, fewer, n)[|Kept(log, fewer, k)|..]
    decreases n
  {
    hide Effect, Kept;
    if k < n {
      KeptSplit(log, some, k, n - 1);
      KeptSplit(log, fewer, k, n - 1);
      KeptWithin(log, some, fewer, k, n - 1);
      KeptStep(log, some, n - 1);
      KeptStep(log, fewer, n - 1);
      var a, b := Kept(log, some, n - 1), KeptOf(log, some, n - 1);
      var a', b' := Kept(log, fewer, n - 1), KeptOf(log, fewer, n - 1);
      var i, i' := |Kept(log, some, k)|, |Kept(log, fewer, k)|;
      assert (a + b)[i..] == a[i..] + b && (a' + b')[i'..] == a'[i'..] + b';
      forall m | m in b ensures m in b' {
      }
    }
  }

  lemma KeptStep(log: Log, lost: Lost, n: nat)
    requires n < |log|
    ensures Kept(log, lost, n + 1) == Kept(log, lost, n) + KeptOf(log, lost, n)
  {
  }

  // ---- What each kind of step does to the tables ----

  lemma TablesAppend(ap: seq<Mutation>, ends: seq<nat>, n: nat, store: Store, cp: Option<Checkpoint>, mem: Memory, mem': Memory)
    requires TablesInv(ap, ends, store, cp, mem)
    requires mem' == mem.(writeSeen := mem'.writeSeen)
    ensures TablesInv(ap, ends + [n], store, cp, mem')
  {
    assert Live(mem') == Live(mem);
    OffsetsLonger(ends, [n], |Durable(ap, mem)|, Live(mem));
  }

  /** One more operation at the end of the active table; the table's offset may be set to a covered record. */
  lemma TablesActive(ap: seq<Mutation>, ends: seq<nat>, store: Store, cp: Option<Checkpoint>, mem: Memory,
                     more: seq<Mutation>, t: Table, mem': Memory)
    requires TablesInv(ap, ends, store, cp, mem)
    requires t.puts == mem.active.puts + more
    requires t.lastOffset == mem.active.lastOffset ||
             (t.lastOffset.Some? && Covers(ends, |ap + more|, t.lastOffset.value))
    requires mem' == mem.(active := t, cur := mem'.cur, done := mem'.done)
    ensures TablesInv(ap + more, ends, store, cp, mem')
  {
    ActiveGrows(ap, mem, more, mem');
    var older, d := Live(mem)[..|Live(mem)| - 1], |Durable(ap, mem)|;
    assert Live(mem) == older + [mem.active] && Live(mem') == older + [t];
    OffsetsSnoc(ends, d, older, mem.active);
    OffsetsSnoc(ends, d, older, t);
  }

  lemma ActiveGrows(ap: seq<Mutation>, mem: Memory, more: seq<Mutation>, mem': Memory)
    requires TablesOk(ap, mem)
    requires mem'.sealed == mem.sealed && mem'.flush == mem.flush && mem'.active.puts == mem.active.puts + more
    ensures TablesOk(ap + more, mem')
    ensures Durable(ap + more, mem') == Durable(ap, mem)
    ensures |TablePuts(Live(mem'))| + |Durable(ap, mem)| == |ap + more|
  {
    hide TablePuts;
    var older := Live(mem)[..|Live(mem)| - 1];
    var d := |Durable(ap, mem)|;
    assert Live(mem) == older + [mem.active] && Live(mem') == older + [mem'.active];
    TablePutsSnoc(older, mem.active);
    TablePutsSnoc(older, mem'.active);
    assert TablePuts(Live(mem')) == TablePuts(Live(mem)) + more;
    assert (ap + more)[d..] == ap[d..] + more;
    assert (ap + more)[..d] == ap[..d];
  }

  lemma TablesRotate(ap: seq<Mutation>, ends: seq<nat>, store: Store, cp: Option<Checkpoint>, mem: Memory)
    requires TablesInv(ap, ends, store, cp, mem)
    ensures TablesInv(ap, ends, store, cp, mem.(sealed := mem.sealed + [mem.active], active := EmptyTable))
  {
    hide ApplyAll, FlushOrder;
    var mem' := mem.(sealed := mem.sealed + [mem.active], active := EmptyTable);
    assert Live(mem') == Live(mem) + [EmptyTable];
    TablePutsSnoc(Live(mem), EmptyTable);
    assert TablePuts(Live(mem')) == TablePuts(Live(mem));
    OffsetsSnoc(ends, |Durable(ap, mem)|, Live(mem), EmptyTable);
  }

  lemma TablesStart(ap: seq<Mutation>, ends: seq<nat>, store: Store, cp: Option<Checkpoint>, mem: Memory, ops: seq<Mutation>)
    requires TablesInv(ap, ends, store, cp, mem)
    requires mem.flush.NoFlush? && mem.sealed != [] && FlushOrder(mem.sealed[0].puts, ops)
    ensures TablesInv(ap, ends, store, cp, mem.(flush := Writing(ops, 0)))
  {
    hide FlushOrder, OffsetsOk;
    assert Live(mem.(flush := Writing(ops, 0))) == Live(mem);
    assert ops[..0] == [];
  }

  lemma TablesCommit(ap: seq<Mutation>, ends: seq<nat>, store: Store, cp: Option<Checkpoint>, mem: Memory, n: nat)
    requires TablesInv(ap, ends, store, cp, mem)
    requires mem.flush.Writing? && mem.flush.committed + n <= |mem.flush.ops|
    ensures var f := mem.flush;
            TablesInv(ap, ends, ApplyAll(store, f.ops[f.committed..f.committed + n]), cp,
                      mem.(flush := f.(committed := f.committed + n)))
  {
    hide ApplyAll, FlushOrder, OffsetsOk;
    var f := mem.flush;
    var mem' := mem.(flush := f.(committed := f.committed + n));
    assert Live(mem') == Live(mem);
    assert f.ops[..f.committed + n] == f.ops[..f.committed] + f.ops[f.committed..f.committed + n];
    ApplyAllConcat(Fold(Durable(ap, mem)), f.ops[..f.committed], f.ops[f.committed..f.committed + n]);
  }

  /** The oldest sealed table comes first among the operations not yet flushed in full. */
  lemma OldestFirst(ap: seq<Mutation>, mem: Memory)
    requires TablesOk(ap, mem) && mem.sealed != [] && !mem.flush.Queued?
    ensures var d, p, rest := |Durable(ap, mem)|, mem.sealed[0].puts, TablePuts(mem.sealed[1..] + [mem.active]);
            && |ap| == d + |p| + |rest|
            && ap[d..d + |p|] == p && ap[d + |p|..] == rest
            && Live(mem)[0] == mem.sealed[0] && Live(mem)[1..] == mem.sealed[1..] + [mem.active]
  {
    var d, p, rest := |Durable(ap, mem)|, mem.sealed[0].puts, TablePuts(mem.sealed[1..] + [mem.active]);
    assert Live(mem)[1..] == mem.sealed[1..] + [mem.active];
    assert ap[d..] == p + rest;
    assert ap[d..d + |p|] == ap[d..][..|p|];
    assert ap[d + |p|..] == ap[d..][|p|..];
  }

  lemma TablesEnd(ap: seq<Mutation>, ends: seq<nat>, store: Store, cp: Option<Checkpoint>, mem: Memory, count: nat)
    requires TablesInv(ap, ends, store, cp, mem)
    requires mem.flush.Writing? && mem.flush.committed == |mem.flush.ops|
    ensures TablesInv(ap, ends, store, cp,
                      mem.(flush := Queued, opsFlushed := count,
                           pending := mem.pending + [Meta(mem.sealed[0].lastOffset, count)]))
  {
    hide ApplyAll, FlushOrder;
    var t := mem.sealed[0];
    var mem' := mem.(flush := Queued, opsFlushed := count, pending := mem.pending + [Meta(t.lastOffset, count)]);
    var d, d' := |Durable(ap, mem)|, |Durable(ap, mem)| + |t.puts|;
    OldestFirst(ap, mem);
    assert Live(mem') == mem.sealed[1..] + [mem.active];
    assert ap[..d'] == ap[..d] + t.puts;
    assert Durable(ap, mem') == ap[..d'];
    ApplyAllConcat(map[], ap[..d], t.puts);
    FlushEquivalent(Fold(ap[..d]), t.puts, mem.flush.ops);
    assert mem.flush.ops[..|mem.flush.ops|] == mem.flush.ops;
  }

  lemma TablesDrop(ap: seq<Mutation>, ends: seq<nat>, store: Store, cp: Option<Checkpoint>, mem: Memory)
    requires TablesInv(ap, ends, store, cp, mem)
    requires mem.flush.Queued?
    ensures TablesInv(ap, ends, store, cp, mem.(flush := NoFlush, sealed := mem.sealed[1..]))
  {
    assert Live(mem.(flush := NoFlush, sealed := mem.sealed[1..])) == Live(mem);
  }

  /** Empty tables over a store that holds everything. */
  lemma TablesFresh(ms: seq<Mutation>, ends: seq<nat>, cp: Option<Checkpoint>, mem: Memory)
    requires mem.active == EmptyTable && mem.sealed == [] && mem.flush.NoFlush?
    requires MetasOk(ends, |ms|, mem.pending) && mem.saving == []
    requires cp.Some? ==> Covers(ends, |ms|, cp.value.pos)
    ensures TablesInv(ms, ends, Fold(ms), cp, mem)
  {
    assert Live(mem) == [] + [EmptyTable];
    TablePutsSnoc([], EmptyTable);
    OffsetsSnoc(ends, |ms|, [], EmptyTable);
    assert Durable(ms, mem) == ms;
  }

  /** Steps that only touch queued metadata. */
  lemma TablesMetas(ap: seq<Mutation>, ends: seq<nat>, store: Store, cp: Option<Checkpoint>, cp': Option<Checkpoint>,
                    mem: Memory, mem': Memory)
    requires TablesInv(ap, ends, store, cp, mem)
    requires mem' == mem.(pending := mem'.pending, saving := mem'.saving, writeSeen := mem'.writeSeen, failed := mem'.failed)
    requires forall m :: m in mem'.pending + mem'.saving ==> m in mem.pending + mem.saving
    requires cp' == cp || (cp'.Some? && exists m :: m in mem.pending + mem.saving && m.pos == Some(cp'.value.pos))
    ensures TablesInv(ap, ends, store, cp', mem')
  {
    hide ApplyAll, FlushOrder, OffsetsOk;
    assert Live(mem') == Live(mem);
    forall m | m in mem.pending + mem.saving && m.pos.Some? ensures Covers(ends, |Durable(ap, mem)|, m.pos.value) {
    }
    forall m | m in mem'.pending || m in mem'.saving ensures m in mem.pending + mem.saving {
      assert m in mem'.pending + mem'.saving;
    }
  }

  /** Records ending earlier are covered all the more. */
  lemma TablesFewer(ap: seq<Mutation>, ends: seq<nat>, ends': seq<nat>, store: Store, cp: Option<Checkpoint>,
                    mem: Memory, mem': Memory)
    requires TablesInv(ap, ends, store, cp, mem)
    requires |ends'| == |ends| && forall i :: 0 <= i < |ends| ==> ends'[i] <= ends[i]
    requires mem' == mem.(cur := mem'.cur, done := mem'.done, lost := mem'.lost)
    ensures TablesInv(ap, ends', store, cp, mem')
  {
    hide ApplyAll, FlushOrder;
    assert Live(mem') == Live(mem);
    OffsetsFewer(ends, ends', |Durable(ap, mem)|, Live(mem));
  }

  lemma {:induction false} OffsetsFewer(ends: seq<nat>, ends': seq<nat>, d: nat, ts: seq<Table>)
    requires |ends'| == |ends| && forall i :: 0 <= i < |ends| ==> ends'[i] <= ends[i]
    requires OffsetsOk(ends, d, ts)
    ensures OffsetsOk(ends', d, ts)
    decreases |ts|
  {
    if ts != [] {
      OffsetsFewer(ends, ends', d + |ts[0].puts|, ts[1..]);
    }
  }

  // ---- Every step keeps the invariant ----

  lemma AppliedStable(log: Log, r: Record, lost: Lost, cur: nat, done: nat)
    requires PointOk(log, lost, cur, done)
    ensures PointOk(log + [r], lost, cur, done)
    ensures Applied(log + [r], lost, cur, done) == Applied(log, lost, cur, done)
  {
    KeptStable(log, r, lost, cur);
    if cur < |log| {
      EffectStable(log, [r], cur);
    }
  }

  lemma AppliedPut(log: Log, lost: Lost, cur: nat, done: nat)
    requires cur < |log| && done < |Effect(log, cur)| && Below(lost, cur)
    ensures PointOk(log, lost, cur, done) && PointOk(log, lost, cur, done + 1)
    ensures Applied(log, lost, cur, done + 1) == Applied(log, lost, cur, done) + [Effect(log, cur)[done]]
  {
    hide Kept;
    var e := Effect(log, cur);
    assert e[..done + 1] == e[..done] + [e[done]];
    Associative(Kept(log, lost, cur), e[..done], [e[done]]);
  }

  lemma AppliedFinish(log: Log, lost: Lost, cur: nat)
    requires cur < |log| && Below(lost, cur)
    ensures PointOk(log, lost, cur, |Effect(log, cur)|) && PointOk(log, lost, cur + 1, 0)
    ensures Applied(log, lost, cur + 1, 0) == Applied(log, lost, cur, |Effect(log, cur)|) == Kept(log, lost, cur + 1)
  {
    var e := Effect(log, cur);
    assert e[..|e|] == e && e[..0] == [];
  }

  /** Giving up on a record keeps what was put of it. */
  lemma AppliedFails(log: Log, lost: Lost, cur: nat, done: nat)
    requires cur < |log| && PointOk(log, lost, cur, done)
    ensures var lost' := lost[cur := done];
            && PointOk(log, lost', cur + 1, 0)
            && Applied(log, lost', cur + 1, 0) == Applied(log, lost, cur, done)
            && forall i :: 0 <= i < |log| ==> Ends(log, lost')[i] <= Ends(log, lost)[i]
  {
    hide Effect, Kept;
    var lost' := lost[cur := done];
    KeptSame(log, lost, lost', cur);
    KeptStep(log, lost', cur);
    assert Effect(log, cur)[..done] + [] == Effect(log, cur)[..done];
    forall i | 0 <= i < |log| ensures Ends(log, lost')[i] <= Ends(log, lost)[i] {
      KeptFewer(log, lost, cur, done, i + 1);
    }
  }

  lemma {:induction false} KeptFewer(log: Log, lost: Lost, cur: nat, done: nat, n: nat)
    requires n <= |log| && Below(lost, cur)
    ensures |Kept(log, lost[cur := done], n)| <= |Kept(log, lost, n)|
  {
    hide Effect;
    if n > 0 {
      KeptFewer(log, lost, cur, done, n - 1);
    }
  }

  /** The operations applied so far are a prefix of what will have been kept, should no more puts fail. */
  lemma AppliedPrefix(log: Log, lost: Lost, cur: nat, done: nat)
    requires PointOk(log, lost, cur, done)
    ensures var ap, ms := Applied(log, lost, cur, done), Kept(log, lost, |log|); |ap| <= |ms| && ms[..|ap|] == ap
  {
    hide Effect, Kept;
    KeptSplit(log, lost, cur, |log|);
    if cur < |log| {
      KeptSplit(log, lost, cur + 1, |log|);
      KeptStep(log, lost, cur);
      PrefixChopped(Kept(log, lost, |log|), Kept(log, lost, cur), Effect(log, cur), done);
    }
  }

  lemma PrefixChopped<T>(s: seq<T>, a: seq<T>, e: seq<T>, n: nat)
    requires |a + e| <= |s| && s[..|a + e|] == a + e && n <= |e|
    ensures s[..|a + e[..n]|] == a + e[..n]
  {
    assert s[..|a| + n] == s[..|a + e|][..|a| + n];
  }

  lemma KeepsAppend(s: State, r: Record)
    requires Inv(s) && Enabled(s, Append(r))
    ensures Inv(Do(s, Append(r)))
  {
    hide Effect, Kept, TablesInv;
    var s' := Do(s, Append(r));
    var log, lost := s.disk.log, s.mem.lost;
    AppliedStable(log, r, lost, s.mem.cur, s.mem.done);
    EndsAppend(log, lost, r);
    TablesAppend(Applied(log, lost, s.mem.cur, s.mem.done), Ends(log, lost), |Kept(log + [r], lost, |log| + 1)|,
                 s.disk.store, s.disk.checkpoint, s.mem, s'.mem);
  }

  lemma KeepsPut(s: State)
    requires Inv(s) && Enabled(s, Put)
    ensures Inv(Do(s, Put))
  {
    hide Effect, Kept, TablesInv;
    var s' := Do(s, Put);
    var log, lost := s.disk.log, s.mem.lost;
    var m := Effect(log, s.mem.cur)[s.mem.done];
    AppliedPut(log, lost, s.mem.cur, s.mem.done);
    TablesActive(Applied(log, lost, s.mem.cur, s.mem.done), Ends(log, lost), s.disk.store, s.disk.checkpoint, s.mem,
                 [m], s'.mem.active, s'.mem);
  }

  lemma KeepsFinish(s: State)
    requires Inv(s) && Enabled(s, Finish)
    ensures Inv(Do(s, Finish))
  {
    hide Effect, Kept, TablesInv;
    var s' := Do(s, Finish);
    var log, lost, cur := s.disk.log, s.mem.lost, s.mem.cur;
    var ap := Applied(log, lost, cur, s.mem.done);
    AppliedFinish(log, lost, cur);
    assert ap + [] == ap;
    assert s.mem.active.puts + [] == s.mem.active.puts;
    TablesActive(ap, Ends(log, lost), s.disk.store, s.disk.checkpoint, s.mem, [], s'.mem.active, s'.mem);
  }

  lemma KeepsPutFails(s: State)
    requires Inv(s) && Enabled(s, PutFails)
    ensures Inv(Do(s, PutFails))
  {
    hide Effect, Kept, TablesInv;
    var s' := Do(s, PutFails);
    var log, lost := s.disk.log, s.mem.lost;
    AppliedFails(log, lost, s.mem.cur, s.mem.done);
    var ap, ends := Applied(log, lost, s.mem.cur, s.mem.done), Ends(log, s'.mem.lost);
    var given := s.mem.(cur := s'.mem.cur, done := 0, lost := s'.mem.lost);
    TablesFewer(ap, Ends(log, lost), ends, s.disk.store, s.disk.checkpoint, s.mem, given);
    TablesRotate(ap, ends, s.disk.store, s.disk.checkpoint, given);
  }

  lemma KeepsSaveMeta(s: State, i: nat)
    requires Inv(s) && Enabled(s, SaveMeta(i))
    ensures Inv(Do(s, SaveMeta(i)))
  {
    hide Effect, Kept, Applied;
    var s' := Do(s, SaveMeta(i));
    if s.mem.saving[i].pos.None? {
      KeepsCrash(s);
    } else {
      assert s.mem.saving[i] in s.mem.pending + s.mem.saving;
      TablesMetas(Applied(s.disk.log, s.mem.lost, s.mem.cur, s.mem.done), Ends(s.disk.log, s.mem.lost), s.disk.store,
                  s.disk.checkpoint, s'.disk.checkpoint, s.mem, s'.mem);
    }
  }

  lemma KeepsCrash(s: State)
    requires Inv(s)
    ensures Inv(Crashed(s))
  {
    hide Kept, Applied, TablesInv, Agrees;
    match s
    case Running(disk, mem) =>
      CrashAgrees(disk, mem);
    case Recovering(disk, next, _, lost) =>
      var start := StartOf(disk);
      assert Surviving(lost, start) == lost;
      KeptSplit(disk.log, lost, start, next);
      AgreesEarlier(disk.store, Kept(disk.log, lost, |disk.log|), |Kept(disk.log, lost, next)|, |Kept(disk.log, lost, start)|);
  }

  /** Whatever of the later records is already in the store, and however little, replaying them repairs it. */
  lemma CrashAgrees(disk: Disk, mem: Memory)
    requires RunningOk(disk, mem)
    ensures RecoveringOk(disk, StartOf(disk), Surviving(mem.lost, StartOf(disk)))
  {
    hide Effect, Kept, OffsetsOk, MetasOk, ApplyAll, FlushOrder;
    var log, lost, start := disk.log, mem.lost, StartOf(disk);
    var left := Surviving(lost, start);
    var ap, full := Applied(log, lost, mem.cur, mem.done), Kept(log, lost, |log|);
    var ms, k := Kept(log, left, |log|), |Kept(log, left, start)|;
    AppliedPrefix(log, lost, mem.cur, mem.done);
    KeptSame(log, lost, left, start);
    KeptSplit(log, lost, start, |log|);
    KeptSplit(log, left, start, |log|);
    var d := |Durable(ap, mem)|;
    StartCovered(disk, mem);
    assert k <= d;
    var extra := StoreExtra(ap, disk.store, mem, k);
    assert ap[..k] == full[..k] == ms[..k];
    AgreesSelf(ms, k);
    KeptWithin(log, lost, left, start, |log|);
    forall i | 0 <= i < |extra| ensures extra[i] in ms[k..] {
      var j :| 0 <= j < Reached(ap, mem) - k && ap[k..Reached(ap, mem)][j] == extra[i];
      assert ap[k + j] == extra[i];
      assert full[k..][j] == full[..|ap|][k + j] == extra[i];
    }
    AgreesExtra(Fold(ms[..k]), ms, k, extra);
  }

  lemma StartCovered(disk: Disk, mem: Memory)
    requires RunningOk(disk, mem)
    ensures StartOf(disk) <= |disk.log|
    ensures var ap := Applied(disk.log, mem.lost, mem.cur, mem.done);
            |Kept(disk.log, mem.lost, StartOf(disk))| <= |Durable(ap, mem)|
  {
    hide Effect, OffsetsOk, MetasOk, StoreOk;
  }

  lemma AgreesSelf(ms: seq<Mutation>, k: nat)
    requires k <= |ms|
    ensures Agrees(Fold(ms[..k]), ms, k)
  {
  }

  /** No operation from here on has reached the store. */
  function Reached(ap: seq<Mutation>, mem: Memory): nat
    requires TablesOk(ap, mem)
  {
    |Durable(ap, mem)| + if mem.flush.Writing? then |mem.sealed[0].puts| else 0
  }

  /** The store, as a fold of the first k operations and some of the later ones on top. */
  lemma StoreExtra(ap: seq<Mutation>, store: Store, mem: Memory, k: nat) returns (extra: seq<Mutation>)
    requires TablesOk(ap, mem) && StoreOk(ap, store, mem) && k <= |Durable(ap, mem)|
    ensures k <= Reached(ap, mem) <= |ap| && store == ApplyAll(Fold(ap[..k]), extra)
    ensures forall i :: 0 <= i < |extra| ==> extra[i] in ap[k..Reached(ap, mem)]
  {
    hide ApplyAll, FlushOrder;
    var d := |Durable(ap, mem)|;
    extra := ap[k..d];
    assert ap[..d] == ap[..k] + ap[k..d];
    ApplyAllConcat(map[], ap[..k], ap[k..d]);
    if mem.flush.Writing? {
      var puts, ops := mem.sealed[0].puts, mem.flush.ops[..mem.flush.committed];
      OldestFirst(ap, mem);
      ApplyAllConcat(Fold(ap[..k]), ap[k..d], ops);
      forall i | 0 <= i < |ops| ensures ops[i] in ap[k..d + |puts|] {
        FlushSubset(puts, mem.flush.ops, i);
        var j :| 0 <= j < |puts| && puts[j] == ops[i];
        assert ap[d..d + |puts|][j] == ap[k..d + |puts|][d - k + j];
      }
      forall i | 0 <= i < d - k ensures extra[i] in ap[k..d + |puts|] {
        assert extra[i] == ap[k..d + |puts|][i];
      }
      extra := extra + ops;
    }
  }

  lemma KeepsRecoverRecord(s: State)
    requires Inv(s) && s.Recovering? && s.next < |s.disk.log|
    ensures Inv(s.(disk := s.disk.(store := ApplyAll(s.disk.store, Effect(s.disk.log, s.next))), next := s.next + 1))
  {
    hide Effect, Kept, Agrees, ApplyAll;
    var log := s.disk.log;
    var ms := Kept(log, s.lost, |log|);
    var k, j := |Kept(log, s.lost, s.next)|, |Kept(log, s.lost, s.next + 1)|;
    KeptSplit(log, s.lost, s.next, |log|);
    KeptSplit(log, s.lost, s.next + 1, |log|);
    KeptStep(log, s.lost, s.next);
    assert ms[k..j] == ms[..j][k..] == Effect(log, s.next);
    AgreesReplay(s.disk.store, ms, k, j);
  }

  lemma KeepsRecoverDone(s: State)
    requires Inv(s) && Enabled(s, RecoverDone)
    ensures Inv(Do(s, RecoverDone))
  {
    hide Effect, Kept, TablesInv;
    var s' := Do(s, RecoverDone);
    var log := s.disk.log;
    var ms := Kept(log, s.lost, |log|);
    assert Applied(log, s.lost, |log|, 0) == ms;
    AgreesEnd(s.disk.store, ms);
    if s.disk.checkpoint.Some? {
      KeptSplit(log, s.lost, s.disk.checkpoint.value.pos + 1, |log|);
    }
    TablesFresh(ms, Ends(log, s.lost), s.disk.checkpoint, s'.mem);
  }

  /** The steps of the flusher and of the checkpoint queue, which leave the log and its progress alone. */
  lemma KeepsFlusher(s: State, step: Step)
    requires Inv(s) && Enabled(s, step)
    requires step.AppendFails? || step.Rotate? || step.FlushStart? || step.FlushCommit? || step.FlushEnd? ||
             step.FlushDrop? || step.Dequeue?
    ensures Inv(Do(s, step))
  {
    hide Effect, Kept, Applied, ChunkCount, TablesInv;
    var s' := Do(s, step);
    var ap, ends := Applied(s.disk.log, s.mem.lost, s.mem.cur, s.mem.done), Ends(s.disk.log, s.mem.lost);
    var store, cp, mem, mem' := s.disk.store, s.disk.checkpoint, s.mem, s'.mem;
    assert TablesInv(ap, ends, s'.disk.store, cp, mem') by {
      match step
      case Rotate => TablesRotate(ap, ends, store, cp, mem);
      case FlushStart(ops) => TablesStart(ap, ends, store, cp, mem, ops);
      case FlushCommit(n) => TablesCommit(ap, ends, store, cp, mem, n);
      case FlushEnd => TablesEnd(ap, ends, store, cp, mem, mem'.opsFlushed);
      case FlushDrop => TablesDrop(ap, ends, store, cp, mem);
      case _ => TablesMetas(ap, ends, store, cp, cp, mem, mem');
    }
  }

  lemma KeepsInvariant(s: State, step: Step)
    requires Inv(s) && Enabled(s, step)
    ensures Inv(Do(s, step))
  {
    hide Effect, Kept, TablesInv, RunningOk, RecoveringOk;
    match step
    case Append(r) => KeepsAppend(s, r);
    case Put => KeepsPut(s);
    case PutFails => KeepsPutFails(s);
    case Finish => KeepsFinish(s);
    case SaveMeta(i) => KeepsSaveMeta(s, i);
    case Crash => KeepsCrash(s);
    case FlushFails(_) => KeepsCrash(s);
    case RecoverRecord => KeepsRecoverRecord(s);
    case RecoverFails => KeepsCrash(s);
    case RecoverDone => KeepsRecoverDone(s);
    case _ => KeepsFlusher(s, step);
  }

  lemma {:induction false} RunKeepsInvariant(s: State, steps: seq<Step>, s': State)
    requires Inv(s) && IsRun(s, steps, s')
    ensures Inv(s')
    decreases |steps|
  {
    if steps != [] {
      KeepsInvariant(s, steps[0]);
      RunKeepsInvariant(Do(s, steps[0]), steps[1..], s');
    }
  }

  // ---- Crash recovery ----

  /** What recovery makes of a disk: the records after the checkpoint, replayed onto the store one by one. */
  function Recovered(disk: Disk, n: nat): Store
    requires StartOf(disk) <= n <= |disk.log|
  {
    if n == StartOf(disk) then disk.store
    else ApplyAll(Recovered(disk, n - 1), Effect(disk.log, n - 1))
  }

  lemma InitInv()
    ensures Inv(Init)
  {
    AgreesEnd(map[], []);
  }

  lemma {:induction false} RecoveredAgrees(disk: Disk, n: nat, lost: Lost)
    requires RecoveringOk(disk, StartOf(disk), lost) && StartOf(disk) <= n <= |disk.log|
    ensures Agrees(Recovered(disk, n), Kept(disk.log, lost, |disk.log|), |Kept(disk.log, lost, n)|)
    decreases n
  {
    hide Effect, Kept, Agrees, ApplyAll;
    if n > StartOf(disk) {
      RecoveredAgrees(disk, n - 1, lost);
      KeepsRecoverRecord(Recovering(disk.(store := Recovered(disk, n - 1)), n - 1, 0, lost));
    }
  }

  /**
   In every run, whatever fails and wherever it crashes: replaying the log after the saved checkpoint onto the
   surviving store gives the fold of the log without the puts that failed in records before the checkpoint.
   If there are none, nothing is lost.
   */
  lemma CrashRecovery(steps: seq<Step>, s: State)
    requires IsRun(Init, steps, s)
    ensures StartOf(s.disk) <= |s.disk.log|
    ensures Recovered(s.disk, |s.disk.log|) == Fold(Kept(s.disk.log, Crashed(s).lost, |s.disk.log|))
    ensures Crashed(s).lost == map[] ==> Recovered(s.disk, |s.disk.log|) == Contents(s.disk.log)
  {
    hide Kept, Effects, Agrees;
    InitInv();
    RunKeepsInvariant(Init, steps, s);
    KeepsCrash(s);
    var lost := Crashed(s).lost;
    RecoveredAgrees(s.disk, |s.disk.log|, lost);
    AgreesEnd(Recovered(s.disk, |s.disk.log|), Kept(s.disk.log, lost, |s.disk.log|));
    KeptAll(s.disk.log, |s.disk.log|);
  }

  /** While every entry fits, nothing is ever lost. */
  lemma {:induction false} FittingLosesNothing(s: State, steps: seq<Step>, s': State)
    requires LostIn(s) == map[] && IsRun(s, steps, s') && AllFit(steps)
    ensures LostIn(s') == map[] && Crashed(s').lost == map[]
    decreases |steps|
  {
    hide Effect;
    if steps != [] {
      var mid := Do(s, steps[0]);
      assert LostIn(mid) == map[];
      FittingLosesNothing(mid, steps[1..], s');
    }
  }

  /** The operations a log's failed puts took with them. */
  function DroppedOf(log: Log, lost: Lost, i: nat): seq<Mutation>
    requires i < |log|
  {
    var e := Effect(log, i);
    if i in lost && lost[i] <= |e| then e[lost[i]..] else []
  }

  /** The last operation on a cell in the first n records is one that was dropped. */
  predicate LastPutDropped(log: Log, lost: Lost, n: nat, c: Cell)
    requires n <= |log|
  {
    n > 0 && if TouchedBy(Effect(log, n - 1), c) then TouchedBy(DroppedOf(log, lost, n - 1), c)
             else LastPutDropped(log, lost, n - 1, c)
  }

  /** Any other cell is as if nothing had failed. */
  lemma {:induction false} KeptCell(log: Log, lost: Lost, n: nat, c: Cell)
    requires n <= |log| && !LastPutDropped(log, lost, n, c)
    ensures LastTouch(Kept(log, lost, n), c) == LastTouch(Effects(log, n), c)
  {
    hide Effect, LastTouch, TouchedBy;
    if n > 0 {
      var e, kept, dropped := Effect(log, n - 1), KeptOf(log, lost, n - 1), DroppedOf(log, lost, n - 1);
      assert e == kept + dropped;
      LastTouchConcat(Kept(log, lost, n - 1), kept, c);
      LastTouchConcat(Effects(log, n - 1), e, c);
      LastTouchConcat(kept, dropped, c);
      LastTouchSome(e, c);
      LastTouchSome(dropped, c);
      if !TouchedBy(e, c) {
        KeptCell(log, lost, n - 1, c);
      }
    }
  }

  /**
   What a crash can cost, cell by cell: a cell is recovered as the last put of it that was not dropped left it. That is
   as the log has it, unless the very last put of it failed in a record before the checkpoint.
   */
  lemma RecoveredCell(steps: seq<Step>, s: State, c: Cell)
    requires IsRun(Init, steps, s)
    ensures StartOf(s.disk) <= |s.disk.log|
    ensures Lookup(Recovered(s.disk, |s.disk.log|), c) ==
            match LastTouch(Kept(s.disk.log, Crashed(s).lost, |s.disk.log|), c) case None => None case Some(v) => v
    ensures !LastPutDropped(s.disk.log, Crashed(s).lost, |s.disk.log|, c) ==>
              Lookup(Recovered(s.disk, |s.disk.log|), c) == Lookup(Contents(s.disk.log), c)
  {
    hide Effect, Effects, Kept, LastTouch;
    CrashRecovery(steps, s);
    var log, lost := s.disk.log, Crashed(s).lost;
    LastWriteWins(map[], Kept(log, lost, |log|), c);
    LastWriteWins(map[], Effects(log, |log|), c);
    if !LastPutDropped(log, lost, |log|, c) {
      KeptCell(log, lost, |log|, c);
    }
  }

  // ---- Recovery that fails ----

  /** Recovery can finish if and only if it can get past every record after the checkpoint. */
  predicate CanRecover(disk: Disk) {
    forall i :: StartOf(disk) <= i < |disk.log| ==> !Unrecoverable(disk.log, i)
  }

  /** With a record after the checkpoint that it cannot get past the engine never opens again, however often it is started. */
  lemma {:induction false} NeverOpens(s: State, steps: seq<Step>, s': State)
    requires s.Recovering? && StartOf(s.disk) <= s.next <= |s.disk.log| && IsRun(s, steps, s')
    requires exists i :: s.next <= i < |s.disk.log| && Unrecoverable(s.disk.log, i)
    ensures s'.Recovering? && s'.disk.log == s.disk.log && s'.disk.checkpoint == s.disk.checkpoint
    decreases |steps|
  {
    hide Unrecoverable, Effect;
    if steps != [] {
      var i :| s.next <= i < |s.disk.log| && Unrecoverable(s.disk.log, i);
      var mid := Do(s, steps[0]);
      assert mid.Recovering? && mid.disk.log == s.disk.log && mid.next <= i;
      NeverOpens(mid, steps[1..], s');
    }
  }

  /** Without one, recovery of a crashed state runs through. */
  lemma {:induction false} OpensAgain(s: State) returns (steps: seq<Step>, s': State)
    requires s.Recovering? && StartOf(s.disk) <= s.next <= |s.disk.log|
    requires forall i :: s.next <= i < |s.disk.log| ==> !Unrecoverable(s.disk.log, i)
    ensures IsRun(s, steps, s') && s'.Running? && s'.disk.log == s.disk.log
    decreases |s.disk.log| - s.next
  {
    hide Unrecoverable, Effect;
    if s.next == |s.disk.log| {
      s' := Do(s, RecoverDone);
      steps := [RecoverDone];
      assert steps[1..] == [];
    } else {
      var mid := Do(s, RecoverRecord);
      var rest;
      rest, s' := OpensAgain(mid);
      steps := [RecoverRecord] + rest;
      assert steps[1..] == rest;
    }
  }

  /**
   In every run, after a crash at any step, some number of further starts brings the engine up if and only if after the
   saved checkpoint there is neither a key-value insert without entries nor an operation that the store refuses.
   */
  lemma OpensIffRecoverable(steps: seq<Step>, s: State)
    requires IsRun(Init, steps, s)
    ensures CanRecover(s.disk) <==> exists more: seq<Step>, up: State :: IsRun(Crashed(s), more, up) && up.Running?
  {
    hide Unrecoverable, Effect, Do, Enabled;
    InitInv();
    RunKeepsInvariant(Init, steps, s);
    KeepsCrash(s);
    var down := Crashed(s);
    if CanRecover(s.disk) {
      var more, up := OpensAgain(down);
      assert IsRun(down, more, up) && up.Running?;
    } else {
      forall more: seq<Step>, up: State | IsRun(down, more, up) ensures !up.Running? {
        NeverOpens(down, more, up);
      }
    }
  }
}
