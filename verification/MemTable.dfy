/**
 The memtable (dbkernel/internal/memtable/memtable.go, dbkernel/internal/memtable/utils.go).

 The skip list orders entries by key and, within a key, by timestamp, newest first. Key-value and large-object
 entries all carry timestamp zero, so a later put replaces an earlier one. Row entries get a fresh timestamp
 each, so all versions of a row are kept; their order is right only because timestamps strictly increase.
 */
module MemTables {
  import opened Basics
  import opened Words
  import opened Keys
  import opened Cells
  import opened LogRecords
  import opened MemPuts
  import opened BoltBucket
  import opened TxnQueue
  import Engine

  // ---- Timestamps ----

  const TS_LIMIT := 0x1_0000_0000_0000_0000
  const NANO_LIMIT := 0x8000_0000_0000_0000

  /** The next row timestamp: the clock, or one more than the last if the clock has not moved on. */
  function NextTimestamp(last: nat, now: nat): nat {
    if now <= last then (last + 1) % TS_LIMIT else now
  }

  /** Strictly increasing whatever the clock does, until the 64-bit counter itself is exhausted. */
  lemma TimestampsIncrease(last: nat, now: nat)
    requires last < TS_LIMIT && now < TS_LIMIT
    ensures NextTimestamp(last, now) > last <==> last < TS_LIMIT - 1
  {
  }

  lemma TimestampBelow(last: nat, now: nat)
    requires last < TS_LIMIT - 1 && now < TS_LIMIT
    ensures NextTimestamp(last, now) == if now <= last then last + 1 else now
  {
  }

  // ---- The skip list ----

  datatype Version = Version(ts: nat, value: MemValue)

  /** Inserting into the versions of one key: by timestamp, and in place if the timestamp is taken. */
  function InsertVersion(vs: seq<Version>, v: Version): seq<Version> {
    if vs == [] || v.ts > vs[0].ts then [v] + vs
    else if v.ts == vs[0].ts then [v] + vs[1..]
    else [vs[0]] + InsertVersion(vs[1..], v)
  }

  predicate Descending(vs: seq<Version>) {
    forall i, j :: 0 <= i < j < |vs| ==> vs[i].ts > vs[j].ts
  }

  function OldestFirst(vs: seq<Version>): seq<MemValue> {
    if vs == [] then [] else OldestFirst(vs[1..]) + [vs[0].value]
  }

  // ---- What a table holds, said from its arrivals ----

  /** The latest value put under a key that is not a row's. */
  function NewestSlot(ps: seq<MemPut>, k: Bytes): Option<MemValue> {
    if ps == [] then None
    else if Last(ps).key == k && !Last(ps).value.kind.Row? then Some(Last(ps).value)
    else NewestSlot(Front(ps), k)
  }

  /** All values put under a row key, in arrival order. */
  function RowValues(ps: seq<MemPut>, k: Bytes): seq<MemValue> {
    if ps == [] then []
    else RowValues(Front(ps), k) + if Last(ps).key == k && Last(ps).value.kind.Row? then [Last(ps).value] else []
  }

  function AsPuts(k: Bytes, vs: seq<MemValue>): (ps: seq<MemPut>)
    ensures |ps| == |vs|
  {
    seq(|vs|, i requires 0 <= i < |vs| => MemPut(k, vs[i]))
  }

  function PutGroup(p: MemPut): Group {
    match p.value.kind
    case KV => KVGroup(p.key)
    case Row => RowGroup(p.key)
    case Chunked => LobGroup(p.key)
  }

  lemma GroupOfResolved(log: Log, p: MemPut)
    requires PutOk(log, p)
    ensures GroupOf(Resolve(log, p)) == PutGroup(p)
  {
  }

  /** A row's operations in a table are its versions, resolved. */
  lemma {:induction false} RowProjection(log: Log, ps: seq<MemPut>, k: Bytes)
    requires PutsOk(log, ps)
    ensures PutsOk(log, AsPuts(k, RowValues(ps, k)))
    ensures Project(ResolveAll(log, ps), RowGroup(k)) == ResolveAll(log, AsPuts(k, RowValues(ps, k)))
  {
    if ps != [] {
      var front, last := Front(ps), Last(ps);
      RowProjection(log, front, k);
      GroupOfResolved(log, last);
      ProjectSnoc(ResolveAll(log, front), Resolve(log, last), RowGroup(k));
      var vs := RowValues(front, k);
      if last.key == k && last.value.kind.Row? {
        assert AsPuts(k, vs + [last.value]) == AsPuts(k, vs) + [last];
        ResolveAllSnoc(log, AsPuts(k, vs), last);
      } else {
        assert RowValues(ps, k) == vs;
      }
    }
  }

  lemma ProjectSnoc(ms: seq<Mutation>, m: Mutation, g: Group)
    ensures Project(ms + [m], g) == Project(ms, g) + if GroupOf(m) == g then [m] else []
  {
    assert Front(ms + [m]) == ms;
  }

  lemma ResolveAllSnoc(log: Log, ps: seq<MemPut>, p: MemPut)
    requires PutsOk(log, ps) && PutOk(log, p)
    ensures PutsOk(log, ps + [p])
    ensures ResolveAll(log, ps + [p]) == ResolveAll(log, ps) + [Resolve(log, p)]
  {
    assert Front(ps + [p]) == ps;
  }

  /** The two kinds of keys that share the timestamp-zero slots never meet: their markers differ. */
  predicate TypedPut(p: MemPut) {
    match p.value.kind
    case KV => TypedKV(p.key)
    case Row => TypedRow(p.key)
    case Chunked => TypedLob(p.key)
  }

  predicate TypedPuts(ps: seq<MemPut>) {
    forall i :: 0 <= i < |ps| ==> TypedPut(ps[i])
  }

  function KeyOf(g: Group): Bytes {
    match g
    case KVGroup(k) => k
    case RowGroup(k) => k
    case LobGroup(k) => k
  }

  /** Of a key-value or large-object key, a flush writes exactly the newest slot. */
  lemma {:induction false} SlotProjection(log: Log, ps: seq<MemPut>, g: Group)
    requires PutsOk(log, ps) && TypedPuts(ps) && !g.RowGroup?
    ensures var s := NewestSlot(ps, KeyOf(g));
            && (s.Some? ==> PutOk(log, MemPut(KeyOf(g), s.value)) && TypedPut(MemPut(KeyOf(g), s.value)))
            && Flushed(ResolveAll(log, ps), g) ==
               if s.Some? && PutGroup(MemPut(KeyOf(g), s.value)) == g then [Resolve(log, MemPut(KeyOf(g), s.value))] else []
  {
    hide Resolve, ResolveAll, PutOk, TypedPut, Project, Flushed;
    if ps == [] {
      FlushedNothing(log, g);
    } else {
      var front, last := Front(ps), Last(ps);
      assert ps == front + [last] && last == MemPut(last.key, last.value);
      assert PutOk(log, last) && TypedPut(last);
      SlotProjection(log, front, g);
      GroupOfResolved(log, last);
      ResolveAllSnoc(log, front, last);
      FlushedSnoc(ResolveAll(log, front), Resolve(log, last), g);
      if PutGroup(last) != g && last.key == KeyOf(g) && !last.value.kind.Row? {
        OtherKindEmpty(log, front, g, last);
      }
    }
  }

  lemma FlushedNothing(log: Log, g: Group)
    ensures Flushed(ResolveAll(log, []), g) == []
  {
  }

  lemma FlushedSnoc(ms: seq<Mutation>, m: Mutation, g: Group)
    requires !g.RowGroup?
    ensures Flushed(ms + [m], g) == if GroupOf(m) == g then [m] else Flushed(ms, g)
  {
    ProjectSnoc(ms, m, g);
    assert Project(ms, g) + [] == Project(ms, g);
  }

  /** A key that has been put as one kind has never been put as the other. */
  lemma {:induction false} OtherKindEmpty(log: Log, ps: seq<MemPut>, g: Group, p: MemPut)
    requires PutsOk(log, ps) && TypedPuts(ps) && TypedPut(p) && p.key == KeyOf(g)
    requires !g.RowGroup? && !p.value.kind.Row? && PutGroup(p) != g
    ensures Flushed(ResolveAll(log, ps), g) == []
    decreases |ps|
  {
    hide Resolve, ResolveAll, PutOk, Project, Flushed;
    if ps == [] {
      FlushedNothing(log, g);
    } else {
      var front, last := Front(ps), Last(ps);
      assert ps == front + [last] && PutOk(log, last) && TypedPut(last);
      OtherKindEmpty(log, front, g, p);
      GroupOfResolved(log, last);
      ResolveAllSnoc(log, front, last);
      FlushedSnoc(ResolveAll(log, front), Resolve(log, last), g);
    }
  }

  // ---- Versions of a row ----

  /** With a timestamp above all others, insertion puts the version in front and loses none. */
  lemma InsertNewest(vs: seq<Version>, v: Version)
    requires Descending(vs) && (vs != [] ==> v.ts > vs[0].ts)
    ensures Descending(InsertVersion(vs, v))
    ensures OldestFirst(InsertVersion(vs, v)) == OldestFirst(vs) + [v.value]
  {
    assert InsertVersion(vs, v) == [v] + vs;
    assert ([v] + vs)[1..] == vs;
  }

  /** With a repeated timestamp the newest version so far would be overwritten. */
  lemma RepeatedTimestampLosesVersion(vs: seq<Version>, v: Version)
    requires vs != [] && Descending(vs) && v.ts == vs[0].ts
    ensures OldestFirst(InsertVersion(vs, v)) == Front(OldestFirst(vs)) + [v.value]
  {
    assert ([v] + vs[1..])[1..] == vs[1..];
  }

  lemma RowValuesSnoc(ps: seq<MemPut>, p: MemPut, k: Bytes)
    ensures RowValues(ps + [p], k) == RowValues(ps, k) + if p.key == k && p.value.kind.Row? then [p.value] else []
    ensures NewestSlot(ps + [p], k) == if p.key == k && !p.value.kind.Row? then Some(p.value) else NewestSlot(ps, k)
  {
    assert Front(ps + [p]) == ps;
  }

  /** The timestamp-zero entries are the newest of each key. */
  ghost predicate SlotsMatch(ps: seq<MemPut>, slots: map<Bytes, MemValue>) {
    forall k :: NewestSlot(ps, k) == if k in slots then Some(slots[k]) else None
  }

  /** The version lists hold every row entry, newest first. */
  ghost predicate RowsMatch(ps: seq<MemPut>, rows: map<Bytes, seq<Version>>, lastTS: nat) {
    && (forall k :: RowValues(ps, k) == if k in rows then OldestFirst(rows[k]) else [])
    && (forall k :: k in rows ==> rows[k] != [] && Descending(rows[k]) && rows[k][0].ts <= lastTS)
  }

  lemma SlotArrived(ps: seq<MemPut>, slots: map<Bytes, MemValue>, rows: map<Bytes, seq<Version>>, lastTS: nat, p: MemPut)
    requires SlotsMatch(ps, slots) && RowsMatch(ps, rows, lastTS) && !p.value.kind.Row?
    ensures SlotsMatch(ps + [p], slots[p.key := p.value]) && RowsMatch(ps + [p], rows, lastTS)
  {
    hide RowValues, NewestSlot, OldestFirst, Descending;
    forall k ensures RowValues(ps + [p], k) == RowValues(ps, k)
      ensures NewestSlot(ps + [p], k) == if p.key == k then Some(p.value) else NewestSlot(ps, k)
    {
      RowValuesSnoc(ps, p, k);
      assert RowValues(ps, k) + [] == RowValues(ps, k);
    }
  }

  lemma RowArrived(ps: seq<MemPut>, slots: map<Bytes, MemValue>, rows: map<Bytes, seq<Version>>, lastTS: nat, p: MemPut, ts: nat)
    requires SlotsMatch(ps, slots) && RowsMatch(ps, rows, lastTS) && p.value.kind.Row? && ts > lastTS
    ensures var versions := if p.key in rows then rows[p.key] else [];
            && SlotsMatch(ps + [p], slots)
            && RowsMatch(ps + [p], rows[p.key := InsertVersion(versions, Version(ts, p.value))], ts)
  {
    hide RowValues, NewestSlot, OldestFirst, Descending, InsertVersion;
    var versions := if p.key in rows then rows[p.key] else [];
    NoVersions();
    InsertNewest(versions, Version(ts, p.value));
    NewestInFront(versions, Version(ts, p.value));
    var inserted := InsertVersion(versions, Version(ts, p.value));
    assert OldestFirst(inserted) == RowValues(ps, p.key) + [p.value];
    var rows' := rows[p.key := inserted];
    forall k ensures RowValues(ps + [p], k) == if k in rows' then OldestFirst(rows'[k]) else [] {
      RowValuesSnoc(ps, p, k);
    }
    forall k | k in rows' ensures rows'[k] != [] && Descending(rows'[k]) && rows'[k][0].ts <= ts {
    }
    forall k ensures NewestSlot(ps + [p], k) == if k in slots then Some(slots[k]) else None {
      RowValuesSnoc(ps, p, k);
    }
  }

  const ARENA_SAFETY_MARGIN := 1024

  class MemTable {
    var slots: map<Bytes, MemValue>      // entries with timestamp zero
    var rows: map<Bytes, seq<Version>>   // row versions in skip-list order, newest first
    var lastOffset: Option<nat>
    var firstOffset: Option<nat>
    var offsetCount: nat
    var opCount: nat
    var memSize: nat
    var lastTS: nat
    const capacity: nat
    ghost var arrivals: seq<MemPut>

    ghost predicate Valid()
      reads this
    {
      && SlotsMatch(arrivals, slots) && RowsMatch(arrivals, rows, lastTS)
      && lastTS < NANO_LIMIT + opCount && opCount <= memSize <= capacity < NANO_LIMIT
    }

    constructor (capacity: nat, initialSize: nat)
      requires initialSize <= capacity < NANO_LIMIT
      ensures Valid() && arrivals == [] && this.capacity == capacity
      ensures lastOffset.None? && firstOffset.None? && offsetCount == 0
    {
      slots, rows, lastOffset, firstOffset, offsetCount := map[], map[], None, None, 0;
      opCount, memSize, lastTS, arrivals := 0, initialSize, 0, [];
      this.capacity := capacity;
    }

    /**
     Puts an entry. The size is what the arena check adds up for key and value, and grows is what the skip list
     then takes from the arena. The clock may read any non-negative time, forwards or backwards.
     */
    method Put(key: Bytes, value: MemValue, now: nat, size: nat, grows: nat) returns (ok: bool)
      requires Valid() && now < NANO_LIMIT && 1 <= grows <= size + ARENA_SAFETY_MARGIN
      modifies this
      ensures Valid()
      ensures ok <==> old(memSize) + size + ARENA_SAFETY_MARGIN <= capacity
      ensures arrivals == if ok then old(arrivals) + [MemPut(key, value)] else old(arrivals)
      ensures lastOffset == old(lastOffset) && firstOffset == old(firstOffset) && offsetCount == old(offsetCount)
    {
      hide SlotsMatch, RowsMatch, NextTimestamp, InsertVersion;
      if memSize + size + ARENA_SAFETY_MARGIN > capacity {
        return false;
      }
      if value.kind.Row? {
        TimestampBelow(lastTS, now);
        var ts := NextTimestamp(lastTS, now);
        var versions := if key in rows then rows[key] else [];
        RowArrived(arrivals, slots, rows, lastTS, MemPut(key, value), ts);
        lastTS := ts;
        rows := rows[key := InsertVersion(versions, Version(ts, value))];
      } else {
        SlotArrived(arrivals, slots, rows, lastTS, MemPut(key, value));
        slots := slots[key := value];
      }
      opCount, memSize := opCount + 1, memSize + grows;
      arrivals := arrivals + [MemPut(key, value)];
      return true;
    }

    method SetOffset(offset: nat)
      requires Valid()
      modifies this`lastOffset, this`firstOffset, this`offsetCount
      ensures Valid() && lastOffset == Some(offset) && offsetCount == old(offsetCount) + 1
      ensures firstOffset == if old(firstOffset).None? then Some(offset) else old(firstOffset)
    {
      offsetCount := offsetCount + 1;
      lastOffset := Some(offset);
      if firstOffset.None? {
        firstOffset := Some(offset);
      }
    }

    method Get(key: Bytes) returns (v: Option<MemValue>)
      requires Valid()
      ensures v == NewestSlot(arrivals, key)
    {
      return if key in slots then Some(slots[key]) else None;
    }

    /** All versions of a row, oldest first: the skip list yields them newest first, so they are reversed. */
    method GetRowYValue(row: Bytes) returns (vs: seq<MemValue>)
      requires Valid()
      ensures vs == RowValues(arrivals, row)
    {
      hide RowValues;
      if row !in rows {
        return [];
      }
      vs := CollectVersions(rows[row]);
    }

    /**
     Writes every entry to the store through the queue: first the newest entry of each key, then, row by row,
     all versions of each row. Keys and rows may come in any order. It fails if and only if the store refuses one of
     the operations it writes; those that a newer one of the same key has replaced do not count.
     */
    method Flush(log: Log, queue: BoltTxnQueue) returns (r: Result<nat, DriverError>)
      requires Valid() && PutsOk(log, arrivals) && TypedPuts(arrivals) && TypedOps(ResolveAll(log, arrivals))
      requires queue.Valid() && queue.issued == []
      modifies queue, queue.bucket
      ensures queue.Valid()
      ensures r.Err? <==> FlushRefused(ResolveAll(log, arrivals))
      ensures r.Ok? ==> FlushOrder(ResolveAll(log, arrivals), queue.issued)
      ensures r.Ok? ==> queue.bucket.cells == ApplyAll(queue.start, ResolveAll(log, arrivals))
      ensures r.Ok? ==> r.value == offsetCount + Engine.ChunkCount(queue.issued)
    {
      hide Represents, ResolveAll, Project, Flushed, ApplyAll, NewestSlot, RowValues, PutsOk, TypedPuts, TypedOps,
        Refused, AnyRefused, FlushRefused, Within, FlushOrder;
      QueueFresh(queue);
      var chunked := FlushSlots(log, queue);
      if queue.err.None? {
        FlushRows(log, queue);
      }
      RefusedWithin(ResolveAll(log, arrivals), queue.issued);
      QueueFailed(queue);
      var failed := queue.Commit();
      if failed {
        return Err(KeyTooLarge);
      }
      FlushEquivalent(queue.start, ResolveAll(log, arrivals), queue.issued);
      return Ok(offsetCount + chunked);
    }

    method FlushSlots(log: Log, queue: BoltTxnQueue) returns (chunked: nat)
      requires Valid() && PutsOk(log, arrivals) && TypedPuts(arrivals) && TypedOps(ResolveAll(log, arrivals))
      requires queue.Valid() && queue.issued == []
      modifies queue, queue.bucket
      ensures queue.Valid()
      ensures queue.err.None? ==> RowsPending(ResolveAll(log, arrivals), queue.issued, rows.Keys)
      ensures Within(ResolveAll(log, arrivals), queue.issued)
      ensures chunked == Engine.ChunkCount(queue.issued)
    {
      hide Within, Represents, ResolveAll, Resolve, Project, Flushed, ApplyAll, NewestSlot, RowValues, OldestFirst, PutsOk,
        TypedPuts, TypedOps, SlotsPending, RowsPending, PutOk, TypedOp, Refused, AnyRefused, BoltTxnQueue.Valid;
      ghost var puts := ResolveAll(log, arrivals);
      chunked := 0;
      var left := slots.Keys;
      NothingFlushed(log, arrivals, left);
      QueueFresh(queue);
      while left != {} && queue.err.None?
        invariant Valid() && left <= slots.Keys && slots == old(slots) && rows == old(rows) && arrivals == old(arrivals)
        invariant queue.Valid() && SlotsPending(puts, queue.issued, left)
        invariant chunked == Engine.ChunkCount(queue.issued)
      {
        var k :| k in left;
        ghost var before := queue.issued;
        var v := slots[k];
        SlotFlushed(log, arrivals, before, left, MemPut(k, v));
        var m := Resolve(log, MemPut(k, v));
        queue.Enqueue([m]);
        ChunkCountSnoc(before, m);
        if m.SetLob? {
          chunked := chunked + |m.chunks| + 2;
        }
        left := left - {k};
      }
      SlotsWithin(puts, queue.issued, left);
      if queue.err.None? {
        SlotsDone(log, arrivals, queue.issued, rows.Keys);
      }
    }

    method FlushRows(log: Log, queue: BoltTxnQueue)
      requires Valid() && PutsOk(log, arrivals) && TypedOps(ResolveAll(log, arrivals))
      requires queue.Valid() && queue.err.None? && RowsPending(ResolveAll(log, arrivals), queue.issued, rows.Keys)
      modifies queue, queue.bucket
      ensures queue.Valid() && Within(ResolveAll(log, arrivals), queue.issued)
      ensures queue.err.None? ==> FlushOrder(ResolveAll(log, arrivals), queue.issued)
      ensures Engine.ChunkCount(queue.issued) == Engine.ChunkCount(old(queue.issued))
    {
      hide Represents, ResolveAll, Resolve, Project, Flushed, ApplyAll, NewestSlot, RowValues, PutsOk, TypedPuts,
        TypedOps, RowsPending, Within;
      ghost var puts := ResolveAll(log, arrivals);
      var left := rows.Keys;
      while left != {}
        invariant Valid() && left <= rows.Keys && rows == old(rows) && arrivals == old(arrivals)
        invariant queue.Valid() && queue.err.None? && RowsPending(puts, queue.issued, left)
        invariant Engine.ChunkCount(queue.issued) == Engine.ChunkCount(old(queue.issued))
      {
        var row :| row in left;
        ghost var before := queue.issued;
        var vs := GetRowYValue(row);
        RowProjection(log, arrivals, row);
        RowTyped(log, arrivals, row);
        FlushVersions(log, row, vs, queue);
        if queue.err.Some? {
          RowWithin(log, arrivals, before, left, row, queue.issued);
          return;
        }
        RowFlushed(log, arrivals, before, left, row);
        left := left - {row};
      }
      RowsDone(puts, queue.issued);
      RowsWithin(puts, queue.issued, {});
    }
  }

  /** Queues the versions of one row, oldest first. */
  method FlushVersions(log: Log, row: Bytes, vs: seq<MemValue>, queue: BoltTxnQueue)
    requires PutsOk(log, AsPuts(row, vs)) && TypedOps(ResolveAll(log, AsPuts(row, vs)))
    requires forall i :: 0 <= i < |vs| ==> vs[i].kind.Row?
    requires queue.Valid() && queue.err.None?
    modifies queue, queue.bucket
    ensures queue.Valid()
    ensures queue.err.None? ==> queue.issued == old(queue.issued) + ResolveAll(log, AsPuts(row, vs))
    ensures Partly(old(queue.issued), ResolveAll(log, AsPuts(row, vs)), queue.issued)
    ensures Engine.ChunkCount(queue.issued) == Engine.ChunkCount(old(queue.issued))
  {
    hide Represents, ApplyAll, Resolve, ResolveAll, PutsOk, PutOk, TypedOps, TypedOp, Partly, Refused, AnyRefused,
      BoltTxnQueue.Valid;
    ghost var ps := AsPuts(row, vs);
    ghost var ms := ResolveAll(log, ps);
    PartlyAt(queue.issued, ms, 0);
    for i := 0 to |vs|
      invariant queue.Valid() && queue.err.None? && queue.issued == old(queue.issued) + ms[..i]
      invariant Partly(old(queue.issued), ms, queue.issued)
      invariant Engine.ChunkCount(queue.issued) == Engine.ChunkCount(old(queue.issued))
    {
      var p := MemPut(row, vs[i]);
      assert ps[i] == p;
      VersionTyped(log, ps, i);
      ChunkCountSnoc(queue.issued, ms[i]);
      queue.Enqueue([Resolve(log, p)]);
      assert ms[..i + 1] == ms[..i] + [ms[i]];
      Associative(old(queue.issued), ms[..i], [ms[i]]);
      PartlyAt(old(queue.issued), ms, i + 1);
      if queue.err.Some? {
        return;
      }
    }
    assert ms[..|vs|] == ms;
  }

  /** Some of the operations have been issued after those before. */
  ghost predicate Partly(before: seq<Mutation>, ms: seq<Mutation>, after: seq<Mutation>) {
    exists k :: 0 <= k <= |ms| && after == before + ms[..k]
  }

  lemma PartlyAt(before: seq<Mutation>, ms: seq<Mutation>, k: nat)
    requires k <= |ms|
    ensures Partly(before, ms, before + ms[..k]) && before + ms[..0] == before
  {
  }

  lemma QueueFresh(queue: BoltTxnQueue)
    requires queue.Valid() && queue.issued == []
    ensures queue.err.None?
  {
  }

  lemma QueueFailed(queue: BoltTxnQueue)
    requires queue.Valid()
    ensures queue.err.Some? ==> AnyRefused(queue.issued)
  {
    hide Refused, Represents;
    if queue.err.Some? {
      var m :| m in queue.opsQueue && Refused(m);
      assert m in queue.issued;
    }
  }

  // ---- Flushes that fail ----

  /** A flush of these operations would write one that the store refuses. */
  ghost predicate FlushRefused(puts: seq<Mutation>) {
    exists m :: Refused(m) && m in Flushed(puts, GroupOf(m))
  }

  /** Part of a flush: of each key, and each row, a beginning of what is to be written. */
  ghost predicate Within(puts: seq<Mutation>, ops: seq<Mutation>) {
    forall g :: Project(ops, g) <= Flushed(puts, g)
  }

  lemma RefusedWithin(puts: seq<Mutation>, ops: seq<Mutation>)
    requires Within(puts, ops)
    ensures AnyRefused(ops) ==> FlushRefused(puts)
    ensures FlushOrder(puts, ops) && FlushRefused(puts) ==> AnyRefused(ops)
  {
    hide Project, Flushed, Refused;
    if AnyRefused(ops) {
      var m :| m in ops && Refused(m);
      var i :| 0 <= i < |ops| && ops[i] == m;
      InProject(ops, i);
      assert Project(ops, GroupOf(m)) <= Flushed(puts, GroupOf(m));
    }
    if FlushOrder(puts, ops) && FlushRefused(puts) {
      var m :| Refused(m) && m in Flushed(puts, GroupOf(m));
      ProjectInGroup(ops, GroupOf(m));
      assert m in Project(ops, GroupOf(m));
    }
  }

  lemma SlotsWithin(puts: seq<Mutation>, ops: seq<Mutation>, left: set<Bytes>)
    requires SlotsPending(puts, ops, left)
    ensures Within(puts, ops)
  {
    hide Project, Flushed;
  }

  lemma RowsWithin(puts: seq<Mutation>, ops: seq<Mutation>, left: set<Bytes>)
    requires RowsPending(puts, ops, left)
    ensures Within(puts, ops)
  {
    hide Project, Flushed;
  }

  /** Some versions of the next row have been queued. */
  lemma RowWithin(log: Log, ps: seq<MemPut>, ops: seq<Mutation>, left: set<Bytes>, row: Bytes, ops': seq<Mutation>)
    requires PutsOk(log, ps) && PutsOk(log, AsPuts(row, RowValues(ps, row))) && row in left
    requires RowsPending(ResolveAll(log, ps), ops, left)
    requires Partly(ops, ResolveAll(log, AsPuts(row, RowValues(ps, row))), ops')
    ensures Within(ResolveAll(log, ps), ops')
  {
    hide Flushed, Project, ResolveAll, PutsOk, RowValues;
    var puts, all := ResolveAll(log, ps), ResolveAll(log, AsPuts(row, RowValues(ps, row)));
    var k :| 0 <= k <= |all| && ops' == ops + all[..k];
    RowProjection(log, ps, row);
    ProjectInGroup(puts, RowGroup(row));
    FlushedRow(puts, row);
    forall g ensures Project(ops', g) <= Flushed(puts, g) {
      assert Project(ops, g) == if g.RowGroup? && g.row in left then [] else Flushed(puts, g);
      ProjectConcat(ops, all[..k], g);
      ProjectAllOrNone(all[..k], RowGroup(row), g);
    }
  }

  lemma VersionTyped(log: Log, ps: seq<MemPut>, i: nat)
    requires PutsOk(log, ps) && TypedOps(ResolveAll(log, ps)) && i < |ps| && ps[i].value.kind.Row?
    ensures PutOk(log, ps[i]) && ResolveAll(log, ps)[i] == Resolve(log, ps[i]) && TypedOps([Resolve(log, ps[i])])
    ensures !Resolve(log, ps[i]).SetLob?
  {
    ResolveAllAt(log, ps, i);
    GroupOfResolved(log, ps[i]);
    assert TypedOp(ResolveAll(log, ps)[i]);
  }

  lemma ChunkCountSnoc(ops: seq<Mutation>, m: Mutation)
    ensures Engine.ChunkCount(ops + [m]) == Engine.ChunkCount(ops) + if m.SetLob? then |m.chunks| + 2 else 0
  {
    assert Front(ops + [m]) == ops;
  }

  // ---- How far a flush has come ----

  /** The keys in left are still to come, and all rows. */
  ghost predicate SlotsPending(puts: seq<Mutation>, ops: seq<Mutation>, left: set<Bytes>) {
    forall g :: Project(ops, g) == if g.RowGroup? || KeyOf(g) in left then [] else Flushed(puts, g)
  }

  /** All keys are written; the rows in left are still to come. */
  ghost predicate RowsPending(puts: seq<Mutation>, ops: seq<Mutation>, left: set<Bytes>) {
    forall g :: Project(ops, g) == if g.RowGroup? && g.row in left then [] else Flushed(puts, g)
  }

  lemma NothingFlushed(log: Log, ps: seq<MemPut>, keys: set<Bytes>)
    requires PutsOk(log, ps) && TypedPuts(ps)
    requires forall k :: NewestSlot(ps, k).Some? ==> k in keys
    ensures SlotsPending(ResolveAll(log, ps), [], keys)
  {
    forall g: Group | !g.RowGroup? && KeyOf(g) !in keys ensures Flushed(ResolveAll(log, ps), g) == [] {
      SlotProjection(log, ps, g);
    }
  }

  lemma SlotFlushed(log: Log, ps: seq<MemPut>, ops: seq<Mutation>, left: set<Bytes>, p: MemPut)
    requires PutsOk(log, ps) && TypedPuts(ps) && TypedOps(ResolveAll(log, ps))
    requires NewestSlot(ps, p.key) == Some(p.value) && p.key in left
    requires SlotsPending(ResolveAll(log, ps), ops, left)
    ensures PutOk(log, p) && TypedOps([Resolve(log, p)])
    ensures SlotsPending(ResolveAll(log, ps), ops + [Resolve(log, p)], left - {p.key})
  {
    hide Flushed, Project, ResolveAll, Resolve, PutsOk, PutOk, TypedPuts, TypedPut, TypedOps, TypedOp, NewestSlot;
    var puts := ResolveAll(log, ps);
    assert p == MemPut(p.key, p.value);
    NewestKind(ps, p.key);
    SlotProjection(log, ps, KVGroup(p.key));
    var m, g0 := Resolve(log, p), PutGroup(p);
    SlotProjection(log, ps, g0);
    GroupOfResolved(log, p);
    InPuts(puts, g0, m);
    forall g ensures Project(ops + [m], g) == if g.RowGroup? || KeyOf(g) in left - {p.key} then [] else Flushed(puts, g) {
      ProjectSnoc(ops, m, g);
      assert Project(ops, g) == if g.RowGroup? || KeyOf(g) in left then [] else Flushed(puts, g);
      if !g.RowGroup? && KeyOf(g) == p.key {
        SlotProjection(log, ps, g);
      }
    }
  }

  lemma {:induction false} NewestKind(ps: seq<MemPut>, k: Bytes)
    ensures NewestSlot(ps, k).Some? ==> !NewestSlot(ps, k).value.kind.Row?
  {
    if ps != [] {
      NewestKind(Front(ps), k);
    }
  }

  lemma InPuts(puts: seq<Mutation>, g: Group, m: Mutation)
    requires Flushed(puts, g) == [m] && TypedOps(puts)
    ensures TypedOps([m])
  {
    ProjectInGroup(puts, g);
    assert m in Flushed(puts, g);
    assert m in puts;
  }

  lemma SlotsDone(log: Log, ps: seq<MemPut>, ops: seq<Mutation>, rows: set<Bytes>)
    requires PutsOk(log, ps) && SlotsPending(ResolveAll(log, ps), ops, {})
    requires forall k :: RowValues(ps, k) != [] ==> k in rows
    ensures RowsPending(ResolveAll(log, ps), ops, rows)
  {
    var puts := ResolveAll(log, ps);
    forall g ensures Project(ops, g) == if g.RowGroup? && g.row in rows then [] else Flushed(puts, g) {
      assert Project(ops, g) == if g.RowGroup? || KeyOf(g) in {} then [] else Flushed(puts, g);
      if g.RowGroup? && g.row !in rows {
        RowProjection(log, ps, g.row);
      }
    }
  }

  lemma RowTyped(log: Log, ps: seq<MemPut>, row: Bytes)
    requires PutsOk(log, ps) && TypedOps(ResolveAll(log, ps))
    ensures PutsOk(log, AsPuts(row, RowValues(ps, row)))
    ensures TypedOps(ResolveAll(log, AsPuts(row, RowValues(ps, row))))
    ensures forall i :: 0 <= i < |RowValues(ps, row)| ==> RowValues(ps, row)[i].kind.Row?
  {
    RowProjection(log, ps, row);
    var puts := ResolveAll(log, ps);
    ProjectInGroup(puts, RowGroup(row));
    forall i | 0 <= i < |Project(puts, RowGroup(row))| ensures TypedOp(Project(puts, RowGroup(row))[i]) {
      assert Project(puts, RowGroup(row))[i] in puts;
    }
    RowKinds(ps, row);
  }

  lemma {:induction false} RowKinds(ps: seq<MemPut>, row: Bytes)
    ensures forall v :: v in RowValues(ps, row) ==> v.kind.Row?
  {
    if ps != [] {
      RowKinds(Front(ps), row);
    }
  }

  lemma RowFlushed(log: Log, ps: seq<MemPut>, ops: seq<Mutation>, left: set<Bytes>, row: Bytes)
    requires PutsOk(log, ps) && PutsOk(log, AsPuts(row, RowValues(ps, row))) && row in left
    requires RowsPending(ResolveAll(log, ps), ops, left)
    ensures RowsPending(ResolveAll(log, ps), ops + ResolveAll(log, AsPuts(row, RowValues(ps, row))), left - {row})
  {
    hide Flushed, Project, ResolveAll, PutsOk, RowValues;
    var puts, more := ResolveAll(log, ps), ResolveAll(log, AsPuts(row, RowValues(ps, row)));
    RowProjection(log, ps, row);
    ProjectInGroup(puts, RowGroup(row));
    FlushedRow(puts, row);
    forall g ensures Project(ops + more, g) == if g.RowGroup? && g.row in left - {row} then [] else Flushed(puts, g) {
      assert Project(ops, g) == if g.RowGroup? && g.row in left then [] else Flushed(puts, g);
      ProjectConcat(ops, more, g);
      ProjectAllOrNone(more, RowGroup(row), g);
    }
  }

  lemma FlushedRow(puts: seq<Mutation>, row: Bytes)
    ensures Flushed(puts, RowGroup(row)) == Project(puts, RowGroup(row))
  {
  }

  lemma {:induction false} ProjectAllOrNone(ms: seq<Mutation>, g: Group, h: Group)
    requires forall m :: m in ms ==> GroupOf(m) == g
    ensures Project(ms, h) == if h == g then ms else []
  {
    if ms != [] {
      assert GroupOf(Last(ms)) == g;
      ProjectAllOrNone(Front(ms), g, h);
      assert ms == Front(ms) + [Last(ms)];
    }
  }

  lemma RowsDone(puts: seq<Mutation>, ops: seq<Mutation>)
    requires RowsPending(puts, ops, {})
    ensures FlushOrder(puts, ops)
  {
    forall g ensures Project(ops, g) == Flushed(puts, g) {
      assert Project(ops, g) == if g.RowGroup? && g.row in {} then [] else Flushed(puts, g);
    }
  }

  lemma NoVersions()
    ensures Descending([])
    ensures OldestFirst([]) == []
  {
  }

  lemma NewestInFront(vs: seq<Version>, v: Version)
    requires vs != [] ==> v.ts > vs[0].ts
    ensures InsertVersion(vs, v) != [] && InsertVersion(vs, v)[0] == v
  {
  }

  /** Walks the versions newest first, then reverses the list. */
  method CollectVersions(versions: seq<Version>) returns (vs: seq<MemValue>)
    ensures vs == OldestFirst(versions)
  {
    var seen := [];
    for i := 0 to |versions|
      invariant |seen| == i && forall j :: 0 <= j < i ==> seen[j] == versions[j].value
    {
      seen := seen + [versions[i].value];
    }
    vs := [];
    var i := |seen|;
    while i > 0
      invariant 0 <= i <= |seen|
      invariant vs == OldestFirst(versions[i..])
    {
      i := i - 1;
      assert versions[i..][1..] == versions[i + 1..];
      vs := vs + [seen[i]];
    }
    assert versions[0..] == versions;
  }
}
