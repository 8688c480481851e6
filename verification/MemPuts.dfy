/**
 Memtable entries and what they stand for (dbkernel/internal/memtable/memtable.go: processEntry).

 A memtable entry carries the operation, the entry kind and a payload. A large object's entry holds only the
 position of its commit record; its chunks stay in the log and are read back when the entry is flushed.
 */
module MemPuts {
  import opened Basics
  import opened Cells
  import opened LogRecords

  datatype Payload =
    | Raw(bytes: Bytes)
    | Cols(columns: Columns)
    | CommitAt(pos: nat)

  datatype MemValue = MemValue(meta: Op, kind: Kind, payload: Payload)

  datatype MemPut = MemPut(key: Bytes, value: MemValue)

  /** The entries the write paths produce. */
  predicate PutOk(log: Log, p: MemPut) {
    && Supported(p.value.meta, p.value.kind)
    && match p.value.kind
       case KV => p.value.payload.Raw?
       case Row => p.value.payload.Cols?
       case Chunked =>
         && p.value.payload.CommitAt? && p.value.payload.pos < |log|
         && var i := p.value.payload.pos;
         && log[i].state.TxnCommit? && log[i].kind.Chunked? && RecordOk(log, i)
         && log[i].entries[0].key == p.key
  }

  /** The store operation a flush issues for an entry. */
  function Resolve(log: Log, p: MemPut): Mutation
    requires PutOk(log, p)
  {
    var v := p.value;
    if v.meta.Delete? && !v.kind.Row? then DelKV(p.key)
    else if v.meta.DeleteRowByKey? then DelRow(p.key)
    else if v.kind.Chunked? then
      var i := v.payload.pos;
      SetLob(log[i].entries[0].key, ChunksOf(Prepared(log, i)), log[i].checksum)
    else if v.kind.Row? then
      if v.meta.Delete? then DelCells(p.key, v.payload.columns) else SetCells(p.key, v.payload.columns)
    else PutKV(p.key, v.payload.bytes)
  }

  predicate PutsOk(log: Log, ps: seq<MemPut>) {
    forall i :: 0 <= i < |ps| ==> PutOk(log, ps[i])
  }

  function ResolveAll(log: Log, ps: seq<MemPut>): (ms: seq<Mutation>)
    requires PutsOk(log, ps)
    ensures |ms| == |ps|
  {
    if ps == [] then [] else ResolveAll(log, Front(ps)) + [Resolve(log, Last(ps))]
  }

  lemma {:induction false} ResolveAllConcat(log: Log, a: seq<MemPut>, b: seq<MemPut>)
    requires PutsOk(log, a) && PutsOk(log, b)
    ensures PutsOk(log, a + b)
    ensures ResolveAll(log, a + b) == ResolveAll(log, a) + ResolveAll(log, b)
  {
    if b == [] {
      assert a + b == a;
    } else {
      ResolveAllConcat(log, a, Front(b));
      assert Front(a + b) == a + Front(b) && Last(a + b) == Last(b);
      Associative(ResolveAll(log, a), ResolveAll(log, Front(b)), [Resolve(log, Last(b))]);
    }
  }

  lemma {:induction false} ResolveAllAt(log: Log, ps: seq<MemPut>, i: nat)
    requires PutsOk(log, ps) && i < |ps|
    ensures ResolveAll(log, ps)[i] == Resolve(log, ps[i])
  {
    if i < |ps| - 1 {
      ResolveAllAt(log, Front(ps), i);
    }
  }

  /** A longer log resolves an entry to the same operation. */
  lemma ResolveStable(log: Log, more: Log, p: MemPut)
    requires PutOk(log, p)
    ensures PutOk(log + more, p)
    ensures Resolve(log + more, p) == Resolve(log, p)
  {
    if p.value.kind.Chunked? {
      var i := p.value.payload.pos;
      EffectStable(log, more, i);
      assert (log + more)[i] == log[i];
      WalkStable(log, more, log[i].prev.value);
    }
  }

  lemma {:induction false} ResolveAllStable(log: Log, more: Log, ps: seq<MemPut>)
    requires PutsOk(log, ps)
    ensures PutsOk(log + more, ps)
    ensures ResolveAll(log + more, ps) == ResolveAll(log, ps)
  {
    if ps != [] {
      ResolveStable(log, more, Last(ps));
      ResolveAllStable(log, more, Front(ps));
      assert ps == Front(ps) + [Last(ps)];
    }
  }

  /** The memtable entry written for one log entry of a plain or committed record. */
  function EntryPut(op: Op, kind: Kind, e: Entry): MemPut {
    MemPut(e.key, MemValue(op, kind, if kind.Row? then Cols(e.columns) else Raw(e.value)))
  }

  function EntryPuts(op: Op, kind: Kind, es: seq<Entry>): (ps: seq<MemPut>)
    ensures |ps| == |es|
  {
    if es == [] then [] else EntryPuts(op, kind, Front(es)) + [EntryPut(op, kind, Last(es))]
  }

  lemma EntryPutsSnoc(op: Op, kind: Kind, es: seq<Entry>, e: Entry)
    ensures EntryPuts(op, kind, es + [e]) == EntryPuts(op, kind, es) + [EntryPut(op, kind, e)]
  {
    assert Front(es + [e]) == es;
  }

  /** Putting a record's entries into the memtable resolves to the record's operations. */
  lemma {:induction false} EntryPutsResolve(log: Log, op: Op, kind: Kind, es: seq<Entry>)
    requires !kind.Chunked? && Supported(op, kind)
    ensures PutsOk(log, EntryPuts(op, kind, es))
    ensures ResolveAll(log, EntryPuts(op, kind, es)) == EntryMutations(op, kind, es)
  {
    if es != [] {
      EntryPutsResolve(log, op, kind, Front(es));
      var ps, p := EntryPuts(op, kind, Front(es)), EntryPut(op, kind, Last(es));
      assert PutsOk(log, ps + [p]);
      assert Front(ps + [p]) == ps;
    }
  }

  /** What a record puts into the memtable. */
  function RecordPuts(log: Log, i: nat): seq<MemPut>
    requires i < |log|
  {
    var r := log[i];
    if !RecordOk(log, i) then [] else
    match r.state
    case TxnNone => EntryPuts(r.op, r.kind, r.entries)
    case TxnBegin => []
    case TxnPrepare => []
    case TxnCommit =>
      if r.kind.Chunked? then [MemPut(r.entries[0].key, MemValue(Insert, Chunked, CommitAt(i)))]
      else EntryPuts(r.op, r.kind, EntriesOf(Prepared(log, i)))
  }

  lemma RecordPutsResolve(log: Log, i: nat)
    requires i < |log|
    ensures PutsOk(log, RecordPuts(log, i))
    ensures ResolveAll(log, RecordPuts(log, i)) == Effect(log, i)
  {
    var r := log[i];
    if RecordOk(log, i) {
      if r.state.TxnNone? {
        EntryPutsResolve(log, r.op, r.kind, r.entries);
      } else if r.state.TxnCommit? && !r.kind.Chunked? {
        EntryPutsResolve(log, r.op, r.kind, EntriesOf(Prepared(log, i)));
      } else if r.state.TxnCommit? {
        var p := MemPut(r.entries[0].key, MemValue(Insert, Chunked, CommitAt(i)));
        assert RecordPuts(log, i) == [p] && Front([p]) == [];
      }
    }
  }

  // ---- Puts that do not fit ----

  /** Memtable writes go through until one does not fit. */
  function Fitting(fits: MemPut -> bool, ps: seq<MemPut>): (r: seq<MemPut>)
    ensures |r| <= |ps|
  {
    if ps == [] || !fits(ps[0]) then [] else [ps[0]] + Fitting(fits, ps[1..])
  }

  lemma {:induction false} FittingAll(fits: MemPut -> bool, ps: seq<MemPut>)
    ensures Fitting(fits, ps) == ps <==> forall i | 0 <= i < |ps| :: fits(ps[i])
  {
    if ps != [] {
      FittingAll(fits, ps[1..]);
      assert ps == [ps[0]] + ps[1..];
    }
  }

  lemma {:induction false} FittingConcat(fits: MemPut -> bool, a: seq<MemPut>, b: seq<MemPut>)
    ensures Fitting(fits, a + b) == if Fitting(fits, a) == a then a + Fitting(fits, b) else Fitting(fits, a)
  {
    if a == [] {
      assert a + b == b;
    } else {
      assert (a + b)[1..] == a[1..] + b && a == [a[0]] + a[1..];
      FittingConcat(fits, a[1..], b);
      Associative([a[0]], a[1..], Fitting(fits, b));
    }
  }

  lemma FittingNone(fits: MemPut -> bool)
    ensures Fitting(fits, []) == []
  {
  }

  lemma FittingAt(fits: MemPut -> bool, ps: seq<MemPut>, i: nat)
    requires i < |ps| && Fitting(fits, ps[..i]) == ps[..i]
    ensures fits(ps[i]) ==> Fitting(fits, ps[..i + 1]) == ps[..i + 1]
    ensures !fits(ps[i]) ==> Fitting(fits, ps) == ps[..i] != ps
    ensures ps[..i + 1] == ps[..i] + [ps[i]]
  {
    hide Fitting;
    SplitAround(ps, i);
    FittingNext(fits, ps[..i], ps[i], ps[i + 1..]);
  }

  lemma FittingNext(fits: MemPut -> bool, done: seq<MemPut>, p: MemPut, rest: seq<MemPut>)
    requires Fitting(fits, done) == done
    ensures fits(p) ==> Fitting(fits, done + [p]) == done + [p]
    ensures !fits(p) ==> Fitting(fits, done + ([p] + rest)) == done
  {
    hide Fitting;
    FittingConcat(fits, done, [p]);
    FittingConcat(fits, done, [p] + rest);
    FittingOne(fits, p, rest);
  }

  lemma FittingOne(fits: MemPut -> bool, p: MemPut, rest: seq<MemPut>)
    ensures fits(p) ==> Fitting(fits, [p]) == [p]
    ensures !fits(p) ==> Fitting(fits, [p] + rest) == []
  {
  }

  lemma {:induction false} FittingBound(fits: MemPut -> bool, ps: seq<MemPut>)
    ensures |Fitting(fits, ps)| == |ps| ==> Fitting(fits, ps) == ps
  {
    if ps != [] {
      FittingBound(fits, ps[1..]);
      assert ps == [ps[0]] + ps[1..];
    }
  }

  lemma RecordPutsStable(log: Log, more: Log, i: nat)
    requires i < |log|
    ensures RecordPuts(log + more, i) == RecordPuts(log, i)
  {
    hide RecordOk;
    EffectStable(log, more, i);
    assert (log + more)[i] == log[i];
    if log[i].prev.Some? && log[i].prev.value < i {
      WalkStable(log, more, log[i].prev.value);
    }
    assert Prepared(log + more, i) == Prepared(log, i);
  }

  /** What the first n records have put into the memtables, each up to its first put that does not fit. */
  function KeptPuts(fits: MemPut -> bool, log: Log, n: nat): seq<MemPut>
    requires n <= |log|
  {
    if n == 0 then [] else KeptPuts(fits, log, n - 1) + Fitting(fits, RecordPuts(log, n - 1))
  }

  lemma {:induction false} KeptPutsStable(fits: MemPut -> bool, log: Log, more: Log, n: nat)
    requires n <= |log|
    ensures KeptPuts(fits, log + more, n) == KeptPuts(fits, log, n)
  {
    hide RecordPuts, Fitting;
    if n > 0 {
      KeptPutsStable(fits, log, more, n - 1);
      RecordPutsStable(log, more, n - 1);
    }
  }

  /** The memtable writes stand for exactly the operations of the log. */
  ghost predicate PutsMatchLog(log: Log, ps: seq<MemPut>, n: nat) {
    n <= |log| && PutsOk(log, ps) && ResolveAll(log, ps) == Effects(log, n)
  }

  lemma PutsMatchExtended(log: Log, ps: seq<MemPut>, more: Log, n: nat)
    requires PutsMatchLog(log, ps, n)
    ensures PutsMatchLog(log + more, ps, n)
  {
    ResolveAllStable(log, more, ps);
    EffectsStable(log, more, n);
  }

  lemma PutsMatchNext(log: Log, ps: seq<MemPut>, n: nat)
    requires PutsMatchLog(log, ps, n) && n < |log|
    ensures PutsMatchLog(log, ps + RecordPuts(log, n), n + 1)
  {
    RecordPutsResolve(log, n);
    ResolveAllConcat(log, ps, RecordPuts(log, n));
  }
}
