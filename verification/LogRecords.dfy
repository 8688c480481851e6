/**
 The write-ahead log as a sequence of records, and its meaning.

 A record's position in the sequence stands for its (segment, offset) position; WalLayout proves the two
 are interchangeable. Records are taken after decoding: encoding and decoding an entry is the identity.
 */
module LogRecords {
  import opened Basics
  import opened Cells

  datatype Op = NoOperation | Insert | Delete | TxnMarker | DeleteRowByKey

  datatype Kind = KV | Chunked | Row

  datatype TxnState = TxnNone | TxnBegin | TxnPrepare | TxnCommit

  /** A decoded entry: key-value entries use key and value, row entries use key and columns. */
  datatype Entry = Entry(key: Bytes, value: Bytes, columns: Columns)

  datatype Record = Record(
    lsn: nat,
    op: Op,
    state: TxnState,
    kind: Kind,
    txnId: Bytes,
    prev: Option<nat>,
    entries: seq<Entry>,
    checksum: nat)

  type Log = seq<Record>

  /** Every transaction link points to an earlier record. */
  predicate BackLinked(log: Log) {
    forall i :: 0 <= i < |log| && log[i].prev.Some? ==> log[i].prev.value < i
  }

  /**
   The records of one transaction, first to last, found by following the links back from position p.
   In a back-linked log the guard on the link always holds.
   */
  function Walk(log: Log, p: nat): (w: seq<Record>)
    requires p < |log|
    ensures w != [] && Last(w) == log[p]
    decreases p
  {
    if log[p].prev.Some? && log[p].prev.value < p then Walk(log, log[p].prev.value) + [log[p]] else [log[p]]
  }

  /** The records a commit makes effective: the walk without its Begin. */
  function Prepared(log: Log, i: nat): seq<Record>
    requires i < |log|
  {
    if log[i].prev.Some? && log[i].prev.value < i then Walk(log, log[i].prev.value)[1..] else []
  }

  predicate Supported(op: Op, kind: Kind) {
    match kind
    case KV => op.Insert? || op.Delete?
    case Row => op.Insert? || op.Delete? || op.DeleteRowByKey?
    case Chunked => op.Insert?
  }

  function EntriesOf(records: seq<Record>): seq<Entry> {
    if records == [] then [] else EntriesOf(Front(records)) + Last(records).entries
  }

  /** The chunk each record of a large-object transaction carries. */
  function ChunksOf(records: seq<Record>): seq<Bytes>
    requires forall r :: r in records ==> r.entries != []
  {
    if records == [] then [] else ChunksOf(Front(records)) + [Last(records).entries[0].value]
  }

  /** What a record must look like for the engine to interpret it. */
  predicate RecordOk(log: Log, i: nat)
    requires i < |log|
  {
    var r := log[i];
    match r.state
    case TxnNone => !r.kind.Chunked? && Supported(r.op, r.kind)
    case TxnBegin => true
    case TxnPrepare => true
    case TxnCommit =>
      && r.prev.Some? && r.prev.value < i
      && Supported(r.op, r.kind)
      && (r.kind.Chunked? ==> r.entries != [] && forall p :: p in Prepared(log, i) ==> p.entries != [])
  }

  predicate WellFormed(log: Log) {
    BackLinked(log) && forall i :: 0 <= i < |log| ==> RecordOk(log, i)
  }

  // ---- Meaning ----

  function EntryMutation(op: Op, kind: Kind, e: Entry): Mutation
    requires !kind.Chunked? && Supported(op, kind)
  {
    match op
    case Insert => if kind.KV? then PutKV(e.key, e.value) else SetCells(e.key, e.columns)
    case Delete => if kind.KV? then DelKV(e.key) else DelCells(e.key, e.columns)
    case DeleteRowByKey => DelRow(e.key)
  }

  function EntryMutations(op: Op, kind: Kind, es: seq<Entry>): (ms: seq<Mutation>)
    requires !kind.Chunked? && Supported(op, kind)
    ensures |ms| == |es|
  {
    if es == [] then [] else EntryMutations(op, kind, Front(es)) + [EntryMutation(op, kind, Last(es))]
  }

  /** A key-value insert without entries, which the driver's batch call refuses. */
  predicate EmptyInsert(log: Log, i: nat)
    requires i < |log|
  {
    var r := log[i];
    && r.kind.KV? && r.op.Insert?
    && match r.state
       case TxnNone => r.entries == []
       case TxnCommit => EntriesOf(Prepared(log, i)) == []
       case TxnBegin => false
       case TxnPrepare => false
  }

  /**
   What record i does to the store: nothing until a commit, then the whole transaction at once.
   A record no interpreter of the log acts on does nothing.
   */
  function Effect(log: Log, i: nat): seq<Mutation>
    requires i < |log|
  {
    var r := log[i];
    if !RecordOk(log, i) then [] else
    match r.state
    case TxnNone => EntryMutations(r.op, r.kind, r.entries)
    case TxnBegin => []
    case TxnPrepare => []
    case TxnCommit =>
      if r.kind.Chunked? then [SetLob(r.entries[0].key, ChunksOf(Prepared(log, i)), r.checksum)]
      else EntryMutations(r.op, r.kind, EntriesOf(Prepared(log, i)))
  }

  /** A record recovery cannot get past: an empty insert, or one with an operation that the store refuses. */
  predicate Unrecoverable(log: Log, i: nat)
    requires i < |log|
  {
    EmptyInsert(log, i) || AnyRefused(Effect(log, i))
  }

  /** The operations of the first n records, in the order they take effect. */
  function Effects(log: Log, n: nat): seq<Mutation>
    requires n <= |log|
  {
    if n == 0 then [] else Effects(log, n - 1) + Effect(log, n - 1)
  }

  /** The contents of the database whose log this is. */
  function Contents(log: Log): Store {
    Fold(Effects(log, |log|))
  }

  // ---- A longer log means the same for the records it already had ----

  lemma {:induction false} WalkStable(log: Log, more: Log, p: nat)
    requires p < |log|
    ensures Walk(log + more, p) == Walk(log, p)
    decreases p
  {
    assert (log + more)[p] == log[p];
    if log[p].prev.Some? && log[p].prev.value < p {
      WalkStable(log, more, log[p].prev.value);
    }
  }

  lemma EffectStable(log: Log, more: Log, i: nat)
    requires i < |log|
    ensures RecordOk(log + more, i) == RecordOk(log, i)
    ensures Effect(log + more, i) == Effect(log, i)
  {
    assert (log + more)[i] == log[i];
    if log[i].prev.Some? && log[i].prev.value < i {
      WalkStable(log, more, log[i].prev.value);
    }
    assert Prepared(log + more, i) == Prepared(log, i);
  }

  lemma {:induction false} EffectsStable(log: Log, more: Log, n: nat)
    requires n <= |log|
    ensures Effects(log + more, n) == Effects(log, n)
  {
    hide Effect, RecordOk;
    if n > 0 {
      EffectsStable(log, more, n - 1);
      EffectStable(log, more, n - 1);
    }
  }

  lemma WellFormedPrefix(log: Log, n: nat)
    requires WellFormed(log) && n <= |log|
    ensures WellFormed(log[..n])
  {
    assert log[..n] + log[n..] == log;
    forall i | 0 <= i < n ensures RecordOk(log[..n], i) {
      EffectStable(log[..n], log[n..], i);
    }
  }

  lemma EffectsStep(log: Log, n: nat)
    requires n < |log|
    ensures Effects(log, n + 1) == Effects(log, n) + Effect(log, n)
  {
  }

  lemma EffectsAppend(log: Log, r: Record)
    ensures Effects(log + [r], |log| + 1) == Effects(log, |log|) + Effect(log + [r], |log|)
  {
    EffectsStable(log, [r], |log|);
  }

  /** A record that is neither plain nor a commit adds nothing to the contents. */
  lemma UncommittedIsInvisible(log: Log, r: Record)
    requires r.state.TxnBegin? || r.state.TxnPrepare?
    ensures Contents(log + [r]) == Contents(log)
  {
    EffectsAppend(log, r);
    assert (log + [r])[|log|] == r;
    assert Effect(log + [r], |log|) == [];
    assert Effects(log + [r], |log| + 1) == Effects(log, |log|);
  }
}
