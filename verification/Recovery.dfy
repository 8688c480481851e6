/**
 Recovery: replaying the log after the checkpoint straight into the store
 (dbkernel/internal/recovery/wal_recovery.go).
 */
module Recovery {
  import opened Basics
  import opened Cells
  import opened LogRecords
  import opened Transactions
  import opened RecordMeaning
  import opened BoltBucket
  import opened TxnQueue
  import opened Engine

  datatype RecoveryError = BadCheckpoint | EmptyBatch | KeyRefused

  predicate TypedEffects(log: Log) {
    forall i :: 0 <= i < |log| ==> TypedOps(Effect(log, i))
  }

  /**
   A batch of entries as one store transaction: all of them, or none. Only the key-value insert checks that there is
   something to do.
   */
  method StoreBatch(bucket: Bucket, op: Op, kind: Kind, es: seq<Entry>) returns (r: Result<(), RecoveryError>)
    requires bucket.Valid() && !kind.Chunked? && Supported(op, kind) && TypedOps(EntryMutations(op, kind, es))
    modifies bucket
    ensures bucket.Valid()
    ensures r == if kind.KV? && op.Insert? && es == [] then Err(EmptyBatch)
                 else if AnyRefused(EntryMutations(op, kind, es)) then Err(KeyRefused) else Ok(())
    ensures r.Ok? ==> bucket.cells == ApplyAll(old(bucket.cells), EntryMutations(op, kind, es))
    ensures r.Ok? ==> Written(old(bucket.cells), bucket.cells, op, kind, es)
    ensures r.Err? ==> bucket.cells == old(bucket.cells)
  {
    hide Represents, TypedOp, Refused, ApplyAll, Written, EntryMutations;
    if kind.KV? && op.Insert? && es == [] {
      return Err(EmptyBatch);
    }
    var stored := Transact(bucket, EntryMutations(op, kind, es));
    EntriesMean(old(bucket.cells), op, kind, es);
    return if stored.Err? then Err(KeyRefused) else Ok(());
  }

  method GatherChunks(records: seq<Record>) returns (chunks: seq<Bytes>)
    requires forall r :: r in records ==> r.entries != []
    ensures chunks == ChunksOf(records)
  {
    chunks := [];
    for i := 0 to |records|
      invariant chunks == ChunksOf(records[..i])
    {
      assert Front(records[..i + 1]) == records[..i] && Last(records[..i + 1]) == records[i];
      chunks := chunks + [records[i].entries[0].value];
    }
    assert records[..|records|] == records;
  }

  class WalRecovery {
    const log: Log
    const bucket: Bucket
    var recoveredCount: nat
    var lastRecoveredPos: Option<nat>

    constructor (log: Log, bucket: Bucket)
      ensures this.log == log && this.bucket == bucket && recoveredCount == 0 && lastRecoveredPos.None?
    {
      this.log, this.bucket := log, bucket;
      recoveredCount, lastRecoveredPos := 0, None;
    }

    /** One record: plain records and commits act on the store, all others are passed over. */
    method HandleRecord(i: nat) returns (r: Result<(), RecoveryError>)
      requires i < |log| && WellFormed(log) && TypedOps(Effect(log, i)) && bucket.Valid()
      modifies this`recoveredCount, bucket
      ensures bucket.Valid() && recoveredCount == old(recoveredCount) + RecoveredBy(log, i)
      ensures r.Ok? <==> !Unrecoverable(log, i)
      ensures r.Err? ==> r.error == if EmptyInsert(log, i) then EmptyBatch else KeyRefused
      ensures bucket.cells == if r.Ok? then ApplyAll(old(bucket.cells), Effect(log, i)) else old(bucket.cells)
    {
      hide Represents, ApplyAll, Walk, EntryMutations, EntriesOf, TypedOps, Refused;
      var record := log[i];
      assert RecordOk(log, i);
      ApplyNothing(bucket.cells);
      match record.state
      case TxnNone =>
        recoveredCount := recoveredCount + 1;
        r := StoreBatch(bucket, record.op, record.kind, record.entries);
      case TxnCommit =>
        recoveredCount := recoveredCount + 1;
        r := HandleCommit(i);
      case TxnBegin => return Ok(());
      case TxnPrepare => return Ok(());
    }

    method HandleCommit(i: nat) returns (r: Result<(), RecoveryError>)
      requires i < |log| && WellFormed(log) && TypedOps(Effect(log, i)) && bucket.Valid()
      requires log[i].state.TxnCommit?
      modifies this`recoveredCount, bucket
      ensures bucket.Valid() && recoveredCount == old(recoveredCount) + 1 + |Prepared(log, i)|
      ensures r.Ok? <==> !Unrecoverable(log, i)
      ensures r.Err? ==> r.error == if EmptyInsert(log, i) then EmptyBatch else KeyRefused
      ensures bucket.cells == if r.Ok? then ApplyAll(old(bucket.cells), Effect(log, i)) else old(bucket.cells)
    {
      hide Represents, ApplyAll, Walk, EntryMutations, EntriesOf, ChunksOf, BackLinked, Refused;
      var record := log[i];
      assert RecordOk(log, i);
      var found := GetTransactionRecords(log, record.prev);
      var records := found.value;
      var prepared := records[1..];
      assert prepared == Prepared(log, i);
      recoveredCount := recoveredCount + |records|;
      if record.kind.Chunked? {
        var chunks := GatherChunks(prepared);
        var m := SetLob(record.entries[0].key, chunks, record.checksum);
        assert Effect(log, i) == [m];
        var stored := Transact(bucket, [m]);
        return if stored.Err? then Err(KeyRefused) else Ok(());
      }
      var es := Gather(prepared);
      r := StoreBatch(bucket, record.op, record.kind, es);
    }

    /**
     Replays everything after the checkpoint. It succeeds exactly when no record after the checkpoint is a
     key-value insert without entries or has an operation that the store refuses, and then the store is the replay of
     those records; otherwise it is the replay of those before the first such record. A checkpoint behind the end of the
     log is an error if it lies outside every segment; otherwise there is nothing to read there.
     */
    method Recover(checkpoint: Option<Checkpoint>, outside: bool) returns (r: Result<(), RecoveryError>)
      requires WellFormed(log) && TypedEffects(log) && bucket.Valid()
      requires recoveredCount == 0 && lastRecoveredPos.None?
      modifies this, bucket
      ensures bucket.Valid()
      ensures checkpoint.Some? && checkpoint.value.pos >= |log| ==>
                r == (if outside then Err(BadCheckpoint) else Ok(())) && bucket.cells == old(bucket.cells)
      ensures var disk := Disk(log, old(bucket.cells), checkpoint);
              StartOf(disk) <= |log| ==>
                && (r.Ok? <==> forall i :: StartOf(disk) <= i < |log| ==> !Unrecoverable(log, i))
                && (r.Ok? ==> bucket.cells == Recovered(disk, |log|))
                && (r.Err? ==> exists i ::
                       && StartOf(disk) <= i < |log| && Unrecoverable(log, i)
                       && (forall j :: StartOf(disk) <= j < i ==> !Unrecoverable(log, j))
                       && bucket.cells == Recovered(disk, i))
                && (r.Ok? ==> recoveredCount == CountRecovered(log, StartOf(disk), |log|))
                && (r.Ok? ==> lastRecoveredPos == if StartOf(disk) < |log| then Some(|log| - 1) else None)
    {
      hide Represents, ApplyAll, Effect, WellFormed, Unrecoverable, EmptyInsert, TypedOps;
      if checkpoint.Some? && checkpoint.value.pos >= |log| {
        return if outside then Err(BadCheckpoint) else Ok(());
      }
      ghost var disk := Disk(log, bucket.cells, checkpoint);
      var start := if checkpoint.Some? then checkpoint.value.pos + 1 else 0;
      for i := start to |log|
        invariant bucket.Valid() && bucket.cells == Recovered(disk, i)
        invariant recoveredCount == CountRecovered(log, start, i)
        invariant lastRecoveredPos == if start < i then Some(i - 1) else None
        invariant forall j :: start <= j < i ==> !Unrecoverable(log, j)
      {
        r := HandleRecord(i);
        lastRecoveredPos := Some(i);
        if r.Err? {
          return;
        }
      }
      return Ok(());
    }
  }

  /**
   Recovery after a crash at any step of any run: it succeeds if and only if neither a key-value insert without entries
   nor an operation that the store refuses lies after the saved checkpoint, and then the store holds the log's contents,
   less the puts that failed in records before the checkpoint.
   */
  method RestartAfterCrash(w: WalRecovery, checkpoint: Option<Checkpoint>, ghost steps: seq<Step>, ghost s: State)
    returns (r: Result<(), RecoveryError>)
    requires IsRun(Init, steps, s) && s.disk == Disk(w.log, w.bucket.cells, checkpoint)
    requires WellFormed(w.log) && TypedEffects(w.log) && w.bucket.Valid()
    requires w.recoveredCount == 0 && w.lastRecoveredPos.None?
    modifies w, w.bucket
    ensures w.bucket.Valid()
    ensures r.Ok? <==> CanRecover(s.disk)
    ensures r.Ok? ==> w.bucket.cells == Fold(Kept(w.log, Crashed(s).lost, |w.log|))
    ensures r.Ok? && Crashed(s).lost == map[] ==> w.bucket.cells == Contents(w.log)
  {
    hide *;
    CrashRecovery(steps, s);
    StartInside(s.disk);
    r := w.Recover(checkpoint, false);
    CanRecoverMeans(s.disk);
  }

  lemma StartInside(disk: Disk)
    requires StartOf(disk) <= |disk.log|
    ensures disk.checkpoint.Some? ==> disk.checkpoint.value.pos < |disk.log|
  {
  }

  lemma CanRecoverMeans(disk: Disk)
    ensures CanRecover(disk) <==> forall i :: StartOf(disk) <= i < |disk.log| ==> !Unrecoverable(disk.log, i)
  {
  }

  lemma ApplyNothing(st: Store)
    ensures ApplyAll(st, []) == st
  {
  }
}
