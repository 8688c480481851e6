/**
 The queue a flush writes through (pkg/kvdrivers/bolt_txn_queue.go).

 Operations are queued and run in order, one Bolt transaction per batch. A batch is committed as soon as the
 queue has reached the batch size, and the rest by the final commit. At every moment the bucket therefore
 holds a prefix of the operations issued, which is all a crash between batches, or a failed batch, can leave behind.
 */
module TxnQueue {
  import opened Basics
  import opened Words
  import opened Keys
  import opened Cells
  import opened BoltBucket

  /** The keys are typed, as the engine types them, and sizes fit their 32-bit fields. */
  predicate TypedOp(m: Mutation) {
    match m
    case PutKV(k, _) => TypedKV(k)
    case DelKV(k) => TypedKV(k)
    case SetCells(r, _) => TypedRow(r)
    case DelCells(r, _) => TypedRow(r)
    case DelRow(r) => TypedRow(r)
    case SetLob(k, chunks, _) => TypedLob(k) && |k| < WORD && |chunks| < WORD
  }

  predicate TypedOps(ms: seq<Mutation>) {
    forall i :: 0 <= i < |ms| ==> TypedOp(ms[i])
  }

  /** Runs one operation on the bucket. */
  method Run(bucket: Bucket, m: Mutation) returns (r: Result<(), DriverError>)
    requires bucket.Valid() && TypedOp(m)
    modifies bucket
    ensures r == if Refused(m) then Err(KeyTooLarge) else Ok(())
    ensures r.Ok? ==> bucket.Valid() && bucket.cells == Apply(old(bucket.cells), m)
  {
    hide Represents;
    match m
    case PutKV(k, v) =>
      r := bucket.PutKV(k, v);
    case DelKV(k) =>
      bucket.DeleteKV(k);
      return Ok(());
    case SetCells(row, cols) =>
      r := bucket.SetRow(row, cols);
    case DelCells(row, cols) =>
      bucket.DeleteColumns(row, cols);
      return Ok(());
    case DelRow(row) =>
      bucket.DeleteRow(row);
      return Ok(());
    case SetLob(k, chunks, sum) =>
      r := bucket.SetLobChunks(k, chunks, sum);
  }

  /** Runs operations as one transaction: all of them, or none if one is refused. */
  method Transact(bucket: Bucket, ops: seq<Mutation>) returns (r: Result<(), DriverError>)
    requires bucket.Valid() && TypedOps(ops)
    modifies bucket
    ensures bucket.Valid()
    ensures r == if AnyRefused(ops) then Err(KeyTooLarge) else Ok(())
    ensures r.Ok? ==> bucket.cells == ApplyAll(old(bucket.cells), ops)
    ensures r.Err? ==> bucket.data == old(bucket.data) && bucket.cells == old(bucket.cells)
  {
    hide Represents, TypedOp, Refused;
    var begin := bucket.data;
    for i := 0 to |ops|
      invariant bucket.Valid() && bucket.cells == ApplyAll(old(bucket.cells), ops[..i])
      invariant forall j :: 0 <= j < i ==> !Refused(ops[j])
    {
      r := Run(bucket, ops[i]);
      if r.Err? {
        assert ops[i] in ops;
        bucket.data, bucket.cells := begin, old(bucket.cells);
        return;
      }
      assert Front(ops[..i + 1]) == ops[..i] && Last(ops[..i + 1]) == ops[i];
    }
    assert ops[..|ops|] == ops;
    return Ok(());
  }

  class BoltTxnQueue {
    const bucket: Bucket
    const maxBatchSize: int
    var opsQueue: seq<Mutation>
    var err: Option<DriverError>
    ghost const start: Store
    ghost var issued: seq<Mutation>

    /** What has been committed is a prefix of what was issued, without a refused operation; the rest is queued. */
    ghost predicate Valid()
      reads this, bucket
    {
      && bucket.Valid()
      && TypedOps(opsQueue)
      && |opsQueue| <= |issued|
      && opsQueue == issued[|issued| - |opsQueue|..]
      && bucket.cells == ApplyAll(start, issued[..|issued| - |opsQueue|])
      && !AnyRefused(issued[..|issued| - |opsQueue|])
      && (err.Some? ==> AnyRefused(opsQueue))
    }

    constructor (bucket: Bucket, maxBatchSize: int)
      requires bucket.Valid()
      ensures Valid() && this.bucket == bucket && this.maxBatchSize == maxBatchSize
      ensures start == bucket.cells && issued == [] && opsQueue == [] && err.None?
    {
      this.bucket, this.maxBatchSize := bucket, maxBatchSize;
      opsQueue, err, start, issued := [], None, bucket.cells, [];
    }

    /**
     The batch calls: queue the operations, and commit if the queue has reached the batch size. After an error nothing
     is queued any more.
     */
    method Enqueue(ops: seq<Mutation>)
      requires Valid() && TypedOps(ops)
      modifies this, bucket
      ensures Valid()
      ensures issued == if old(err).Some? then old(issued) else old(issued) + ops
      ensures old(err).Some? ==> err.Some?
      ensures err.None? ==> |opsQueue| < maxBatchSize || opsQueue == []
    {
      hide ApplyAll, AnyRefused;
      if err.Some? {
        return;
      }
      ghost var done := issued[..|issued| - |opsQueue|];
      assert issued == done + opsQueue;
      opsQueue := opsQueue + ops;
      issued := issued + ops;
      assert issued == done + opsQueue;
      if |opsQueue| >= maxBatchSize {
        FlushBatch();
      }
    }

    /** Commits the queued operations as one transaction, or fails and rolls it back if one of them is refused. */
    method FlushBatch()
      requires Valid() && err.None?
      modifies this`opsQueue, this`err, bucket
      ensures Valid()
      ensures err.Some? <==> AnyRefused(old(opsQueue))
      ensures opsQueue == if err.None? then [] else old(opsQueue)
      ensures err.Some? ==> bucket.cells == old(bucket.cells)
    {
      hide ApplyAll, Represents, TypedOp, Refused;
      ghost var done := issued[..|issued| - |opsQueue|];
      ApplyAllConcat(start, done, opsQueue);
      assert done + opsQueue == issued[..|issued|];
      var r := Transact(bucket, opsQueue);
      if r.Err? {
        err := Some(r.error);
        return;
      }
      opsQueue := [];
    }

    /** Fails if and only if some operation was refused; otherwise everything issued is in the bucket. */
    method Commit() returns (failed: bool)
      requires Valid()
      modifies this`opsQueue, this`err, bucket
      ensures Valid()
      ensures failed <==> AnyRefused(issued)
      ensures !failed ==> bucket.cells == ApplyAll(start, issued)
    {
      hide ApplyAll, Represents, TypedOp, Refused;
      assert issued == issued[..|issued| - |opsQueue|] + opsQueue;
      if err.None? && opsQueue != [] {
        FlushBatch();
      }
      assert issued[..|issued|] == issued;
      return err.Some?;
    }
  }
}
