/**
 Large-object reads (dbkernel/engine_public.go: GetLOB, reconstructChunkedValue; dbkernel/internal/utils.go: GetWalRecord).

 A large object lives in one of two homes. While its entry is in a memtable, the entry holds only the position of the
 commit record, and the chunks are read back from the log by following the transaction's links. After a flush they are
 chunk keys in the store. Both reads return the same bytes.
 */
module LobReads {
  import opened Basics
  import opened Words
  import opened Keys
  import opened Cells
  import opened LogRecords
  import opened MemPuts
  import opened Transactions
  import opened BoltBucket
  import opened TxnQueue
  import opened MemTables
  import Engine

  datatype LobError = NotFound

  method Join(chunks: seq<Bytes>) returns (out: Bytes)
    ensures out == Flatten(chunks)
  {
    out := [];
    for i := 0 to |chunks|
      invariant out == Flatten(chunks[..i])
    {
      assert Front(chunks[..i + 1]) == chunks[..i] && Last(chunks[..i + 1]) == chunks[i];
      out := out + chunks[i];
    }
    assert chunks[..|chunks|] == chunks;
  }

  /** Reads the chunks of a committed transaction from the log: follow the links, drop the Begin, join the values. */
  method ReconstructChunkedValue(log: Log, i: nat) returns (value: Bytes)
    requires BackLinked(log) && i < |log| && RecordOk(log, i) && log[i].state.TxnCommit? && log[i].kind.Chunked?
    ensures value == Flatten(ChunksOf(Prepared(log, i)))
  {
    hide Walk;
    var found := GetTransactionRecords(log, log[i].prev);
    var prepared := found.value[1..];
    assert prepared == Prepared(log, i);
    value := [];
    for j := 0 to |prepared|
      invariant value == Flatten(ChunksOf(prepared[..j]))
    {
      assert Front(prepared[..j + 1]) == prepared[..j] && Last(prepared[..j + 1]) == prepared[j];
      FlattenSnoc(ChunksOf(prepared[..j]), prepared[j].entries[0].value);
      value := value + prepared[j].entries[0].value;
    }
    assert prepared[..|prepared|] == prepared;
  }

  lemma FlattenSnoc(ss: seq<Bytes>, s: Bytes)
    ensures Flatten(ss + [s]) == Flatten(ss) + s
  {
    assert Front(ss + [s]) == ss;
  }

  // ---- What the newest entry for an object stands for ----

  lemma NewestLob(log: Log, ps: seq<MemPut>, lob: Bytes)
    requires PutsOk(log, ps) && TypedPuts(ps) && TypedLob(lob)
    ensures match NewestSlot(ps, lob)
            case None => LastTouch(ResolveAll(log, ps), LobCell(lob)) == None
            case Some(v) =>
              && v.kind.Chunked? && PutOk(log, MemPut(lob, v))
              && LastTouch(ResolveAll(log, ps), LobCell(lob)) ==
                 Some(Some(Lob(ChunksOf(Prepared(log, v.payload.pos)), log[v.payload.pos].checksum)))
  {
    hide ResolveAll, NewestSlot, Walk, FromBigEndian32;
    var g, c := LobGroup(lob), LobCell(lob);
    SlotProjection(log, ps, g);
    LastTouchFlushed(ResolveAll(log, ps), c);
    var s := NewestSlot(ps, lob);
    if s.Some? {
      var m := Resolve(log, MemPut(lob, s.value));
      assert Front([m]) == [];
    }
  }

  ghost predicate TableOk(log: Log, t: MemTable)
    reads t
  {
    t.Valid() && PutsOk(log, t.arrivals) && TypedPuts(t.arrivals)
  }

  /** Everything the tables hold, oldest first. */
  ghost function Arrivals(ts: seq<MemTable>): seq<MemPut>
    reads ts
  {
    if ts == [] then [] else Arrivals(Front(ts)) + Last(ts).arrivals
  }

  lemma {:induction false} ArrivalsOk(log: Log, ts: seq<MemTable>)
    requires forall i | 0 <= i < |ts| :: TableOk(log, ts[i])
    ensures PutsOk(log, Arrivals(ts)) && TypedPuts(Arrivals(ts))
  {
    if ts != [] {
      ArrivalsOk(log, Front(ts));
      assert TableOk(log, Last(ts));
    }
  }

  /** A newer table decides if it knows the object; otherwise the older ones do. */
  lemma OlderDecide(log: Log, older: seq<MemTable>, t: MemTable, c: Cell)
    requires (forall i | 0 <= i < |older| :: TableOk(log, older[i])) && TableOk(log, t)
    ensures PutsOk(log, Arrivals(older)) && PutsOk(log, Arrivals(older + [t]))
    ensures LastTouch(ResolveAll(log, Arrivals(older + [t])), c) ==
            if LastTouch(ResolveAll(log, t.arrivals), c).Some? then LastTouch(ResolveAll(log, t.arrivals), c)
            else LastTouch(ResolveAll(log, Arrivals(older)), c)
  {
    ArrivalsOk(log, older);
    assert Front(older + [t]) == older && Last(older + [t]) == t;
    ResolveAllConcat(log, Arrivals(older), t.arrivals);
    LastTouchConcat(ResolveAll(log, Arrivals(older)), ResolveAll(log, t.arrivals), c);
  }

  /** The newest entry for an object in any of the tables: active first, then sealed from newest to oldest. */
  method FindLob(log: Log, active: MemTable, sealed: seq<MemTable>, lob: Bytes) returns (found: Option<MemValue>)
    requires TableOk(log, active) && (forall i | 0 <= i < |sealed| :: TableOk(log, sealed[i])) && TypedLob(lob)
    ensures PutsOk(log, Arrivals(sealed + [active]))
    ensures match found
            case None => LastTouch(ResolveAll(log, Arrivals(sealed + [active])), LobCell(lob)) == None
            case Some(v) =>
              && v.kind.Chunked? && PutOk(log, MemPut(lob, v))
              && LastTouch(ResolveAll(log, Arrivals(sealed + [active])), LobCell(lob)) ==
                 Some(Some(Lob(ChunksOf(Prepared(log, v.payload.pos)), log[v.payload.pos].checksum)))
  {
    hide ResolveAll, LastTouch, NewestSlot, Arrivals, PutOk, TypedLob, PutsOk, TypedPuts, ChunksOf, MemTable.Valid;
    ghost var c := LobCell(lob);
    OlderDecide(log, sealed, active, c);
    found := ReadTable(log, active, lob);
    var i := |sealed|;
    assert sealed[..i] == sealed;
    ArrivalsOk(log, sealed);
    while i > 0 && found.None?
      invariant 0 <= i <= |sealed| && PutsOk(log, Arrivals(sealed[..i]))
      invariant found.None? ==> LastTouch(ResolveAll(log, Arrivals(sealed + [active])), c) ==
                                LastTouch(ResolveAll(log, Arrivals(sealed[..i])), c)
      invariant found.Some? ==>
                  && found.value.kind.Chunked? && PutOk(log, MemPut(lob, found.value))
                  && LastTouch(ResolveAll(log, Arrivals(sealed + [active])), c) == Some(Some(LobOf(log, lob, found.value)))
    {
      i := i - 1;
      assert sealed[..i + 1] == sealed[..i] + [sealed[i]];
      OlderDecide(log, sealed[..i], sealed[i], c);
      found := ReadTable(log, sealed[i], lob);
    }
    if found.None? {
      assert sealed[..i] == [];
      NothingOlder(log, c);
    }
  }

  function LobOf(log: Log, lob: Bytes, v: MemValue): Value
    requires v.kind.Chunked? && PutOk(log, MemPut(lob, v))
  {
    Lob(ChunksOf(Prepared(log, v.payload.pos)), log[v.payload.pos].checksum)
  }

  lemma NothingOlder(log: Log, c: Cell)
    ensures Arrivals([]) == [] && PutsOk(log, []) && LastTouch(ResolveAll(log, []), c) == None
  {
  }

  method ReadTable(log: Log, t: MemTable, lob: Bytes) returns (found: Option<MemValue>)
    requires TableOk(log, t) && TypedLob(lob)
    ensures match found
            case None => LastTouch(ResolveAll(log, t.arrivals), LobCell(lob)) == None
            case Some(v) =>
              && v.kind.Chunked? && PutOk(log, MemPut(lob, v))
              && LastTouch(ResolveAll(log, t.arrivals), LobCell(lob)) == Some(Some(LobOf(log, lob, v)))
  {
    found := t.Get(lob);
    NewestLob(log, t.arrivals, lob);
  }

  /** The joined chunks of an object as a store has it, or not-found. */
  ghost predicate Answers(store: Store, user: Bytes, r: Result<Bytes, LobError>) {
    match Lookup(store, LobCell(BlobKey(user)))
    case Some(v) => v.Lob? && r == Ok(Flatten(v.chunks))
    case None => r == Err(NotFound)
  }

  /**
   A large-object read: from the log if a memtable holds the object's entry, else from the store. It returns the joined
   chunks of the object with everything in the tables applied to the store.
   */
  method GetLob(log: Log, active: MemTable, sealed: seq<MemTable>, bucket: Bucket, user: Bytes)
    returns (r: Result<Bytes, LobError>)
    requires BackLinked(log) && TableOk(log, active) && (forall i | 0 <= i < |sealed| :: TableOk(log, sealed[i]))
    requires bucket.Valid() && |BlobKey(user)| < WORD && (Marked(user, KEY_TYPE_BLOB_CHUNK) ==> TypedLob(user))
    ensures PutsOk(log, Arrivals(sealed + [active]))
    ensures Answers(ApplyAll(bucket.cells, ResolveAll(log, Arrivals(sealed + [active]))), user, r)
  {
    hide ResolveAll, LastTouch, NewestSlot, Arrivals, Represents, ApplyAll, Walk, MemTable.Valid, BlobShaped, Resolve;
    BlobKeyTyped(user);
    var lob := BlobKey(user);
    var found := FindLob(log, active, sealed, lob);
    LastWriteWins(bucket.cells, ResolveAll(log, Arrivals(sealed + [active])), LobCell(lob));
    BlobKeyLong(user);
    if found.Some? {
      var value := ReconstructChunkedValue(log, found.value.payload.pos);
      return Ok(value);
    }
    r := ReadStored(bucket, user);
  }

  /** What the store alone has of an object. */
  method ReadStored(bucket: Bucket, user: Bytes) returns (r: Result<Bytes, LobError>)
    requires bucket.Valid() && |BlobKey(user)| < WORD && (Marked(user, KEY_TYPE_BLOB_CHUNK) ==> TypedLob(user))
    ensures Answers(bucket.cells, user, r)
  {
    hide Represents, BlobShaped;
    BlobKeyLong(user);
    BlobKeyTyped(user);
    StoredLobs(bucket);
    var stored := bucket.GetLobChunks(BlobKey(user));
    if stored.Err? {
      return Err(NotFound);
    }
    var value := Join(stored.value);
    return Ok(value);
  }

  lemma StoredLobs(bucket: Bucket)
    requires bucket.Valid()
    ensures forall k :: LobCell(k) in bucket.cells ==> bucket.cells[LobCell(k)].Lob?
  {
  }

  lemma BlobKeyLong(user: Bytes)
    requires |BlobKey(user)| < WORD
    ensures |user| < WORD
  {
  }

  /**
   Both homes: an object read through the log before its table is flushed, and from the store's chunk keys after, at
   whatever length the log has reached by then, is the same, if the flush succeeds.
   */
  method ReadBeforeAndAfterFlush(log: Log, more: Log, table: MemTable, queue: BoltTxnQueue, user: Bytes)
    returns (before: Result<Bytes, LobError>, after: Option<Result<Bytes, LobError>>)
    requires BackLinked(log) && TableOk(log, table) && TypedOps(ResolveAll(log, table.arrivals))
    requires queue.Valid() && queue.issued == []
    requires |BlobKey(user)| < WORD && (Marked(user, KEY_TYPE_BLOB_CHUNK) ==> TypedLob(user))
    modifies queue, queue.bucket
    ensures after.None? <==> FlushRefused(ResolveAll(log, table.arrivals))
    ensures after.Some? ==> before == after.value
  {
    hide *;
    QueueStart(queue);
    JustOne(log, table);
    ghost var flushed := ApplyAll(queue.bucket.cells, ResolveAll(log, table.arrivals));
    before := GetLob(log, table, [], queue.bucket, user);
    var ok := FlushTable(log, more, table, queue);
    if !ok {
      return before, None;
    }
    var stored := ReadStored(queue.bucket, user);
    OneAnswer(flushed, user, before, stored);
    return before, Some(stored);
  }

  /** Flushing a table when the log has grown further. */
  method FlushTable(log: Log, more: Log, table: MemTable, queue: BoltTxnQueue) returns (ok: bool)
    requires TableOk(log, table) && TypedOps(ResolveAll(log, table.arrivals)) && queue.Valid() && queue.issued == []
    modifies queue, queue.bucket
    ensures queue.bucket.Valid() && table.arrivals == old(table.arrivals)
    ensures !ok <==> FlushRefused(ResolveAll(log, table.arrivals))
    ensures ok ==> queue.bucket.cells == ApplyAll(old(queue.bucket.cells), ResolveAll(log, table.arrivals))
  {
    hide ResolveAll, Represents, ApplyAll, MemTable.Valid, Resolve, PutOk, Engine.ChunkCount, FlushOrder, TypedOp,
      TypedPut, FlushRefused, Refused, AnyRefused;
    QueueStart(queue);
    ResolveAllStable(log, more, table.arrivals);
    var r := table.Flush(log + more, queue);
    return r.Ok?;
  }

  lemma QueueStart(queue: BoltTxnQueue)
    requires queue.Valid() && queue.issued == []
    ensures queue.bucket.cells == queue.start && queue.bucket.Valid()
  {
    hide ApplyAll;
    Unissued(queue.start, queue.issued, queue.opsQueue);
  }

  lemma OneAnswer(store: Store, user: Bytes, a: Result<Bytes, LobError>, b: Result<Bytes, LobError>)
    requires Answers(store, user, a) && Answers(store, user, b)
    ensures a == b
  {
    hide BlobKey;
  }

  lemma Unissued(start: Store, issued: seq<Mutation>, queued: seq<Mutation>)
    requires issued == [] && |queued| <= |issued|
    ensures ApplyAll(start, issued[..|issued| - |queued|]) == start
  {
  }

  lemma JustOne(log: Log, t: MemTable)
    requires TableOk(log, t)
    ensures Arrivals([] + [t]) == t.arrivals && PutsOk(log, t.arrivals)
  {
    assert Front([] + [t]) == [];
  }

  /** A committed object's chunks, read from the log, are the values the transaction appended. */
  lemma CommittedChunks(log: Log, c: Record, t: Open)
    requires Tracks(log, t) && t.kind.Chunked? && t.op.Insert?
    requires c.state.TxnCommit? && c.txnId == t.id && c.prev == Some(t.prev) && c.op == t.op && c.kind == t.kind
    requires c.entries != []
    ensures BackLinked(log + [c]) && RecordOk(log + [c], |log|)
    ensures ChunksOf(Prepared(log + [c], |log|)) == ValuesOf(t.entries)
  {
    hide Walk, ChunksOf, ValuesOf, Tracks, CommitExact;
    CommitEffect(log, c, t);
    assert (log + [c])[|log|] == c;
    assert Effect(log + [c], |log|)[0] == SetLob(c.entries[0].key, ChunksOf(Prepared(log + [c], |log|)), c.checksum);
  }
}
