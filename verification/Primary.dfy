/**
 The primary's write paths (dbkernel/engine.go: persistKeyValue, persistRowColumnAction; dbkernel/txn.go).

 The engine appends to the log and puts into the memtables under one lock, so a method is one atomic step, and
 any interleaving of writers is a sequence of calls. The class invariant ties the two together: in every such
 sequence the memtable writes stand for exactly the operations of the log, less those that did not fit a memtable, and
 every commit's links lead through exactly that transaction's records.
 */
module Primary {
  import opened Basics
  import opened Cells
  import opened LogRecords
  import opened MemPuts
  import opened Transactions
  import opened RecordMeaning
  import opened Keys
  import Machine = Engine

  datatype TxnError = ReadOnly | Unsupported | EmptyColumns | KeyChanged | AlreadyCommitted | WalFailed | ArenaExceeded

  class Engine {
    var log: Log
    var writeSeen: nat
    var memPuts: seq<MemPut>  // every memtable write so far, in order
    const readOnly: bool
    const sum: Entry -> nat           // a Prepare record's checksum
    const crc: (nat, Record) -> nat   // a transaction's rolling checksum, by its Prepare records
    const fits: MemPut -> bool  // whether an entry fits an empty memtable
    ghost var txns: map<Bytes, Txn>  // by transaction id

    ghost predicate Valid()
      reads this, txns.Values
    {
      && LogOk(fits, log, memPuts)
      && |log| <= writeSeen
      && forall i :: i in txns ==> txns[i].id == i && txns[i].engine == this && txns[i].Ok(log)
    }

    constructor (readOnly: bool, sum: Entry -> nat, crc: (nat, Record) -> nat, fits: MemPut -> bool)
      ensures Valid() && log == [] && memPuts == [] && writeSeen == 0 && txns == map[]
      ensures this.readOnly == readOnly && this.sum == sum && this.crc == crc && this.fits == fits
    {
      log, writeSeen, memPuts, txns := [], 0, [], map[];
      this.readOnly, this.sum, this.crc, this.fits := readOnly, sum, crc, fits;
    }

    /** Appends a record; a failed append has already used up a sequence number. */
    method Append(r: Record, walOk: bool)
      modifies this`log, this`writeSeen
      ensures writeSeen == old(writeSeen) + 1
      ensures log == if walOk then old(log) + [r.(lsn := old(writeSeen) + 1)] else old(log)
    {
      writeSeen := writeSeen + 1;
      if walOk {
        log := log + [r.(lsn := writeSeen)];
      }
    }

    /**
     A plain record: log first, then its entries one by one into the memtable. A put that does not fit ends it with an
     error, after the record has become part of the log.
     */
    method PersistEntries(op: Op, kind: Kind, entries: seq<Entry>, walOk: bool) returns (err: Option<TxnError>)
      requires Valid() && !kind.Chunked? && Supported(op, kind)
      modifies this`log, this`writeSeen, this`memPuts
      ensures Valid() && txns == old(txns)
      ensures err == if readOnly then Some(ReadOnly) else if !walOk then Some(WalFailed)
                     else if Fitting(fits, EntryPuts(op, kind, entries)) == EntryPuts(op, kind, entries) then None
                     else Some(ArenaExceeded)
      ensures readOnly || !walOk ==> log == old(log) && memPuts == old(memPuts)
      ensures !readOnly && walOk ==> log == old(log) + [Record(old(writeSeen) + 1, op, TxnNone, kind, [], None, entries, 0)]
      ensures !readOnly && walOk ==> Written(Contents(old(log)), Contents(log), op, kind, entries)
      ensures !readOnly && walOk ==> memPuts == old(memPuts) + Fitting(fits, EntryPuts(op, kind, entries))
    {
      hide LogOk, Contents, Tracks, ApplyAll, EntryMutations, EntryPuts, Fitting, Written;
      if readOnly {
        return Some(ReadOnly);
      }
      ghost var log0, puts0 := log, memPuts;
      var r := Record(0, op, TxnNone, kind, [], None, entries, 0);
      Append(r, walOk);
      if !walOk {
        return Some(WalFailed);
      }
      r := Last(log);
      var ok := PutAll(EntryPuts(op, kind, entries));
      PlainKeepsValid(fits, log0, r, puts0);
      EntriesMean(Contents(log0), op, kind, entries);
      forall i | i in txns ensures txns[i].Ok(log) {
        txns[i].Undisturbed(log0, r);
      }
      return if ok then None else Some(ArenaExceeded);
    }

    /** Writes to the memtables until one does not fit. */
    method PutAll(puts: seq<MemPut>) returns (ok: bool)
      modifies this`memPuts
      ensures memPuts == old(memPuts) + Fitting(fits, puts)
      ensures ok <==> Fitting(fits, puts) == puts
    {
      hide Fitting;
      FittingNone(fits);
      for i := 0 to |puts|
        invariant memPuts == old(memPuts) + puts[..i]
        invariant Fitting(fits, puts[..i]) == puts[..i]
      {
        FittingAt(fits, puts, i);
        if !fits(puts[i]) {
          return false;
        }
        memPuts := memPuts + [puts[i]];
      }
      assert puts[..|puts|] == puts;
      return true;
    }

    /** Key-value puts and deletes; the caller has typed the keys. */
    method PersistKeyValue(keys: seq<Bytes>, values: seq<Bytes>, op: Op, walOk: bool) returns (err: Option<TxnError>)
      requires Valid() && (op.Delete? || (op.Insert? && |values| == |keys|))
      modifies this`log, this`writeSeen, this`memPuts
      ensures Valid() && txns == old(txns)
      ensures err in {None, Some(ReadOnly), Some(WalFailed), Some(ArenaExceeded)}
      ensures err in {Some(ReadOnly), Some(WalFailed)} ==> log == old(log) && memPuts == old(memPuts)
      ensures err in {None, Some(ArenaExceeded)} ==> KVWritten(Contents(old(log)), Contents(log), op, keys, values)
      ensures err in {None, Some(ArenaExceeded)} ==>
                exists ps :: KVPuts(ps, op, keys, values) && memPuts == old(memPuts) + Fitting(fits, ps) &&
                             (err.None? <==> Fitting(fits, ps) == ps)
    {
      hide LogOk, Contents, Tracks, KVWritten, Fitting;
      var entries: seq<Entry> := [];
      for i := 0 to |keys|
        invariant |entries| == i
        invariant forall j :: 0 <= j < i ==> entries[j] == Entry(keys[j], if op.Delete? then [] else values[j], map[])
      {
        entries := entries + [Entry(keys[i], if op.Delete? then [] else values[i], map[])];
      }
      err := PersistEntries(op, KV, entries, walOk);
      if !readOnly && walOk {
        KVFields(op, keys, values, entries, Contents(old(log)), Contents(log));
        KVEntryPuts(op, keys, values, entries);
      }
    }

    /** Setting and deleting columns, and deleting rows; the caller has typed the row keys. */
    method PersistRowColumnAction(op: Op, rows: seq<Bytes>, columns: seq<Columns>, walOk: bool) returns (err: Option<TxnError>)
      requires Valid() && (op.DeleteRowByKey? || ((op.Insert? || op.Delete?) && |columns| == |rows|))
      modifies this`log, this`writeSeen, this`memPuts
      ensures Valid() && txns == old(txns)
      ensures err in {None, Some(ReadOnly), Some(WalFailed), Some(ArenaExceeded)}
      ensures err in {Some(ReadOnly), Some(WalFailed)} ==> log == old(log) && memPuts == old(memPuts)
      ensures err in {None, Some(ArenaExceeded)} ==> RowWritten(Contents(old(log)), Contents(log), op, rows, columns)
      ensures err in {None, Some(ArenaExceeded)} ==>
                exists ps :: RowPuts(ps, op, rows, columns) && memPuts == old(memPuts) + Fitting(fits, ps) &&
                             (err.None? <==> Fitting(fits, ps) == ps)
    {
      hide LogOk, Contents, Tracks, RowWritten, Fitting;
      var entries: seq<Entry> := [];
      for i := 0 to |rows|
        invariant |entries| == i
        invariant forall j :: 0 <= j < i ==> entries[j] == Entry(rows[j], [], if op.DeleteRowByKey? then map[] else columns[j])
      {
        entries := entries + [Entry(rows[i], [], if op.DeleteRowByKey? then map[] else columns[i])];
      }
      err := PersistEntries(op, Row, entries, walOk);
      if !readOnly && walOk {
        RowFields(op, rows, columns, entries, Contents(old(log)), Contents(log));
        RowEntryPuts(op, rows, columns, entries);
      }
    }

    method NewTxn(op: Op, kind: Kind, id: Bytes, walOk: bool) returns (r: Result<Txn, TxnError>)
      requires Valid()
      requires OwnRecords(log, id) == [] && id !in txns
      modifies this
      ensures Valid() && memPuts == old(memPuts)
      ensures r.Ok? ==> fresh(r.value) && txns == old(txns)[id := r.value] && r.value.err.None? && r.value.id == id
      ensures r.Ok? ==> r.value.op == op && r.value.kind == kind && r.value.appended == []
      ensures r.Ok? ==> Contents(log) == Contents(old(log)) && r.value.checksum == 0
      ensures r.Ok? ==> log == old(log) + [Record(old(writeSeen) + 1, NoOperation, TxnBegin, kind, id, None, [], 0)]
      ensures r.Err? ==> log == old(log) && txns == old(txns)
      ensures r.Ok? <==> !readOnly && !op.NoOperation? && !(op.Delete? && kind.Chunked?) && walOk
    {
      hide LogOk, Contents, Tracks, OwnRecords;
      if readOnly {
        return Err(ReadOnly);
      }
      if op.NoOperation? || (op.Delete? && kind.Chunked?) {
        return Err(Unsupported);
      }
      ghost var log0 := log;
      Append(Record(0, NoOperation, TxnBegin, kind, id, None, [], 0), walOk);
      if !walOk {
        return Err(WalFailed);
      }
      var record := Last(log);
      var t := new Txn(this, id, op, kind, |log| - 1);
      txns := txns[id := t];
      BeginKeepsValid(fits, log0, record, memPuts, t.View());
      forall i | i in txns && i != id ensures txns[i].Ok(log) {
        txns[i].Undisturbed(log0, record);
      }
      return Ok(t);
    }
  }

  class Txn {
    const engine: Engine
    const id: Bytes
    const op: Op
    const kind: Kind
    var prev: nat
    var rowKey: Option<Bytes>
    var memEntries: seq<MemPut>
    var checksum: nat
    var err: Option<TxnError>
    ghost var appended: seq<Entry>

    ghost function View(): Open
      reads this
    {
      Open(id, prev, op, kind, appended)
    }

    /** While the transaction is open its links lead through its own records, and it remembers their entries. */
    ghost predicate Ok(log: Log)
      reads this
    {
      err.None? ==>
        && prev < |log| && Tracks(log, View())
        && memEntries == (if kind.Chunked? then [] else EntryPuts(op, kind, appended))
        && checksum == Rolled(engine.crc, Walk(log, prev)[1..])
    }

    constructor (engine: Engine, id: Bytes, op: Op, kind: Kind, prev: nat)
      ensures this.engine == engine && this.id == id && this.op == op && this.kind == kind && this.prev == prev
      ensures rowKey.None? && memEntries == [] && checksum == 0 && err.None? && appended == []
    {
      this.engine, this.id, this.op, this.kind, this.prev := engine, id, op, kind, prev;
      rowKey, memEntries, checksum, err, appended := None, [], 0, None, [];
    }

    /** Somebody else's record leaves the transaction as it was. */
    lemma Undisturbed(log: Log, r: Record)
      requires Ok(log) && (r.txnId == id ==> r.state.TxnNone?) && (r.prev.Some? ==> r.prev.value < |log|)
      ensures Ok(log + [r])
    {
      if err.None? {
        TracksThroughOthers(log, r, View());
        WalkStable(log, [r], prev);
      }
    }

    /** Appends one Prepare record. */
    method Prepare(e: Entry, walOk: bool) returns (failed: Option<TxnError>)
      requires engine.Valid() && id in engine.txns && engine.txns[id] == this && err.None?
      modifies this, engine`log, engine`writeSeen
      ensures engine.Valid() && engine.txns == old(engine.txns) && engine.memPuts == old(engine.memPuts)
      ensures rowKey == old(rowKey)
      ensures failed == err == if walOk then None else Some(WalFailed)
      ensures !walOk ==> engine.log == old(engine.log) && appended == old(appended)
      ensures walOk ==> appended == old(appended) + [e]
      ensures walOk ==>
                engine.log == old(engine.log) +
                              [Record(old(engine.writeSeen) + 1, op, TxnPrepare, kind, id, Some(old(prev)), [e], engine.sum(e))]
      ensures walOk ==> checksum == engine.crc(old(checksum), Last(engine.log))
      ensures Contents(engine.log) == Contents(old(engine.log))
    {
      hide LogOk, Contents, Tracks, EntryPuts;
      ghost var log0, view := engine.log, View();
      engine.Append(Record(0, op, TxnPrepare, kind, id, Some(prev), [e], engine.sum(e)), walOk);
      if !walOk {
        err := Some(WalFailed);
        return err;
      }
      var record := Last(engine.log);
      EntryPutsSnoc(op, kind, appended, e);
      RolledPrepare(engine.crc, log0, record, prev);
      PrepareKeepsValid(engine.fits, log0, record, engine.memPuts, view, e);
      prev := |engine.log| - 1;
      if !kind.Chunked? {
        memEntries := memEntries + [EntryPut(op, kind, e)];
      }
      checksum := engine.crc(checksum, record);
      appended := appended + [e];
      forall i | i in engine.txns && i != id ensures engine.txns[i].Ok(engine.log) {
        engine.txns[i].Undisturbed(log0, record);
      }
      return None;
    }

    method AppendKVTxn(key: Bytes, value: Bytes, walOk: bool) returns (failed: Option<TxnError>)
      requires engine.Valid() && id in engine.txns && engine.txns[id] == this
      modifies this, engine`log, engine`writeSeen
      ensures engine.Valid() && engine.txns == old(engine.txns) && engine.memPuts == old(engine.memPuts)
      ensures Contents(engine.log) == Contents(old(engine.log))
      ensures failed.Some? ==> engine.log == old(engine.log) && appended == old(appended)
      ensures failed.None? ==>
                appended == old(appended) + [Entry(if kind.Chunked? then BlobKey(key) else KeyKV(key), value, map[])]
      ensures failed == if old(err).Some? then old(err)
                        else if kind.Row? then Some(Unsupported)
                        else if op.Insert? && kind.Chunked? && old(rowKey).Some? && old(rowKey) != Some(BlobKey(key))
                             then Some(KeyChanged)
                        else if walOk then None else Some(WalFailed)
    {
      hide LogOk, Contents, Tracks, EntryPuts, KeyKV, BlobKey;
      if err.Some? {
        return err;
      }
      if kind.Row? {
        return Some(Unsupported);
      }
      if op.Insert? && !kind.KV? && rowKey.None? {
        rowKey := Some(BlobKey(key));
      }
      var typed := if kind.Chunked? then BlobKey(key) else KeyKV(key);
      if op.Insert? && !kind.KV? && rowKey != Some(typed) {
        err := Some(KeyChanged);
        return err;
      }
      failed := Prepare(Entry(typed, value, map[]), walOk);
    }

    method AppendColumnTxn(row: Bytes, columns: Columns, walOk: bool) returns (failed: Option<TxnError>)
      requires engine.Valid() && id in engine.txns && engine.txns[id] == this
      modifies this, engine`log, engine`writeSeen
      ensures engine.Valid() && engine.txns == old(engine.txns) && engine.memPuts == old(engine.memPuts)
      ensures Contents(engine.log) == Contents(old(engine.log))
      ensures failed.Some? ==> engine.log == old(engine.log) && appended == old(appended)
      ensures failed.None? ==> appended == old(appended) + [Entry(RowKey(row), [], columns)]
      ensures failed == if old(err).Some? then old(err)
                        else if !kind.Row? then Some(Unsupported)
                        else if columns == map[] then Some(EmptyColumns)
                        else if walOk then None else Some(WalFailed)
    {
      hide LogOk, Contents, Tracks, EntryPuts, RowKey;
      if err.Some? {
        return err;
      }
      if !kind.Row? {
        return Some(Unsupported);
      }
      if columns == map[] {
        return Some(EmptyColumns);
      }
      failed := Prepare(Entry(RowKey(row), [], columns), walOk);
    }

    /** What a commit record appended next puts into the memtables. */
    ghost function CommitWrites(): seq<MemPut>
      reads this, engine
    {
      if kind.Chunked? then [MemPut(if rowKey.None? then [] else rowKey.value, MemValue(Insert, Chunked, CommitAt(|engine.log|)))]
      else EntryPuts(op, kind, appended)
    }

    method PutCommit(key: Bytes) returns (ok: bool)
      modifies engine`memPuts
      ensures var puts := if kind.Chunked? then [MemPut(key, MemValue(Insert, Chunked, CommitAt(prev)))] else memEntries;
              engine.memPuts == old(engine.memPuts) + Fitting(engine.fits, puts) && (ok <==> Fitting(engine.fits, puts) == puts)
    {
      if kind.Chunked? {
        ok := engine.PutAll([MemPut(key, MemValue(Insert, Chunked, CommitAt(prev)))]);
      } else {
        ok := engine.PutAll(memEntries);
      }
    }

    /**
     The commit record makes everything the transaction appended part of the log at once, and nothing else; then it is
     put into the memtables, as far as it fits.
     */
    method Commit(walOk: bool) returns (failed: Option<TxnError>)
      requires Supported(op, kind)
      requires engine.Valid() && id in engine.txns && engine.txns[id] == this
      modifies this, engine`log, engine`writeSeen, engine`memPuts
      ensures engine.Valid() && engine.txns == old(engine.txns)
      ensures failed == if old(err).Some? then old(err) else if !walOk then Some(WalFailed)
                        else if Fitting(engine.fits, old(CommitWrites())) == old(CommitWrites()) then None
                        else Some(ArenaExceeded)
      ensures old(err).Some? || !walOk ==> engine.log == old(engine.log) && engine.memPuts == old(engine.memPuts)
      ensures old(err).None? ==> err == if failed.None? then Some(AlreadyCommitted) else failed
      ensures old(err).None? && walOk ==> engine.memPuts == old(engine.memPuts) + Fitting(engine.fits, old(CommitWrites()))
      ensures old(err).None? && walOk ==>
                && engine.log == old(engine.log) +
                   [Record(old(engine.writeSeen) + 1, op, TxnCommit, kind, id, Some(old(prev)),
                           [Entry(if rowKey.None? then [] else rowKey.value, [], map[])], old(checksum))]
                && old(checksum) == Rolled(engine.crc, Prepared(engine.log, |old(engine.log)|))
      ensures old(err).None? && walOk && !kind.Chunked? ==>
                Written(Contents(old(engine.log)), Contents(engine.log), op, kind, old(appended))
      ensures old(err).None? && walOk && kind.Chunked? ==>
                Contents(engine.log) ==
                Contents(old(engine.log))[LobCell(if rowKey.None? then [] else rowKey.value) :=
                                          Lob(ValuesOf(old(appended)), old(checksum))]
    {
      hide LogOk, Contents, Tracks, EntryMutations, EntryPuts, ApplyAll, ValuesOf, Fitting, Written, Walk, Rolled, Prepared,
        Supported;
      if err.Some? {
        return err;
      }
      ghost var log0, puts0, view := engine.log, engine.memPuts, View();
      var key := if rowKey.None? then [] else rowKey.value;
      engine.Append(Record(0, op, TxnCommit, kind, id, Some(prev), [Entry(key, [], map[])], checksum), walOk);
      if !walOk {
        err := Some(WalFailed);
        return err;
      }
      var record := Last(engine.log);
      RolledCommit(log0, record);
      prev := |engine.log| - 1;
      var ok := PutCommit(key);
      CommitKeepsValid(engine.fits, log0, record, puts0, view);
      err := if ok then Some(AlreadyCommitted) else Some(ArenaExceeded);
      forall i | i in engine.txns && i != id ensures engine.txns[i].Ok(engine.log) {
        engine.txns[i].Undisturbed(log0, record);
      }
      CommitMeans(Contents(log0), Contents(engine.log), key, record.checksum, view);
      return if ok then None else err;
    }
  }

  lemma CommitMeans(before: Store, after: Store, key: Bytes, checksum: nat, t: Open)
    requires Supported(t.op, t.kind)
    requires after == ApplyAll(before, if t.kind.Chunked? then [SetLob(key, ValuesOf(t.entries), checksum)]
                                       else EntryMutations(t.op, t.kind, t.entries))
    ensures t.kind.Chunked? ==> after == before[LobCell(key) := Lob(ValuesOf(t.entries), checksum)]
    ensures !t.kind.Chunked? ==> Written(before, after, t.op, t.kind, t.entries)
  {
    hide ApplyAll, EntryMutations, ValuesOf, Written;
    if t.kind.Chunked? {
      ApplyOne(before, SetLob(key, ValuesOf(t.entries), checksum));
    } else {
      EntriesMean(before, t.op, t.kind, t.entries);
    }
  }

  /** A transaction's checksum: each of its Prepare records rolled into it, in order. */
  function Rolled(crc: (nat, Record) -> nat, records: seq<Record>): nat {
    if records == [] then 0 else crc(Rolled(crc, Front(records)), Last(records))
  }

  lemma RolledPrepare(crc: (nat, Record) -> nat, log: Log, r: Record, prev: nat)
    requires prev < |log| && r.prev == Some(prev)
    ensures Rolled(crc, Walk(log + [r], |log|)[1..]) == crc(Rolled(crc, Walk(log, prev)[1..]), r)
  {
    WalkStable(log, [r], prev);
    assert (log + [r])[|log|] == r;
    var w := Walk(log, prev);
    assert (w + [r])[1..] == w[1..] + [r];
    assert Front(w[1..] + [r]) == w[1..];
  }

  lemma RolledCommit(log: Log, r: Record)
    requires r.prev.Some? && r.prev.value < |log|
    ensures Prepared(log + [r], |log|) == Walk(log, r.prev.value)[1..]
  {
    WalkStable(log, [r], r.prev.value);
    assert (log + [r])[|log|] == r;
  }

  /** The memtable writes are those of the log that fit, and every commit's chain is exact. */
  ghost predicate LogOk(fits: MemPut -> bool, log: Log, puts: seq<MemPut>) {
    WellFormed(log) && ChainsExact(log) && puts == KeptPuts(fits, log, |log|)
  }

  /** The records with a put that does not fit, and how many of their puts went through before it. */
  ghost function LostBy(fits: MemPut -> bool, log: Log): Machine.Lost {
    map i: nat | i < |log| && Fitting(fits, RecordPuts(log, i)) != RecordPuts(log, i) :: |Fitting(fits, RecordPuts(log, i))|
  }

  /**
   So the memtables stand for the operations of the log less those that did not fit, as the engine's state machine has
   it; and for all of them if every put fits.
   */
  lemma {:induction false} MemtablesHold(fits: MemPut -> bool, log: Log, n: nat)
    requires n <= |log|
    ensures PutsOk(log, KeptPuts(fits, log, n))
    ensures ResolveAll(log, KeptPuts(fits, log, n)) == Machine.Kept(log, LostBy(fits, log), n)
    ensures LostBy(fits, log) == map[] ==> ResolveAll(log, KeptPuts(fits, log, n)) == Effects(log, n)
  {
    hide RecordPuts, Fitting, Effect, ResolveAll;
    if n > 0 {
      MemtablesHold(fits, log, n - 1);
      var ps := RecordPuts(log, n - 1);
      RecordPutsResolve(log, n - 1);
      FittingPrefix(fits, ps);
      ResolveAllPrefix(log, ps, |Fitting(fits, ps)|);
      ResolveAllConcat(log, KeptPuts(fits, log, n - 1), Fitting(fits, ps));
      FittingBound(fits, ps);
    } else {
      NothingKept(log);
    }
    if LostBy(fits, log) == map[] {
      Machine.KeptAll(log, n);
    }
  }

  lemma NothingKept(log: Log)
    ensures PutsOk(log, []) && ResolveAll(log, []) == []
  {
  }

  lemma {:induction false} FittingPrefix(fits: MemPut -> bool, ps: seq<MemPut>)
    ensures Fitting(fits, ps) == ps[..|Fitting(fits, ps)|]
  {
    if ps != [] && fits(ps[0]) {
      FittingPrefix(fits, ps[1..]);
      assert ps == [ps[0]] + ps[1..];
    }
  }

  lemma ResolveAllPrefix(log: Log, ps: seq<MemPut>, k: nat)
    requires PutsOk(log, ps) && k <= |ps|
    ensures PutsOk(log, ps[..k]) && ResolveAll(log, ps[..k]) == ResolveAll(log, ps)[..k]
  {
    hide ResolveAll;
    assert ps == ps[..k] + ps[k..];
    ResolveAllConcat(log, ps[..k], ps[k..]);
  }

  // ---- What each kind of record does to the invariant ----

  lemma PlainKeepsValid(fits: MemPut -> bool, log: Log, r: Record, puts: seq<MemPut>)
    requires LogOk(fits, log, puts)
    requires r.state.TxnNone? && r.prev.None? && !r.kind.Chunked? && Supported(r.op, r.kind)
    ensures LogOk(fits, log + [r], puts + Fitting(fits, EntryPuts(r.op, r.kind, r.entries)))
    ensures Contents(log + [r]) == ApplyAll(Contents(log), EntryMutations(r.op, r.kind, r.entries))
  {
    hide Contents, Fitting, EntryPuts, EntryMutations, ChainsExact, CommitExact, BackLinked;
    assert (log + [r])[|log|] == r;
    BackLinkedSnoc(log, r);
    WellFormedSnoc(log, r);
    ChainsExactSnoc(log, r);
    KeptPutsStable(fits, log, [r], |log|);
    ContentsSnoc(log, r);
  }

  lemma ContentsSnoc(log: Log, r: Record)
    ensures Contents(log + [r]) == ApplyAll(Contents(log), Effect(log + [r], |log|))
  {
    EffectsAppend(log, r);
    ApplyAllConcat(map[], Effects(log, |log|), Effect(log + [r], |log|));
  }

  /** Begin and Prepare records put nothing into the memtable. */
  lemma SilentKeepsValid(fits: MemPut -> bool, log: Log, r: Record, puts: seq<MemPut>)
    requires LogOk(fits, log, puts) && NoCommit(log, r.txnId)
    requires (r.state.TxnBegin? || r.state.TxnPrepare?) && (r.prev.Some? ==> r.prev.value < |log|)
    ensures LogOk(fits, log + [r], puts)
    ensures Contents(log + [r]) == Contents(log)
  {
    hide Contents, ChainsExact, CommitExact, BackLinked;
    assert (log + [r])[|log|] == r;
    BackLinkedSnoc(log, r);
    WellFormedSnoc(log, r);
    ChainsExactSnoc(log, r);
    KeptPutsStable(fits, log, [r], |log|);
    assert puts + [] == puts;
    UncommittedIsInvisible(log, r);
  }

  lemma BeginKeepsValid(fits: MemPut -> bool, log: Log, r: Record, puts: seq<MemPut>, t: Open)
    requires LogOk(fits, log, puts)
    requires r.state.TxnBegin? && r.prev.None? && r.txnId == t.id && OwnRecords(log, t.id) == []
    requires t.prev == |log| && t.entries == []
    ensures LogOk(fits, log + [r], puts)
    ensures Contents(log + [r]) == Contents(log)
    ensures Tracks(log + [r], t)
  {
    FreshUncommitted(log, t.id);
    SilentKeepsValid(fits, log, r, puts);
    TracksBegin(log, r, t);
  }

  lemma PrepareKeepsValid(fits: MemPut -> bool, log: Log, r: Record, puts: seq<MemPut>, t: Open, e: Entry)
    requires LogOk(fits, log, puts)
    requires Tracks(log, t) && r.state.TxnPrepare? && r.txnId == t.id && r.prev == Some(t.prev) && r.entries == [e]
    ensures LogOk(fits, log + [r], puts)
    ensures Contents(log + [r]) == Contents(log)
    ensures Tracks(log + [r], t.(prev := |log|, entries := t.entries + [e]))
  {
    SilentKeepsValid(fits, log, r, puts);
    TracksPrepare(log, r, t, e);
  }

  lemma CommitKeepsValid(fits: MemPut -> bool, log: Log, r: Record, puts: seq<MemPut>, t: Open)
    requires LogOk(fits, log, puts)
    requires Tracks(log, t) && Supported(t.op, t.kind)
    requires r.state.TxnCommit? && r.txnId == t.id && r.prev == Some(t.prev) && r.op == t.op && r.kind == t.kind
    requires r.entries != []
    ensures LogOk(fits, log + [r],
                  puts + Fitting(fits, if t.kind.Chunked? then [MemPut(r.entries[0].key, MemValue(Insert, Chunked, CommitAt(|log|)))]
                                       else EntryPuts(t.op, t.kind, t.entries)))
    ensures Contents(log + [r]) ==
            ApplyAll(Contents(log),
                     if t.kind.Chunked? then [SetLob(r.entries[0].key, ValuesOf(t.entries), r.checksum)]
                     else EntryMutations(t.op, t.kind, t.entries))
  {
    hide WellFormed, ChainsExact, NoCommit, Fitting, Tracks, Contents, Effect, RecordOk, CommitExact, RecordPuts,
      EntryPuts, EntryMutations, ValuesOf, ApplyAll, Supported;
    TracksPrev(log, t);
    assert (log + [r])[|log|] == r;
    CommitEffect(log, r, t);
    WellFormedSnoc(log, r);
    ChainsExactSnoc(log, r);
    CommitPuts(log, r, t);
    KeptPutsStable(fits, log, [r], |log|);
    ContentsSnoc(log, r);
  }

  lemma CommitPuts(log: Log, r: Record, t: Open)
    requires Tracks(log, t) && r.prev == Some(t.prev) && RecordOk(log + [r], |log|)
    requires r.state.TxnCommit? && r.op == t.op && r.kind == t.kind && r.entries != []
    ensures RecordPuts(log + [r], |log|) ==
            if t.kind.Chunked? then [MemPut(r.entries[0].key, MemValue(Insert, Chunked, CommitAt(|log|)))]
            else EntryPuts(t.op, t.kind, t.entries)
  {
    assert (log + [r])[|log|] == r;
    WalkStable(log, [r], t.prev);
    ShapedEntries(Walk(log, t.prev), t.entries);
  }

  // ---- What the arguments of a call become ----

  /** One memtable write for each key, in order. */
  ghost predicate KVPuts(ps: seq<MemPut>, op: Op, keys: seq<Bytes>, values: seq<Bytes>)
    requires op.Delete? || |values| == |keys|
  {
    && |ps| == |keys|
    && forall i :: 0 <= i < |ps| ==> ps[i] == MemPut(keys[i], MemValue(op, KV, Raw(if op.Delete? then [] else values[i])))
  }

  lemma {:induction false} KVEntryPuts(op: Op, keys: seq<Bytes>, values: seq<Bytes>, es: seq<Entry>)
    requires (op.Delete? || |values| == |keys|) && |es| == |keys|
    requires forall j :: 0 <= j < |keys| ==> es[j] == Entry(keys[j], if op.Delete? then [] else values[j], map[])
    ensures KVPuts(EntryPuts(op, KV, es), op, keys, values)
  {
    if es != [] {
      KVEntryPuts(op, Front(keys), if op.Delete? then [] else Front(values), Front(es));
    }
  }

  lemma KVFields(op: Op, keys: seq<Bytes>, values: seq<Bytes>, es: seq<Entry>, before: Store, after: Store)
    requires (op.Delete? || (op.Insert? && |values| == |keys|)) && |es| == |keys|
    requires forall j :: 0 <= j < |keys| ==> es[j] == Entry(keys[j], if op.Delete? then [] else values[j], map[])
    requires Written(before, after, op, KV, es)
    ensures KVWritten(before, after, op, keys, values)
  {
    ValuesAt(es);
    assert KeysOf(es) == keys;
    if op.Insert? {
      assert ValuesOf(es) == values;
    }
  }

  lemma RowFields(op: Op, rows: seq<Bytes>, columns: seq<Columns>, es: seq<Entry>, before: Store, after: Store)
    requires (op.DeleteRowByKey? || |columns| == |rows|) && |es| == |rows|
    requires forall j :: 0 <= j < |rows| ==> es[j] == Entry(rows[j], [], if op.DeleteRowByKey? then map[] else columns[j])
    requires Written(before, after, op, Row, es)
    ensures RowWritten(before, after, op, rows, columns)
  {
    hide ColumnWritten;
    assert KeysOf(es) == rows;
    if !op.DeleteRowByKey? {
      assert ColumnsOf(es) == columns;
    }
  }

  /** One memtable write for each row, in order. */
  ghost predicate RowPuts(ps: seq<MemPut>, op: Op, rows: seq<Bytes>, columns: seq<Columns>)
    requires op.DeleteRowByKey? || |columns| == |rows|
  {
    && |ps| == |rows|
    && forall i :: 0 <= i < |ps| ==>
         ps[i] == MemPut(rows[i], MemValue(op, Row, Cols(if op.DeleteRowByKey? then map[] else columns[i])))
  }

  lemma {:induction false} RowEntryPuts(op: Op, rows: seq<Bytes>, columns: seq<Columns>, es: seq<Entry>)
    requires (op.DeleteRowByKey? || |columns| == |rows|) && |es| == |rows|
    requires forall j :: 0 <= j < |rows| ==> es[j] == Entry(rows[j], [], if op.DeleteRowByKey? then map[] else columns[j])
    ensures RowPuts(EntryPuts(op, Row, es), op, rows, columns)
  {
    if es != [] {
      RowEntryPuts(op, Front(rows), if op.DeleteRowByKey? then [] else Front(columns), Front(es));
    }
  }
}
