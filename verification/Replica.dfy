/**
 Applying streamed records on a replica (dbkernel/replica.go).

 The handler checks sequence numbers, appends the received bytes to its own log, checks that they landed at the
 positions they have on the primary, and only then interprets them into its memtables.
 */
module Replica {
  import opened Basics
  import opened Cells
  import opened LogRecords
  import opened MemPuts
  import opened Transactions
  import opened Framing
  import opened Segments
  import opened WalLayout
  import opened Wal
  import WalBytes

  /** What a node is configured with: segment size, record encoding, checksum, and which entries fit its memtables. */
  datatype Node = Node(size: nat, encode: Record -> Bytes, crc: Crc, fits: MemPut -> bool)

  datatype View = View(log: Log, writeSeen: nat, puts: seq<MemPut>)

  datatype ApplyError = CountMismatch | InvalidOffset | InvalidLsn | TooLargeForLog | ArenaExceeded

  function Encoded(node: Node, rs: seq<Record>): (bs: seq<Bytes>)
    ensures |bs| == |rs|
  {
    seq(|rs|, i requires 0 <= i < |rs| => node.encode(rs[i]))
  }

  /** The position of record i of a log that was appended to an empty directory. */
  function LogPosition(node: Node, log: Log, i: nat): Position
    requires i < |log|
  {
    LayoutContents(node.size, Encoded(node, log));
    PositionOf(Layout(node.size, Encoded(node, log)), i)
  }

  /** Appending does not move earlier records. */
  lemma LogPositionStable(node: Node, log: Log, more: Log, i: nat)
    requires i < |log|
    ensures LogPosition(node, log + more, i) == LogPosition(node, log, i)
  {
    hide PositionOf, Layout;
    assert Encoded(node, log + more) == Encoded(node, log) + Encoded(node, more);
    LayoutStable(node.size, Encoded(node, log), Encoded(node, more), i);
  }

  /** Positions of one log determine the records' places in it. */
  lemma LogPositionsIncrease(node: Node, log: Log, i: nat, j: nat)
    requires i < j < |log|
    ensures Before(LogPosition(node, log, i), LogPosition(node, log, j))
  {
    hide PositionOf, Layout;
    LayoutContents(node.size, Encoded(node, log));
    PositionsIncrease(Layout(node.size, Encoded(node, log)), i, j);
  }

  lemma PositionNotZero(node: Node, log: Log, i: nat)
    requires i < |log|
    ensures LogPosition(node, log, i).offset != 0
  {
    hide PositionOf, Layout;
    LayoutContents(node.size, Encoded(node, log));
    PositionInside(Layout(node.size, Encoded(node, log)), i);
  }

  /** The checks before anything is written: the first failing record decides the error. */
  function Precheck(seen: nat, records: seq<Record>, offsets: seq<Position>, i: nat): Option<ApplyError>
    requires |records| == |offsets| && i <= |records|
    decreases |records| - i
  {
    if i == |records| then None
    else if offsets[i].offset == 0 then Some(InvalidOffset)
    else if records[i].lsn != seen + 1 + i then Some(InvalidLsn)
    else Precheck(seen, records, offsets, i + 1)
  }

  lemma {:induction false} PrecheckPasses(seen: nat, records: seq<Record>, offsets: seq<Position>, i: nat)
    requires |records| == |offsets| && i <= |records|
    ensures Precheck(seen, records, offsets, i).None? <==>
            forall j | i <= j < |records| :: offsets[j].offset != 0 && records[j].lsn == seen + 1 + j
    decreases |records| - i
  {
    if i < |records| {
      PrecheckPasses(seen, records, offsets, i + 1);
    }
  }

  /** What records a up to b put into the memtables. */
  function PutsBetween(log: Log, a: nat, b: nat): seq<MemPut>
    requires a <= b <= |log|
  {
    if a == b then [] else PutsBetween(log, a, b - 1) + RecordPuts(log, b - 1)
  }

  lemma {:induction false} PutsBetweenMatch(log: Log, ps: seq<MemPut>, a: nat, b: nat)
    requires PutsMatchLog(log, ps, a) && a <= b <= |log|
    ensures PutsMatchLog(log, ps + PutsBetween(log, a, b), b)
    decreases b
  {
    hide PutsMatchLog, RecordPuts;
    if a == b {
      assert ps + PutsBetween(log, a, b) == ps;
    } else {
      PutsBetweenMatch(log, ps, a, b - 1);
      PutsMatchNext(log, ps + PutsBetween(log, a, b - 1), b - 1);
      Associative(ps, PutsBetween(log, a, b - 1), RecordPuts(log, b - 1));
    }
  }

  ghost predicate SamePlaces(node: Node, log: Log, from: nat, offsets: seq<Position>) {
    forall i | 0 <= i < |offsets| && from + i < |log| :: LogPosition(node, log, from + i) == offsets[i]
  }

  /** What applying a batch makes of a replica. */
  ghost function Received(node: Node, v: View, records: seq<Record>, offsets: seq<Position>): (View, Option<ApplyError>) {
    if records == [] then (v, None)
    else if |records| != |offsets| then (v, Some(CountMismatch))
    else if Precheck(v.writeSeen, records, offsets, 0).Some? then (v, Precheck(v.writeSeen, records, offsets, 0))
    else if !AllFit(node.size, Encoded(node, records)) then (v, Some(TooLargeForLog))
    else
      var log := v.log + records;
      if !SamePlaces(node, log, |v.log|, offsets) then (v.(log := log), Some(InvalidOffset))
      else
        var puts := PutsBetween(log, |v.log|, |log|);
        (View(log, v.writeSeen + |records|, v.puts + Fitting(node.fits, puts)),
         if Fitting(node.fits, puts) == puts then None else Some(ArenaExceeded))
  }

  /** In step with the log: the memtables hold exactly its operations, and sequence numbers count its records. */
  ghost predicate Synced(v: View) {
    WellFormed(v.log) && v.writeSeen == |v.log| && PutsMatchLog(v.log, v.puts, |v.log|)
  }

  /** A batch that is applied without error leaves the replica in step. */
  lemma ReceivedSynced(node: Node, v: View, records: seq<Record>, offsets: seq<Position>)
    requires Synced(v) && WellFormed(v.log + records) && Received(node, v, records, offsets).1.None?
    ensures Synced(Received(node, v, records, offsets).0)
    ensures Received(node, v, records, offsets).0.log == v.log + records
  {
    hide WellFormed, PutsMatchLog, Fitting, PutsBetween, SamePlaces, AllFit;
    if records == [] {
      assert v.log + records == v.log;
    } else {
      var log := v.log + records;
      PutsMatchExtended(v.log, v.puts, records, |v.log|);
      PutsBetweenMatch(log, v.puts, |v.log|, |log|);
    }
  }

  /** Where a batch lands when it is appended. */
  function Places(node: Node, log: Log, records: seq<Record>): (ps: seq<Position>)
    ensures |ps| == |records|
  {
    seq(|records|, i requires 0 <= i < |records| => LogPosition(node, log + records, |log| + i))
  }

  class ReplicaWALHandler {
    const node: Node
    const wal: WALog
    var log: Log  // the records of wal, decoded
    var writeSeen: nat
    var memPuts: seq<MemPut>

    ghost function Now(): View
      reads this
    {
      View(log, writeSeen, memPuts)
    }

    /** The handler's segmented log was started empty and only appended to. */
    ghost predicate Valid()
      reads this, wal, wal.repr
    {
      && wal.Valid() && wal.maxSegmentSize == node.size && this !in wal.repr
      && wal.current in wal.repr && !wal.current.isSealed
      && wal.shape == Layout(node.size, Encoded(node, log))
    }

    constructor (node: Node, now: nat)
      requires SEGMENT_HEADER_SIZE <= node.size <= MAX_SEGMENT_SIZE
      ensures Valid() && fresh(wal) && fresh(wal.repr) && this.node == node && Now() == View([], 0, [])
    {
      this.node := node;
      wal := new WALog(node.size, node.crc, now);
      log, writeSeen, memPuts := [], 0, [];
      new;
      wal.CurrentHolds();
      assert Encoded(node, []) == [];
    }

    /** Appends the encoded records to the segmented log: all of them or, if one is too large, none. */
    method BatchAppend(records: seq<Record>, now: nat) returns (r: Result<seq<Position>, ApplyError>)
      requires Valid()
      modifies this`log, wal, wal.current, wal.current.mmap
      ensures Valid() && fresh(wal.repr - old(wal.repr))
      ensures AllFit(node.size, Encoded(node, records)) ==> r == Ok(Places(node, old(log), records)) && log == old(log) + records
      ensures !AllFit(node.size, Encoded(node, records)) ==> r == Err(TooLargeForLog) && log == old(log)
    {
      hide Layout, WALog.Valid, AllFit, Places, Encoded;
      var written := AppendBatch(wal, node, log, records, now);
      if written.Err? {
        return Err(TooLargeForLog);
      }
      log := log + records;
      return Ok(written.value);
    }

    /** Writes to the memtable until one does not fit. */
    method PutAll(puts: seq<MemPut>) returns (ok: bool)
      modifies this`memPuts
      ensures memPuts == old(memPuts) + Fitting(node.fits, puts)
      ensures ok <==> Fitting(node.fits, puts) == puts
    {
      hide Fitting;
      FittingNone(node.fits);
      for i := 0 to |puts|
        invariant memPuts == old(memPuts) + puts[..i]
        invariant Fitting(node.fits, puts[..i]) == puts[..i]
      {
        FittingAt(node.fits, puts, i);
        if !node.fits(puts[i]) {
          return false;
        }
        memPuts := memPuts + [puts[i]];
      }
      assert puts[..|puts|] == puts;
      return true;
    }

    /** Interprets record i; a transaction takes effect at its commit. */
    method HandleRecord(i: nat) returns (ok: bool)
      requires i < |log| && BackLinked(log) && RecordOk(log, i)
      modifies this`memPuts
      ensures memPuts == old(memPuts) + Fitting(node.fits, RecordPuts(log, i))
      ensures ok <==> Fitting(node.fits, RecordPuts(log, i)) == RecordPuts(log, i)
    {
      hide Fitting;
      var record := log[i];
      match record.state {
        case TxnNone =>
          ok := PutAll(EntryPuts(record.op, record.kind, record.entries));
        case TxnCommit =>
          if record.kind.Chunked? {
            ok := PutAll([MemPut(record.entries[0].key, MemValue(Insert, Chunked, CommitAt(i)))]);
          } else {
            var records := GetTransactionRecords(log, record.prev);
            var entries := Gather(records.value[1..]);
            ok := PutAll(EntryPuts(record.op, record.kind, entries));
          }
        case TxnBegin =>
          ok := PutAll([]);
        case TxnPrepare =>
          ok := PutAll([]);
      }
    }

    /** Handles records from a position to the end of the log, stopping at the first failure. */
    method HandleFrom(from: nat) returns (ok: bool)
      requires from <= |log| && WellFormed(log)
      modifies this`memPuts
      ensures memPuts == old(memPuts) + Fitting(node.fits, PutsBetween(log, from, |log|))
      ensures ok <==> Fitting(node.fits, PutsBetween(log, from, |log|)) == PutsBetween(log, from, |log|)
    {
      hide Fitting, RecordPuts, RecordOk;
      FittingNone(node.fits);
      for i := from to |log|
        invariant memPuts == old(memPuts) + PutsBetween(log, from, i)
        invariant Fitting(node.fits, PutsBetween(log, from, i)) == PutsBetween(log, from, i)
      {
        ghost var before, next := PutsBetween(log, from, i), RecordPuts(log, i);
        FittingConcat(node.fits, before, next);
        Associative(old(memPuts), before, Fitting(node.fits, next));
        var handled := HandleRecord(i);
        if !handled {
          assert (before + next)[|before|..] == next;
          assert (before + Fitting(node.fits, next))[|before|..] == Fitting(node.fits, next);
          FittingStays(node, log, from, i + 1, |log|);
          return false;
        }
      }
      return true;
    }

    /** Applies a batch of received records. */
    method ApplyRecords(records: seq<Record>, offsets: seq<Position>, now: nat) returns (err: Option<ApplyError>)
      requires Valid()
      requires |records| == |offsets| && Precheck(writeSeen, records, offsets, 0).None? ==> WellFormed(log + records)
      modifies this`log, this`writeSeen, this`memPuts, wal, wal.current, wal.current.mmap
      ensures Valid() && fresh(wal.repr - old(wal.repr))
      ensures (Now(), err) == Received(node, old(Now()), records, offsets)
    {
      hide Fitting, PutsBetween, AllFit, LogPosition, WellFormed, Precheck, WALog.Valid, Layout;
      if records == [] {
        return None;
      }
      if |records| != |offsets| {
        return Some(CountMismatch);
      }
      var bad := FirstBad(records, offsets);
      if bad.Some? {
        return bad;
      }
      var appended := BatchAppend(records, now);
      if appended.Err? {
        return Some(appended.error);
      }
      for i := 0 to |offsets|
        invariant forall j | 0 <= j < i :: LogPosition(node, log, |old(log)| + j) == offsets[j]
      {
        if appended.value[i] != offsets[i] {
          return Some(InvalidOffset);
        }
      }
      writeSeen := writeSeen + |records|;
      var handled := HandleFrom(|log| - |records|);
      return if handled then None else Some(ArenaExceeded);
    }

    /**
     Applies one record. It accepts, rejects and writes exactly as a batch of one does, but counts the record as soon
     as its number is accepted: a record that then fails to be appended has used up a sequence number.
     */
    method ApplyRecord(record: Record, offset: Position, now: nat) returns (err: Option<ApplyError>)
      requires Valid()
      requires offset.offset != 0 && record.lsn == writeSeen + 1 ==> WellFormed(log + [record])
      modifies this`log, this`writeSeen, this`memPuts, wal, wal.current, wal.current.mmap
      ensures Valid() && fresh(wal.repr - old(wal.repr))
      ensures var (v, e) := Received(node, old(Now()), [record], [offset]);
              && err == e && log == v.log && memPuts == v.puts
              && (err.None? ==> writeSeen == v.writeSeen)
      ensures writeSeen == old(writeSeen) + if offset.offset != 0 && record.lsn == old(writeSeen) + 1 then 1 else 0
    {
      hide Fitting, PutsBetween, AllFit, LogPosition, WellFormed, WALog.Valid, Layout;
      PrecheckOne(writeSeen, record, offset);
      if offset.offset == 0 {
        return Some(InvalidOffset);
      }
      if record.lsn != writeSeen + 1 {
        return Some(InvalidLsn);
      }
      writeSeen := writeSeen + 1;
      var appended := BatchAppend([record], now);
      if appended.Err? {
        return Some(appended.error);
      }
      if appended.value[0] != offset {
        assert LogPosition(node, log, |old(log)| + 0) != [offset][0];
        return Some(InvalidOffset);
      }
      var handled := HandleFrom(|log| - 1);
      return if handled then None else Some(ArenaExceeded);
    }

    method FirstBad(records: seq<Record>, offsets: seq<Position>) returns (bad: Option<ApplyError>)
      requires |records| == |offsets|
      ensures bad == Precheck(writeSeen, records, offsets, 0)
    {
      for i := 0 to |records|
        invariant Precheck(writeSeen, records, offsets, 0) == Precheck(writeSeen, records, offsets, i)
      {
        if offsets[i].offset == 0 {
          return Some(InvalidOffset);
        }
        if records[i].lsn != writeSeen + 1 + i {
          return Some(InvalidLsn);
        }
      }
      return None;
    }
  }

  /** Appending a batch to a log started empty: the records get the positions the layout of the whole log gives them. */
  method AppendBatch(wal: WALog, node: Node, ghost log: Log, records: seq<Record>, now: nat)
    returns (r: Result<seq<Position>, Wal.WalError>)
    requires wal.Valid() && wal.maxSegmentSize == node.size && !wal.current.isSealed
    requires wal.shape == Layout(node.size, Encoded(node, log))
    modifies wal, wal.current, wal.current.mmap
    ensures wal.Valid() && fresh(wal.repr - old(wal.repr)) && wal.current in wal.repr && !wal.current.isSealed
    ensures r.Ok? <==> AllFit(node.size, Encoded(node, records))
    ensures r.Ok? ==> r.value == Places(node, log, records)
    ensures wal.shape == Layout(node.size, Encoded(node, if r.Ok? then log + records else log))
  {
    hide Layout, PositionOf, WALog.Valid, AllFit, LogPosition, WalBytes.PlaceAllBytes, PlaceAll, Places, Encoded;
    LayoutGrows(node, log, records);
    LayoutContents(node.size, Encoded(node, log));
    r := wal.WriteBatch(Encoded(node, records), now);
    wal.CurrentHolds();
    if r.Ok? {
      PlacesAre(node, log, records, r.value, wal.shape);
    }
  }

  /**
   Appending one record with a single write, as a primary does, to a log started empty: the record gets the position
   that a replica's batch append of the same records gives it.
   */
  method AppendRecord(wal: WALog, node: Node, ghost log: Log, record: Record, now: nat) returns (r: Result<Position, Wal.WalError>)
    requires wal.Valid() && wal.maxSegmentSize == node.size && !wal.current.isSealed
    requires wal.shape == Layout(node.size, Encoded(node, log))
    modifies wal, wal.current, wal.current.mmap
    ensures wal.Valid() && fresh(wal.repr - old(wal.repr))
    ensures r.Ok? <==> !Oversize(node.size, node.encode(record))
    ensures r.Ok? ==> r.value == LogPosition(node, log + [record], |log|) && !wal.current.isSealed
    ensures wal.shape == Layout(node.size, Encoded(node, if r.Ok? then log + [record] else log))
  {
    hide Layout, PositionOf, WALog.Valid, LogPosition, WalBytes.PlaceBytes, Place, Oversize;
    LayoutGrows(node, log, [record]);
    assert Encoded(node, [record]) == [node.encode(record)];
    PlaceOne(node.size, wal.shape, node.encode(record));
    LayoutContents(node.size, Encoded(node, log));
    r := wal.Write(node.encode(record), now);
    if r.Ok? {
      PositionIs(node, log + [record], |log|, wal.shape);
    }
  }

  lemma LayoutGrows(node: Node, log: Log, records: seq<Record>)
    ensures Encoded(node, log + records) == Encoded(node, log) + Encoded(node, records)
    ensures Layout(node.size, Encoded(node, log)) != []
    ensures Layout(node.size, Encoded(node, log + records)) ==
            PlaceAll(node.size, Layout(node.size, Encoded(node, log)), Encoded(node, records))
  {
    assert Encoded(node, log + records) == Encoded(node, log) + Encoded(node, records);
    PlaceAllConcat(node.size, [[]], Encoded(node, log), Encoded(node, records));
  }

  /** The positions the segmented log returned are the records' positions in the longer log. */
  lemma PlacesAre(node: Node, log: Log, records: seq<Record>, positions: seq<Position>, shape: Shape)
    requires |positions| == |records| && shape == Layout(node.size, Encoded(node, log + records))
    requires Count(shape) == |log| + |records|
    requires forall i | 0 <= i < |records| :: positions[i] == PositionOf(shape, |log| + i)
    ensures positions == Places(node, log, records)
  {
    hide PositionOf, Layout, LogPosition, Count, Encoded;
    var places := Places(node, log, records);
    forall i | 0 <= i < |records| ensures positions[i] == places[i] {
      PositionIs(node, log + records, |log| + i, shape);
    }
  }

  lemma PositionIs(node: Node, log: Log, i: nat, shape: Shape)
    requires i < |log| && i < Count(shape) && shape == Layout(node.size, Encoded(node, log))
    ensures LogPosition(node, log, i) == PositionOf(shape, i)
  {
    hide PositionOf, Layout;
  }

  lemma PrecheckOne(seen: nat, record: Record, offset: Position)
    ensures Precheck(seen, [record], [offset], 0) ==
            if offset.offset == 0 then Some(InvalidOffset) else if record.lsn != seen + 1 then Some(InvalidLsn) else None
  {
    assert Precheck(seen, [record], [offset], 1) == None;
  }

  /** Once a write has failed, nothing later is written. */
  lemma {:induction false} FittingStays(node: Node, log: Log, a: nat, b: nat, c: nat)
    requires a <= b <= c <= |log| && Fitting(node.fits, PutsBetween(log, a, b)) != PutsBetween(log, a, b)
    ensures Fitting(node.fits, PutsBetween(log, a, c)) == Fitting(node.fits, PutsBetween(log, a, b)) != PutsBetween(log, a, c)
    decreases c
  {
    hide Fitting, RecordPuts;
    if b < c {
      FittingStays(node, log, a, b, c - 1);
      FittingConcat(node.fits, PutsBetween(log, a, c - 1), RecordPuts(log, c - 1));
      FittingBound(node.fits, PutsBetween(log, a, c - 1));
    }
  }
}
