/**
 Transaction records and their links (dbkernel/txn.go, dbkernel/internal/wal/wal.go: GetTransactionRecords).

 A transaction is a Begin record, one Prepare record per appended value, and a Commit record, each linked to
 the one before it by position, with any other records in between.
 */
module Transactions {
  import opened Basics
  import opened Cells
  import opened LogRecords
  import opened MemPuts

  datatype WalError = BadOffset

  /**
   Collects the records of a transaction, following the links back from the given position and then
   reversing the list. It terminates because every link points to an earlier record.
   */
  method GetTransactionRecords(log: Log, start: Option<nat>) returns (r: Result<seq<Record>, WalError>)
    requires BackLinked(log)
    ensures match start
            case None => r == Ok([])
            case Some(p) => r == if p < |log| then Ok(Walk(log, p)) else Err(BadOffset)
  {
    if start.None? {
      return Ok([]);
    }
    var records := [];
    var next: nat := start.value;
    while true
      invariant next < |log| ==> start.value < |log| && Walk(log, start.value) == Walk(log, next) + Reversed(records)
      invariant next >= |log| ==> next == start.value
      decreases next
    {
      if next >= |log| {
        return Err(BadOffset);
      }
      var record := log[next];
      ghost var older := records;
      records := records + [record];
      ReversedSnoc(older, record);
      if record.prev.None? {
        break;
      }
      next := record.prev.value;
    }
    records := Reverse(records);
    return Ok(records);
  }

  function Reversed(s: seq<Record>): seq<Record> {
    if s == [] then [] else [Last(s)] + Reversed(Front(s))
  }

  lemma ReversedSnoc(s: seq<Record>, r: Record)
    ensures Reversed(s + [r]) == [r] + Reversed(s)
  {
    assert Front(s + [r]) == s;
  }

  method Reverse(s: seq<Record>) returns (out: seq<Record>)
    ensures out == Reversed(s)
  {
    out := [];
    var i := |s|;
    assert s[..i] == s;
    while i > 0
      invariant 0 <= i <= |s|
      invariant Reversed(s) == out + Reversed(s[..i])
    {
      i := i - 1;
      assert s[..i + 1] == s[..i] + [s[i]];
      ReversedSnoc(s[..i], s[i]);
      out := out + [s[i]];
    }
  }

  /** Gathers the entries of a transaction's prepared records. */
  method Gather(records: seq<Record>) returns (es: seq<Entry>)
    ensures es == EntriesOf(records)
  {
    es := [];
    for i := 0 to |records|
      invariant es == EntriesOf(records[..i])
    {
      assert Front(records[..i + 1]) == records[..i] && Last(records[..i + 1]) == records[i];
      es := es + records[i].entries;
    }
    assert records[..|records|] == records;
  }

  // ---- Which records belong to a transaction, said without following links ----

  predicate Belongs(r: Record, id: Bytes) {
    (r.state.TxnBegin? || r.state.TxnPrepare?) && r.txnId == id
  }

  /** The Begin and Prepare records with this transaction id, in log order. */
  function OwnRecords(log: Log, id: Bytes): seq<Record> {
    if log == [] then []
    else OwnRecords(Front(log), id) + if Belongs(Last(log), id) then [Last(log)] else []
  }

  lemma OwnSnoc(log: Log, r: Record, id: Bytes)
    ensures OwnRecords(log + [r], id) == OwnRecords(log, id) + if Belongs(r, id) then [r] else []
  {
    assert Front(log + [r]) == log;
  }

  /** No transaction with this id has been committed. */
  ghost predicate NoCommit(log: Log, id: Bytes) {
    forall r :: r in log && r.state.TxnCommit? ==> r.txnId != id
  }

  /**
   Every commit in the log walks back to exactly its own transaction's records, in append order, and nothing of a
   transaction comes after its commit.
   */
  ghost predicate ChainsExact(log: Log) {
    && BackLinked(log)
    && (forall i :: 0 <= i < |log| && log[i].state.TxnCommit? ==> CommitExact(log, i))
    && (forall i :: 0 <= i < |log| && !log[i].state.TxnNone? ==> NoCommit(log[..i], log[i].txnId))
  }

  ghost predicate CommitExact(log: Log, i: nat)
    requires i < |log|
  {
    && log[i].prev.Some? && log[i].prev.value < i
    && Walk(log, log[i].prev.value) == OwnRecords(log[..i], log[i].txnId)
  }

  // ---- The progress of an open transaction ----

  /** What the transaction object remembers, with everything it has appended. */
  datatype Open = Open(id: Bytes, prev: nat, op: Op, kind: Kind, entries: seq<Entry>)

  /** A Begin record followed by Prepare records that carry one entry each. */
  predicate Shaped(records: seq<Record>, entries: seq<Entry>) {
    && |records| == 1 + |entries|
    && records[0].state.TxnBegin?
    && forall i :: 1 <= i < |records| ==> records[i].state.TxnPrepare? && records[i].entries == [entries[i - 1]]
  }

  /** The links from the transaction's last record lead through exactly its own records. */
  ghost predicate Tracks(log: Log, t: Open) {
    && BackLinked(log)
    && t.prev < |log|
    && Walk(log, t.prev) == OwnRecords(log, t.id)
    && Shaped(Walk(log, t.prev), t.entries)
    && NoCommit(log, t.id)
  }

  lemma BackLinkedSnoc(log: Log, r: Record)
    requires BackLinked(log) && (r.prev.Some? ==> r.prev.value < |log|)
    ensures BackLinked(log + [r])
  {
  }

  /** Records of others do not disturb an open transaction. */
  lemma TracksThroughOthers(log: Log, r: Record, t: Open)
    requires Tracks(log, t) && (r.txnId == t.id ==> r.state.TxnNone?) && (r.prev.Some? ==> r.prev.value < |log|)
    ensures Tracks(log + [r], t)
  {
    BackLinkedSnoc(log, r);
    WalkStable(log, [r], t.prev);
    OwnSnoc(log, r, t.id);
  }

  lemma TracksPrev(log: Log, t: Open)
    requires Tracks(log, t)
    ensures t.prev < |log| && NoCommit(log, t.id)
  {
  }

  /** An id without records has no commit either. */
  lemma FreshUncommitted(log: Log, id: Bytes)
    requires ChainsExact(log) && OwnRecords(log, id) == []
    ensures NoCommit(log, id)
  {
    forall r | r in log && r.state.TxnCommit? ensures r.txnId != id {
      var i :| 0 <= i < |log| && log[i] == r;
      assert CommitExact(log, i);
      OwnGrows(log, i, r.txnId);
    }
  }

  lemma {:induction false} OwnGrows(log: Log, n: nat, id: Bytes)
    requires n <= |log|
    ensures |OwnRecords(log[..n], id)| <= |OwnRecords(log, id)|
  {
    if n < |log| {
      OwnGrows(Front(log), n, id);
      assert Front(log)[..n] == log[..n];
    } else {
      assert log[..n] == log;
    }
  }

  lemma TracksBegin(log: Log, r: Record, t: Open)
    requires BackLinked(log) && OwnRecords(log, t.id) == [] && NoCommit(log, t.id)
    requires r.state.TxnBegin? && r.txnId == t.id && r.prev.None?
    requires t.prev == |log| && t.entries == []
    ensures Tracks(log + [r], t)
  {
    BackLinkedSnoc(log, r);
    OwnSnoc(log, r, t.id);
    assert (log + [r])[|log|] == r;
  }

  lemma TracksPrepare(log: Log, r: Record, t: Open, e: Entry)
    requires Tracks(log, t)
    requires r.state.TxnPrepare? && r.txnId == t.id && r.prev == Some(t.prev) && r.entries == [e]
    ensures Tracks(log + [r], t.(prev := |log|, entries := t.entries + [e]))
  {
    BackLinkedSnoc(log, r);
    OwnSnoc(log, r, t.id);
    WalkStable(log, [r], t.prev);
    assert (log + [r])[|log|] == r;
    assert Walk(log + [r], |log|) == Walk(log, t.prev) + [r];
  }

  lemma {:induction false} ShapedEntries(records: seq<Record>, entries: seq<Entry>)
    requires Shaped(records, entries)
    ensures EntriesOf(records[1..]) == entries
    ensures forall r :: r in records[1..] ==> r.entries != []
    ensures ChunksOf(records[1..]) == ValuesOf(entries)
    decreases |entries|
  {
    hide Walk;
    if entries != [] {
      var n := |entries|;
      var front := records[..n];
      assert records == front + [records[n]] && front[1..] + [records[n]] == records[1..];
      ShapedEntries(front, Front(entries));
      assert Front(records[1..]) == front[1..] && Last(records[1..]) == records[n];
      assert entries == Front(entries) + [Last(entries)];
    }
  }

  function ValuesOf(es: seq<Entry>): seq<Bytes> {
    if es == [] then [] else ValuesOf(Front(es)) + [Last(es).value]
  }

  /** A commit record makes exactly what the transaction appended effective, at the commit's position. */
  lemma CommitEffect(log: Log, c: Record, t: Open)
    requires Tracks(log, t) && Supported(t.op, t.kind)
    requires c.state.TxnCommit? && c.txnId == t.id && c.prev == Some(t.prev) && c.op == t.op && c.kind == t.kind
    requires c.kind.Chunked? ==> c.entries != []
    ensures BackLinked(log + [c]) && RecordOk(log + [c], |log|) && CommitExact(log + [c], |log|)
    ensures Effect(log + [c], |log|) ==
            if t.kind.Chunked? then [SetLob(c.entries[0].key, ValuesOf(t.entries), c.checksum)]
            else EntryMutations(t.op, t.kind, t.entries)
  {
    BackLinkedSnoc(log, c);
    WalkStable(log, [c], t.prev);
    assert (log + [c])[|log|] == c && (log + [c])[..|log|] == log;
    ShapedEntries(Walk(log, t.prev), t.entries);
  }

  /** Adding a record keeps every earlier commit's chain exact. */
  lemma ChainsExactSnoc(log: Log, r: Record)
    requires ChainsExact(log) && (r.prev.Some? ==> r.prev.value < |log|)
    requires r.state.TxnCommit? ==> CommitExact(log + [r], |log|)
    requires !r.state.TxnNone? ==> NoCommit(log, r.txnId)
    ensures ChainsExact(log + [r])
  {
    BackLinkedSnoc(log, r);
    forall i | 0 <= i < |log + [r]| && !(log + [r])[i].state.TxnNone? ensures NoCommit((log + [r])[..i], (log + [r])[i].txnId) {
      assert (log + [r])[..i] == log[..i];
      if i == |log| {
        assert log[..i] == log;
      }
    }
    forall i | 0 <= i < |log + [r]| && (log + [r])[i].state.TxnCommit? ensures CommitExact(log + [r], i) {
      if i < |log| {
        assert (log + [r])[i] == log[i] && (log + [r])[..i] == log[..i];
        assert CommitExact(log, i);
        WalkStable(log, [r], log[i].prev.value);
      }
    }
  }

  lemma WellFormedSnoc(log: Log, r: Record)
    requires WellFormed(log) && BackLinked(log + [r]) && RecordOk(log + [r], |log|)
    ensures WellFormed(log + [r])
  {
    forall i | 0 <= i < |log + [r]| ensures RecordOk(log + [r], i) {
      if i < |log| {
        assert RecordOk(log, i);
        EffectStable(log, [r], i);
      }
    }
  }
}
