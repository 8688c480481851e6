/**
 What records do to single cells, said without the operations they become: each cell's value after a record, from the
 keys, columns and values in its entries.
 */
module RecordMeaning {
  import opened Basics
  import opened Cells
  import opened LogRecords
  import opened Transactions

  // ---- Key-value records ----

  /** The last place of a key in a batch that may repeat it. */
  ghost predicate LastAt(keys: seq<Bytes>, k: Bytes, i: int) {
    0 <= i < |keys| && keys[i] == k && forall j :: i < j < |keys| ==> keys[j] != k
  }

  /** The named keys hold the last value given for them, or are gone; no other cell has changed. */
  ghost predicate KVWritten(before: Store, after: Store, op: Op, keys: seq<Bytes>, values: seq<Bytes>)
    requires op.Delete? || |values| == |keys|
  {
    && (forall k :: k in keys ==>
          if op.Delete? then KVCell(k) !in after
          else exists i :: LastAt(keys, k, i) && Lookup(after, KVCell(k)) == Some(Plain(values[i])))
    && (forall c: Cell :: (c.KVCell? ==> c.key !in keys) ==> Lookup(after, c) == Lookup(before, c))
  }

  // ---- Row records ----

  /** Entry i names the column of the row. */
  predicate Names(rows: seq<Bytes>, columns: seq<Columns>, row: Bytes, col: Bytes, i: int)
    requires |columns| == |rows|
  {
    0 <= i < |rows| && rows[i] == row && col in columns[i]
  }

  ghost predicate LastNames(rows: seq<Bytes>, columns: seq<Columns>, row: Bytes, col: Bytes, i: int)
    requires |columns| == |rows|
  {
    Names(rows, columns, row, col, i) && forall j :: i < j < |rows| ==> !Names(rows, columns, row, col, j)
  }

  /** Inserting leaves a named column with the last value given for it; deleting leaves it absent. */
  ghost predicate ColumnWritten(before: Store, after: Store, op: Op, rows: seq<Bytes>, columns: seq<Columns>,
                                row: Bytes, col: Bytes)
    requires |columns| == |rows|
  {
    if exists i :: Names(rows, columns, row, col, i) then
      if op.Delete? then ColCell(row, col) !in after
      else exists i :: LastNames(rows, columns, row, col, i) && Lookup(after, ColCell(row, col)) == Some(Plain(columns[i][col]))
    else Lookup(after, ColCell(row, col)) == Lookup(before, ColCell(row, col))
  }

  /** Deleting rows leaves every column of the rows absent; any other operation acts column by column, and on nothing else. */
  ghost predicate RowWritten(before: Store, after: Store, op: Op, rows: seq<Bytes>, columns: seq<Columns>)
    requires op.DeleteRowByKey? || |columns| == |rows|
  {
    && (forall c: Cell :: !c.ColCell? ==> Lookup(after, c) == Lookup(before, c))
    && if op.DeleteRowByKey?
       then forall row, col :: Lookup(after, ColCell(row, col)) == if row in rows then None else Lookup(before, ColCell(row, col))
       else forall row, col :: ColumnWritten(before, after, op, rows, columns, row, col)
  }

  function KeysOf(es: seq<Entry>): (ks: seq<Bytes>)
    ensures |ks| == |es| && forall i :: 0 <= i < |es| ==> ks[i] == es[i].key
  {
    seq(|es|, i requires 0 <= i < |es| => es[i].key)
  }

  function ColumnsOf(es: seq<Entry>): (cs: seq<Columns>)
    ensures |cs| == |es| && forall i :: 0 <= i < |es| ==> cs[i] == es[i].columns
  {
    seq(|es|, i requires 0 <= i < |es| => es[i].columns)
  }

  lemma {:induction false} ValuesAt(es: seq<Entry>)
    ensures |ValuesOf(es)| == |es| && forall i :: 0 <= i < |es| ==> ValuesOf(es)[i] == es[i].value
  {
    if es != [] {
      ValuesAt(Front(es));
    }
  }

  /** What the entries of a plain record, or of a transaction, do to the cells. */
  ghost predicate Written(before: Store, after: Store, op: Op, kind: Kind, es: seq<Entry>) {
    ValuesAt(es);
    if kind.KV? then KVWritten(before, after, op, KeysOf(es), ValuesOf(es)) else RowWritten(before, after, op, KeysOf(es), ColumnsOf(es))
  }

  // ---- The operations do that ----

  lemma EntriesStep(st: Store, op: Op, kind: Kind, es: seq<Entry>, c: Cell)
    requires !kind.Chunked? && Supported(op, kind) && es != []
    ensures var before, m := ApplyAll(st, EntryMutations(op, kind, Front(es))), EntryMutation(op, kind, Last(es));
            Lookup(ApplyAll(st, EntryMutations(op, kind, es)), c) == if Touches(m, c) then Assigned(m, c) else Lookup(before, c)
  {
    hide Apply;
    var ms, m := EntryMutations(op, kind, Front(es)), EntryMutation(op, kind, Last(es));
    assert Front(ms + [m]) == ms;
    ApplyLookup(ApplyAll(st, ms), m, c);
  }

  lemma {:induction false} EntriesTouch(st: Store, op: Op, es: seq<Entry>, c: Cell) returns (i: nat)
    requires op.Insert? || op.Delete?
    requires c.KVCell? && exists e :: e in es && e.key == c.key
    ensures i < |es| && es[i].key == c.key && forall j :: i < j < |es| ==> es[j].key != c.key
    ensures Lookup(ApplyAll(st, EntryMutations(op, KV, es)), c) == if op.Delete? then None else Some(Plain(es[i].value))
  {
    hide ApplyAll, EntryMutations;
    EntriesStep(st, op, KV, es, c);
    if Last(es).key == c.key {
      i := |es| - 1;
    } else {
      var e :| e in es && e.key == c.key;
      assert e in Front(es);
      i := EntriesTouch(st, op, Front(es), c);
    }
  }

  lemma {:induction false} EntriesMiss(st: Store, op: Op, es: seq<Entry>, c: Cell)
    requires op.Insert? || op.Delete?
    requires c.KVCell? ==> forall e :: e in es ==> e.key != c.key
    ensures Lookup(ApplyAll(st, EntryMutations(op, KV, es)), c) == Lookup(st, c)
  {
    if es != [] {
      hide ApplyAll, EntryMutations;
      EntriesStep(st, op, KV, es, c);
      assert Last(es) in es;
      EntriesMiss(st, op, Front(es), c);
    } else {
      assert EntryMutations(op, KV, es) == [];
    }
  }

  lemma KVEntriesMean(before: Store, op: Op, es: seq<Entry>)
    requires op.Insert? || op.Delete?
    ensures Written(before, ApplyAll(before, EntryMutations(op, KV, es)), op, KV, es)
  {
    hide EntryMutations, ApplyAll;
    var after, keys := ApplyAll(before, EntryMutations(op, KV, es)), KeysOf(es);
    ValuesAt(es);
    forall k | k in keys
      ensures if op.Delete? then KVCell(k) !in after
              else exists i :: LastAt(keys, k, i) && Lookup(after, KVCell(k)) == Some(Plain(ValuesOf(es)[i]))
    {
      var j :| 0 <= j < |keys| && keys[j] == k;
      assert es[j] in es;
      var i := EntriesTouch(before, op, es, KVCell(k));
      assert LastAt(keys, k, i);
    }
    forall c: Cell | c.KVCell? ==> c.key !in keys ensures Lookup(after, c) == Lookup(before, c) {
      forall e | e in es && c.KVCell? ensures e.key != c.key {
        var j :| 0 <= j < |es| && es[j] == e;
        assert keys[j] == e.key;
      }
      EntriesMiss(before, op, es, c);
    }
  }

  /** The last entry that names a column decides it. */
  lemma {:induction false} ColumnTouched(st: Store, op: Op, es: seq<Entry>, row: Bytes, col: Bytes) returns (i: nat)
    requires op.Insert? || op.Delete?
    requires exists j :: 0 <= j < |es| && es[j].key == row && col in es[j].columns
    ensures i < |es| && es[i].key == row && col in es[i].columns
    ensures forall j :: i < j < |es| ==> !(es[j].key == row && col in es[j].columns)
    ensures Lookup(ApplyAll(st, EntryMutations(op, Row, es)), ColCell(row, col)) ==
            if op.Delete? then None else Some(Plain(es[i].columns[col]))
  {
    hide ApplyAll, EntryMutations;
    EntriesStep(st, op, Row, es, ColCell(row, col));
    if Last(es).key == row && col in Last(es).columns {
      i := |es| - 1;
    } else {
      var j :| 0 <= j < |es| && es[j].key == row && col in es[j].columns;
      assert Front(es)[j] == es[j];
      i := ColumnTouched(st, op, Front(es), row, col);
    }
  }

  /** A cell that no entry names keeps its value. */
  lemma {:induction false} CellMissed(st: Store, op: Op, es: seq<Entry>, c: Cell)
    requires op.Insert? || op.Delete? || op.DeleteRowByKey?
    requires c.ColCell? ==> forall j :: 0 <= j < |es| ==> es[j].key != c.row || (!op.DeleteRowByKey? && c.col !in es[j].columns)
    ensures Lookup(ApplyAll(st, EntryMutations(op, Row, es)), c) == Lookup(st, c)
  {
    if es != [] {
      hide ApplyAll, EntryMutations;
      EntriesStep(st, op, Row, es, c);
      CellMissed(st, op, Front(es), c);
    } else {
      assert EntryMutations(op, Row, es) == [];
    }
  }

  lemma {:induction false} RowTouched(st: Store, es: seq<Entry>, row: Bytes, col: Bytes)
    requires exists j :: 0 <= j < |es| && es[j].key == row
    ensures Lookup(ApplyAll(st, EntryMutations(DeleteRowByKey, Row, es)), ColCell(row, col)) == None
  {
    hide ApplyAll, EntryMutations;
    EntriesStep(st, DeleteRowByKey, Row, es, ColCell(row, col));
    if Last(es).key != row {
      var j :| 0 <= j < |es| && es[j].key == row;
      assert Front(es)[j] == es[j];
      RowTouched(st, Front(es), row, col);
    }
  }

  lemma RowEntriesMean(before: Store, op: Op, es: seq<Entry>)
    requires op.Insert? || op.Delete? || op.DeleteRowByKey?
    ensures Written(before, ApplyAll(before, EntryMutations(op, Row, es)), op, Row, es)
  {
    hide EntryMutations, ApplyAll, ColumnWritten;
    var after, rows, columns := ApplyAll(before, EntryMutations(op, Row, es)), KeysOf(es), ColumnsOf(es);
    forall c: Cell | !c.ColCell? ensures Lookup(after, c) == Lookup(before, c) {
      CellMissed(before, op, es, c);
    }
    if op.DeleteRowByKey? {
      forall row, col
        ensures Lookup(after, ColCell(row, col)) == if row in rows then None else Lookup(before, ColCell(row, col))
      {
        if row in rows {
          var j :| 0 <= j < |rows| && rows[j] == row;
          assert es[j].key == row;
          RowTouched(before, es, row, col);
        } else {
          forall j | 0 <= j < |es| ensures es[j].key != row {
            assert rows[j] == es[j].key;
          }
          CellMissed(before, op, es, ColCell(row, col));
        }
      }
    } else {
      forall row, col ensures ColumnWritten(before, after, op, rows, columns, row, col) {
        ColumnMeans(before, op, es, row, col);
      }
    }
  }

  lemma ColumnMeans(before: Store, op: Op, es: seq<Entry>, row: Bytes, col: Bytes)
    requires op.Insert? || op.Delete?
    ensures ColumnWritten(before, ApplyAll(before, EntryMutations(op, Row, es)), op, KeysOf(es), ColumnsOf(es), row, col)
  {
    hide EntryMutations, ApplyAll;
    var rows, columns := KeysOf(es), ColumnsOf(es);
    if i :| Names(rows, columns, row, col, i) {
      assert es[i].key == row && col in es[i].columns;
      var last := ColumnTouched(before, op, es, row, col);
      assert LastNames(rows, columns, row, col, last);
    } else {
      forall j | 0 <= j < |es| ensures es[j].key != row || col !in es[j].columns {
        assert !Names(rows, columns, row, col, j);
      }
      CellMissed(before, op, es, ColCell(row, col));
    }
  }

  /** The operations a record's entries become do to the cells what the entries say. */
  lemma EntriesMean(before: Store, op: Op, kind: Kind, es: seq<Entry>)
    requires !kind.Chunked? && Supported(op, kind)
    ensures Written(before, ApplyAll(before, EntryMutations(op, kind, es)), op, kind, es)
  {
    hide Written, EntryMutations, ApplyAll;
    if kind.KV? {
      KVEntriesMean(before, op, es);
    } else {
      RowEntriesMean(before, op, es);
    }
  }

  /** What each record of a log adds to its contents. */
  lemma RecordMeans(log: Log, i: nat)
    requires i < |log| && RecordOk(log, i)
    ensures var before, after, r := Fold(Effects(log, i)), Fold(Effects(log, i + 1)), log[i];
            match r.state
            case TxnNone => Written(before, after, r.op, r.kind, r.entries)
            case TxnBegin => after == before
            case TxnPrepare => after == before
            case TxnCommit =>
              if r.kind.Chunked? then
                && Lookup(after, LobCell(r.entries[0].key)) == Some(Lob(ChunksOf(Prepared(log, i)), r.checksum))
                && forall c: Cell :: c != LobCell(r.entries[0].key) ==> Lookup(after, c) == Lookup(before, c)
              else Written(before, after, r.op, r.kind, EntriesOf(Prepared(log, i)))
  {
    hide Written, EntryMutations, ApplyAll, ChunksOf, EntriesOf, Prepared;
    var before, r := Fold(Effects(log, i)), log[i];
    ApplyAllConcat(map[], Effects(log, i), Effect(log, i));
    assert Effects(log, i) + [] == Effects(log, i);
    match r.state
    case TxnNone => EntriesMean(before, r.op, r.kind, r.entries);
    case TxnCommit =>
      if r.kind.Chunked? {
        ApplyOne(before, SetLob(r.entries[0].key, ChunksOf(Prepared(log, i)), r.checksum));
      } else {
        EntriesMean(before, r.op, r.kind, EntriesOf(Prepared(log, i)));
      }
    case TxnBegin =>
    case TxnPrepare =>
  }
}
