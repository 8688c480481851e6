/**
 Reads through the layers (dbkernel/engine_public.go: GetKV, GetRowColumns).

 A read takes the active table and the list of sealed tables under the engine lock, and reads the B-tree
 store afterwards, without the lock. By then some of the sealed tables may have been flushed.
 */
module Reads {
  import opened Basics
  import opened Cells
  import opened LogRecords
  import opened Engine

  datatype ReadError = KeyNotFound

  /** What a memtable returns for a key: its latest entry. */
  function Newest(t: Table, g: Group): Option<Mutation> {
    var p := Project(t.puts, g);
    if p == [] then None else Some(Last(p))
  }

  /** What a memtable returns for a row: all its versions, oldest first. */
  function Versions(t: Table, row: Bytes): seq<Mutation> {
    Project(t.puts, RowGroup(row))
  }

  function NewestOf(puts: seq<Mutation>, g: Group): Option<Mutation> {
    var p := Project(puts, g);
    if p == [] then None else Some(Last(p))
  }

  // ---- Key-value reads ----

  /** The newest entry for a key decides, whatever lies below. */
  lemma {:induction false} NewestDecides(st: Store, puts: seq<Mutation>, c: Cell)
    requires !c.ColCell?
    ensures var m := NewestOf(puts, CellGroup(c));
            && (m.Some? ==> GroupOf(m.value) == CellGroup(c) && Touches(m.value, c))
            && Lookup(ApplyAll(st, puts), c) == if m.None? then Lookup(st, c) else Assigned(m.value, c)
  {
    var p := Project(puts, CellGroup(c));
    LastWriteWins(st, puts, c);
    LastTouchProject(puts, c);
    ProjectInGroup(puts, CellGroup(c));
    if p != [] {
      assert Last(p) in p;
    }
  }

  lemma NewestSnoc(ts: seq<Table>, t: Table, g: Group)
    ensures NewestOf(TablePuts(ts + [t]), g) ==
            if Newest(t, g).Some? then Newest(t, g) else NewestOf(TablePuts(ts), g)
  {
    TablePutsSnoc(ts, t);
    ProjectConcat(TablePuts(ts), t.puts, g);
  }

  /** The active table first, then the sealed ones from newest to oldest; the first hit wins. */
  method FindNewest(active: Table, sealed: seq<Table>, g: Group) returns (found: Option<Mutation>)
    ensures found == NewestOf(TablePuts(sealed + [active]), g)
  {
    NewestSnoc(sealed, active, g);
    found := Newest(active, g);
    var i := |sealed|;
    assert sealed[..i] == sealed;
    while i > 0 && found.None?
      invariant 0 <= i <= |sealed|
      invariant NewestOf(TablePuts(sealed + [active]), g) ==
                if found.Some? then found else NewestOf(TablePuts(sealed[..i]), g)
    {
      i := i - 1;
      assert sealed[..i + 1] == sealed[..i] + [sealed[i]];
      NewestSnoc(sealed[..i], sealed[i], g);
      found := Newest(sealed[i], g);
    }
  }

  method GetKV(active: Table, sealed: seq<Table>, store: Store, key: Bytes) returns (r: Result<Bytes, ReadError>)
    requires TypedStore(store)
    ensures match Lookup(ApplyAll(store, TablePuts(sealed + [active])), KVCell(key))
            case Some(v) => v.Plain? && r == Ok(v.bytes)
            case None => r == Err(KeyNotFound)
  {
    NewestDecides(store, TablePuts(sealed + [active]), KVCell(key));
    var found := FindNewest(active, sealed, KVGroup(key));
    if found.Some? {
      return if found.value.DelKV? then Err(KeyNotFound) else Ok(found.value.value);
    }
    return if KVCell(key) in store then Ok(store[KVCell(key)].bytes) else Err(KeyNotFound);
  }

  // ---- Row reads ----

  /** What one version does to a column map. */
  function Merge(cols: Columns, m: Mutation): Columns {
    match m
    case DelRow(_) => map[]
    case SetCells(_, set_) => cols + set_
    case DelCells(_, del) => cols - del.Keys
    case _ => cols
  }

  function MergeAll(cols: Columns, vs: seq<Mutation>): Columns {
    if vs == [] then cols else Merge(MergeAll(cols, Front(vs)), Last(vs))
  }

  /** Applies the memtable versions to the columns read from the store. */
  method BuildColumnMap(cols: Columns, vs: seq<Mutation>) returns (out: Columns)
    ensures out == MergeAll(cols, vs)
  {
    out := cols;
    for i := 0 to |vs|
      invariant out == MergeAll(cols, vs[..i])
    {
      assert Front(vs[..i + 1]) == vs[..i] && Last(vs[..i + 1]) == vs[i];
      match vs[i]
      case DelRow(_) =>
        var keys := out.Keys;
        while keys != {}
          invariant keys <= out.Keys && out.Keys == keys
        {
          var k :| k in keys;
          out := out - {k};
          keys := keys - {k};
        }
        assert out == map[];
      case SetCells(_, set_) => out := out + set_;
      case DelCells(_, del) => out := out - del.Keys;
      case _ =>
    }
    assert vs[..|vs|] == vs;
  }

  /** Column by column, merging versions is last-write-wins. */
  lemma {:induction false} MergeLookup(cols: Columns, vs: seq<Mutation>, row: Bytes, col: Bytes)
    requires forall m :: m in vs ==> GroupOf(m) == RowGroup(row)
    ensures ColumnAt(MergeAll(cols, vs), col) ==
            match LastTouch(vs, ColCell(row, col))
            case None => ColumnAt(cols, col)
            case Some(v) => v
  {
    if vs != [] {
      assert Last(vs) in vs;
      MergeLookup(cols, Front(vs), row, col);
    }
  }

  ghost function VersionsOf(ts: seq<Table>, row: Bytes): seq<Mutation> {
    Project(TablePuts(ts), RowGroup(row))
  }

  /** A store without the row's unnamed column, which a scan of the store does not return. */
  function Scannable(st: Store, row: Bytes): Store {
    st - {ColCell(row, [])}
  }

  /** Column by column, the merged versions show what the operations leave behind. */
  lemma MergedColumn(st: Store, puts: seq<Mutation>, row: Bytes, keep: Bytes -> bool, col: Bytes)
    requires TypedStore(st) && TypedStore(ApplyAll(Scannable(st, row), puts)) && keep(col)
    ensures ColumnAt(MergeAll(Filter(StoredRow(st, row), keep), Project(puts, RowGroup(row))), col) ==
            ColumnAt(RowOf(ApplyAll(Scannable(st, row), puts), row), col)
  {
    hide ApplyAll, Project, LastTouch, MergeAll;
    var vs, c := Project(puts, RowGroup(row)), ColCell(row, col);
    ProjectInGroup(puts, RowGroup(row));
    MergeLookup(Filter(StoredRow(st, row), keep), vs, row, col);
    LastTouchProject(puts, c);
    LastWriteWins(Scannable(st, row), puts, c);
    RowOfLookup(ApplyAll(Scannable(st, row), puts), row, col);
    RowOfLookup(st, row, col);
  }

  lemma SameColumns(a: Columns, b: Columns, keep: Bytes -> bool)
    requires forall col :: keep(col) ==> ColumnAt(a, col) == ColumnAt(b, col)
    ensures Filter(a, keep) == Filter(b, keep)
  {
    forall col | keep(col) ensures (col in a <==> col in b) && (col in a ==> a[col] == b[col]) {
      assert ColumnAt(a, col) == ColumnAt(b, col);
    }
    assert Filter(a, keep).Keys == Filter(b, keep).Keys;
  }

  /** Filtering before or after the merge gives the same columns. */
  lemma MergeFiltered(st: Store, puts: seq<Mutation>, row: Bytes, keep: Bytes -> bool)
    requires TypedStore(st)
    ensures TypedStore(ApplyAll(Scannable(st, row), puts))
    ensures Filter(MergeAll(Filter(StoredRow(st, row), keep), Project(puts, RowGroup(row))), keep) ==
            Filter(RowOf(ApplyAll(Scannable(st, row), puts), row), keep)
  {
    TypedKept(Scannable(st, row), puts);
    hide ApplyAll, Project, MergeAll, RowOf, StoredRow, Filter;
    forall col | keep(col)
      ensures ColumnAt(MergeAll(Filter(StoredRow(st, row), keep), Project(puts, RowGroup(row))), col) ==
              ColumnAt(RowOf(ApplyAll(Scannable(st, row), puts), row), col)
    {
      MergedColumn(st, puts, row, keep, col);
    }
    SameColumns(MergeAll(Filter(StoredRow(st, row), keep), Project(puts, RowGroup(row))),
                RowOf(ApplyAll(Scannable(st, row), puts), row), keep);
  }

  /** When a row read reports not-found: the active table deletes the row last, or nothing knows a wanted column of it. */
  ghost predicate RowMissing(active: Table, sealed: seq<Table>, store: Store, row: Bytes, keep: Bytes -> bool) {
    || (Versions(active, row) != [] && Last(Versions(active, row)).DelRow?)
    || (VersionsOf(sealed + [active], row) == [] && Filter(StoredRow(store, row), keep) == map[])
  }

  /** The row as the tables and a scan of the store together define it, filtered. */
  ghost function RowSeen(tables: seq<Table>, store: Store, row: Bytes, keep: Bytes -> bool): Columns {
    Filter(RowOf(ApplyAll(Scannable(store, row), TablePuts(tables)), row), keep)
  }

  /** A row read. */
  method GetRowColumns(active: Table, sealed: seq<Table>, store: Store, row: Bytes, keep: Bytes -> bool)
    returns (r: Result<Columns, ReadError>)
    requires TypedStore(store)
    ensures r.Err? <==> RowMissing(active, sealed, store, row, keep)
    ensures r.Ok? ==> r.value == RowSeen(sealed + [active], store, row, keep)
    ensures r.Err? ==> RowSeen(sealed + [active], store, row, keep) == map[]
  {
    hide TablePuts, Project, MergeAll, ApplyAll, RowOf;
    ghost var all := VersionsOf(sealed + [active], row);
    RowParts(active, sealed, row);
    MergeFiltered(store, TablePuts(sealed + [active]), row, keep);
    var first := Versions(active, row);
    if first != [] && Last(first).DelRow? {
      assert Last(all) == Last(first);
      LastDeletesRow(Filter(StoredRow(store, row), keep), all);
      return Err(KeyNotFound);
    }
    var vs := SealedVersions(sealed, row);
    vs := vs + first;
    var cols := Filter(StoredRow(store, row), keep);
    var foundInStore := cols != map[];
    cols := BuildColumnMap(cols, vs);
    if vs == [] {
      MergeNothing(Filter(StoredRow(store, row), keep), vs, keep);
    }
    cols := Filter(cols, keep);
    if cols == map[] && vs == [] && !foundInStore {
      return Err(KeyNotFound);
    }
    return Ok(cols);
  }

  lemma LastDeletesRow(cols: Columns, vs: seq<Mutation>)
    requires vs != [] && Last(vs).DelRow?
    ensures MergeAll(cols, vs) == map[]
  {
  }

  lemma MergeNothing(cols: Columns, vs: seq<Mutation>, keep: Bytes -> bool)
    requires vs == [] && Filter(cols, keep) == cols
    ensures Filter(MergeAll(cols, vs), keep) == cols
  {
  }

  lemma RowParts(active: Table, sealed: seq<Table>, row: Bytes)
    ensures VersionsOf(sealed + [active], row) == VersionsOf(sealed, row) + Versions(active, row)
  {
    TablePutsSnoc(sealed, active);
    ProjectConcat(TablePuts(sealed), active.puts, RowGroup(row));
  }

  method SealedVersions(sealed: seq<Table>, row: Bytes) returns (vs: seq<Mutation>)
    ensures vs == VersionsOf(sealed, row)
  {
    vs := [];
    for i := 0 to |sealed|
      invariant vs == VersionsOf(sealed[..i], row)
    {
      assert sealed[..i + 1] == sealed[..i] + [sealed[i]];
      RowParts(sealed[i], sealed[..i], row);
      vs := vs + Versions(sealed[i], row);
    }
    assert sealed[..|sealed|] == sealed;
  }
}
