/**
 The logical contents of the B-tree store, and what one write does to them.

 A store is a set of cells: a key-value pair, one column of one wide row, or one large object.
 Every write assigns cells: it either gives a cell a value or makes it absent. Deleting a row makes
 every column of that row absent. Because a write never reads the store, replaying writes is
 absorbing: what a cell holds is decided by the last write that assigns it.
 */
module Cells {
  import opened Basics

  datatype Cell =
    | KVCell(key: Bytes)
    | ColCell(row: Bytes, col: Bytes)
    | LobCell(lob: Bytes)

  datatype Value =
    | Plain(bytes: Bytes)
    | Lob(chunks: seq<Bytes>, checksum: nat)

  type Columns = map<Bytes, Bytes>

  type Store = map<Cell, Value>

  /** One operation as the store driver sees it. */
  datatype Mutation =
    | PutKV(key: Bytes, value: Bytes)
    | DelKV(key: Bytes)
    | SetCells(row: Bytes, columns: Columns)
    | DelCells(row: Bytes, columns: Columns)
    | DelRow(row: Bytes)
    | SetLob(lob: Bytes, chunks: seq<Bytes>, checksum: nat)

  function Lookup(st: Store, c: Cell): Option<Value> {
    if c in st then Some(st[c]) else None
  }

  /** What one operation does to the store. */
  function Apply(st: Store, m: Mutation): Store {
    match m
    case PutKV(k, v) => st[KVCell(k) := Plain(v)]
    case DelKV(k) => st - {KVCell(k)}
    case SetCells(r, cols) => st + (map c | c in (set n | n in cols :: ColCell(r, n)) :: Plain(cols[c.col]))
    case DelCells(r, cols) => st - (set n | n in cols :: ColCell(r, n))
    case DelRow(r) => map c | c in st && !(c.ColCell? && c.row == r) :: st[c]
    case SetLob(k, chunks, sum) => st[LobCell(k) := Lob(chunks, sum)]
  }

  /** Bolt's limit on the length of a key. */
  const MAX_KEY_SIZE := 32768

  /** Operations the store refuses: some byte key they would put is too long. Deleting never fails. */
  predicate Refused(m: Mutation) {
    match m
    case PutKV(k, _) => |k| > MAX_KEY_SIZE
    case SetCells(r, cols) => exists c :: c in cols && |r + c| > MAX_KEY_SIZE
    case SetLob(k, chunks, _) => |k| + (if chunks == [] then 0 else 9) > MAX_KEY_SIZE
    case DelKV(_) => false
    case DelCells(_, _) => false
    case DelRow(_) => false
  }

  predicate AnyRefused(ms: seq<Mutation>) {
    exists m :: m in ms && Refused(m)
  }

  function ApplyAll(st: Store, ms: seq<Mutation>): Store {
    if ms == [] then st else Apply(ApplyAll(st, Front(ms)), Last(ms))
  }

  /** The store a sequence of operations builds from nothing. */
  function Fold(ms: seq<Mutation>): Store {
    ApplyAll(map[], ms)
  }

  /** Whether an operation assigns a cell. */
  predicate Touches(m: Mutation, c: Cell) {
    match m
    case PutKV(k, _) => c == KVCell(k)
    case DelKV(k) => c == KVCell(k)
    case SetCells(r, cols) => c.ColCell? && c.row == r && c.col in cols
    case DelCells(r, cols) => c.ColCell? && c.row == r && c.col in cols
    case DelRow(r) => c.ColCell? && c.row == r
    case SetLob(k, _, _) => c == LobCell(k)
  }

  /** What an operation assigns to a cell it touches: a value, or absence. */
  function Assigned(m: Mutation, c: Cell): Option<Value>
    requires Touches(m, c)
  {
    match m
    case PutKV(_, v) => Some(Plain(v))
    case SetCells(_, cols) => Some(Plain(cols[c.col]))
    case SetLob(_, chunks, sum) => Some(Lob(chunks, sum))
    case DelKV(_) => None
    case DelCells(_, _) => None
    case DelRow(_) => None
  }

  predicate TouchedBy(ms: seq<Mutation>, c: Cell) {
    exists i :: 0 <= i < |ms| && Touches(ms[i], c)
  }

  /** The assignment made by the last operation that touches the cell. */
  function LastTouch(ms: seq<Mutation>, c: Cell): Option<Option<Value>> {
    if ms == [] then None
    else if Touches(Last(ms), c) then Some(Assigned(Last(ms), c))
    else LastTouch(Front(ms), c)
  }

  lemma ApplyOne(st: Store, m: Mutation)
    ensures ApplyAll(st, [m]) == Apply(st, m)
  {
    assert Front([m]) == [];
  }

  lemma ApplyLookup(st: Store, m: Mutation, c: Cell)
    ensures Lookup(Apply(st, m), c) == if Touches(m, c) then Assigned(m, c) else Lookup(st, c)
  {
    if m.SetCells? && Touches(m, c) {
      assert c == ColCell(m.row, c.col);
    }
  }

  /** An independent reading of ApplyAll: each cell holds what was last assigned to it. */
  lemma {:induction false} LastWriteWins(st: Store, ms: seq<Mutation>, c: Cell)
    ensures Lookup(ApplyAll(st, ms), c) ==
            match LastTouch(ms, c)
            case None => Lookup(st, c)
            case Some(v) => v
  {
    if ms != [] {
      LastWriteWins(st, Front(ms), c);
      ApplyLookup(ApplyAll(st, Front(ms)), Last(ms), c);
    }
  }

  lemma {:induction false} LastTouchConcat(a: seq<Mutation>, b: seq<Mutation>, c: Cell)
    ensures LastTouch(a + b, c) == if LastTouch(b, c).Some? then LastTouch(b, c) else LastTouch(a, c)
  {
    if b == [] {
      assert a + b == a;
    } else {
      LastTouchConcat(a, Front(b), c);
      assert Front(a + b) == a + Front(b) && Last(a + b) == Last(b);
    }
  }

  lemma {:induction false} LastTouchSome(ms: seq<Mutation>, c: Cell)
    ensures LastTouch(ms, c).Some? <==> TouchedBy(ms, c)
  {
    if ms != [] {
      LastTouchSome(Front(ms), c);
      if TouchedBy(ms, c) && !Touches(Last(ms), c) {
        var i :| 0 <= i < |ms| && Touches(ms[i], c);
        assert Front(ms)[i] == ms[i];
      }
      if TouchedBy(Front(ms), c) {
        var i :| 0 <= i < |Front(ms)| && Touches(Front(ms)[i], c);
        assert ms[i] == Front(ms)[i];
      }
    }
  }

  lemma {:induction false} ApplyAllConcat(st: Store, a: seq<Mutation>, b: seq<Mutation>)
    ensures ApplyAll(st, a + b) == ApplyAll(ApplyAll(st, a), b)
  {
    if b == [] {
      assert a + b == a;
    } else {
      ApplyAllConcat(st, a, Front(b));
      assert Front(a + b) == a + Front(b) && Last(a + b) == Last(b);
    }
  }

  /** Two stores that answer every lookup alike are the same store. */
  lemma SameLookups(a: Store, b: Store)
    requires forall c :: Lookup(a, c) == Lookup(b, c)
    ensures a == b
  {
    forall c
      ensures c in a <==> c in b
      ensures c in a ==> a[c] == b[c]
    {
      assert Lookup(a, c) == Lookup(b, c);
    }
    assert a.Keys == b.Keys;
  }

  lemma SameLastTouches(st: Store, a: seq<Mutation>, b: seq<Mutation>)
    requires forall c :: LastTouch(a, c) == LastTouch(b, c)
    ensures ApplyAll(st, a) == ApplyAll(st, b)
  {
    forall c ensures Lookup(ApplyAll(st, a), c) == Lookup(ApplyAll(st, b), c) {
      LastWriteWins(st, a, c);
      LastWriteWins(st, b, c);
    }
    SameLookups(ApplyAll(st, a), ApplyAll(st, b));
  }

  // ---- Absorption: what a replay needs of the store it starts from ----

  /**
   The store is good enough to replay from operation k: it agrees with the first k operations on
   every cell that the rest will not assign. Nothing is said about the other cells, so the store may
   hold any part of the later operations, applied in any order.
   */
  ghost predicate Agrees(st: Store, ms: seq<Mutation>, k: nat) {
    && k <= |ms|
    && forall c :: !TouchedBy(ms[k..], c) ==> Lookup(st, c) == Lookup(Fold(ms[..k]), c)
  }

  lemma TouchedSplit(a: seq<Mutation>, b: seq<Mutation>, c: Cell)
    ensures TouchedBy(a + b, c) <==> TouchedBy(a, c) || TouchedBy(b, c)
  {
    LastTouchConcat(a, b, c);
    LastTouchSome(a, c);
    LastTouchSome(b, c);
    LastTouchSome(a + b, c);
  }

  lemma UntouchedKeeps(st: Store, ms: seq<Mutation>, c: Cell)
    requires !TouchedBy(ms, c)
    ensures Lookup(ApplyAll(st, ms), c) == Lookup(st, c)
  {
    LastWriteWins(st, ms, c);
    LastTouchSome(ms, c);
  }

  /** A store good enough to replay from j is good enough to replay from any earlier point. */
  lemma AgreesEarlier(st: Store, ms: seq<Mutation>, j: nat, k: nat)
    requires Agrees(st, ms, j) && k <= j
    ensures Agrees(st, ms, k)
  {
    assert ms[k..] == ms[k..j] + ms[j..];
    assert ms[..j] == ms[..k] + ms[k..j];
    forall c | !TouchedBy(ms[k..], c) ensures Lookup(st, c) == Lookup(Fold(ms[..k]), c) {
      TouchedSplit(ms[k..j], ms[j..], c);
      ApplyAllConcat(map[], ms[..k], ms[k..j]);
      UntouchedKeeps(Fold(ms[..k]), ms[k..j], c);
    }
  }

  /** Replaying operations k..j moves the agreement point from k to j. */
  lemma AgreesReplay(st: Store, ms: seq<Mutation>, k: nat, j: nat)
    requires Agrees(st, ms, k) && k <= j <= |ms|
    ensures Agrees(ApplyAll(st, ms[k..j]), ms, j)
  {
    assert ms[k..] == ms[k..j] + ms[j..];
    assert ms[..j] == ms[..k] + ms[k..j];
    forall c | !TouchedBy(ms[j..], c)
      ensures Lookup(ApplyAll(st, ms[k..j]), c) == Lookup(Fold(ms[..j]), c)
    {
      ApplyAllConcat(map[], ms[..k], ms[k..j]);
      LastWriteWins(st, ms[k..j], c);
      LastWriteWins(Fold(ms[..k]), ms[k..j], c);
      LastTouchSome(ms[k..j], c);
      TouchedSplit(ms[k..j], ms[j..], c);
    }
  }

  /** Writes that come later in the sequence anyway do no harm, in whatever order and number. */
  lemma AgreesExtra(st: Store, ms: seq<Mutation>, k: nat, extra: seq<Mutation>)
    requires Agrees(st, ms, k)
    requires forall i :: 0 <= i < |extra| ==> extra[i] in ms[k..]
    ensures Agrees(ApplyAll(st, extra), ms, k)
  {
    forall c | !TouchedBy(ms[k..], c)
      ensures Lookup(ApplyAll(st, extra), c) == Lookup(Fold(ms[..k]), c)
    {
      UntouchedExtra(ms[k..], extra, c);
      UntouchedKeeps(st, extra, c);
    }
  }

  lemma UntouchedExtra(ms: seq<Mutation>, extra: seq<Mutation>, c: Cell)
    requires forall i :: 0 <= i < |extra| ==> extra[i] in ms
    requires !TouchedBy(ms, c)
    ensures !TouchedBy(extra, c)
  {
  }

  /** Agreement at the end is equality with the whole fold. */
  lemma AgreesEnd(st: Store, ms: seq<Mutation>)
    ensures Agrees(st, ms, |ms|) <==> st == Fold(ms)
  {
    assert ms[..|ms|] == ms;
    if Agrees(st, ms, |ms|) {
      forall c ensures Lookup(st, c) == Lookup(Fold(ms), c) {
        assert !TouchedBy(ms[|ms|..], c);
      }
      SameLookups(st, Fold(ms));
    }
  }

  lemma ReplayRestores(st: Store, ms: seq<Mutation>, k: nat)
    requires Agrees(st, ms, k)
    ensures ApplyAll(st, ms[k..]) == Fold(ms)
  {
    AgreesReplay(st, ms, k, |ms|);
    assert ms[k..|ms|] == ms[k..];
    AgreesEnd(ApplyAll(st, ms[k..]), ms);
  }

  // ---- Regrouping: which reorderings of the operations build the same store ----

  /** The memtable slot an operation lands in: one per key, or the version list of one row. */
  datatype Group = KVGroup(key: Bytes) | RowGroup(row: Bytes) | LobGroup(lob: Bytes)

  function GroupOf(m: Mutation): Group {
    match m
    case PutKV(k, _) => KVGroup(k)
    case DelKV(k) => KVGroup(k)
    case SetCells(r, _) => RowGroup(r)
    case DelCells(r, _) => RowGroup(r)
    case DelRow(r) => RowGroup(r)
    case SetLob(k, _, _) => LobGroup(k)
  }

  function CellGroup(c: Cell): Group {
    match c
    case KVCell(k) => KVGroup(k)
    case ColCell(r, _) => RowGroup(r)
    case LobCell(k) => LobGroup(k)
  }

  /** The operations of one group, in order. */
  function Project(ms: seq<Mutation>, g: Group): seq<Mutation> {
    if ms == [] then []
    else Project(Front(ms), g) + if GroupOf(Last(ms)) == g then [Last(ms)] else []
  }

  lemma {:induction false} ProjectConcat(a: seq<Mutation>, b: seq<Mutation>, g: Group)
    ensures Project(a + b, g) == Project(a, g) + Project(b, g)
  {
    if b == [] {
      assert a + b == a;
    } else {
      ProjectConcat(a, Front(b), g);
      assert Front(a + b) == a + Front(b) && Last(a + b) == Last(b);
      Associative(Project(a, g), Project(Front(b), g), if GroupOf(Last(b)) == g then [Last(b)] else []);
    }
  }

  lemma {:induction false} ProjectInGroup(ms: seq<Mutation>, g: Group)
    ensures forall m :: m in Project(ms, g) ==> GroupOf(m) == g && m in ms
  {
    if ms != [] {
      ProjectInGroup(Front(ms), g);
    }
  }

  lemma LastTouchSnoc(ms: seq<Mutation>, m: Mutation, c: Cell)
    ensures LastTouch(ms + [m], c) == if Touches(m, c) then Some(Assigned(m, c)) else LastTouch(ms, c)
  {
    assert Front(ms + [m]) == ms;
  }

  lemma {:induction false} LastTouchProject(ms: seq<Mutation>, c: Cell)
    ensures LastTouch(ms, c) == LastTouch(Project(ms, CellGroup(c)), c)
  {
    if ms != [] {
      LastTouchProject(Front(ms), c);
      var p := Project(Front(ms), CellGroup(c));
      if GroupOf(Last(ms)) == CellGroup(c) {
        LastTouchSnoc(p, Last(ms), c);
      } else {
        assert p + [] == p;
      }
    }
  }

  /**
   A flush writes out a memtable: of each key its latest entry, of each row all its versions oldest
   first, the groups themselves in any order.
   */
  ghost predicate FlushOrder(puts: seq<Mutation>, ops: seq<Mutation>) {
    forall g :: Project(ops, g) == Flushed(puts, g)
  }

  /** What a flush writes for one group. */
  function Flushed(puts: seq<Mutation>, g: Group): seq<Mutation> {
    var p := Project(puts, g);
    if g.RowGroup? || p == [] then p else [Last(p)]
  }

  lemma LastTouchFlushed(puts: seq<Mutation>, c: Cell)
    ensures LastTouch(Flushed(puts, CellGroup(c)), c) == LastTouch(puts, c)
  {
    var p := Project(puts, CellGroup(c));
    LastTouchProject(puts, c);
    if !c.ColCell? && p != [] {
      ProjectInGroup(puts, CellGroup(c));
      assert Last(p) in p;
    }
  }

  /** Flushing has the same effect as applying the puts one by one in arrival order. */
  lemma FlushEquivalent(st: Store, puts: seq<Mutation>, ops: seq<Mutation>)
    requires FlushOrder(puts, ops)
    ensures ApplyAll(st, ops) == ApplyAll(st, puts)
  {
    forall c ensures LastTouch(ops, c) == LastTouch(puts, c) {
      LastTouchProject(ops, c);
      assert Project(ops, CellGroup(c)) == Flushed(puts, CellGroup(c));
      LastTouchFlushed(puts, c);
    }
    SameLastTouches(st, ops, puts);
  }

  /** A flush writes only operations that were put into the memtable. */
  lemma FlushSubset(puts: seq<Mutation>, ops: seq<Mutation>, i: nat)
    requires FlushOrder(puts, ops) && i < |ops|
    ensures ops[i] in puts
  {
    var g := GroupOf(ops[i]);
    InProject(ops, i);
    assert Project(ops, g) == Flushed(puts, g);
    ProjectInGroup(puts, g);
  }

  lemma {:induction false} InProject(ms: seq<Mutation>, i: nat)
    requires i < |ms|
    ensures ms[i] in Project(ms, GroupOf(ms[i]))
  {
    if i < |ms| - 1 {
      InProject(Front(ms), i);
      assert Front(ms)[i] == ms[i];
    }
  }

  // ---- Rows of a store ----

  /** Large-object cells hold chunk lists, all others plain values. */
  predicate TypedStore(st: Store) {
    forall c :: c in st ==> (c.LobCell? <==> st[c].Lob?)
  }

  lemma {:induction false} TypedKept(st: Store, puts: seq<Mutation>)
    requires TypedStore(st)
    ensures TypedStore(ApplyAll(st, puts))
  {
    if puts != [] {
      TypedKept(st, Front(puts));
      var st', m := ApplyAll(st, Front(puts)), Last(puts);
      forall c | c in Apply(st', m) ensures c.LobCell? <==> Apply(st', m)[c].Lob? {
        ApplyLookup(st', m, c);
        if !Touches(m, c) {
          assert Lookup(st', c) == Some(Apply(st', m)[c]);
        }
      }
    }
  }

  /** The columns of one row; the store's scan leaves out a column with an empty name. */
  function RowOf(st: Store, row: Bytes): Columns {
    map c | c in (set x | x in st && x.ColCell? && x.row == row && st[x].Plain? :: x.col) :: st[ColCell(row, c)].bytes
  }

  function StoredRow(st: Store, row: Bytes): Columns {
    RowOf(st, row) - {[]}
  }

  function Filter(cols: Columns, keep: Bytes -> bool): Columns {
    map c | c in cols && keep(c) :: cols[c]
  }

  function ColumnAt(cols: Columns, col: Bytes): Option<Value> {
    if col in cols then Some(Plain(cols[col])) else None
  }

  lemma RowOfLookup(st: Store, row: Bytes, col: Bytes)
    requires TypedStore(st)
    ensures ColumnAt(RowOf(st, row), col) == Lookup(st, ColCell(row, col))
  {
    if ColCell(row, col) in st {
      assert ColCell(row, col).col == col;
    }
    if col in RowOf(st, row) {
      var x :| x in st && x.ColCell? && x.row == row && st[x].Plain? && x.col == col;
      assert x == ColCell(row, col);
    }
  }
}
