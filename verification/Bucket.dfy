/**
 The Bolt driver over one flat, ordered byte-key map (pkg/kvdrivers/bolt.go).

 Every operation works on single byte keys, some of them in a cursor loop. The class proves that the flat map
 stays a faithful image of the cells it stands for: each operation has exactly its logical effect, or fails because a
 key is too long for Bolt. A failed operation may have been done in part; the transaction around it is rolled back.
 */
module BoltBucket {
  import opened Basics
  import opened Words
  import opened Keys
  import opened Ordering
  import opened Cells

  datatype DriverError = KeyNotFound | InvalidChunkMetadata | ChunkMissing | KeyTooLarge

  const CHUNKED_VALUE: Byte := 255

  type Flat = map<Bytes, Bytes>

  function Get(data: Flat, k: Bytes): Option<Bytes> {
    if k in data then Some(data[k]) else None
  }

  /** A large object's metadata: one flag byte, the chunk count and the checksum. */
  function LobMetadata(count: nat, checksum: nat): (m: Bytes)
    ensures |m| == 9
  {
    [CHUNKED_VALUE] + LittleEndian32(count) + LittleEndian32(checksum)
  }

  /** What the flat map holds for a slot of the cells. */
  function SlotValue(st: Store, slot: Slot): Option<Bytes> {
    match slot
    case KVSlot(k) =>
      if KVCell(k) in st && st[KVCell(k)].Plain? then Some(st[KVCell(k)].bytes) else None
    case ColSlot(r, c) =>
      if ColCell(r, c) in st && st[ColCell(r, c)].Plain? then Some(st[ColCell(r, c)].bytes) else None
    case LobMeta(k) =>
      if LobCell(k) in st && st[LobCell(k)].Lob?
      then Some(LobMetadata(|st[LobCell(k)].chunks|, st[LobCell(k)].checksum)) else None
    case LobChunk(k, i) =>
      if LobCell(k) in st && st[LobCell(k)].Lob? && 0 < i <= |st[LobCell(k)].chunks|
      then Some(st[LobCell(k)].chunks[i - 1]) else None
    case Foreign => None
  }

  predicate TypedCell(c: Cell, v: Value) {
    match c
    case KVCell(k) => TypedKV(k) && v.Plain?
    case ColCell(r, _) => TypedRow(r) && v.Plain?
    case LobCell(k) => TypedLob(k) && |k| < WORD && v.Lob? && |v.chunks| < WORD
  }

  predicate TypedCells(st: Store) {
    forall c :: c in st ==> TypedCell(c, st[c])
  }

  /** The flat map is the image of the cells, key for key: nothing missing, nothing left behind. */
  ghost predicate Represents(data: Flat, st: Store) {
    TypedCells(st) && forall k :: Get(data, k) == SlotValue(st, Parse(k))
  }

  /** Different keys are keys of different things. */
  lemma SlotsDistinct(k: Bytes, k': Bytes)
    requires Parse(k) == Parse(k') && !Parse(k).Foreign?
    ensures k == k'
  {
    ParseFaithful(k);
    ParseFaithful(k');
  }

  lemma RepresentsAt(data: Flat, st: Store, k: Bytes)
    requires Represents(data, st)
    ensures Get(data, k) == SlotValue(st, Parse(k))
  {
  }

  lemma LobTyped(data: Flat, st: Store, lob: Bytes)
    requires Represents(data, st) && LobCell(lob) in st
    ensures st[LobCell(lob)].Lob? && |st[LobCell(lob)].chunks| < WORD
  {
  }

  /** Checksums fit their 32-bit field. */
  predicate SumsFit(st: Store) {
    forall c :: c in st && st[c].Lob? ==> st[c].checksum < WORD
  }

  lemma MetadataDecides(n: nat, sum: nat, n': nat, sum': nat)
    requires n < WORD && n' < WORD && sum < WORD && sum' < WORD && LobMetadata(n, sum) == LobMetadata(n', sum')
    ensures n == n' && sum == sum'
  {
    hide LittleEndian32, FromLittleEndian32;
    var m := LobMetadata(n, sum);
    assert m[1..5] == LittleEndian32(n) == LittleEndian32(n') && m[5..] == LittleEndian32(sum) == LittleEndian32(sum');
    LittleRoundTrip(n);
    LittleRoundTrip(n');
    LittleRoundTrip(sum);
    LittleRoundTrip(sum');
  }

  lemma SameLob(data: Flat, a: Store, b: Store, k: Bytes)
    requires Represents(data, a) && Represents(data, b) && SumsFit(a) && SumsFit(b) && LobCell(k) in a
    ensures LobCell(k) in b && a[LobCell(k)] == b[LobCell(k)]
  {
    hide Parse, LobMetadata, KeyBlobChunk;
    var c := LobCell(k);
    assert TypedCell(c, a[c]);
    MetaKey(k);
    RepresentsAt(data, a, k);
    RepresentsAt(data, b, k);
    assert TypedCell(c, b[c]);
    var x, y := a[c], b[c];
    MetadataDecides(|x.chunks|, x.checksum, |y.chunks|, y.checksum);
    forall i | 0 <= i < |x.chunks| ensures x.chunks[i] == y.chunks[i] {
      ParseChunk(k, i + 1);
      RepresentsAt(data, a, KeyBlobChunk(k, i + 1));
      RepresentsAt(data, b, KeyBlobChunk(k, i + 1));
    }
  }

  lemma MetaKey(k: Bytes)
    requires TypedLob(k)
    ensures Parse(k) == LobMeta(k)
  {
    ParseMeta(k);
  }

  lemma SameCell(data: Flat, a: Store, b: Store, c: Cell)
    requires Represents(data, a) && Represents(data, b) && SumsFit(a) && SumsFit(b) && c in a
    ensures c in b && a[c] == b[c]
  {
    hide Parse, LobMetadata, TypedLob, TypedRow, TypedKV, KeyColumn;
    assert TypedCell(c, a[c]);
    match c
    case KVCell(k) =>
      assert Parse(k) == KVSlot(k) by { KVKey(k); }
      RepresentsAt(data, a, k);
      RepresentsAt(data, b, k);
      assert TypedCell(c, b[c]);
    case ColCell(r, col) =>
      ParseColumn(r, col);
      RepresentsAt(data, a, KeyColumn(r, col));
      RepresentsAt(data, b, KeyColumn(r, col));
      assert TypedCell(c, b[c]);
    case LobCell(k) =>
      SameLob(data, a, b, k);
  }

  lemma KVKey(k: Bytes)
    requires TypedKV(k)
    ensures Parse(k) == KVSlot(k)
  {
  }

  /** Nothing is lost in the bytes: a flat map is the image of at most one store. */
  lemma BytesDecide(data: Flat, a: Store, b: Store)
    requires Represents(data, a) && Represents(data, b) && SumsFit(a) && SumsFit(b)
    ensures a == b
  {
    hide Represents, SumsFit;
    forall c | c in a ensures c in b && a[c] == b[c] {
      SameCell(data, a, b, c);
    }
    forall c | c in b ensures c in a {
      SameCell(data, b, a, c);
    }
  }

  /** One key and the one slot it stands for change together. */
  lemma RepresentsAfter(data: Flat, st: Store, data': Flat, st': Store, k: Bytes)
    requires Represents(data, st) && TypedCells(st') && !Parse(k).Foreign?
    requires forall x :: x != k ==> Get(data', x) == Get(data, x)
    requires Get(data', k) == SlotValue(st', Parse(k))
    requires forall s: Slot :: s != Parse(k) ==> SlotValue(st', s) == SlotValue(st, s)
    ensures Represents(data', st')
  {
    forall x ensures Get(data', x) == SlotValue(st', Parse(x)) {
      if x != k && Parse(x) == Parse(k) {
        SlotsDistinct(x, k);
      }
    }
  }

  lemma ColumnKey(row: Bytes, col: Bytes)
    ensures KeyColumn(row, col) == RowKey(row) + col
  {
  }

  class Bucket {
    var data: Flat
    ghost var cells: Store

    ghost predicate Valid()
      reads this
    {
      Represents(data, cells)
    }

    constructor ()
      ensures Valid() && data == map[] && cells == map[]
    {
      data, cells := map[], map[];
    }

    // ---- Key-value pairs ----

    method PutKV(key: Bytes, value: Bytes) returns (r: Result<(), DriverError>)
      requires Valid()
      modifies this
      ensures r == if Refused(Mutation.PutKV(Keys.KeyKV(key), value)) then Err(KeyTooLarge) else Ok(())
      ensures r.Ok? ==> Valid() && cells == Apply(old(cells), Mutation.PutKV(Keys.KeyKV(key), value))
      ensures r.Err? ==> unchanged(this)
    {
      var k := KeyKV(key);
      if |k| > MAX_KEY_SIZE {
        return Err(KeyTooLarge);
      }
      data := data[k := value];
      cells := cells[KVCell(k) := Plain(value)];
      RepresentsAfter(old(data), old(cells), data, cells, k);
      return Ok(());
    }

    method DeleteKV(key: Bytes)
      requires Valid()
      modifies this
      ensures Valid() && cells == Apply(old(cells), DelKV(KeyKV(key)))
    {
      var k := KeyKV(key);
      if k in data {
        data := data - {k};
      }
      cells := cells - {KVCell(k)};
      RepresentsAfter(old(data), old(cells), data, cells, k);
    }

    method GetKV(key: Bytes) returns (r: Result<Bytes, DriverError>)
      requires Valid()
      ensures r == match Lookup(cells, KVCell(KeyKV(key)))
                   case Some(v) => Ok(v.bytes)
                   case None => Err(KeyNotFound)
    {
      var k := KeyKV(key);
      assert Get(data, k) == SlotValue(cells, Parse(k));
      return if k in data then Ok(data[k]) else Err(KeyNotFound);
    }

    // ---- Rows ----

    method PutCell(row: Bytes, col: Bytes, value: Bytes) returns (r: Result<(), DriverError>)
      requires Valid() && TypedRow(RowKey(row))
      modifies this
      ensures r == if |RowKey(row) + col| > MAX_KEY_SIZE then Err(KeyTooLarge) else Ok(())
      ensures r.Ok? ==> Valid() && cells == old(cells)[ColCell(RowKey(row), col) := Plain(value)]
      ensures r.Err? ==> unchanged(this)
    {
      var k := KeyColumn(row, col);
      ColumnKey(row, col);
      if |k| > MAX_KEY_SIZE {
        return Err(KeyTooLarge);
      }
      ParseColumn(RowKey(row), col);
      data := data[k := value];
      cells := cells[ColCell(RowKey(row), col) := Plain(value)];
      RepresentsAfter(old(data), old(cells), data, cells, k);
      return Ok(());
    }

    method DeleteCell(row: Bytes, col: Bytes)
      requires Valid() && TypedRow(RowKey(row))
      modifies this
      ensures Valid() && cells == old(cells) - {ColCell(RowKey(row), col)}
    {
      var k := KeyColumn(row, col);
      ColumnKey(row, col);
      ParseColumn(RowKey(row), col);
      data := data - {k};
      cells := cells - {ColCell(RowKey(row), col)};
      RepresentsAfter(old(data), old(cells), data, cells, k);
    }

    /** Sets the columns of a row, in whatever order they come. */
    method SetRow(row: Bytes, columns: Columns) returns (r: Result<(), DriverError>)
      requires Valid() && TypedRow(RowKey(row))
      modifies this
      ensures r == if Refused(SetCells(RowKey(row), columns)) then Err(KeyTooLarge) else Ok(())
      ensures r.Ok? ==> Valid() && cells == Apply(old(cells), SetCells(RowKey(row), columns))
    {
      hide Represents, Apply, RowKey, TypedRow;
      var left := columns.Keys;
      SetNothing(old(cells), RowKey(row));
      ghost var done: Columns := map[];
      while left != {}
        invariant Valid() && left <= columns.Keys
        invariant done == columns - left
        invariant cells == Apply(old(cells), SetCells(RowKey(row), done))
        invariant forall c :: c in done ==> |RowKey(row) + c| <= MAX_KEY_SIZE
      {
        var col :| col in left;
        r := PutCell(row, col, columns[col]);
        if r.Err? {
          return;
        }
        SetOneMore(old(cells), RowKey(row), done, col, columns[col]);
        done := done[col := columns[col]];
        left := left - {col};
      }
      assert done == columns;
      return Ok(());
    }

    method DeleteColumns(row: Bytes, columns: Columns)
      requires Valid() && TypedRow(RowKey(row))
      modifies this
      ensures Valid() && cells == Apply(old(cells), DelCells(RowKey(row), columns))
    {
      hide Represents, Apply;
      var left := columns.Keys;
      SetNothing(old(cells), RowKey(row));
      ghost var done: Columns := map[];
      while left != {}
        invariant Valid() && left <= columns.Keys
        invariant done == columns - left
        invariant cells == Apply(old(cells), DelCells(RowKey(row), done))
      {
        var col :| col in left;
        DeleteCell(row, col);
        DeleteOneMore(old(cells), RowKey(row), done, col, columns[col]);
        done := done[col := columns[col]];
        left := left - {col};
      }
      assert done == columns;
    }

    /** Deletes a row: collects its keys with a cursor, then deletes them one by one. */
    method DeleteRow(row: Bytes)
      requires Valid() && TypedRow(RowKey(row))
      modifies this
      ensures Valid() && cells == Apply(old(cells), DelRow(RowKey(row)))
    {
      var prefix := RowKey(row);
      var keys := PrefixScan(data.Keys, prefix);
      ghost var data0 := data;
      for i := 0 to |keys|
        invariant cells == old(cells)
        invariant forall k :: Get(data, k) == if k in keys[..i] then None else Get(data0, k)
      {
        assert keys[..i + 1] == keys[..i] + [keys[i]];
        data := data - {keys[i]};
      }
      assert keys[..|keys|] == keys;
      cells := Apply(cells, DelRow(prefix));
      RowGone(data0, old(cells), data, prefix);
    }

    /** All columns of a row that the filter wants, by a cursor over the row's prefix. */
    method ScanRowCells(row: Bytes, keep: Bytes -> bool) returns (r: Result<Columns, DriverError>)
      requires Valid() && TypedRow(RowKey(row))
      ensures var wanted := Filter(StoredRow(cells, RowKey(row)), keep);
              r == if wanted == map[] then Err(KeyNotFound) else Ok(wanted)
    {
      hide Represents, Filter, StoredRow, Scanned, Less, TypedRow, RowKey;
      var prefix := RowKey(row);
      var keys := PrefixScan(data.Keys, prefix);
      var entries: Columns := map[];
      ScannedNothing(data, prefix, keep);
      assert keys[..0] == [];
      for i := 0 to |keys|
        invariant entries == Scanned(data, prefix, keys[..i], keep)
      {
        assert keys[..i + 1] == keys[..i] + [keys[i]];
        ScannedSnoc(data, prefix, keys[..i], keys[i], keep);
        if |keys[i]| > |prefix| && keep(keys[i][|prefix|..]) {
          entries := entries[keys[i][|prefix|..] := data[keys[i]]];
        }
      }
      assert keys[..|keys|] == keys;
      ScanFindsRow(data, cells, prefix, keys, keep);
      return if entries == map[] then Err(KeyNotFound) else Ok(entries);
    }

    // ---- Large objects ----

    /** Replaces a large object: drops the old chunks, writes the new ones, then the metadata. */
    method SetLobChunks(lob: Bytes, chunks: seq<Bytes>, checksum: nat) returns (r: Result<(), DriverError>)
      requires Valid() && TypedLob(lob) && |lob| < WORD && |chunks| < WORD
      modifies this
      ensures r == if Refused(SetLob(lob, chunks, checksum)) then Err(KeyTooLarge) else Ok(())
      ensures r.Ok? ==> Valid() && cells == Apply(old(cells), SetLob(lob, chunks, checksum))
    {
      hide Apply;
      var typed := KeyBlobChunk(lob, 0);
      ghost var data0 := data;
      ghost var old_ := if LobCell(lob) in cells then |cells[LobCell(lob)].chunks| else 0;
      ParseMeta(lob);
      assert Get(data, typed) == SlotValue(cells, LobMeta(lob));
      if typed in data && data[typed] != [] && data[typed][0] == CHUNKED_VALUE {
        if |data[typed]| < 9 {
          return Err(InvalidChunkMetadata);
        }
        MetadataCount(old_, cells[LobCell(lob)].checksum);
        DropChunks(lob, FromLittleEndian32(data[typed][1..5]));
      }
      r := WriteChunks(lob, chunks);
      if r.Err? {
        return;
      }
      if |typed| > MAX_KEY_SIZE {
        return Err(KeyTooLarge);
      }
      data := data[typed := LobMetadata(|chunks|, checksum)];
      cells := Apply(cells, SetLob(lob, chunks, checksum));
      forall k ensures Get(data, k) ==
               if Parse(k) == LobMeta(lob) then Some(LobMetadata(|chunks|, checksum))
               else if IsChunk(k, lob, 1, |chunks|) then Some(chunks[Parse(k).index - 1])
               else if IsChunk(k, lob, 1, old_) then None
               else Get(data0, k)
      {
        if Parse(k) == LobMeta(lob) {
          SlotsDistinct(k, typed);
        }
      }
      LobReplaced(data0, old(cells), data, lob, old_, chunks, checksum);
      return Ok(());
    }

    method DropChunks(lob: Bytes, count: nat)
      requires |lob| < WORD && count < WORD
      modifies this`data
      ensures forall k :: Get(data, k) == if IsChunk(k, lob, 1, count) then None else Get(old(data), k)
    {
      for i := 1 to count + 1
        invariant forall k :: Get(data, k) == if IsChunk(k, lob, 1, i - 1) then None else Get(old(data), k)
      {
        ghost var before := data;
        data := data - {KeyBlobChunk(lob, i)};
        forall k ensures Get(data, k) == if IsChunk(k, lob, 1, i) then None else Get(old(data), k) {
          ChunkKeys(lob, i, k);
          assert Get(before, k) == if IsChunk(k, lob, 1, i - 1) then None else Get(old(data), k);
        }
      }
    }

    method WriteChunks(lob: Bytes, chunks: seq<Bytes>) returns (r: Result<(), DriverError>)
      requires |lob| < WORD && |chunks| < WORD
      modifies this`data
      ensures r == if chunks != [] && |lob| + 9 > MAX_KEY_SIZE then Err(KeyTooLarge) else Ok(())
      ensures r.Ok? ==>
                forall k :: Get(data, k) ==
                            if IsChunk(k, lob, 1, |chunks|) then Some(chunks[Parse(k).index - 1]) else Get(old(data), k)
    {
      for i := 0 to |chunks|
        invariant i > 0 ==> |lob| + 9 <= MAX_KEY_SIZE
        invariant forall k :: Get(data, k) ==
                    if IsChunk(k, lob, 1, i) then Some(chunks[Parse(k).index - 1]) else Get(old(data), k)
      {
        ghost var before := data;
        if |KeyBlobChunk(lob, i + 1)| > MAX_KEY_SIZE {
          return Err(KeyTooLarge);
        }
        data := data[KeyBlobChunk(lob, i + 1) := chunks[i]];
        forall k ensures Get(data, k) ==
                   if IsChunk(k, lob, 1, i + 1) then Some(chunks[Parse(k).index - 1]) else Get(old(data), k)
        {
          ChunkKeys(lob, i + 1, k);
          assert Get(before, k) == if IsChunk(k, lob, 1, i) then Some(chunks[Parse(k).index - 1]) else Get(old(data), k);
        }
      }
      return Ok(());
    }

    method GetLobChunks(lob: Bytes) returns (r: Result<seq<Bytes>, DriverError>)
      requires Valid() && TypedLob(lob) && |lob| < WORD
      ensures r == match Lookup(cells, LobCell(lob))
                   case Some(v) => Ok(v.chunks)
                   case None => Err(KeyNotFound)
    {
      hide Represents, Parse, KeyBlobChunk, TypedLob, LobMetadata, FromLittleEndian32;
      var typed := KeyBlobChunk(lob, 0);
      ParseMeta(lob);
      RepresentsAt(data, cells, typed);
      if typed !in data {
        if LobCell(lob) in cells {
          LobTyped(data, cells, lob);
        }
        return Err(KeyNotFound);
      }
      LobTyped(data, cells, lob);
      if |data[typed]| < 9 {
        return Err(InvalidChunkMetadata);
      }
      ghost var v := cells[LobCell(lob)];
      MetadataCount(|v.chunks|, v.checksum);
      var count := FromLittleEndian32(data[typed][1..5]);
      var chunks := [];
      for i := 0 to count
        invariant chunks == v.chunks[..i]
      {
        var k := KeyBlobChunk(lob, i + 1);
        ParseChunk(lob, i + 1);
        RepresentsAt(data, cells, k);
        if k !in data {
          return Err(ChunkMissing);
        }
        chunks := chunks + [data[k]];
      }
      assert v.chunks[..count] == v.chunks;
      return Ok(chunks);
    }
  }

  /** What a scan has collected after visiting some of the row's keys. */
  ghost function Scanned(data: Flat, prefix: Bytes, keys: seq<Bytes>, keep: Bytes -> bool): Columns {
    map col | col in (set k | k in keys && k in data && |k| > |prefix| && keep(k[|prefix|..]) :: k[|prefix|..]) && prefix + col in data
      :: data[prefix + col]
  }

  lemma ScannedNothing(data: Flat, prefix: Bytes, keep: Bytes -> bool)
    ensures Scanned(data, prefix, [], keep) == map[]
  {
  }

  lemma ScannedSnoc(data: Flat, prefix: Bytes, keys: seq<Bytes>, k: Bytes, keep: Bytes -> bool)
    requires k in data && HasPrefix(k, prefix) && forall x :: x in keys ==> HasPrefix(x, prefix)
    ensures Scanned(data, prefix, keys + [k], keep) ==
            if |k| > |prefix| && keep(k[|prefix|..])
            then Scanned(data, prefix, keys, keep)[k[|prefix|..] := data[k]] else Scanned(data, prefix, keys, keep)
  {
    assert prefix + k[|prefix|..] == k;
  }

  /** The cursor finds exactly the row's wanted columns. */
  lemma ScanFindsRow(data: Flat, st: Store, prefix: Bytes, keys: seq<Bytes>, keep: Bytes -> bool)
    requires Represents(data, st) && TypedRow(prefix)
    requires forall k :: k in keys <==> k in data && HasPrefix(k, prefix)
    ensures Scanned(data, prefix, keys, keep) == Filter(StoredRow(st, prefix), keep)
  {
    hide Scanned, Filter, StoredRow, Represents;
    forall col ensures ColumnAt(Scanned(data, prefix, keys, keep), col) == ColumnAt(Filter(StoredRow(st, prefix), keep), col) {
      ScannedColumn(data, st, prefix, keys, keep, col);
    }
    SameColumnMaps(Scanned(data, prefix, keys, keep), Filter(StoredRow(st, prefix), keep));
  }

  lemma ScannedColumn(data: Flat, st: Store, prefix: Bytes, keys: seq<Bytes>, keep: Bytes -> bool, col: Bytes)
    requires Represents(data, st) && TypedRow(prefix)
    requires forall k :: k in keys <==> k in data && HasPrefix(k, prefix)
    ensures ColumnAt(Scanned(data, prefix, keys, keep), col) == ColumnAt(Filter(StoredRow(st, prefix), keep), col)
  {
    assert TypedStore(st);
    var k := prefix + col;
    assert k[..|prefix|] == prefix && k[|prefix|..] == col && KeyColumn(prefix, col) == k;
    RepresentsAt(data, st, k);
    ParseColumn(prefix, col);
    RowOfLookup(st, prefix, col);
    hide RowOf, Represents, Parse, TypedRow;
    assert ColumnAt(Filter(StoredRow(st, prefix), keep), col) ==
           if col != [] && keep(col) && k in data then Some(Plain(data[k])) else None;
    if k in data && col != [] && keep(col) {
      assert k in keys;
    }
    if col in Scanned(data, prefix, keys, keep) {
      var x :| x in keys && x in data && |x| > |prefix| && keep(x[|prefix|..]) && x[|prefix|..] == col;
      assert x == k;
    }
  }

  lemma SameColumnMaps(a: Columns, b: Columns)
    requires forall col :: ColumnAt(a, col) == ColumnAt(b, col)
    ensures a == b
  {
    forall col ensures (col in a <==> col in b) && (col in a ==> a[col] == b[col]) {
      assert ColumnAt(a, col) == ColumnAt(b, col);
    }
    assert a.Keys == b.Keys;
  }

  lemma SetNothing(st: Store, row: Bytes)
    ensures Apply(st, SetCells(row, map[])) == st && Apply(st, DelCells(row, map[])) == st
  {
    forall c ensures Lookup(Apply(st, SetCells(row, map[])), c) == Lookup(st, c)
      ensures Lookup(Apply(st, DelCells(row, map[])), c) == Lookup(st, c)
    {
      ApplyLookup(st, SetCells(row, map[]), c);
      ApplyLookup(st, DelCells(row, map[]), c);
    }
    SameLookups(Apply(st, SetCells(row, map[])), st);
    SameLookups(Apply(st, DelCells(row, map[])), st);
  }

  lemma SetOneMore(st: Store, row: Bytes, done: Columns, col: Bytes, value: Bytes)
    ensures Apply(st, SetCells(row, done[col := value])) ==
            Apply(st, SetCells(row, done))[ColCell(row, col) := Plain(value)]
  {
    var a, b := SetCells(row, done[col := value]), SetCells(row, done);
    forall c ensures Lookup(Apply(st, a), c) == Lookup(Apply(st, b)[ColCell(row, col) := Plain(value)], c) {
      ApplyLookup(st, a, c);
      ApplyLookup(st, b, c);
    }
    SameLookups(Apply(st, a), Apply(st, b)[ColCell(row, col) := Plain(value)]);
  }

  lemma DeleteOneMore(st: Store, row: Bytes, done: Columns, col: Bytes, value: Bytes)
    ensures Apply(st, DelCells(row, done[col := value])) == Apply(st, DelCells(row, done)) - {ColCell(row, col)}
  {
    var a, b := DelCells(row, done[col := value]), DelCells(row, done);
    forall c ensures Lookup(Apply(st, a), c) == Lookup(Apply(st, b) - {ColCell(row, col)}, c) {
      ApplyLookup(st, a, c);
      ApplyLookup(st, b, c);
    }
    SameLookups(Apply(st, a), Apply(st, b) - {ColCell(row, col)});
  }

  // ---- Large objects ----

  /** The chunk keys of one large object, by number. */
  predicate IsChunk(k: Bytes, lob: Bytes, from: nat, to: nat) {
    Parse(k).LobChunk? && Parse(k).lob == lob && from <= Parse(k).index <= to
  }

  lemma ChunkKeys(lob: Bytes, i: nat, k: Bytes)
    requires |lob| < WORD && 0 < i < WORD
    ensures k == KeyBlobChunk(lob, i) <==> Parse(k) == LobChunk(lob, i)
  {
    ParseChunk(lob, i);
    if Parse(k) == LobChunk(lob, i) {
      SlotsDistinct(k, KeyBlobChunk(lob, i));
    }
  }

  lemma MetadataCount(count: nat, checksum: nat)
    requires count < WORD
    ensures FromLittleEndian32(LobMetadata(count, checksum)[1..5]) == count
  {
    LittleRoundTrip(count);
    assert LobMetadata(count, checksum)[1..5] == LittleEndian32(count);
  }

  /** After an overwrite the chunk keys are exactly those of the new value. */
  lemma LobReplaced(data: Flat, st: Store, data': Flat, lob: Bytes, old_: nat, chunks: seq<Bytes>, checksum: nat)
    requires Represents(data, st) && TypedLob(lob) && |lob| < WORD && |chunks| < WORD
    requires old_ == if LobCell(lob) in st then |st[LobCell(lob)].chunks| else 0
    requires forall k :: Get(data', k) ==
               if Parse(k) == LobMeta(lob) then Some(LobMetadata(|chunks|, checksum))
               else if IsChunk(k, lob, 1, |chunks|) then Some(chunks[Parse(k).index - 1])
               else if IsChunk(k, lob, 1, old_) then None
               else Get(data, k)
    ensures Represents(data', Apply(st, SetLob(lob, chunks, checksum)))
  {
    var st' := Apply(st, SetLob(lob, chunks, checksum));
    forall k ensures Get(data', k) == SlotValue(st', Parse(k)) {
      assert Get(data, k) == SlotValue(st, Parse(k));
      ParseFaithful(k);
    }
  }

  /** The chunk keys in the bucket are exactly 1..count of the objects it holds: no orphans, no gaps. */
  lemma NoOrphanChunks(data: Flat, st: Store, lob: Bytes, i: nat)
    requires Represents(data, st) && |lob| < WORD && 0 < i < WORD
    ensures KeyBlobChunk(lob, i) in data <==> LobCell(lob) in st && i <= |st[LobCell(lob)].chunks|
    ensures forall other :: TypedLob(other) ==> KeyBlobChunk(lob, i) != KeyBlobChunk(other, 0)
  {
    ParseChunk(lob, i);
    RepresentsAt(data, st, KeyBlobChunk(lob, i));
    forall other | TypedLob(other) ensures KeyBlobChunk(lob, i) != KeyBlobChunk(other, 0) {
      ParseMeta(other);
    }
  }

  lemma RowGone(data: Flat, st: Store, data': Flat, row: Bytes)
    requires Represents(data, st) && TypedRow(row)
    requires forall k :: Get(data', k) == if HasPrefix(k, row) then None else Get(data, k)
    ensures Represents(data', Apply(st, DelRow(row)))
  {
    var st' := Apply(st, DelRow(row));
    forall k ensures Get(data', k) == SlotValue(st', Parse(k)) {
      RowPrefixIsolates(row, k);
    }
  }
}
