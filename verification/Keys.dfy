/**
 Storage keys (pkg/kvdrivers/util.go, internal/keycodec/keycodec.go).

 One flat, ordered byte-key space holds key-value pairs, wide-column cells and large-object chunks.
 A key starts with a type marker; row keys and blob keys carry the length of their first part, so a
 key can be read back unambiguously. Lengths and chunk numbers are written as 32-bit big-endian words,
 and larger numbers are truncated, as the conversion to uint32 does.
 */
module Keys {
  import opened Basics
  import opened Words

  const KEY_TYPE_KV: Byte := 254
  const KEY_TYPE_WIDE_COLUMN: Byte := 253
  const KEY_TYPE_BLOB_CHUNK: Byte := 255

  predicate Marked(k: Bytes, marker: Byte) {
    |k| > 0 && k[0] == marker
  }

  function KeyKV(k: Bytes): Bytes {
    if Marked(k, KEY_TYPE_KV) then k else [KEY_TYPE_KV] + k
  }

  function RowKey(row: Bytes): Bytes {
    if Marked(row, KEY_TYPE_WIDE_COLUMN) then row
    else [KEY_TYPE_WIDE_COLUMN] + BigEndian32(|row|) + row
  }

  /** The driver's cell key: a typed row is extended, an untyped one is typed first. */
  function KeyColumn(row: Bytes, col: Bytes): Bytes {
    if Marked(row, KEY_TYPE_WIDE_COLUMN) then row + col
    else [KEY_TYPE_WIDE_COLUMN] + BigEndian32(|row|) + row + col
  }

  /** The driver's chunk key; only the metadata key (chunk 0) of an already typed blob passes through. */
  function KeyBlobChunk(blob: Bytes, chunk: nat): Bytes {
    if Marked(blob, KEY_TYPE_BLOB_CHUNK) && chunk == 0 then blob
    else [KEY_TYPE_BLOB_CHUNK] + BigEndian32(|blob|) + blob + BigEndian32(chunk)
  }

  /** The engine's typing of a user's blob key: its metadata key. */
  function BlobKey(blob: Bytes): Bytes {
    KeyBlobChunk(blob, 0)
  }

  predicate HasPrefix(k: Bytes, p: Bytes) {
    |p| <= |k| && k[..|p|] == p
  }

  // ---- Reading a stored key back ----

  /** What a stored key is the key of. */
  datatype Slot =
    | KVSlot(key: Bytes)
    | ColSlot(row: Bytes, col: Bytes)
    | LobMeta(lob: Bytes)
    | LobChunk(lob: Bytes, index: nat)
    | Foreign

  predicate TypedKV(k: Bytes) {
    Marked(k, KEY_TYPE_KV)
  }

  /** Marker, length, and exactly that many bytes. */
  predicate TypedRow(r: Bytes) {
    |r| >= 5 && r[0] == KEY_TYPE_WIDE_COLUMN && FromBigEndian32(r[1..5]) == |r| - 5
  }

  predicate BlobShaped(k: Bytes) {
    |k| >= 9 && k[0] == KEY_TYPE_BLOB_CHUNK && FromBigEndian32(k[1..5]) == |k| - 9
  }

  predicate TypedLob(k: Bytes) {
    BlobShaped(k) && FromBigEndian32(k[|k| - 4..]) == 0
  }

  function Parse(k: Bytes): Slot {
    if Marked(k, KEY_TYPE_KV) then KVSlot(k)
    else if Marked(k, KEY_TYPE_WIDE_COLUMN) then
      if |k| >= 5 && 5 + FromBigEndian32(k[1..5]) <= |k| then
        var n := 5 + FromBigEndian32(k[1..5]);
        ColSlot(k[..n], k[n..])
      else Foreign
    else if BlobShaped(k) then
      var index := FromBigEndian32(k[|k| - 4..]);
      if index == 0 then LobMeta(k) else LobChunk(k[5..|k| - 4], index)
    else Foreign
  }

  lemma ParseColumn(row: Bytes, col: Bytes)
    requires TypedRow(row)
    ensures Parse(KeyColumn(row, col)) == ColSlot(row, col)
  {
    hide FromBigEndian32;
    var k := row + col;
    assert k[1..5] == row[1..5];
    assert k[..|row|] == row && k[|row|..] == col;
  }

  lemma ParseBlobParts(head: Bytes, body: Bytes, tail: Bytes)
    requires |head| == |tail| == 4
    requires FromBigEndian32(head) == |body| && FromBigEndian32(tail) != 0
    ensures Parse([KEY_TYPE_BLOB_CHUNK] + head + body + tail) == LobChunk(body, FromBigEndian32(tail))
  {
    hide FromBigEndian32;
    var k := [KEY_TYPE_BLOB_CHUNK] + head + body + tail;
    assert k[1..5] == head;
    assert k[5..|k| - 4] == body;
    assert k[|k| - 4..] == tail;
  }

  lemma ChunkParts(lob: Bytes, i: nat) returns (head: Bytes, tail: Bytes)
    requires |lob| < WORD && 0 < i < WORD
    ensures |head| == |tail| == 4
    ensures FromBigEndian32(head) == |lob| && FromBigEndian32(tail) == i
    ensures KeyBlobChunk(lob, i) == [KEY_TYPE_BLOB_CHUNK] + head + lob + tail
  {
    hide FromBigEndian32, BigEndian32;
    head, tail := BigEndian32(|lob|), BigEndian32(i);
    WordRoundTrip(|lob|);
    WordRoundTrip(i);
  }

  lemma ParseChunk(lob: Bytes, i: nat)
    requires |lob| < WORD
    requires 0 < i < WORD
    ensures Parse(KeyBlobChunk(lob, i)) == LobChunk(lob, i)
  {
    var head, tail := ChunkParts(lob, i);
    ParseBlobParts(head, lob, tail);
  }

  lemma ParseMeta(lob: Bytes)
    requires TypedLob(lob)
    ensures Parse(KeyBlobChunk(lob, 0)) == LobMeta(lob)
  {
  }

  lemma ChunkRebuilt(k: Bytes)
    requires Parse(k).LobChunk?
    ensures KeyBlobChunk(Parse(k).lob, Parse(k).index) == k
  {
    hide FromBigEndian32, BigEndian32;
    var head, lob, tail := k[1..5], k[5..|k| - 4], k[|k| - 4..];
    assert k == [k[0]] + head + lob + tail;
    assert head == BigEndian32(|lob|) by {
      WordRoundTrip(|lob|);
      WordInjective(head, BigEndian32(|lob|));
    }
    assert tail == BigEndian32(FromBigEndian32(tail)) by {
      WordRoundTrip(FromBigEndian32(tail));
      WordInjective(tail, BigEndian32(FromBigEndian32(tail)));
    }
  }

  /** Reading a key back loses nothing: the key is rebuilt from what it is the key of. */
  lemma ParseFaithful(k: Bytes)
    ensures match Parse(k)
            case KVSlot(key) => KeyKV(key) == k
            case ColSlot(row, col) => TypedRow(row) && KeyColumn(row, col) == k
            case LobMeta(lob) => TypedLob(lob) && KeyBlobChunk(lob, 0) == k
            case LobChunk(lob, i) => i > 0 && KeyBlobChunk(lob, i) == k
            case Foreign => true
  {
    hide FromBigEndian32, BigEndian32;
    match Parse(k)
    case KVSlot(_) =>
    case ColSlot(row, col) =>
      assert row[1..5] == k[1..5];
      assert row + col == k;
    case LobMeta(_) =>
    case LobChunk(lob, i) =>
      ChunkRebuilt(k);
    case Foreign =>
  }

  // ---- Isolation ----

  /** A scan by a typed row's key meets exactly that row's cells. */
  lemma RowPrefixIsolates(row: Bytes, k: Bytes)
    requires TypedRow(row)
    ensures HasPrefix(k, row) <==> Parse(k).ColSlot? && Parse(k).row == row
    ensures HasPrefix(k, row) ==> Parse(k).col == k[|row|..]
  {
    hide FromBigEndian32;
    if HasPrefix(k, row) {
      assert k[1..5] == k[..|row|][1..5] == row[1..5];
    }
  }

  /** Typing a user's row key gives a typed row, unless the key is taken for one that already is. */
  lemma RowKeyTyped(user: Bytes)
    requires |user| < WORD
    ensures TypedRow(RowKey(user)) <==> !Marked(user, KEY_TYPE_WIDE_COLUMN) || TypedRow(user)
  {
    hide FromBigEndian32, BigEndian32;
    var r := RowKey(user);
    WordRoundTrip(|user|);
    if !Marked(user, KEY_TYPE_WIDE_COLUMN) {
      assert r[1..5] == BigEndian32(|user|);
    }
  }

  lemma BlobKeyTyped(user: Bytes)
    requires |user| < WORD
    ensures TypedLob(BlobKey(user)) <==> !Marked(user, KEY_TYPE_BLOB_CHUNK) || TypedLob(user)
  {
    hide FromBigEndian32, BigEndian32;
    var k := BlobKey(user);
    WordRoundTrip(|user|);
    WordRoundTrip(0);
    if !Marked(user, KEY_TYPE_BLOB_CHUNK) {
      assert k[1..5] == BigEndian32(|user|);
      assert k[|k| - 4..] == BigEndian32(0);
    }
  }

  /** Two user rows whose names do not start with the marker share no cell under a prefix scan. */
  lemma UserRowsIsolated(u: Bytes, v: Bytes, col: Bytes)
    requires !Marked(u, KEY_TYPE_WIDE_COLUMN) && !Marked(v, KEY_TYPE_WIDE_COLUMN)
    requires |u| < WORD && |v| < WORD
    ensures HasPrefix(KeyColumn(RowKey(v), col), RowKey(u)) <==> u == v
  {
    hide FromBigEndian32, BigEndian32;
    RowKeyTyped(u);
    RowKeyTyped(v);
    ParseColumn(RowKey(v), col);
    RowPrefixIsolates(RowKey(u), KeyColumn(RowKey(v), col));
    assert RowKey(u)[5..] == u && RowKey(v)[5..] == v;
  }

  /** Without that restriction isolation fails for every marked row: some other row's cell is caught. */
  lemma MarkedRowNotIsolated(u: Bytes)
    requires Marked(u, KEY_TYPE_WIDE_COLUMN)
    ensures exists v, col :: v != u && HasPrefix(KeyColumn(RowKey(v), col), RowKey(u))
  {
    if u == [KEY_TYPE_WIDE_COLUMN] {
      assert HasPrefix(KeyColumn(RowKey([]), []), RowKey(u));
    } else {
      var v := [KEY_TYPE_WIDE_COLUMN];
      assert KeyColumn(RowKey(v), u[1..]) == u;
      assert HasPrefix(KeyColumn(RowKey(v), u[1..]), RowKey(u));
    }
  }
}
