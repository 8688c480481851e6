/**
 The 64-byte header of a segment file (pkg/walfs/segment.go: SegmentHeader, decodeSegmentHeader, writeInitialMetadata,
 and the header updates of Write, WriteBatch and SealSegment).

 The header is updated in place, one field at a time, and its checksum last. A process that dies in between leaves a
 header whose checksum does not match, and a segment with such a header is refused when the log is opened.
 */
module SegmentHeaders {
  import opened Basics
  import opened Words
  import opened Framing

  const MAGIC_NUMBER := 0x5557414C
  const HEADER_VERSION := 1
  const FLAG_ACTIVE := 8
  const SUM_AT := 56

  function LittleEndian64(n: nat): (b: Bytes)
    ensures |b| == 8
  {
    LittleEndian32(n) + LittleEndian32(n / WORD)
  }

  function FromLittleEndian64(b: Bytes): nat
    requires |b| == 8
  {
    FromLittleEndian32(b[..4]) + WORD * FromLittleEndian32(b[4..])
  }

  lemma LongRoundTrip(n: nat)
    requires n < WORD * WORD
    ensures FromLittleEndian64(LittleEndian64(n)) == n
  {
    hide LittleEndian32, FromLittleEndian32;
    LittleRoundTrip(n);
    LittleRoundTrip(n / WORD);
    var b := LittleEndian64(n);
    assert b[..4] == LittleEndian32(n) && b[4..] == LittleEndian32(n / WORD);
    assert n / WORD < WORD;
  }

  // ---- Fields ----

  function OffsetOf(h: Bytes): nat
    requires |h| == SEGMENT_HEADER_SIZE
  {
    FromLittleEndian64(h[24..32])
  }

  function CountOf(h: Bytes): nat
    requires |h| == SEGMENT_HEADER_SIZE
  {
    FromLittleEndian64(h[32..40])
  }

  function FlagsOf(h: Bytes): nat
    requires |h| == SEGMENT_HEADER_SIZE
  {
    FromLittleEndian32(h[40..44])
  }

  /** Bit one of the flags. */
  predicate SealedFlag(flags: nat) {
    flags % 16 in {2, 3, 6, 7, 10, 11, 14, 15}
  }

  /** The active bit cleared and the sealed bit set. */
  function SealedFlags(flags: nat): (r: nat)
    ensures SealedFlag(r) && r % 16 < FLAG_ACTIVE && r / 16 == flags / 16
  {
    var low := flags % FLAG_ACTIVE;
    flags / 16 * 16 + if low in {2, 3, 6, 7} then low else low + 2
  }

  function HeaderSum(crc: Crc, h: Bytes): nat
    requires |h| == SEGMENT_HEADER_SIZE
  {
    crc(h[..SUM_AT]) % WORD
  }

  function SavedSum(h: Bytes): nat
    requires |h| == SEGMENT_HEADER_SIZE
  {
    FromLittleEndian32(h[SUM_AT..60])
  }

  /** What opening a segment insists on. */
  predicate HeaderOk(crc: Crc, h: Bytes)
    requires |h| == SEGMENT_HEADER_SIZE
  {
    SavedSum(h) == HeaderSum(crc, h)
  }

  // ---- Updates, store by store ----

  datatype Store = Store(at: nat, bytes: Bytes)

  /** A store of a header field other than the checksum. */
  predicate FieldStore(s: Store) {
    s.at + |s.bytes| <= SUM_AT
  }

  function Stored(h: Bytes, s: Store): (r: Bytes)
    requires s.at + |s.bytes| <= |h|
    ensures |r| == |h|
  {
    Spliced(h, s.at, s.bytes)
  }

  /** The header after the first stores of a list of field stores. */
  function After(h: Bytes, fields: seq<Store>): (r: Bytes)
    requires |h| == SEGMENT_HEADER_SIZE && forall i :: 0 <= i < |fields| ==> FieldStore(fields[i])
    ensures |r| == SEGMENT_HEADER_SIZE
  {
    if fields == [] then h
    else
      assert FieldStore(fields[|fields| - 1]);
      Stored(After(h, Front(fields)), Last(fields))
  }

  /** The checksum store that ends an update. */
  function SumStore(crc: Crc, h: Bytes): Store
    requires |h| == SEGMENT_HEADER_SIZE
  {
    Store(SUM_AT, LittleEndian32(HeaderSum(crc, h)))
  }

  function Finished(crc: Crc, h: Bytes, fields: seq<Store>): (r: Bytes)
    requires |h| == SEGMENT_HEADER_SIZE && forall i :: 0 <= i < |fields| ==> FieldStore(fields[i])
    ensures |r| == SEGMENT_HEADER_SIZE
  {
    Stored(After(h, fields), SumStore(crc, After(h, fields)))
  }

  /** Write and WriteBatch: the low half of the offset, the entry count, the time. */
  function WriteFields(h: Bytes, offset: nat, written: nat, now: nat): (fields: seq<Store>)
    requires |h| == SEGMENT_HEADER_SIZE
    ensures |fields| == 3 && forall i :: 0 <= i < |fields| ==> FieldStore(fields[i])
  {
    [Store(24, LittleEndian32(offset)), Store(32, LittleEndian64(CountOf(h) + written)), Store(16, LittleEndian64(now))]
  }

  /** SealSegment: the time, the whole offset, the flags. */
  function SealFields(h: Bytes, offset: nat, now: nat): (fields: seq<Store>)
    requires |h| == SEGMENT_HEADER_SIZE
    ensures |fields| == 3 && forall i :: 0 <= i < |fields| ==> FieldStore(fields[i])
  {
    [Store(16, LittleEndian64(now)), Store(24, LittleEndian64(offset)), Store(40, LittleEndian32(SealedFlags(FlagsOf(h))))]
  }

  /** A new file, all zero, gets its first header. */
  function InitFields(now: nat): (fields: seq<Store>)
    ensures |fields| == 7 && forall i :: 0 <= i < |fields| ==> FieldStore(fields[i])
  {
    [Store(0, LittleEndian32(MAGIC_NUMBER)), Store(4, LittleEndian32(HEADER_VERSION)), Store(8, LittleEndian64(now)),
     Store(16, LittleEndian64(now)), Store(24, LittleEndian64(SEGMENT_HEADER_SIZE)), Store(32, LittleEndian64(0)),
     Store(40, LittleEndian32(FLAG_ACTIVE))]
  }

  // ---- Slices of an updated header ----

  lemma SliceKept(h: Bytes, s: Store, i: nat, j: nat)
    requires s.at + |s.bytes| <= |h| && i <= j <= |h| && (j <= s.at || s.at + |s.bytes| <= i)
    ensures Stored(h, s)[i..j] == h[i..j]
  {
    var r := Stored(h, s);
    assert forall k :: i <= k < j ==> r[k] == h[k];
  }

  lemma SliceStored(h: Bytes, s: Store)
    requires s.at + |s.bytes| <= |h|
    ensures Stored(h, s)[s.at..s.at + |s.bytes|] == s.bytes
  {
    SplicedParts(h, s.at, s.bytes);
  }

  lemma {:induction false} SumKept(h: Bytes, fields: seq<Store>)
    requires |h| == SEGMENT_HEADER_SIZE && forall i :: 0 <= i < |fields| ==> FieldStore(fields[i])
    ensures SavedSum(After(h, fields)) == SavedSum(h)
  {
    hide Stored;
    if fields != [] {
      SumKept(h, Front(fields));
      SliceKept(After(h, Front(fields)), Last(fields), SUM_AT, 60);
    }
  }

  // ---- Crash points ----

  /** What opening checks, byte by byte. */
  lemma OpensIff(crc: Crc, h: Bytes)
    requires |h| == SEGMENT_HEADER_SIZE
    ensures HeaderOk(crc, h) <==> FromLittleEndian32(h[56..60]) == crc(h[..56]) % 0x1_0000_0000
  {
  }

  /** A completed update always leaves a header that opens. */
  lemma FinishedOk(crc: Crc, h: Bytes, fields: seq<Store>)
    requires |h| == SEGMENT_HEADER_SIZE && forall i :: 0 <= i < |fields| ==> FieldStore(fields[i])
    ensures HeaderOk(crc, Finished(crc, h, fields))
    ensures Finished(crc, h, fields)[..SUM_AT] == After(h, fields)[..SUM_AT]
  {
    hide LittleEndian32, FromLittleEndian32, Stored, After;
    var a := After(h, fields);
    var s := SumStore(crc, a);
    SliceKept(a, s, 0, SUM_AT);
    SliceStored(a, s);
    LittleRoundTrip(HeaderSum(crc, a));
  }

  /**
   A process that dies after k of the field stores of an update, before the checksum store, leaves a header that opens
   if and only if the fields as they stand have the checksum they had before the update.
   */
  lemma CrashPoint(crc: Crc, h: Bytes, fields: seq<Store>, k: nat)
    requires |h| == SEGMENT_HEADER_SIZE && HeaderOk(crc, h) && k <= |fields|
    requires forall i :: 0 <= i < |fields| ==> FieldStore(fields[i])
    ensures var r := After(h, fields[..k]);
            HeaderOk(crc, r) <==> crc(r[..56]) % 0x1_0000_0000 == crc(h[..56]) % 0x1_0000_0000
  {
    SumKept(h, fields[..k]);
  }

  /** Three field stores, unfolded. */
  lemma AfterThree(h: Bytes, a: Store, b: Store, c: Store)
    requires |h| == SEGMENT_HEADER_SIZE && FieldStore(a) && FieldStore(b) && FieldStore(c)
    ensures After(h, []) == h && After(h, [a]) == Stored(h, a)
    ensures After(h, [a, b]) == Stored(Stored(h, a), b)
    ensures After(h, [a, b, c]) == Stored(Stored(Stored(h, a), b), c)
  {
    hide Stored;
    assert Front([a]) == [] && Front([a, b]) == [a] && Front([a, b, c]) == [a, b];
  }

  /** What a field reads after three stores and the checksum, if only the store at that field touches it. */
  lemma FieldAfter(crc: Crc, h: Bytes, a: Store, b: Store, c: Store, i: nat, j: nat)
    requires |h| == SEGMENT_HEADER_SIZE && FieldStore(a) && FieldStore(b) && FieldStore(c) && i <= j <= SUM_AT
    requires forall s | s in [a, b, c] :: j <= s.at || s.at + |s.bytes| <= i || (s.at == i && |s.bytes| == j - i)
    requires (a.at == i ==> b.at != i && c.at != i) && (b.at == i ==> c.at != i)
    requires forall s | s in [a, b, c] :: |s.bytes| > 0 && i < j
    ensures Finished(crc, h, [a, b, c])[i..j] ==
            if c.at == i then c.bytes else if b.at == i then b.bytes else if a.at == i then a.bytes else h[i..j]
  {
    hide Stored, LittleEndian32;
    AfterThree(h, a, b, c);
    assert a in [a, b, c] && b in [a, b, c] && c in [a, b, c];
    var h1 := Stored(h, a);
    var h2 := Stored(h1, b);
    var h3 := Stored(h2, c);
    var s := SumStore(crc, h3);
    OneField(h, a, i, j);
    OneField(h1, b, i, j);
    OneField(h2, c, i, j);
    SliceKept(h3, s, i, j);
  }

  lemma OneField(h: Bytes, s: Store, i: nat, j: nat)
    requires s.at + |s.bytes| <= |h| && i < j <= |h|
    requires j <= s.at || s.at + |s.bytes| <= i || (s.at == i && |s.bytes| == j - i)
    requires |s.bytes| > 0
    ensures Stored(h, s)[i..j] == if s.at == i then s.bytes else h[i..j]
  {
    hide Stored;
    if s.at == i {
      SliceStored(h, s);
    } else {
      SliceKept(h, s, i, j);
    }
  }

  lemma SealFinished(crc: Crc, h: Bytes, offset: nat, now: nat)
    requires |h| == SEGMENT_HEADER_SIZE && offset < WORD * WORD
    ensures var r := Finished(crc, h, SealFields(h, offset, now));
            && HeaderOk(crc, r) && SealedFlag(FlagsOf(r)) && FlagsOf(r) % 16 < FLAG_ACTIVE
            && OffsetOf(r) == offset && CountOf(r) == CountOf(h) && r[16..24] == LittleEndian64(now) && r[..16] == h[..16]
  {
    hide LittleEndian32, FromLittleEndian32, LittleEndian64, FromLittleEndian64, Finished, SealedFlags, HeaderSum;
    var f := SealFields(h, offset, now);
    FinishedOk(crc, h, f);
    FieldAfter(crc, h, f[0], f[1], f[2], 24, 32);
    FieldAfter(crc, h, f[0], f[1], f[2], 32, 40);
    FieldAfter(crc, h, f[0], f[1], f[2], 40, 44);
    FieldAfter(crc, h, f[0], f[1], f[2], 16, 24);
    FieldAfter(crc, h, f[0], f[1], f[2], 0, 16);
    assert [f[0], f[1], f[2]] == f;
    LongRoundTrip(offset);
    FlagsSmall(h);
    LittleRoundTrip(SealedFlags(FlagsOf(h)));
  }

  lemma FlagsSmall(h: Bytes)
    requires |h| == SEGMENT_HEADER_SIZE
    ensures SealedFlags(FlagsOf(h)) % WORD == SealedFlags(FlagsOf(h))
  {
    hide FromLittleEndian32;
    var flags := FlagsOf(h);
    assert flags / 16 < WORD / 16;
    assert SealedFlags(flags) < WORD;
  }

  lemma WriteFinished(crc: Crc, h: Bytes, offset: nat, written: nat, now: nat)
    requires |h| == SEGMENT_HEADER_SIZE
    ensures var r := Finished(crc, h, WriteFields(h, offset, written, now));
            && HeaderOk(crc, r) && FlagsOf(r) == FlagsOf(h)
            && (CountOf(h) + written < WORD * WORD ==> CountOf(r) == CountOf(h) + written)
            && r[24..28] == LittleEndian32(offset) && r[28..32] == h[28..32]
            && r[16..24] == LittleEndian64(now) && r[..16] == h[..16]
  {
    hide LittleEndian32, FromLittleEndian32, LittleEndian64, FromLittleEndian64, Finished, HeaderSum;
    var f := WriteFields(h, offset, written, now);
    FinishedOk(crc, h, f);
    OffsetHalf(crc, h, f[0], f[1], f[2]);
    FieldAfter(crc, h, f[0], f[1], f[2], 24, 28);
    FieldAfter(crc, h, f[0], f[1], f[2], 28, 32);
    FieldAfter(crc, h, f[0], f[1], f[2], 16, 24);
    FieldAfter(crc, h, f[0], f[1], f[2], 0, 16);
    assert [f[0], f[1], f[2]] == f;
    if CountOf(h) + written < WORD * WORD {
      LongRoundTrip(CountOf(h) + written);
    }
  }

  // ---- The first header, byte by byte ----

  function Joined(fields: seq<Store>): Bytes {
    if fields == [] then [] else Joined(Front(fields)) + Last(fields).bytes
  }

  /** Each store begins where the one before it ends. */
  predicate Adjacent(fields: seq<Store>) {
    fields == [] || (Adjacent(Front(fields)) && Last(fields).at == |Joined(Front(fields))|)
  }

  lemma {:induction false} AfterAdjacent(h: Bytes, fields: seq<Store>)
    requires |h| == SEGMENT_HEADER_SIZE && (forall i :: 0 <= i < |fields| ==> FieldStore(fields[i])) && Adjacent(fields)
    ensures |Joined(fields)| <= SUM_AT && After(h, fields) == Joined(fields) + h[|Joined(fields)|..]
  {
    if fields != [] {
      AfterAdjacent(h, Front(fields));
      assert FieldStore(fields[|fields| - 1]);
    }
  }

  lemma JoinedSnoc(fields: seq<Store>, s: Store)
    ensures Joined(fields + [s]) == Joined(fields) + s.bytes
    ensures Adjacent(fields + [s]) <==> Adjacent(fields) && s.at == |Joined(fields)|
    ensures Joined([]) == [] && Adjacent([])
  {
    assert Front(fields + [s]) == fields;
  }

  lemma JoinedSeven(a: Store, b: Store, c: Store, d: Store, e: Store, f: Store, g: Store)
    ensures Joined([a, b, c, d, e, f, g]) == a.bytes + b.bytes + c.bytes + d.bytes + e.bytes + f.bytes + g.bytes
    ensures Adjacent([a, b, c, d, e, f, g]) <==>
            && a.at == 0 && b.at == |a.bytes| && c.at == b.at + |b.bytes| && d.at == c.at + |c.bytes|
            && e.at == d.at + |d.bytes| && f.at == e.at + |e.bytes| && g.at == f.at + |f.bytes|
  {
    JoinedSnoc([], a);
    JoinedSnoc([a], b);
    JoinedSnoc([a, b], c);
    JoinedSnoc([a, b, c], d);
    JoinedSnoc([a, b, c, d], e);
    JoinedSnoc([a, b, c, d, e], f);
    JoinedSnoc([a, b, c, d, e, f], g);
    hide Joined, Adjacent;
    assert [] + [a] == [a] && [a] + [b] == [a, b] && [a, b] + [c] == [a, b, c] && [a, b, c] + [d] == [a, b, c, d];
    assert [a, b, c, d] + [e] == [a, b, c, d, e] && [a, b, c, d, e] + [f] == [a, b, c, d, e, f];
    assert [a, b, c, d, e, f] + [g] == [a, b, c, d, e, f, g];
  }

  /** Magic number, version, the two times, the offset of an empty segment, no entries, the active flag, and zeroes. */
  lemma InitBytes(now: nat)
    ensures After(Zeros(SEGMENT_HEADER_SIZE), InitFields(now)) ==
            LittleEndian32(0x5557414C) + LittleEndian32(1) + LittleEndian64(now) + LittleEndian64(now) +
            LittleEndian64(64) + LittleEndian64(0) + LittleEndian32(8) + Zeros(20)
  {
    hide After, Joined, Adjacent, LittleEndian32, LittleEndian64;
    var f := InitFields(now);
    JoinedSeven(f[0], f[1], f[2], f[3], f[4], f[5], f[6]);
    assert f == [f[0], f[1], f[2], f[3], f[4], f[5], f[6]];
    AfterAdjacent(Zeros(SEGMENT_HEADER_SIZE), f);
    assert Zeros(SEGMENT_HEADER_SIZE)[44..] == Zeros(20);
  }

  /** The first header of a file opens: active, no entries. */
  lemma InitFinished(crc: Crc, now: nat)
    ensures var r := Finished(crc, Zeros(SEGMENT_HEADER_SIZE), InitFields(now));
            HeaderOk(crc, r) && !SealedFlag(FlagsOf(r)) && CountOf(r) == 0
  {
    hide LittleEndian32, FromLittleEndian32, LittleEndian64, FromLittleEndian64, Finished, Stored, HeaderSum;
    var f, h := InitFields(now), Zeros(SEGMENT_HEADER_SIZE);
    FinishedOk(crc, h, f);
    var r := Finished(crc, h, f);
    var h5 := After(h, f[..5]);
    assert Front(f) == f[..6] && Front(f[..6]) == f[..5] && Last(f[..6]) == f[5];
    var h6 := Stored(h5, f[5]);
    assert After(h, f) == Stored(h6, f[6]);
    SliceStored(h5, f[5]);
    SliceKept(h6, f[6], 32, 40);
    SliceStored(h6, f[6]);
    SameSlice(r, After(h, f), SUM_AT, 32, 40);
    SameSlice(r, After(h, f), SUM_AT, 40, 44);
    LongRoundTrip(0);
    LittleRoundTrip(FLAG_ACTIVE);
  }

  lemma OffsetHalf(crc: Crc, h: Bytes, a: Store, b: Store, c: Store)
    requires |h| == SEGMENT_HEADER_SIZE
    requires a.at == 24 && |a.bytes| == 4 && b.at == 32 && |b.bytes| == 8 && c.at == 16 && |c.bytes| == 8
    ensures Finished(crc, h, [a, b, c])[32..40] == b.bytes && Finished(crc, h, [a, b, c])[40..44] == h[40..44]
  {
    hide Finished;
    FieldAfter(crc, h, a, b, c, 32, 40);
    FieldAfter(crc, h, a, b, c, 40, 44);
  }

  // ---- When a crash point has other fields ----

  ghost predicate Apart(fields: seq<Store>) {
    && (forall i :: 0 <= i < |fields| ==> FieldStore(fields[i]))
    && (forall i, j :: 0 <= i < j < |fields| ==>
          fields[i].at + |fields[i].bytes| <= fields[j].at || fields[j].at + |fields[j].bytes| <= fields[i].at)
  }

  /** The header already holds what is to be stored. */
  predicate Keeps(h: Bytes, s: Store) {
    s.at + |s.bytes| <= |h| && h[s.at..s.at + |s.bytes|] == s.bytes
  }

  lemma {:induction false} AfterKeeps(h: Bytes, fields: seq<Store>, i: nat)
    requires |h| == SEGMENT_HEADER_SIZE && Apart(fields) && i < |fields|
    ensures Keeps(After(h, fields), fields[i])
  {
    hide Stored;
    var before, s := After(h, Front(fields)), Last(fields);
    if i == |fields| - 1 {
      SliceStored(before, s);
    } else {
      AfterKeeps(h, Front(fields), i);
      SliceKept(before, s, fields[i].at, fields[i].at + |fields[i].bytes|);
    }
  }

  /** Stores of different fields change the header if and only if one of them stores something new. */
  lemma {:induction false} FieldsChange(h: Bytes, fields: seq<Store>)
    requires |h| == SEGMENT_HEADER_SIZE && Apart(fields)
    ensures After(h, fields)[..SUM_AT] == h[..SUM_AT] <==> forall i :: 0 <= i < |fields| ==> Keeps(h, fields[i])
    ensures After(h, fields)[SUM_AT..] == h[SUM_AT..]
  {
    hide Stored, Keeps;
    if fields != [] {
      var before, s := After(h, Front(fields)), Last(fields);
      FieldsChange(h, Front(fields));
      SliceKept(before, s, SUM_AT, SEGMENT_HEADER_SIZE);
      if forall i :: 0 <= i < |fields| ==> Keeps(h, fields[i]) {
        forall i | 0 <= i < |Front(fields)| ensures Keeps(h, Front(fields)[i]) {
          assert Keeps(h, fields[i]);
        }
        SameHeader(before, h);
        StoreAgain(h, s);
      }
      var r := After(h, fields);
      if r[..SUM_AT] == h[..SUM_AT] {
        SameHeader(r, h);
        forall i | 0 <= i < |fields| ensures Keeps(h, fields[i]) {
          AfterKeeps(h, fields, i);
          assert Keeps(r, fields[i]);
        }
      }
    }
  }

  lemma SameHeader(a: Bytes, b: Bytes)
    requires |a| == |b| == SEGMENT_HEADER_SIZE && a[..SUM_AT] == b[..SUM_AT] && a[SUM_AT..] == b[SUM_AT..]
    ensures a == b
  {
    assert a == a[..SUM_AT] + a[SUM_AT..] && b == b[..SUM_AT] + b[SUM_AT..];
  }

  lemma StoreAgain(h: Bytes, s: Store)
    requires |h| == SEGMENT_HEADER_SIZE && Keeps(h, s)
    ensures Stored(h, s) == h
  {
    assert h == h[..s.at] + h[s.at..s.at + |s.bytes|] + h[s.at + |s.bytes|..];
  }

  /**
   A write that has made k of its field stores, with the checksum store still to come: the fields differ from those the
   checksum was taken of from the store of the entry count on, and before it if and only if the low half of the offset
   is new. A crash at such a point leaves a segment that does not open, unless two different headers have the same
   checksum.
   */
  lemma WriteChangesFields(h: Bytes, offset: nat, written: nat, now: nat, k: nat)
    requires |h| == SEGMENT_HEADER_SIZE && 0 < written && CountOf(h) + written < WORD * WORD && k <= 3
    ensures After(h, WriteFields(h, offset, written, now)[..k])[..SUM_AT] != h[..SUM_AT] <==>
            k >= 2 || (k == 1 && h[24..28] != LittleEndian32(offset))
  {
    hide LittleEndian32, FromLittleEndian32, LittleEndian64, FromLittleEndian64, After, WriteFields;
    var f := WriteFields(h, offset, written, now);
    WriteStores(h, offset, written, now);
    FieldsChange(h, f[..k]);
    LongRoundTrip(CountOf(h) + written);
    assert !Keeps(h, f[1]);
    if k >= 2 {
      assert f[..k][1] == f[1];
    } else if k == 1 {
      assert f[..k][0] == f[0] && (Keeps(h, f[0]) <==> h[24..28] == LittleEndian32(offset));
    }
  }

  lemma WriteStores(h: Bytes, offset: nat, written: nat, now: nat)
    requires |h| == SEGMENT_HEADER_SIZE
    ensures var f := WriteFields(h, offset, written, now);
            && f[0] == Store(24, LittleEndian32(offset)) && f[1] == Store(32, LittleEndian64(CountOf(h) + written))
            && forall k :: 0 <= k <= 3 ==> Apart(f[..k])
  {
    hide LittleEndian32, FromLittleEndian32, LittleEndian64, FromLittleEndian64;
  }

  /** The same for sealing an active segment: the time and the offset count if they are new, and the flags always do. */
  lemma SealChangesFields(h: Bytes, offset: nat, now: nat, k: nat)
    requires |h| == SEGMENT_HEADER_SIZE && !SealedFlag(FlagsOf(h)) && k <= 3
    ensures After(h, SealFields(h, offset, now)[..k])[..SUM_AT] != h[..SUM_AT] <==>
            (k >= 1 && h[16..24] != LittleEndian64(now)) || (k >= 2 && h[24..32] != LittleEndian64(offset)) || k == 3
  {
    hide LittleEndian32, FromLittleEndian32, LittleEndian64, FromLittleEndian64, After, SealFields, SealedFlags;
    var f := SealFields(h, offset, now);
    SealStores(h, offset, now);
    FieldsChange(h, f[..k]);
    FlagsSmall(h);
    LittleRoundTrip(SealedFlags(FlagsOf(h)));
    assert !Keeps(h, f[2]);
    assert Keeps(h, f[0]) <==> h[16..24] == LittleEndian64(now);
    assert Keeps(h, f[1]) <==> h[24..32] == LittleEndian64(offset);
    forall i | 0 <= i < k ensures f[..k][i] == f[i] {
    }
  }

  lemma SealStores(h: Bytes, offset: nat, now: nat)
    requires |h| == SEGMENT_HEADER_SIZE
    ensures var f := SealFields(h, offset, now);
            && f[0] == Store(16, LittleEndian64(now)) && f[1] == Store(24, LittleEndian64(offset))
            && f[2] == Store(40, LittleEndian32(SealedFlags(FlagsOf(h))))
            && forall k :: 0 <= k <= 3 ==> Apart(f[..k])
  {
    hide LittleEndian32, FromLittleEndian32, LittleEndian64, FromLittleEndian64, SealedFlags;
  }

  /** A file that was created but got no header, or part of one, opens if and only if its bytes have checksum zero. */
  lemma CreationCrash(crc: Crc, now: nat, k: nat)
    requires k <= 7
    ensures var h := After(Zeros(SEGMENT_HEADER_SIZE), InitFields(now)[..k]);
            HeaderOk(crc, h) <==> crc(h[..56]) % 0x1_0000_0000 == 0
  {
    hide LittleEndian32, After;
    var zero := Zeros(SEGMENT_HEADER_SIZE);
    SumKept(zero, InitFields(now)[..k]);
    assert zero[SUM_AT..60] == [0, 0, 0, 0];
  }
}
