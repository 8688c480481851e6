/**
 The bytes of the log's segments (pkg/walfs/walog.go): what single and batched appends leave in the record areas, down
 to the padding.
 */
module WalBytes {
  import opened Basics
  import opened Framing
  import opened Segments
  import opened WalLayout

  /** The record areas after one record is placed: a frame behind the last segment's, or alone in a zeroed new file. */
  function PlaceBytes(size: nat, crc: Crc, shape: Shape, bytes: seq<Bytes>, p: Bytes): (r: seq<Bytes>)
    requires shape != [] && |bytes| == |shape|
    ensures |r| == |Place(size, shape, p)|
  {
    if Offset(Last(shape) + [p]) > size then bytes + [Framed(crc, Zeros(size), [], [p])]
    else Front(bytes) + [Framed(crc, Last(bytes), Last(shape), [p])]
  }

  function PlaceAllBytes(size: nat, crc: Crc, shape: Shape, bytes: seq<Bytes>, ps: seq<Bytes>): (r: seq<Bytes>)
    requires shape != [] && |bytes| == |shape|
    ensures |r| == |PlaceAll(size, shape, ps)|
  {
    if ps == [] then bytes
    else PlaceBytes(size, crc, PlaceAll(size, shape, Front(ps)), PlaceAllBytes(size, crc, shape, bytes, Front(ps)), Last(ps))
  }

  lemma {:induction false} PlaceAllBytesConcat(size: nat, crc: Crc, shape: Shape, bytes: seq<Bytes>, a: seq<Bytes>, b: seq<Bytes>)
    requires shape != [] && |bytes| == |shape|
    ensures PlaceAllBytes(size, crc, shape, bytes, a + b) ==
            PlaceAllBytes(size, crc, PlaceAll(size, shape, a), PlaceAllBytes(size, crc, shape, bytes, a), b)
  {
    hide PlaceBytes;
    if b == [] {
      assert a + b == a;
    } else {
      PlaceAllBytesConcat(size, crc, shape, bytes, a, Front(b));
      PlaceAllConcat(size, shape, a, Front(b));
      assert Front(a + b) == a + Front(b) && Last(a + b) == Last(b);
    }
  }

  /** A stretch of records written into the last segment at once. */
  function StretchedBytes(crc: Crc, shape: Shape, bytes: seq<Bytes>, ps: seq<Bytes>): (r: seq<Bytes>)
    requires shape != [] && |bytes| == |shape|
    ensures |r| == |shape|
  {
    Front(bytes) + [Framed(crc, Last(bytes), Last(shape), ps)]
  }

  lemma {:induction false} PlaceFittingBytes(size: nat, crc: Crc, shape: Shape, bytes: seq<Bytes>, ps: seq<Bytes>)
    requires shape != [] && |bytes| == |shape| && Offset(Last(shape) + ps) <= size
    ensures PlaceAllBytes(size, crc, shape, bytes, ps) == StretchedBytes(crc, shape, bytes, ps)
  {
    hide Framed, Offset;
    if ps == [] {
      FramedNone(crc, Last(bytes), Last(shape), ps);
      assert ps[..0] == ps;
    } else {
      FrontFits(size, Last(shape), ps);
      PlaceFittingBytes(size, crc, shape, bytes, Front(ps));
      PlaceFitting(size, shape, Front(ps));
      assert Front(ps) + [Last(ps)] == ps;
      OneMoreFits(size, crc, shape, bytes, Front(ps), Last(ps));
    }
  }

  lemma FrontFits(size: nat, held: seq<Bytes>, ps: seq<Bytes>)
    requires ps != [] && Offset(held + ps) <= size
    ensures Offset(held + Front(ps)) <= size
  {
    hide Offset;
    var s := held + ps;
    OffsetGrows([], s, |s| - 1, |s|);
    assert [] + s[..|s| - 1] == held + Front(ps) && [] + s[..|s|] == s;
  }

  lemma OneMoreFits(size: nat, crc: Crc, shape: Shape, bytes: seq<Bytes>, ps: seq<Bytes>, p: Bytes)
    requires shape != [] && |bytes| == |shape| && Offset(Last(shape) + (ps + [p])) <= size
    ensures PlaceBytes(size, crc, Front(shape) + [Last(shape) + ps], StretchedBytes(crc, shape, bytes, ps), p) ==
            StretchedBytes(crc, shape, bytes, ps + [p])
  {
    hide Framed, Offset;
    var held, area := Front(shape) + [Last(shape) + ps], StretchedBytes(crc, shape, bytes, ps);
    Associative(Last(shape), ps, [p]);
    assert Last(held) + [p] == Last(shape) + (ps + [p]);
    FramedConcat(crc, Last(bytes), Last(shape), ps, [p]);
    assert Front(area) == Front(bytes);
  }

  /** Writing what fits and leaving the rest for later ends in the same bytes. */
  lemma BatchProgressBytes(size: nat, crc: Crc, shape: Shape, bytes: seq<Bytes>, ps: seq<Bytes>, k: nat)
    requires shape != [] && |bytes| == |shape| && Fits(size, Last(shape), ps, k)
    ensures PlaceAllBytes(size, crc, Stretched(shape, ps[..k]), StretchedBytes(crc, shape, bytes, ps[..k]), ps[k..]) ==
            PlaceAllBytes(size, crc, shape, bytes, ps)
  {
    hide PlaceBytes, Place, Framed, Offset;
    PlaceFitting(size, shape, ps[..k]);
    PlaceFittingBytes(size, crc, shape, bytes, ps[..k]);
    PlaceAllBytesConcat(size, crc, shape, bytes, ps[..k], ps[k..]);
    assert ps == ps[..k] + ps[k..];
  }

  /** Rotating early makes no difference when the next record would rotate anyway. */
  lemma RotateFirstBytes(size: nat, crc: Crc, shape: Shape, bytes: seq<Bytes>, ps: seq<Bytes>)
    requires shape != [] && |bytes| == |shape| && ps != []
    requires Offset(Last(shape) + [ps[0]]) > size && Offset([ps[0]]) <= size
    ensures PlaceAllBytes(size, crc, shape + [[]], bytes + [Zeros(size)], ps) == PlaceAllBytes(size, crc, shape, bytes, ps)
  {
    hide Framed, Offset;
    assert ps == [ps[0]] + ps[1..];
    PlaceAllBytesConcat(size, crc, shape, bytes, [ps[0]], ps[1..]);
    PlaceAllBytesConcat(size, crc, shape + [[]], bytes + [Zeros(size)], [ps[0]], ps[1..]);
    PlaceOne(size, shape, ps[0]);
    PlaceOne(size, shape + [[]], ps[0]);
    assert Front([ps[0]]) == [] && Last([ps[0]]) == ps[0];
    assert Last(shape + [[]]) + [ps[0]] == [ps[0]] && Last(shape + [[]]) == [];
    assert Front(shape + [[]]) == shape && Front(bytes + [Zeros(size)]) == bytes;
  }

  // ---- Segments written from new ----

  /** The bytes of a segment that was created empty and only written to. */
  ghost predicate Pristine(size: nat, crc: Crc, shape: Shape, bytes: seq<Bytes>) {
    |bytes| == |shape| && forall i :: 0 <= i < |shape| ==> bytes[i] == Framed(crc, Zeros(size), [], shape[i])
  }

  lemma PristineKept(size: nat, crc: Crc, shape: Shape, bytes: seq<Bytes>, p: Bytes)
    requires shape != [] && Pristine(size, crc, shape, bytes)
    ensures Pristine(size, crc, Place(size, shape, p), PlaceBytes(size, crc, shape, bytes, p))
  {
    hide Framed, Offset;
    FramedConcat(crc, Zeros(size), [], Last(shape), [p]);
    assert [] + Last(shape) == Last(shape);
    assert Last(bytes) == Framed(crc, Zeros(size), [], Last(shape));
  }

  lemma {:induction false} PristineAllKept(size: nat, crc: Crc, shape: Shape, bytes: seq<Bytes>, ps: seq<Bytes>)
    requires shape != [] && Pristine(size, crc, shape, bytes)
    ensures Pristine(size, crc, PlaceAll(size, shape, ps), PlaceAllBytes(size, crc, shape, bytes, ps))
  {
    hide Pristine, PlaceBytes, Place;
    PristineLength(size, crc, shape, bytes);
    if ps != [] {
      PristineAllKept(size, crc, shape, bytes, Front(ps));
      PristineKept(size, crc, PlaceAll(size, shape, Front(ps)), PlaceAllBytes(size, crc, shape, bytes, Front(ps)), Last(ps));
    }
  }

  lemma PristineLength(size: nat, crc: Crc, shape: Shape, bytes: seq<Bytes>)
    requires Pristine(size, crc, shape, bytes)
    ensures |bytes| == |shape|
  {
  }

  /** Behind its frames such a segment is zero. */
  lemma {:induction false} FramedTail(crc: Crc, m: Bytes, ps: seq<Bytes>, records: seq<Bytes>, i: nat)
    requires Offset(ps + records) <= i < |m|
    ensures Framed(crc, m, ps, records)[i] == m[i]
  {
    hide Frame, Offset;
    if records != [] {
      var n := |records|;
      BatchStep(ps, records, n - 1);
      assert records[..n] == records && records[..n - 1] == Front(records);
      FramedTail(crc, m, ps, Front(records), i);
    }
  }

  lemma ZeroTail(size: nat, crc: Crc, ps: seq<Bytes>, i: nat)
    requires Offset(ps) <= i < size
    ensures Framed(crc, Zeros(size), [], ps)[i] == 0
  {
    assert [] + ps == ps;
    FramedTail(crc, Zeros(size), [], ps, i);
  }
}
