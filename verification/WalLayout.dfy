/**
 Where the log puts its records (pkg/walfs/walog.go): record i of the log and its position, a segment number with an
 offset, determine each other, and positions follow from the record lengths alone.
 */
module WalLayout {
  import opened Basics
  import opened Framing
  import opened Segments

  /** The payloads of each segment, segment 1 first. */
  type Shape = seq<seq<Bytes>>

  /** One record: behind the last segment's records if it fits there, else alone in a new segment. */
  function Place(size: nat, shape: Shape, p: Bytes): (r: Shape)
    requires shape != []
    ensures r != []
  {
    if Offset(Last(shape) + [p]) > size then shape + [[p]] else Front(shape) + [Last(shape) + [p]]
  }

  function PlaceAll(size: nat, shape: Shape, ps: seq<Bytes>): (r: Shape)
    requires shape != []
    ensures r != []
  {
    if ps == [] then shape else Place(size, PlaceAll(size, shape, Front(ps)), Last(ps))
  }

  function Count(shape: Shape): nat {
    |Flatten(shape)|
  }

  /** The position of record i. */
  function PositionOf(shape: Shape, i: nat): Position
    requires i < Count(shape)
  {
    if i < Count(Front(shape)) then PositionOf(Front(shape), i)
    else Position(|shape|, Offset(Last(shape)[..i - Count(Front(shape))]))
  }

  /** Log order of positions: by segment, then by offset. */
  predicate Before(p: Position, q: Position) {
    p.segment < q.segment || (p.segment == q.segment && p.offset < q.offset)
  }

  lemma {:induction false} PositionInside(shape: Shape, i: nat)
    requires i < Count(shape)
    ensures 1 <= PositionOf(shape, i).segment <= |shape|
    ensures SEGMENT_HEADER_SIZE <= PositionOf(shape, i).offset && PositionOf(shape, i).offset % 8 == 0
  {
    if i < Count(Front(shape)) {
      PositionInside(Front(shape), i);
    } else {
      Aligned(SEGMENT_HEADER_SIZE, Last(shape)[..i - Count(Front(shape))]);
    }
  }

  /** Later records have later positions, so a position names one record. */
  lemma {:induction false} PositionsIncrease(shape: Shape, i: nat, j: nat)
    requires i < j < Count(shape)
    ensures Before(PositionOf(shape, i), PositionOf(shape, j))
  {
    var n := Count(Front(shape));
    if j < n {
      PositionsIncrease(Front(shape), i, j);
    } else if i < n {
      PositionInside(Front(shape), i);
    } else {
      FramesDisjoint(SEGMENT_HEADER_SIZE, Last(shape), i - n, j - n);
    }
  }

  /** The record at a position: number k of that segment. */
  lemma {:induction false} PositionHolds(shape: Shape, i: nat) returns (k: nat)
    requires i < Count(shape)
    ensures 1 <= PositionOf(shape, i).segment <= |shape|
    ensures var pos := PositionOf(shape, i);
            && k < |shape[pos.segment - 1]|
            && pos.offset == Offset(shape[pos.segment - 1][..k])
            && Flatten(shape)[i] == shape[pos.segment - 1][k]
  {
    var n := Count(Front(shape));
    if i < n {
      k := PositionHolds(Front(shape), i);
      PositionInside(Front(shape), i);
      var s := PositionOf(shape, i).segment;
      assert Front(shape)[s - 1] == shape[s - 1];
    } else {
      k := i - n;
      assert Last(shape)[k] == Flatten(shape)[i];
    }
  }

  // ---- Placing records ----

  /** A placed record comes last, at the end of the last segment, and no other record moves. */
  lemma PlaceKeeps(size: nat, shape: Shape, p: Bytes)
    requires shape != []
    ensures Flatten(Place(size, shape, p)) == Flatten(shape) + [p]
    ensures var placed := Place(size, shape, p);
            PositionOf(placed, Count(shape)) == Position(|placed|, Offset(Front(Last(placed))))
  {
    var placed := Place(size, shape, p);
    if Offset(Last(shape) + [p]) > size {
      assert Front(placed) == shape && Last(placed) == [p];
      assert Last(placed)[..0] == Front(Last(placed));
    } else {
      assert Front(placed) == Front(shape) && Last(placed) == Last(shape) + [p];
      Associative(Flatten(Front(shape)), Last(shape), [p]);
      assert Last(placed)[..|Last(shape)|] == Front(Last(placed));
    }
  }

  lemma PlaceKeepsPosition(size: nat, shape: Shape, p: Bytes, i: nat)
    requires shape != [] && i < Count(shape)
    ensures i < Count(Place(size, shape, p)) && PositionOf(Place(size, shape, p), i) == PositionOf(shape, i)
  {
    PlaceKeeps(size, shape, p);
    var placed := Place(size, shape, p);
    var n := Count(Front(shape));
    if Offset(Last(shape) + [p]) > size {
      assert Front(placed) == shape;
    } else {
      assert Front(placed) == Front(shape) && Last(placed) == Last(shape) + [p];
      if n <= i {
        assert Last(placed)[..i - n] == Last(shape)[..i - n];
      }
    }
  }

  lemma {:induction false} PlaceAllKeeps(size: nat, shape: Shape, ps: seq<Bytes>)
    requires shape != []
    ensures Flatten(PlaceAll(size, shape, ps)) == Flatten(shape) + ps
  {
    hide Place;
    if ps == [] {
      assert Flatten(shape) + ps == Flatten(shape);
    } else {
      PlaceAllKeeps(size, shape, Front(ps));
      PlaceKeeps(size, PlaceAll(size, shape, Front(ps)), Last(ps));
      Associative(Flatten(shape), Front(ps), [Last(ps)]);
      assert Front(ps) + [Last(ps)] == ps;
    }
  }

  lemma {:induction false} PlaceAllKeepsPosition(size: nat, shape: Shape, ps: seq<Bytes>, i: nat)
    requires shape != [] && i < Count(shape)
    ensures i < Count(PlaceAll(size, shape, ps)) && PositionOf(PlaceAll(size, shape, ps), i) == PositionOf(shape, i)
  {
    hide Place, PositionOf, Count;
    if ps != [] {
      PlaceAllKeepsPosition(size, shape, Front(ps), i);
      PlaceKeepsPosition(size, PlaceAll(size, shape, Front(ps)), Last(ps), i);
    }
  }

  lemma {:induction false} PlaceAllConcat(size: nat, shape: Shape, a: seq<Bytes>, b: seq<Bytes>)
    requires shape != []
    ensures PlaceAll(size, shape, a + b) == PlaceAll(size, PlaceAll(size, shape, a), b)
  {
    if b == [] {
      assert a + b == a;
    } else {
      PlaceAllConcat(size, shape, a, Front(b));
      assert Front(a + b) == a + Front(b) && Last(a + b) == Last(b);
    }
  }

  /** A stretch of records that fits goes behind the last segment's records. */
  lemma {:induction false} PlaceFitting(size: nat, shape: Shape, ps: seq<Bytes>)
    requires shape != [] && Offset(Last(shape) + ps) <= size
    ensures PlaceAll(size, shape, ps) == Front(shape) + [Last(shape) + ps]
  {
    if ps == [] {
      assert Last(shape) + ps == Last(shape);
    } else {
      var s := Last(shape) + ps;
      assert Front(s) == Last(shape) + Front(ps) && Last(s) == Last(ps);
      PlaceFitting(size, shape, Front(ps));
      var t := PlaceAll(size, shape, Front(ps));
      assert Front(t) == Front(shape) && Last(t) == Last(shape) + Front(ps);
      Associative(Last(shape), Front(ps), [Last(ps)]);
      assert Last(t) + [Last(ps)] == s;
    }
  }

  /** Rotating early makes no difference when the next record would rotate anyway. */
  lemma RotateFirst(size: nat, shape: Shape, ps: seq<Bytes>)
    requires shape != [] && ps != [] && Offset(Last(shape) + [ps[0]]) > size && Offset([ps[0]]) <= size
    ensures PlaceAll(size, shape + [[]], ps) == PlaceAll(size, shape, ps)
  {
    assert ps == [ps[0]] + ps[1..];
    PlaceAllConcat(size, shape, [ps[0]], ps[1..]);
    PlaceAllConcat(size, shape + [[]], [ps[0]], ps[1..]);
    PlaceOne(size, shape, ps[0]);
    PlaceOne(size, shape + [[]], ps[0]);
    assert Last(shape + [[]]) + [ps[0]] == [ps[0]];
    assert Front(shape + [[]]) == shape;
  }

  /** Records put behind those of the last segment. */
  function Stretched(shape: Shape, ps: seq<Bytes>): (r: Shape)
    requires shape != []
    ensures r != []
  {
    Front(shape) + [Last(shape) + ps]
  }

  lemma StretchedContents(shape: Shape, ps: seq<Bytes>)
    requires shape != []
    ensures Flatten(Stretched(shape, ps)) == Flatten(shape) + ps
    ensures Front(Stretched(shape, ps)) == Front(shape) && Last(Stretched(shape, ps)) == Last(shape) + ps
  {
    Associative(Flatten(Front(shape)), Last(shape), ps);
  }

  lemma StretchPosition(shape: Shape, ps: seq<Bytes>, i: nat)
    requires shape != [] && i < |ps|
    ensures Count(shape) + i < Count(Stretched(shape, ps))
    ensures PositionOf(Stretched(shape, ps), Count(shape) + i) == Position(|shape|, Offset(Last(shape) + ps[..i]))
  {
    hide Offset, Stretched;
    StretchedContents(shape, ps);
    FlattenLast(shape);
    StretchedLength(shape, ps);
    PrefixOfConcat(Last(shape), ps, i);
  }

  lemma StretchedLength(shape: Shape, ps: seq<Bytes>)
    requires shape != []
    ensures |Stretched(shape, ps)| == |shape|
  {
  }

  lemma FlattenLast(shape: Shape)
    requires shape != []
    ensures Count(shape) == Count(Front(shape)) + |Last(shape)|
  {
  }

  lemma PrefixOfConcat<T>(s: seq<T>, t: seq<T>, i: nat)
    requires i <= |t|
    ensures (s + t)[..|s| + i] == s + t[..i]
  {
  }

  lemma PlaceNone(size: nat, shape: Shape, ps: seq<Bytes>)
    requires shape != []
    ensures PlaceAll(size, shape, ps[|ps|..]) == PlaceAll(size, shape, []) == shape
  {
    assert ps[|ps|..] == [];
  }

  /** Writing the records that fit and leaving the rest for later ends in the same layout. */
  lemma BatchProgress(size: nat, shape: Shape, ps: seq<Bytes>, k: nat)
    requires shape != [] && Fits(size, Last(shape), ps, k)
    ensures PlaceAll(size, Stretched(shape, ps[..k]), ps[k..]) == PlaceAll(size, shape, ps)
    ensures k < |ps| ==> Offset(Last(Stretched(shape, ps[..k])) + [ps[k]]) > size
  {
    hide Place;
    PlaceFitting(size, shape, ps[..k]);
    PlaceAllConcat(size, shape, ps[..k], ps[k..]);
    assert ps == ps[..k] + ps[k..];
    if k < |ps| {
      BatchStep(Last(shape), ps, k);
    }
  }

  // ---- Batches ----

  lemma OffsetSnoc(ps: seq<Bytes>, p: Bytes)
    ensures Offset(ps + [p]) == Offset(ps) + EntrySize(|p|)
    ensures Offset([]) == SEGMENT_HEADER_SIZE && Front(ps + [p]) == ps
  {
    assert Front(ps + [p]) == ps && Last(ps + [p]) == p;
  }

  /** No record of the batch is too large for a segment. */
  predicate AllFit(size: nat, records: seq<Bytes>) {
    forall p | p in records :: !Oversize(size, p)
  }

  /** A batch under way: the records placed so far, where they went, and the layout it will end in. */
  ghost predicate Underway(size: nat, start: Shape, records: seq<Bytes>, shape: Shape, positions: seq<Position>)
    requires start != []
  {
    var end := PlaceAll(size, start, records);
    && shape != []
    && |positions| <= |records|
    && PlaceAll(size, shape, records[|positions|..]) == end
    && Count(shape) == Count(start) + |positions|
    && Count(end) == Count(start) + |records|
    && forall i | 0 <= i < |positions| :: positions[i] == PositionOf(end, Count(start) + i)
  }

  lemma BatchBegins(size: nat, start: Shape, records: seq<Bytes>)
    requires start != []
    ensures Underway(size, start, records, start, [])
  {
    PlaceAllKeeps(size, start, records);
    assert records[0..] == records;
  }

  lemma BatchEnds(size: nat, start: Shape, records: seq<Bytes>, shape: Shape, positions: seq<Position>)
    requires start != [] && Underway(size, start, records, shape, positions) && |positions| == |records|
    ensures shape == PlaceAll(size, start, records)
  {
    assert records[|positions|..] == [];
  }

  /** One round: what fits is placed, and the last segment was not empty if nothing fitted. */
  lemma BatchRound(size: nat, start: Shape, records: seq<Bytes>, shape: Shape, positions: seq<Position>, more: seq<Position>)
    requires start != [] && Underway(size, start, records, shape, positions) && |positions| < |records|
    requires AllFit(size, records)
    requires Fits(size, Last(shape), records[|positions|..], |more|)
    requires forall i | 0 <= i < |more| ::
               more[i] == Position(|shape|, Offset(Last(shape) + records[|positions|..][..i]))
    ensures Underway(size, start, records, Stretched(shape, records[|positions|..][..|more|]), positions + more)
    ensures more == [] ==> Last(shape) != []
  {
    hide PlaceAll, PositionOf, Stretched, Offset;
    var rest := records[|positions|..];
    var after := Stretched(shape, rest[..|more|]);
    BatchProgress(size, shape, rest, |more|);
    StretchedContents(shape, rest[..|more|]);
    assert records[|positions + more|..] == rest[|more|..];
    var end := PlaceAll(size, start, records);
    forall i | 0 <= i < |more|
      ensures Count(shape) + i < Count(end) && more[i] == PositionOf(end, Count(shape) + i)
    {
      StretchPosition(shape, rest[..|more|], i);
      assert rest[..|more|][..i] == rest[..i];
      PlaceAllKeepsPosition(size, after, rest[|more|..], Count(shape) + i);
    }
    FitsAlone(size, records, |positions|);
    EmptyTakesOne(size, Last(shape), rest, |more|);
  }

  lemma FitsAlone(size: nat, records: seq<Bytes>, done: nat)
    requires AllFit(size, records) && done < |records|
    ensures Offset([records[done..][0]]) <= size
  {
    var p := records[done];
    assert p in records && records[done..][0] == p;
    OffsetSnoc([], p);
    assert [] + [p] == [p];
  }

  lemma EmptyTakesOne(size: nat, ps: seq<Bytes>, rest: seq<Bytes>, k: nat)
    requires rest != [] && Offset([rest[0]]) <= size && Fits(size, ps, rest, k)
    ensures k == 0 ==> ps != []
  {
    assert [] + rest[..1] == [rest[0]];
  }

  /** Rotating between two rounds. */
  lemma BatchRotates(size: nat, start: Shape, records: seq<Bytes>, shape: Shape, positions: seq<Position>)
    requires start != [] && Underway(size, start, records, shape, positions) && |positions| < |records|
    requires AllFit(size, records) && Offset(Last(shape) + [records[|positions|]]) > size
    ensures Underway(size, start, records, shape + [[]], positions)
  {
    hide PlaceAll, PositionOf, Offset;
    FitsAlone(size, records, |positions|);
    RotateFirst(size, shape, records[|positions|..]);
    assert Front(shape + [[]]) == shape && Last(shape + [[]]) == [];
  }

  lemma PlaceOne(size: nat, shape: Shape, p: Bytes)
    requires shape != []
    ensures PlaceAll(size, shape, [p]) == Place(size, shape, p)
  {
    assert Front([p]) == [] && Last([p]) == p;
  }

  // ---- The layout of a whole log ----

  function Layout(size: nat, ps: seq<Bytes>): Shape {
    PlaceAll(size, [[]], ps)
  }

  lemma LayoutContents(size: nat, ps: seq<Bytes>)
    ensures Flatten(Layout(size, ps)) == ps
  {
    PlaceAllKeeps(size, [[]], ps);
    FlattenSingle<Byte>([]);
    assert Flatten<Bytes>([[]]) == [];
  }

  /** A record's position does not depend on what is appended after it. */
  lemma LayoutStable(size: nat, ps: seq<Bytes>, more: seq<Bytes>, i: nat)
    requires i < |ps|
    ensures Count(Layout(size, ps)) == |ps| && Count(Layout(size, ps + more)) == |ps + more|
    ensures PositionOf(Layout(size, ps + more), i) == PositionOf(Layout(size, ps), i)
  {
    LayoutContents(size, ps);
    LayoutContents(size, ps + more);
    PlaceAllConcat(size, [[]], ps, more);
    PlaceAllKeepsPosition(size, Layout(size, ps), more, i);
  }

  /** Records of the same lengths get the same positions, whatever they hold. */
  lemma {:induction false} LengthsDecide(size: nat, ps: seq<Bytes>, qs: seq<Bytes>)
    requires |ps| == |qs| && forall i :: 0 <= i < |ps| ==> |ps[i]| == |qs[i]|
    ensures SameShape(Layout(size, ps), Layout(size, qs))
  {
    if ps != [] {
      LengthsDecide(size, Front(ps), Front(qs));
      PlaceSame(size, Layout(size, Front(ps)), Layout(size, Front(qs)), Last(ps), Last(qs));
    }
  }

  predicate SameLengths(ps: seq<Bytes>, qs: seq<Bytes>) {
    |ps| == |qs| && forall i :: 0 <= i < |ps| ==> |ps[i]| == |qs[i]|
  }

  predicate SameShape(a: Shape, b: Shape) {
    |a| == |b| && forall i :: 0 <= i < |a| ==> SameLengths(a[i], b[i])
  }

  lemma {:induction false} SameOffset(ps: seq<Bytes>, qs: seq<Bytes>)
    requires SameLengths(ps, qs)
    ensures Offset(ps) == Offset(qs)
  {
    if ps != [] {
      SameOffset(Front(ps), Front(qs));
    }
  }

  lemma PlaceSame(size: nat, a: Shape, b: Shape, p: Bytes, q: Bytes)
    requires a != [] && SameShape(a, b) && |p| == |q|
    ensures SameShape(Place(size, a, p), Place(size, b, q))
  {
    assert SameLengths(Last(a), Last(b));
    assert SameLengths(Last(a) + [p], Last(b) + [q]);
    SameOffset(Last(a) + [p], Last(b) + [q]);
  }

  lemma {:induction false} SamePositions(a: Shape, b: Shape, i: nat)
    requires SameShape(a, b) && i < Count(a)
    ensures Count(a) == Count(b) && PositionOf(a, i) == PositionOf(b, i)
  {
    SameCount(a, b);
    SameCount(Front(a), Front(b));
    assert SameLengths(Last(a), Last(b));
    if i < Count(Front(a)) {
      SamePositions(Front(a), Front(b), i);
    } else {
      SameOffset(Last(a)[..i - Count(Front(a))], Last(b)[..i - Count(Front(a))]);
    }
  }

  lemma {:induction false} SameCount(a: Shape, b: Shape)
    requires SameShape(a, b)
    ensures Count(a) == Count(b)
  {
    if a != [] {
      SameCount(Front(a), Front(b));
      assert SameLengths(Last(a), Last(b));
    }
  }
}
