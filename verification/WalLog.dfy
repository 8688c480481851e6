/**
 The segmented log (pkg/walfs/walog.go): single and batched appends with rotation, and reads by position.
 */
module Wal {
  import opened Basics
  import opened Framing
  import opened Words
  import opened Segments
  import opened SegmentHeaders
  import opened WalLayout
  import opened WalBytes

  datatype WalError = RecordTooLarge | SegmentNotFound | OffsetBeforeHeader | OffsetOutOfBounds | InSegment(cause: SegmentError)

  /** The objects of a segment are its own. */
  ghost predicate Owned(s: Segment, id: nat, repr: set<object>, owner: map<array<Byte>, nat>) {
    s in repr && s.mmap in repr && s.mmap in owner && owner[s.mmap] == id
  }

  /** A segment of the given number and size that holds these records, in these bytes. */
  ghost predicate Holds(s: Segment, id: nat, size: nat, crc: Crc, ps: seq<Bytes>, m: Bytes)
    reads s, s.mmap
  {
    s.id == id && s.crc == crc && s.mmap.Length == size && s.Valid() && s.payloads == ps && s.mmap[..] == m
  }

  lemma HoldsIf(s: Segment, id: nat, size: nat, crc: Crc, ps: seq<Bytes>, m: Bytes)
    requires s.id == id && s.crc == crc && s.mmap.Length == size && s.Valid() && s.payloads == ps && s.mmap[..] == m
    ensures Holds(s, id, size, crc, ps, m)
  {
  }

  lemma IfHolds(s: Segment, id: nat, size: nat, crc: Crc, ps: seq<Bytes>, m: Bytes)
    requires Holds(s, id, size, crc, ps, m)
    ensures s.id == id && s.crc == crc && s.mmap.Length == size && s.Valid() && s.payloads == ps && s.mmap[..] == m
    ensures s.writeOffset == Offset(ps)
  {
  }

  /** Segments 1, 2, ... with the records of a shape; those numbered below n are sealed. */
  ghost predicate Assembled(segments: map<nat, Segment>, n: nat, size: nat, crc: Crc, shape: Shape,
                            bytes: seq<Bytes>, repr: set<object>, owner: map<array<Byte>, nat>)
    reads repr
  {
    && |bytes| == |shape|
    && (forall i :: i in segments <==> 1 <= i <= |shape|)
    && forall i | i in segments ::
      && Owned(segments[i], i, repr, owner)
      && Holds(segments[i], i, size, crc, shape[i - 1], bytes[i - 1])
      && (i < n ==> segments[i].isSealed)
  }

  lemma AssembledSnoc(segments: map<nat, Segment>, n: nat, size: nat, crc: Crc, shape: Shape,
                      bytes: seq<Bytes>, repr: set<object>, owner: map<array<Byte>, nat>,
                      s: Segment, ps: seq<Bytes>, m: Bytes)
    requires Assembled(segments, n, size, crc, shape, bytes, repr, owner)
    requires Holds(s, |shape| + 1, size, crc, ps, m) && s.mmap !in owner && (|shape| + 1 < n ==> s.isSealed)
    ensures Assembled(segments[|shape| + 1 := s], n, size, crc, shape + [ps], bytes + [m],
                      repr + {s, s.mmap}, owner[s.mmap := |shape| + 1])
  {
    hide Holds;
  }

  lemma AssembledHas(segments: map<nat, Segment>, n: nat, size: nat, crc: Crc, shape: Shape,
                     bytes: seq<Bytes>, repr: set<object>, owner: map<array<Byte>, nat>)
    requires shape != [] && Assembled(segments, n, size, crc, shape, bytes, repr, owner)
    ensures |bytes| == |shape| && |shape| in segments
    ensures Holds(segments[|shape|], |shape|, size, crc, Last(shape), Last(bytes))
    ensures segments[|shape|] in repr && segments[|shape|].mmap in repr
  {
    hide Holds;
  }

  lemma AssembledEmpty(n: nat, size: nat, crc: Crc)
    ensures Assembled(map[], n, size, crc, [], [], {}, map[])
  {
  }

  lemma AssembledSealed(segments: map<nat, Segment>, size: nat, crc: Crc, shape: Shape,
                        bytes: seq<Bytes>, repr: set<object>, owner: map<array<Byte>, nat>)
    requires shape != [] && Assembled(segments, |shape|, size, crc, shape, bytes, repr, owner) && segments[|shape|].isSealed
    ensures Assembled(segments, |shape| + 1, size, crc, shape, bytes, repr, owner)
  {
    hide Holds, Owned;
  }

  class WALog {
    const maxSegmentSize: nat
    const crc: Crc
    var segments: map<nat, Segment>
    var current: Segment
    /** The records of each segment. */
    ghost var shape: Shape
    /** The bytes of each segment's record area. */
    ghost var bytes: seq<Bytes>
    ghost var repr: set<object>
    /** Which segment a mapped file belongs to: no two segments share one. */
    ghost var owner: map<array<Byte>, nat>

    ghost predicate Valid()
      reads this, repr
    {
      && SEGMENT_HEADER_SIZE <= maxSegmentSize <= MAX_SEGMENT_SIZE
      && shape != []
      && this !in repr
      && Assembled(segments, |shape|, maxSegmentSize, crc, shape, bytes, repr, owner)
      && |shape| in segments && segments[|shape|] == current
    }

    /** A directory without segment files: one empty segment. */
    constructor (maxSegmentSize: nat, crc: Crc, now: nat)
      requires SEGMENT_HEADER_SIZE <= maxSegmentSize <= MAX_SEGMENT_SIZE
      ensures Valid() && fresh(repr) && shape == [[]] && bytes == [Zeros(maxSegmentSize)] && !current.isSealed
      ensures this.maxSegmentSize == maxSegmentSize && this.crc == crc
    {
      hide Holds, Segment.Valid, Assembled, SegmentHeaders.Finished, InitFields, CountOf;
      this.maxSegmentSize, this.crc := maxSegmentSize, crc;
      var first := new Segment.Create(1, maxSegmentSize, crc, now);
      segments, current := map[1 := first], first;
      shape, bytes, repr, owner := [[]], [Zeros(maxSegmentSize)], {first, first.mmap}, map[first.mmap := 1];
      new;
      HoldsIf(first, 1, maxSegmentSize, crc, [], Zeros(maxSegmentSize));
      AssembledEmpty(1, maxSegmentSize, crc);
      AssembledSnoc(map[], 1, maxSegmentSize, crc, [], [], {}, map[], first, [], Zeros(maxSegmentSize));
      assert [] + [[]] == shape && [] + [Zeros(maxSegmentSize)] == bytes && {} + {first, first.mmap} == repr;
      AssembledHas(segments, 1, maxSegmentSize, crc, shape, bytes, repr, owner);
    }

    constructor Over(maxSegmentSize: nat, crc: Crc, segments: map<nat, Segment>, current: Segment,
                     ghost shape: Shape, ghost bytes: seq<Bytes>, ghost repr: set<object>, ghost owner: map<array<Byte>, nat>)
      requires SEGMENT_HEADER_SIZE <= maxSegmentSize <= MAX_SEGMENT_SIZE && shape != []
      requires Assembled(segments, |shape|, maxSegmentSize, crc, shape, bytes, repr, owner)
      requires |shape| in segments && segments[|shape|] == current
      ensures Valid() && this.shape == shape && this.bytes == bytes && this.current == current
      ensures this.maxSegmentSize == maxSegmentSize
    {
      this.maxSegmentSize, this.crc, this.segments, this.current := maxSegmentSize, crc, segments, current;
      this.shape, this.bytes, this.repr, this.owner := shape, bytes, repr, owner;
    }

    /** Seals the current segment if it is not yet, and starts the next one. */
    method RotateSegment(now: nat)
      requires Valid()
      modifies this, current
      ensures Valid() && fresh(repr - old(repr)) && fresh(current) && fresh(current.mmap)
      ensures !current.isSealed && shape == old(shape) + [[]] && bytes == old(bytes) + [Zeros(maxSegmentSize)]
    {
      hide Holds, Segment.Valid;
      SealCurrent(now);
      StartSegment(now);
    }

    method SealCurrent(now: nat)
      requires Valid()
      modifies current
      ensures Valid() && current.isSealed
    {
      hide Holds, Segment.Valid;
      if !current.isSealed {
        IfHolds(current, |shape|, maxSegmentSize, crc, Last(shape), Last(bytes));
        current.Seal(now);
        HoldsIf(current, |shape|, maxSegmentSize, crc, Last(shape), Last(bytes));
      }
    }

    method StartSegment(now: nat)
      requires Valid() && current.isSealed
      modifies this
      ensures Valid() && fresh(repr - old(repr)) && fresh(current) && fresh(current.mmap)
      ensures !current.isSealed && shape == old(shape) + [[]] && bytes == old(bytes) + [Zeros(maxSegmentSize)]
    {
      hide Holds, Segment.Valid, Assembled, SegmentHeaders.Finished, InitFields, CountOf;
      CurrentHolds();
      var next := new Segment.Create(current.id + 1, maxSegmentSize, crc, now);
      HoldsIf(next, |shape| + 1, maxSegmentSize, crc, [], Zeros(maxSegmentSize));
      AssembledSealed(segments, maxSegmentSize, crc, shape, bytes, repr, owner);
      AssembledSnoc(segments, |shape| + 1, maxSegmentSize, crc, shape, bytes, repr, owner, next, [], Zeros(maxSegmentSize));
      shape, bytes := shape + [[]], bytes + [Zeros(maxSegmentSize)];
      repr, owner := repr + {next, next.mmap}, owner[next.mmap := |shape|];
      segments, current := segments[next.id := next], next;
    }

    method Write(data: Bytes, now: nat) returns (r: Result<Position, WalError>)
      requires Valid()
      modifies this, current, current.mmap
      ensures Valid() && fresh(repr - old(repr))
      ensures |bytes| == |shape| && |old(bytes)| == |old(shape)| && old(shape) != []
      ensures r.Err? ==> shape == old(shape) && bytes == old(bytes)
      ensures Oversize(maxSegmentSize, data) <==> r == Err(RecordTooLarge)
      ensures !Oversize(maxSegmentSize, data) ==>
                (r == Err(InSegment(Sealed)) <==> old(current.isSealed) && !old(current.WillExceed(|data|)))
      ensures r.Err? ==> r.error in {RecordTooLarge, InSegment(Sealed)}
      ensures r.Ok? ==> shape == Place(maxSegmentSize, old(shape), data) && !current.isSealed
      ensures r.Ok? ==> bytes == PlaceBytes(maxSegmentSize, crc, old(shape), old(bytes), data)
      ensures r.Ok? ==> Count(shape) == Count(old(shape)) + 1 && r.value == PositionOf(shape, Count(old(shape)))
    {
      hide Holds, Segment.Valid, Offset, Valid, PositionOf, Framed;
      OverheadIsEntrySize(|data|);
      CurrentHolds();
      if RecordOverhead(|data|) > maxSegmentSize - SEGMENT_HEADER_SIZE {
        return Err(RecordTooLarge);
      }
      PlaceKeeps(maxSegmentSize, shape, data);
      OffsetSnoc(Last(shape), data);
      if current.WillExceed(|data|) {
        RotateSegment(now);
        CurrentHolds();
        OffsetSnoc([], data);
        assert Front(shape) == old(shape) && Last(shape) + [data] == [data] && Front(bytes) == old(bytes);
      }
      ghost var before := shape;
      r := WriteCurrent(data, now);
      assert r.Ok? ==> Front(Last(shape)) == Last(before);
    }

    lemma CurrentHolds()
      requires Valid()
      ensures shape != [] && |bytes| == |shape| && current.id == |shape| && current.crc == crc && current.mmap.Length == maxSegmentSize
      ensures current.Valid() && current.payloads == Last(shape) && current.writeOffset == Offset(Last(shape))
      ensures current in repr && current.mmap in repr && current.mmap[..] == Last(bytes)
    {
      hide Segment.Valid, Assembled, Holds;
      AssembledHas(segments, |shape|, maxSegmentSize, crc, shape, bytes, repr, owner);
      IfHolds(current, |shape|, maxSegmentSize, crc, Last(shape), Last(bytes));
    }

    method WriteCurrent(data: Bytes, now: nat) returns (r: Result<Position, WalError>)
      requires Valid() && !current.WillExceed(|data|)
      modifies this`shape, this`bytes, current, current.mmap
      ensures Valid() && (r.Err? <==> old(current.isSealed))
      ensures r.Err? ==> r == Err(InSegment(Sealed)) && shape == old(shape) && bytes == old(bytes)
      ensures r.Ok? ==> |old(bytes)| == |old(shape)| && bytes == StretchedBytes(crc, old(shape), old(bytes), [data])
      ensures r.Ok? ==> !current.isSealed && shape == Front(old(shape)) + [Last(old(shape)) + [data]]
      ensures r.Ok? ==> r.value == Position(|shape|, Offset(Last(old(shape))))
    {
      hide Holds, Segment.Valid, Offset, Framed, SegmentHeaders.Finished, WriteFields;
      CurrentHolds();
      OffsetMeans(Last(shape));
      var written := current.Write(data, now);
      if written.Err? {
        return Err(InSegment(written.error));
      }
      bytes := StretchedBytes(crc, shape, bytes, [data]);
      shape := Front(shape) + [Last(shape) + [data]];
      HoldsIf(current, |shape|, maxSegmentSize, crc, Last(shape), Last(bytes));
      return Ok(written.value);
    }

    /** Reading by position: every position handed out for a record returns that record's bytes. */
    method Read(pos: Position) returns (r: Result<Bytes, WalError>)
      requires Valid()
      ensures forall i | 0 <= i < Count(shape) && pos == PositionOf(shape, i) :: r == Ok(Flatten(shape)[i])
      ensures r == Err(SegmentNotFound) <==> !(1 <= pos.segment <= |shape|)
      ensures 1 <= pos.segment <= |shape| ==> (r == Err(OffsetBeforeHeader) <==> pos.offset < SEGMENT_HEADER_SIZE)
      ensures 1 <= pos.segment <= |shape| ==> (r == Err(OffsetOutOfBounds) <==> pos.offset > maxSegmentSize)
    {
      hide Holds, Segment.Valid, End, PositionOf;
      if pos.segment !in segments {
        forall i | 0 <= i < Count(shape) ensures pos != PositionOf(shape, i) {
          PositionInside(shape, i);
        }
        return Err(SegmentNotFound);
      }
      var seg := segments[pos.segment];
      ghost var ps := shape[pos.segment - 1];
      IfHolds(seg, pos.segment, maxSegmentSize, crc, ps, bytes[pos.segment - 1]);
      forall i | 0 <= i < Count(shape) && pos == PositionOf(shape, i)
        ensures SEGMENT_HEADER_SIZE <= pos.offset <= maxSegmentSize
      {
        PositionInside(shape, i);
        var k := PositionHolds(shape, i);
        EndGrows(SEGMENT_HEADER_SIZE, ps, k);
      }
      if pos.offset < SEGMENT_HEADER_SIZE {
        return Err(OffsetBeforeHeader);
      }
      if pos.offset > maxSegmentSize {
        return Err(OffsetOutOfBounds);
      }
      var found := seg.Read(pos.offset);
      forall i | 0 <= i < Count(shape) && pos == PositionOf(shape, i)
        ensures found.Ok? && found.value.0 == Flatten(shape)[i]
      {
        var k := PositionHolds(shape, i);
        assert seg.payloads[k] == Flatten(shape)[i];
      }
      match found {
        case Err(e) => return Err(InSegment(e));
        case Ok(data) => return Ok(data.0);
      }
    }

    method BatchCurrent(records: seq<Bytes>, now: nat) returns (positions: seq<Position>)
      requires Valid() && !current.isSealed && records != [] && AllFit(maxSegmentSize, records)
      modifies this`shape, this`bytes, current, current.mmap
      ensures Valid() && !current.isSealed
      ensures Fits(maxSegmentSize, Last(old(shape)), records, |positions|)
      ensures shape == Stretched(old(shape), records[..|positions|])
      ensures |old(bytes)| == |old(shape)| && bytes == StretchedBytes(crc, old(shape), old(bytes), records[..|positions|])
      ensures forall i | 0 <= i < |positions| :: positions[i] == Position(|old(shape)|, Offset(Last(old(shape)) + records[..i]))
    {
      hide Holds, Segment.Valid, End, Framed, SegmentHeaders.Finished;
      CurrentHolds();
      var written, err;
      positions, written, err := current.WriteBatch(records, now);
      bytes := StretchedBytes(crc, shape, bytes, records[..written]);
      shape := Front(shape) + [Last(shape) + records[..written]];
      HoldsIf(current, |shape|, maxSegmentSize, crc, Last(shape), Last(bytes));
    }

    /**
     Appends a batch: fill the current segment, rotate, continue with what is left. The outcome is the layout and the
     bytes that single writes would have made, with the positions they would have returned; a record too large refuses
     all.
     */
    method WriteBatch(records: seq<Bytes>, now: nat) returns (r: Result<seq<Position>, WalError>)
      requires Valid()
      modifies this, current, current.mmap
      ensures Valid() && fresh(repr - old(repr))
      ensures !AllFit(maxSegmentSize, records) <==> r == Err(RecordTooLarge)
      ensures AllFit(maxSegmentSize, records) ==> (r == Err(InSegment(Sealed)) <==> records != [] && old(current.isSealed))
      ensures |bytes| == |shape| && |old(bytes)| == |old(shape)| && old(shape) != []
      ensures r.Err? ==> shape == old(shape) && bytes == old(bytes) && r.error in {RecordTooLarge, InSegment(Sealed)}
      ensures r.Ok? ==> bytes == PlaceAllBytes(maxSegmentSize, crc, old(shape), old(bytes), records)
      ensures !old(current.isSealed) ==> !current.isSealed
      ensures r.Ok? ==> shape == PlaceAll(maxSegmentSize, old(shape), records) && |r.value| == |records|
      ensures r.Ok? ==> Count(shape) == Count(old(shape)) + |records|
      ensures r.Ok? ==> forall i | 0 <= i < |records| :: r.value[i] == PositionOf(shape, Count(old(shape)) + i)
    {
      hide Holds, Segment.Valid, Valid, Offset, PlaceAll, PositionOf, Underway, Fits, Stretched, PlaceAllBytes, StretchedBytes;
      CurrentHolds();
      PlaceNone(maxSegmentSize, shape, records);
      BytesNone(maxSegmentSize, crc, shape, bytes, records);
      if records == [] {
        return Ok([]);
      }
      var tooLarge := AnyTooLarge(records);
      if tooLarge {
        return Err(RecordTooLarge);
      }
      if current.isSealed {
        return Err(InSegment(Sealed));
      }
      ghost var start, area := shape, bytes;
      BatchBegins(maxSegmentSize, start, records);
      assert records[0..] == records;
      var positions: seq<Position> := [];
      while |positions| < |records|
        invariant Valid() && fresh(repr - old(repr)) && !current.isSealed && shape != []
        invariant current == old(current) || (fresh(current) && fresh(current.mmap))
        invariant |positions| <= |records| && Underway(maxSegmentSize, start, records, shape, positions)
        invariant |bytes| == |shape|
        invariant PlaceAllBytes(maxSegmentSize, crc, shape, bytes, records[|positions|..]) ==
                  PlaceAllBytes(maxSegmentSize, crc, start, area, records)
        decreases |records| - |positions|, if Last(shape) == [] then 0 else 1
      {
        ghost var before, done, old_ := shape, positions, bytes;
        var rest := records[|positions|..];
        RestFits(maxSegmentSize, records, |positions|);
        var more := BatchCurrent(rest, now);
        BatchRound(maxSegmentSize, start, records, before, done, more);
        RoundBound(maxSegmentSize, Last(before), rest, |more|);
        BatchProgressBytes(maxSegmentSize, crc, before, old_, rest, |more|);
        assert records[|positions + more|..] == rest[|more|..];
        positions := positions + more;
        CurrentHolds();
        if |positions| < |records| {
          BatchProgress(maxSegmentSize, before, rest, |more|);
          BatchRotates(maxSegmentSize, start, records, shape, positions);
          FitsAlone(maxSegmentSize, records, |positions|);
          RotateFirstBytes(maxSegmentSize, crc, shape, bytes, records[|positions|..]);
          RotateSegment(now);
        }
      }
      BatchEnds(maxSegmentSize, start, records, shape, positions);
      BytesNone(maxSegmentSize, crc, shape, bytes, records);
      AllPlaced(maxSegmentSize, start, records, shape, positions);
      return Ok(positions);
    }

    method AnyTooLarge(records: seq<Bytes>) returns (b: bool)
      ensures b <==> !AllFit(maxSegmentSize, records)
    {
      for i := 0 to |records|
        invariant AllFit(maxSegmentSize, records[..i])
      {
        OverheadIsEntrySize(|records[i]|);
        if RecordOverhead(|records[i]|) > maxSegmentSize - SEGMENT_HEADER_SIZE {
          assert records[i] in records;
          return true;
        }
        assert records[..i + 1] == records[..i] + [records[i]];
      }
      assert records[..|records|] == records;
      return false;
    }
  }

  // ---- Opening an existing log ----

  /** A segment file: its header and its record area. */
  datatype SegmentFile = SegmentFile(header: Bytes, mmap: array<Byte>)

  ghost predicate FileOk(f: SegmentFile, size: nat) {
    |f.header| == SEGMENT_HEADER_SIZE && f.mmap.Length == size
  }

  predicate HeaderOpens(f: SegmentFile, crc: Crc) {
    |f.header| == SEGMENT_HEADER_SIZE && HeaderOk(crc, f.header)
  }

  predicate FileSealed(f: SegmentFile) {
    |f.header| == SEGMENT_HEADER_SIZE && SealedFlag(FlagsOf(f.header))
  }

  /** What a sealed file's header was written for. */
  ghost predicate FileHolds(f: SegmentFile, crc: Crc, ps: seq<Bytes>)
    reads f.mmap
  {
    && |f.header| == SEGMENT_HEADER_SIZE && OffsetOf(f.header) == End(SEGMENT_HEADER_SIZE, ps) <= f.mmap.Length
    && Laid(crc, f.mmap[..], SEGMENT_HEADER_SIZE, ps)
  }

  ghost predicate FileFound(f: SegmentFile, crc: Crc, held: seq<Bytes>, found: seq<Bytes>)
    reads f.mmap
  {
    if FileSealed(f) then found == held else Longest(crc, f.mmap[..], SEGMENT_HEADER_SIZE, found)
  }

  /** A file that does not open: its header's checksum does not match, or it is active and its scan panics. */
  ghost predicate FileRefused(f: SegmentFile, crc: Crc)
    reads f.mmap
  {
    !HeaderOpens(f, crc) || (!FileSealed(f) && ScanPanicsOn(crc, f.mmap[..]))
  }

  ghost predicate ScanPanicsOn(crc: Crc, m: Bytes) {
    exists ps :: Longest(crc, m, SEGMENT_HEADER_SIZE, ps) && OverflowsAt(m, End(SEGMENT_HEADER_SIZE, ps))
  }

  /**
   Opens the segment files 1, 2, ... of a directory. Sealed files keep their records; the others end where their scan
   does, and all but the last are then sealed. One file that does not open keeps the whole log from opening.
   */
  method RecoverSegments(size: nat, crc: Crc, files: seq<SegmentFile>, now: nat, ghost held: Shape)
    returns (r: Result<WALog, WalError>, ghost found: Shape)
    requires SEGMENT_HEADER_SIZE <= size <= MAX_SEGMENT_SIZE && |held| == |files|
    requires forall i | 0 <= i < |files| :: FileOk(files[i], size)
    requires forall i | 0 <= i < |files| ::
               HeaderOpens(files[i], crc) && FileSealed(files[i]) ==> FileHolds(files[i], crc, held[i])
    requires forall i, j | 0 <= i < j < |files| :: files[i].mmap != files[j].mmap
    ensures r.Ok? ==> r.value.Valid() && r.value.maxSegmentSize == size
    ensures r.Ok? && files == [] ==> r.value.shape == [[]] && !r.value.current.isSealed
    ensures r.Ok? && files != [] ==> r.value.shape == found && |found| == |files|
    ensures r.Ok? && files != [] ==> r.value.current.isSealed == FileSealed(Last(files))
    ensures r.Ok? ==> forall i | 0 <= i < |files| && i < |found| :: FileFound(files[i], crc, held[i], found[i])
    ensures r.Err? <==> exists i :: 0 <= i < |files| && FileRefused(files[i], crc)
  {
    hide Holds, Segment.Valid, Longest, FileHolds, FileFound, FileRefused, Assembled, HeaderOpens, FileSealed,
         SegmentHeaders.Finished, InitFields, CountOf;
    found := [];
    if files == [] {
      var empty := new WALog(size, crc, now);
      return Ok(empty), found;
    }
    var segments: map<nat, Segment> := map[];
    var current: Segment := new Segment.Create(0, size, crc, now);
    ghost var bytes: seq<Bytes>, repr: set<object>, owner: map<array<Byte>, nat> := [], {}, map[];
    AssembledEmpty(|files|, size, crc);
    for i := 0 to |files|
      invariant |found| == i
      invariant Assembled(segments, |files|, size, crc, found, bytes, repr, owner)
      invariant forall j | i <= j < |files| :: files[j].mmap !in owner
      invariant forall j | 0 <= j < i :: FileFound(files[j], crc, held[j], found[j])
      invariant forall j | 0 <= j < i :: !FileRefused(files[j], crc)
      invariant i > 0 ==> i in segments && segments[i] == current
      invariant i == |files| ==> current.isSealed == FileSealed(Last(files))
    {
      var seg, ps := OpenFile(i + 1, size, crc, files[i], now, held[i], i + 1 < |files|);
      if seg.Err? {
        return Err(InSegment(seg.error)), found;
      }
      current := seg.value;
      AssembledSnoc(segments, |files|, size, crc, found, bytes, repr, owner, current, ps, current.mmap[..]);
      segments := segments[i + 1 := current];
      found, bytes := found + [ps], bytes + [current.mmap[..]];
      repr := repr + {current, current.mmap};
      owner := owner[current.mmap := i + 1];
    }
    var log := new WALog.Over(size, crc, segments, current, found, bytes, repr, owner);
    return Ok(log), found;
  }

  /** Opens one file, sealing it unless it is the last. */
  method OpenFile(id: nat, size: nat, crc: Crc, file: SegmentFile, now: nat, ghost held: seq<Bytes>, seal: bool)
    returns (r: Result<Segment, SegmentError>, ghost found: seq<Bytes>)
    requires SEGMENT_HEADER_SIZE <= size <= MAX_SEGMENT_SIZE && FileOk(file, size)
    requires HeaderOpens(file, crc) && FileSealed(file) ==> FileHolds(file, crc, held)
    ensures r.Err? <==> FileRefused(file, crc)
    ensures r.Ok? ==> fresh(r.value) && r.value.mmap == file.mmap
    ensures r.Ok? ==> Holds(r.value, id, size, crc, found, file.mmap[..])
    ensures r.Ok? ==> FileFound(file, crc, held, found) && r.value.isSealed == (seal || FileSealed(file))
  {
    hide Segment.Valid, OverflowsAt, Laid, End, ValidAt, HeaderOk, SealedFlag, FlagsOf, OffsetOf, SegmentHeaders.Finished;
    r, found := OpenSegmentFile(id, crc, file.header, file.mmap, held);
    forall ps | HeaderOpens(file, crc) && !FileSealed(file) && Longest(crc, file.mmap[..], SEGMENT_HEADER_SIZE, ps)
      ensures ps == found
    {
      LongestUnique(crc, file.mmap[..], SEGMENT_HEADER_SIZE, ps, found);
    }
    if r.Ok? && seal && !r.value.isSealed {
      r.value.SealSegment(now);
    }
  }

  /**
   What reopening finds of a file that was written and not damaged: everything if it is sealed, and otherwise the
   records before the first one whose checksum is zero. So an unsealed segment keeps all its records if and only if
   none of them has checksum zero.
   */
  lemma FileRestored(f: SegmentFile, size: nat, crc: Crc, held: seq<Bytes>, found: seq<Bytes>, k: nat)
    requires FileOk(f, size) && HeaderOpens(f, crc)
    requires FileFound(f, crc, held, found) && FoundCount(crc, held, k)
    requires Laid(crc, f.mmap[..], SEGMENT_HEADER_SIZE, held)
    requires f.mmap[..] == Framed(crc, Zeros(size), [], held)
    ensures found == if FileSealed(f) then held else held[..k]
    ensures !FileRefused(f, crc)
  {
    hide Laid, FieldsAt, OverflowsAt, Longest, Framed, HeaderOpens, FileSealed;
    var m := f.mmap[..];
    forall i | End(SEGMENT_HEADER_SIZE, held) <= i < |m| ensures m[i] == 0 {
      ZeroTail(size, crc, held, i);
    }
    if !FileSealed(f) {
      CleanReopen(crc, m, SEGMENT_HEADER_SIZE, held, k);
      forall ps | Longest(crc, m, SEGMENT_HEADER_SIZE, ps) ensures ps == held[..k] {
        LongestUnique(crc, m, SEGMENT_HEADER_SIZE, ps, held[..k]);
      }
      NoOverflowHere(crc, m, SEGMENT_HEADER_SIZE, held, k);
    }
  }

  /**
   What reopening finds of an active file that was damaged: if its first k frames are intact and nothing valid stands
   where frame k stood, exactly those k records.
   */
  lemma DamagedFile(f: SegmentFile, crc: Crc, before: Bytes, held: seq<Bytes>, found: seq<Bytes>, k: nat)
    requires !FileSealed(f) && FileFound(f, crc, held, found)
    requires k <= |held| && Run(crc, before, SEGMENT_HEADER_SIZE, held[..k])
    requires Offset(held[..k]) <= |before| && Offset(held[..k]) <= f.mmap.Length
    requires f.mmap[..Offset(held[..k])] == before[..Offset(held[..k])]
    requires forall p :: !ValidAt(crc, f.mmap[..], Offset(held[..k]), p)
    ensures found == held[..k]
  {
    hide ValidAt, Laid;
    var m := f.mmap[..];
    assert m[..Offset(held[..k])] == f.mmap[..Offset(held[..k])];
    DamageKeepsPrefix(crc, before, m, SEGMENT_HEADER_SIZE, held[..k]);
    LongestUnique(crc, m, SEGMENT_HEADER_SIZE, found, held[..k]);
  }

  /** So an active file in which only the payload of record k was damaged keeps exactly the records before it. */
  lemma DamagedPayload(f: SegmentFile, crc: Crc, before: Bytes, held: seq<Bytes>, found: seq<Bytes>, k: nat, q: Bytes)
    requires !FileSealed(f) && FileFound(f, crc, held, found) && f.mmap.Length <= MAX_SEGMENT_SIZE
    requires k < |held| && |q| == |held[k]| < WORD - HEADER_SIZE - TRAILER_SIZE
    requires Run(crc, before, SEGMENT_HEADER_SIZE, held[..k])
    requires Offset(held[..k]) <= |before| && Offset(held[..k]) + EntrySize(|q|) <= f.mmap.Length
    requires f.mmap[..Offset(held[..k])] == before[..Offset(held[..k])]
    requires var off := Offset(held[..k]);
             f.mmap[off..off + 8] == Frame(crc, held[k])[..8] && f.mmap[off + 8..off + 8 + |q|] == q
    requires crc(LittleEndian32(|q|) + q) % 0x1_0000_0000 != crc(LittleEndian32(|held[k]|) + held[k]) % 0x1_0000_0000
    ensures found == held[..k]
  {
    hide Laid, Frame, LittleEndian32, FieldsAt, End;
    var off, m := Offset(held[..k]), f.mmap[..];
    SlicesOf(f.mmap, off, off + 8);
    SlicesOf(f.mmap, off + 8, off + 8 + |q|);
    DamageStopsScan(crc, m, off, held[k], q);
    DamagedFile(f, crc, before, held, found, k);
  }

  /**
   A process that dies after k of the field stores of a header update, by a write, a batch or sealing, and before the
   checksum store leaves a file that is refused, and with it the whole log, if and only if the fields as they stand
   have another checksum than before the update.
   */
  lemma RefusedAfterCrash(f: SegmentFile, crc: Crc, h: Bytes, fields: seq<Store>, k: nat)
    requires |h| == SEGMENT_HEADER_SIZE && HeaderOk(crc, h) && k <= |fields|
    requires forall i :: 0 <= i < |fields| ==> FieldStore(fields[i])
    requires f.header == After(h, fields[..k])
    ensures !HeaderOpens(f, crc) <==> crc(f.header[..56]) % 0x1_0000_0000 != crc(h[..56]) % 0x1_0000_0000
    ensures crc(f.header[..56]) % 0x1_0000_0000 != crc(h[..56]) % 0x1_0000_0000 ==> FileRefused(f, crc)
  {
    hide After;
    CrashPoint(crc, h, fields, k);
  }

  lemma NoOverflowHere(crc: Crc, m: Bytes, off: nat, ps: seq<Bytes>, k: nat)
    requires Laid(crc, m, off, ps) && k <= |ps|
    requires forall i | End(off, ps) <= i < |m| :: m[i] == 0
    ensures !OverflowsAt(m, End(off, ps[..k]))
  {
    hide FieldsAt, OverflowsAt;
    if k < |ps| {
      LaidPrefix(crc, m, off, ps, k);
      FrameLength(crc, m, End(off, ps[..k]), ps[k]);
    } else {
      assert ps[..k] == ps;
      ZeroLength(m, End(off, ps));
    }
  }

  lemma FrameLength(crc: Crc, m: Bytes, off: nat, p: Bytes)
    requires FieldsAt(crc, m, off, p)
    ensures !OverflowsAt(m, off)
  {
    hide LittleEndian32, FromLittleEndian32, Sum, AlignUp;
    LittleRoundTrip(|p|);
    assert FromLittleEndian32(m[off + 4..off + 8]) == |p|;
  }

  lemma ZeroLength(m: Bytes, off: nat)
    requires forall i | off <= i < |m| :: m[i] == 0
    ensures !OverflowsAt(m, off)
  {
    if off + HEADER_SIZE <= |m| {
      assert m[off + 4..off + 8] == [0, 0, 0, 0];
    }
  }

  lemma OffsetMeans(ps: seq<Bytes>)
    ensures Offset(ps) == End(SEGMENT_HEADER_SIZE, ps)
  {
  }

  lemma BytesNone(size: nat, crc: Crc, shape: Shape, bytes: seq<Bytes>, ps: seq<Bytes>)
    requires shape != [] && |bytes| == |shape|
    ensures PlaceAllBytes(size, crc, shape, bytes, ps[|ps|..]) == PlaceAllBytes(size, crc, shape, bytes, []) == bytes
  {
    assert ps[|ps|..] == [];
  }

  lemma RestFits(size: nat, records: seq<Bytes>, done: nat)
    requires AllFit(size, records) && done <= |records|
    ensures AllFit(size, records[done..])
  {
    assert forall p | p in records[done..] :: p in records;
  }

  lemma RoundBound(size: nat, ps: seq<Bytes>, records: seq<Bytes>, k: nat)
    requires Fits(size, ps, records, k)
    ensures k <= |records|
  {
  }

  lemma AllPlaced(size: nat, start: Shape, records: seq<Bytes>, shape: Shape, positions: seq<Position>)
    requires start != [] && Underway(size, start, records, shape, positions) && |positions| == |records|
    requires shape == PlaceAll(size, start, records)
    ensures Count(shape) == Count(start) + |records|
    ensures forall i | 0 <= i < |records| :: positions[i] == PositionOf(shape, Count(start) + i)
  {
  }
}
