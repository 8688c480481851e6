/**
 A log segment over a fixed, memory-mapped byte array (pkg/walfs/segment.go).

 The 64-byte header is kept beside the array, which holds the record area; header updates are done store by store, as
 SegmentHeaders lists them. The ghost field payloads says which records the bytes hold, and Valid() ties it to the array.
 */
module Segments {
  import opened Basics
  import opened Words
  import opened Framing
  import opened SegmentHeaders

  datatype Position = Position(segment: nat, offset: nat)

  datatype SegmentError =
    | Sealed
    | Full
    | TooLarge
    | Eof
    | CorruptHeader
    | IncompleteChunk
    | InvalidCrc
    | ScanPanics
    | HeaderMismatch

  method CopyInto(dst: array<Byte>, at: nat, src: Bytes)
    requires at + |src| <= dst.Length
    modifies dst
    ensures dst[..] == Spliced(old(dst[..]), at, src)
  {
    for i := 0 to |src|
      invariant forall j :: 0 <= j < i ==> dst[at + j] == src[j]
      invariant forall j :: 0 <= j < at || at + |src| <= j < dst.Length ==> dst[j] == old(dst[j])
    {
      dst[at + i] := src[i];
    }
  }

  /** Header, payload, trailer and zero padding, in that order. */
  method WriteFrame(mmap: array<Byte>, at: nat, crc: Crc, data: Bytes)
    requires at + EntrySize(|data|) <= mmap.Length
    modifies mmap
    ensures mmap[..] == Spliced(old(mmap[..]), at, Frame(crc, data))
  {
    hide Sum, LittleEndian32, Spliced;
    var n := |data|;
    var header := LittleEndian32(Sum(crc, data)) + LittleEndian32(n);
    var pad := Zeros(EntrySize(n) - 16 - n);
    CopyInto(mmap, at, header);
    CopyInto(mmap, at + 8, data);
    CopyInto(mmap, at + 8 + n, TRAILER);
    CopyInto(mmap, at + 16 + n, pad);
    ghost var m := old(mmap[..]);
    SplicedTwice(m, at, header, data);
    SplicedTwice(m, at, header + data, TRAILER);
    SplicedTwice(m, at, header + data + TRAILER, pad);
  }

  /** What a scan that stops after these frames returns. */
  function ScanResult(m: Bytes, ps: seq<Bytes>): Result<nat, SegmentError> {
    var end := End(SEGMENT_HEADER_SIZE, ps);
    if OverflowsAt(m, end) then Err(ScanPanics) else Ok(end)
  }

  /**
   Recovery scan of an unsealed segment. It returns the end of the longest run of valid frames behind the header, and
   panics exactly when the bytes there hold a length word that overflows.
   */
  method ScanForLastOffset(crc: Crc, mmap: array<Byte>) returns (r: Result<nat, SegmentError>)
    requires SEGMENT_HEADER_SIZE <= mmap.Length <= MAX_SEGMENT_SIZE
    ensures exists ps :: Longest(crc, mmap[..], SEGMENT_HEADER_SIZE, ps) && r == ScanResult(mmap[..], ps)
  {
    hide ValidAt, Run, ProbeAt, OverflowsAt;
    var offset := SEGMENT_HEADER_SIZE;
    ghost var m, ps := mmap[..], [];
    EmptyRun(crc, m);
    while offset + HEADER_SIZE <= mmap.Length
      invariant offset == End(SEGMENT_HEADER_SIZE, ps)
      invariant SEGMENT_HEADER_SIZE <= offset <= mmap.Length
      invariant Run(crc, m, SEGMENT_HEADER_SIZE, ps)
      decreases mmap.Length - offset
    {
      var probe := ProbeAt(crc, mmap[..], offset);
      ProbePanics(crc, m, offset);
      match probe {
        case Stop =>
          ProbeStops(crc, m, offset);
          assert Longest(crc, mmap[..], SEGMENT_HEADER_SIZE, ps);
          return Ok(offset);
        case Panic =>
          ProbeStops(crc, m, offset);
          assert Longest(crc, mmap[..], SEGMENT_HEADER_SIZE, ps);
          return Err(ScanPanics);
        case Found(n) =>
          ProbeFound(crc, m, offset);
          ghost var p := m[offset + 8..offset + 8 + n];
          RunSnoc(crc, m, ps, p);
          ps := ps + [p];
          offset := offset + AlignUp((HEADER_SIZE + n + TRAILER_SIZE) % WORD);
      }
    }
    TailTooShort(crc, m, offset);
    assert Longest(crc, mmap[..], SEGMENT_HEADER_SIZE, ps);
    return Ok(offset);
  }

  lemma EmptyRun(crc: Crc, m: Bytes)
    ensures Run(crc, m, SEGMENT_HEADER_SIZE, [])
  {
  }

  lemma RunSnoc(crc: Crc, m: Bytes, ps: seq<Bytes>, p: Bytes)
    requires Run(crc, m, SEGMENT_HEADER_SIZE, ps) && ValidAt(crc, m, End(SEGMENT_HEADER_SIZE, ps), p)
    ensures Run(crc, m, SEGMENT_HEADER_SIZE, ps + [p])
    ensures var next := End(SEGMENT_HEADER_SIZE, ps) + AlignUp((HEADER_SIZE + |p| + TRAILER_SIZE) % WORD);
            End(SEGMENT_HEADER_SIZE, ps) < next == End(SEGMENT_HEADER_SIZE, ps + [p]) <= |m|
  {
    hide Sum, LittleEndian32;
    LaidSnoc(crc, m, SEGMENT_HEADER_SIZE, ps, p);
    assert HEADER_SIZE + |p| + TRAILER_SIZE < WORD;
    assert (HEADER_SIZE + |p| + TRAILER_SIZE) % WORD == HEADER_SIZE + |p| + TRAILER_SIZE;
  }

  lemma ProbeStops(crc: Crc, m: Bytes, off: nat)
    requires |m| <= MAX_SEGMENT_SIZE && off + HEADER_SIZE <= |m| && !ProbeAt(crc, m, off).Found?
    ensures forall p :: !ValidAt(crc, m, off, p)
  {
    hide ValidAt, ProbeAt;
    forall p ensures !ValidAt(crc, m, off, p) {
      if ValidAt(crc, m, off, p) {
        ProbeFinds(crc, m, off, p);
        assert false;
      }
    }
  }

  lemma TailTooShort(crc: Crc, m: Bytes, off: nat)
    requires off + HEADER_SIZE > |m|
    ensures !OverflowsAt(m, off) && forall p :: !ValidAt(crc, m, off, p)
  {
  }

  class Segment {
    const id: nat
    const crc: Crc
    const mmap: array<Byte>
    var header: Bytes
    var writeOffset: nat
    var isSealed: bool
    var inMemorySealed: bool
    ghost var payloads: seq<Bytes>

    ghost predicate Valid()
      reads this, mmap
    {
      && SEGMENT_HEADER_SIZE <= mmap.Length <= MAX_SEGMENT_SIZE
      && writeOffset == End(SEGMENT_HEADER_SIZE, payloads) <= mmap.Length
      && Laid(crc, mmap[..], SEGMENT_HEADER_SIZE, payloads)
      && HeaderFits(crc, header, writeOffset, isSealed)
    }

    /** A new segment file: truncated to its size, so all zero, with a first header. */
    constructor Create(id: nat, size: nat, crc: Crc, now: nat)
      requires SEGMENT_HEADER_SIZE <= size <= MAX_SEGMENT_SIZE
      ensures Valid() && fresh(mmap) && mmap.Length == size && this.id == id && this.crc == crc
      ensures payloads == [] && !isSealed && !inMemorySealed && mmap[..] == Zeros(size)
      ensures header == Finished(crc, Zeros(SEGMENT_HEADER_SIZE), InitFields(now)) && CountOf(header) == 0
    {
      this.id, this.crc := id, crc;
      mmap := new Byte[size](_ => 0);
      header := Finished(crc, Zeros(SEGMENT_HEADER_SIZE), InitFields(now));
      writeOffset := SEGMENT_HEADER_SIZE;
      isSealed, inMemorySealed := false, false;
      payloads := [];
      new;
      InitFinished(crc, now);
    }

    constructor Over(id: nat, crc: Crc, header: Bytes, mmap: array<Byte>, offset: nat, ghost held: seq<Bytes>)
      requires SEGMENT_HEADER_SIZE <= mmap.Length <= MAX_SEGMENT_SIZE && |header| == SEGMENT_HEADER_SIZE
      requires offset == End(SEGMENT_HEADER_SIZE, held) <= mmap.Length
      requires Laid(crc, mmap[..], SEGMENT_HEADER_SIZE, held)
      requires HeaderFits(crc, header, offset, SealedFlag(FlagsOf(header)))
      ensures Valid() && this.header == header && this.mmap == mmap && this.id == id && this.crc == crc
      ensures payloads == held && isSealed == SealedFlag(FlagsOf(header)) && !inMemorySealed
    {
      this.id, this.crc, this.header, this.mmap := id, crc, header, mmap;
      isSealed, inMemorySealed := SealedFlag(FlagsOf(header)), false;
      writeOffset := offset;
      payloads := held;
    }

    /** Seals on disk: the header then holds the offset and the flag that opening relies on. */
    method SealSegment(now: nat)
      requires Valid()
      modifies this`isSealed, this`header
      ensures Valid() && isSealed
      ensures header == Finished(crc, old(header), SealFields(old(header), writeOffset, now))
    {
      hide Laid, Finished, SealedFlags;
      SealFinished(crc, header, writeOffset, now);
      var fields := SealFields(header, writeOffset, now);
      UpdateHeader(fields);
      isSealed := true;
    }

    /** The stores of a header update, one by one, the checksum last. */
    method UpdateHeader(fields: seq<Store>)
      requires |header| == SEGMENT_HEADER_SIZE && forall i :: 0 <= i < |fields| ==> FieldStore(fields[i])
      modifies this`header
      ensures header == Finished(crc, old(header), fields)
    {
      hide Stored;
      assert fields[..0] == [];
      for i := 0 to |fields|
        invariant |header| == SEGMENT_HEADER_SIZE && header == After(old(header), fields[..i])
      {
        assert FieldStore(fields[i]);
        assert Front(fields[..i + 1]) == fields[..i] && Last(fields[..i + 1]) == fields[i];
        header := Stored(header, fields[i]);
      }
      assert fields[..|fields|] == fields;
      header := Stored(header, SumStore(crc, header));
    }

    /** Sealed on disk and marked as sealed by this process. */
    method Seal(now: nat)
      requires Valid()
      modifies this`isSealed, this`header, this`inMemorySealed
      ensures Valid() && isSealed && inMemorySealed
    {
      SealSegment(now);
      inMemorySealed := true;
    }

    predicate WillExceed(n: nat)
      reads this
    {
      writeOffset + EntrySize(n) > mmap.Length
    }

    method Write(data: Bytes, now: nat) returns (r: Result<Position, SegmentError>)
      requires Valid()
      modifies this`writeOffset, this`header, this`payloads, mmap
      ensures Valid()
      ensures r.Ok? <==> !isSealed && !old(WillExceed(|data|))
      ensures r.Ok? ==> r.value == Position(id, End(SEGMENT_HEADER_SIZE, old(payloads)))
      ensures r.Ok? ==> payloads == old(payloads) + [data]
      ensures r.Ok? ==> header == Finished(crc, old(header), WriteFields(old(header), writeOffset, 1, now))
      ensures r.Ok? ==> mmap[..] == Framed(crc, old(mmap[..]), old(payloads), [data])
      ensures r.Err? ==> r.error == (if isSealed then Sealed else Full)
      ensures r.Err? ==> unchanged(this) && unchanged(mmap)
    {
      hide Laid, FieldsAt, Frame, Spliced, Framed, Finished;
      if isSealed {
        return Err(Sealed);
      }
      var offset := writeOffset;
      var entry := EntrySize(|data|);
      if offset + entry > mmap.Length {
        return Err(Full);
      }
      WriteFrame(mmap, offset, crc, data);
      Extended(crc, old(mmap[..]), mmap[..], payloads, data);
      FramedOne(crc, old(mmap[..]), payloads, data);
      writeOffset := offset + entry;
      WriteFinished(crc, header, writeOffset, 1, now);
      UpdateHeader(WriteFields(header, writeOffset, 1, now));
      payloads := payloads + [data];
      return Ok(Position(id, offset));
    }

    /**
     Writes as many records as fit, in one update of the write offset. The records that fit are those that a sequence
     of single writes would have placed, at the same offsets; one too large for any segment refuses the batch.
     */
    method WriteBatch(records: seq<Bytes>, now: nat)
      returns (positions: seq<Position>, written: nat, err: Option<SegmentError>)
      requires Valid()
      modifies this`writeOffset, this`header, this`payloads, mmap
      ensures Valid()
      ensures records == [] ==> err == None && written == 0
      ensures records != [] ==> (err == Some(Sealed) <==> isSealed)
      ensures records != [] && !isSealed ==>
                exists k: nat ::
                  && Fits(mmap.Length, old(payloads), records, k)
                  && err == (if k == |records| then None
                             else if Oversize(mmap.Length, records[k]) then Some(TooLarge)
                             else Some(Full))
                  && written == (if err == Some(TooLarge) then 0 else k)
      ensures written <= |records| && payloads == old(payloads) + records[..written]
      ensures |positions| == written
      ensures forall i :: 0 <= i < written ==> positions[i] == Position(id, Offset(old(payloads) + records[..i]))
      ensures mmap[..] == Framed(crc, old(mmap[..]), old(payloads), records[..written])
      ensures written > 0 ==> header == Finished(crc, old(header), WriteFields(old(header), writeOffset, written, now))
      ensures written == 0 ==> unchanged(this) && unchanged(mmap)
    {
      hide Laid, Frame, Spliced, End, Framed, Finished;
      positions, written, err := [], 0, None;
      assert payloads == payloads + records[..0];
      FramedNone(crc, mmap[..], payloads, records);
      if records == [] {
        return;
      }
      if isSealed {
        return [], 0, Some(Sealed);
      }
      var k, places, tooLarge := PlanBatch(records);
      if tooLarge {
        return [], 0, Some(TooLarge);
      }
      if k == 0 {
        return [], 0, Some(Full);
      }
      ghost var ps := payloads;
      var offset := writeOffset;
      for i := 0 to k
        invariant offset == Offset(ps + records[..i]) <= mmap.Length
        invariant Laid(crc, mmap[..], SEGMENT_HEADER_SIZE, ps + records[..i])
        invariant mmap[..] == Framed(crc, old(mmap[..]), ps, records[..i])
        modifies mmap
      {
        BatchStep(ps, records, i);
        OffsetGrows(ps, records, i + 1, k);
        ghost var before := mmap[..];
        WriteFrame(mmap, offset, crc, records[i]);
        Extended(crc, before, mmap[..], ps + records[..i], records[i]);
        FramedSnoc(crc, old(mmap[..]), ps, records, i);
        offset := offset + EntrySize(|records[i]|);
      }
      writeOffset := offset;
      WriteFinished(crc, header, writeOffset, k, now);
      UpdateHeader(WriteFields(header, writeOffset, k, now));
      payloads := ps + records[..k];
      return places, k, if k < |records| then Some(Full) else None;
    }

    /** How many records of a batch fit, and where they go. */
    method PlanBatch(records: seq<Bytes>) returns (k: nat, positions: seq<Position>, tooLarge: bool)
      requires Valid()
      ensures Fits(mmap.Length, payloads, records, k)
      ensures tooLarge <==> k < |records| && Oversize(mmap.Length, records[k])
      ensures |positions| == k
      ensures forall i :: 0 <= i < k ==> positions[i] == Position(id, Offset(payloads + records[..i]))
    {
      hide Laid, End;
      var offset := writeOffset;
      k, positions, tooLarge := 0, [], false;
      assert payloads + records[..0] == payloads;
      while k < |records|
        invariant k <= |records| && |positions| == k && !tooLarge
        invariant offset == Offset(payloads + records[..k]) <= mmap.Length
        invariant forall i :: 0 <= i < k ==> positions[i] == Position(id, Offset(payloads + records[..i]))
      {
        BatchStep(payloads, records, k);
        var entry := EntrySize(|records[k]|);
        if entry > mmap.Length - SEGMENT_HEADER_SIZE {
          OffsetAtLeastHeader(payloads + records[..k]);
          return k, positions, true;
        }
        if offset + entry > mmap.Length {
          return k, positions, false;
        }
        positions := positions + [Position(id, offset)];
        offset := offset + entry;
        k := k + 1;
      }
    }

    method Read(offset: nat) returns (r: Result<(Bytes, Position), SegmentError>)
      requires Valid()
      ensures forall k :: 0 <= k < |payloads| && offset == Offset(payloads[..k]) ==>
                r == Ok((payloads[k], Position(id, offset + EntrySize(|payloads[k]|))))
      ensures offset >= writeOffset ==> r.Err?
      ensures r.Ok? ==> r.value.1.segment == id && offset + EntrySize(|r.value.0|) == r.value.1.offset <= writeOffset
      ensures r.Ok? ==> mmap[offset + 8..offset + 8 + |r.value.0|] == r.value.0
      ensures r.Ok? && isSealed && !inMemorySealed ==>
                FromLittleEndian32(mmap[offset..offset + 4]) == crc(mmap[offset + 4..offset + 8] + r.value.0) % 0x1_0000_0000
    {
      hide Laid, ReadAt;
      var checked := isSealed && !inMemorySealed;
      var found := ReadAt(crc, mmap[..], writeOffset, checked, offset);
      ReadInside(crc, mmap[..], writeOffset, checked, offset);
      if found.Ok? {
        ReadChecks(crc, mmap[..], writeOffset, checked, offset);
        SlicesOf(mmap, offset, offset + 4);
        SlicesOf(mmap, offset + 4, offset + 8);
        SlicesOf(mmap, offset + 8, offset + 8 + |found.value|);
      }
      forall k | 0 <= k < |payloads| && offset == Offset(payloads[..k])
        ensures found == Ok(payloads[k])
      {
        LaidPrefix(crc, mmap[..], SEGMENT_HEADER_SIZE, payloads, k);
        EndGrows(SEGMENT_HEADER_SIZE, payloads, k);
        ReadFinds(crc, mmap[..], writeOffset, checked, offset, payloads[k]);
      }
      match found {
        case Err(e) => return Err(e);
        case Ok(data) => return Ok((data, Position(id, offset + EntrySize(|data|))));
      }
    }
  }

  /** The checks of a read, in order; the length is compared with a difference taken in 32 bits. */
  function ReadAt(crc: Crc, m: Bytes, writeOffset: nat, checked: bool, off: nat): Result<Bytes, SegmentError>
    requires writeOffset <= |m|
  {
    if off + HEADER_SIZE > |m| then Err(Eof)
    else
      var n := FromLittleEndian32(m[off + 4..off + 8]);
      if n > (writeOffset - off - HEADER_SIZE) % WORD then Err(CorruptHeader)
      else if off + EntrySize(n) > writeOffset then Err(Eof)
      else if m[off + HEADER_SIZE + n..off + HEADER_SIZE + n + TRAILER_SIZE] != TRAILER then Err(IncompleteChunk)
      else
        var data := m[off + HEADER_SIZE..off + HEADER_SIZE + n];
        if checked && FromLittleEndian32(m[off..off + 4]) != Sum(crc, data) then Err(InvalidCrc)
        else Ok(data)
  }

  /** A read never returns anything that reaches past the write offset. */
  lemma ReadInside(crc: Crc, m: Bytes, writeOffset: nat, checked: bool, off: nat)
    requires writeOffset <= |m|
    ensures var r := ReadAt(crc, m, writeOffset, checked, off);
            r.Ok? ==> off + EntrySize(|r.value|) <= writeOffset
  {
    hide FromLittleEndian32, Sum;
  }

  lemma SlicesOf(a: array<Byte>, i: nat, j: nat)
    requires i <= j <= a.Length
    ensures a[..][i..j] == a[i..j]
  {
  }

  /**
   A read returns the bytes behind the header, as many as the length word says; one that checks returns them only if
   the saved word is the checksum of that length word and those bytes.
   */
  lemma ReadChecks(crc: Crc, m: Bytes, writeOffset: nat, checked: bool, off: nat)
    requires writeOffset <= |m| && ReadAt(crc, m, writeOffset, checked, off).Ok?
    ensures var data := ReadAt(crc, m, writeOffset, checked, off).value;
            && off + 16 + |data| <= |m|
            && |data| == FromLittleEndian32(m[off + 4..off + 8]) && data == m[off + 8..off + 8 + |data|]
            && (checked ==> FromLittleEndian32(m[off..off + 4]) == crc(m[off + 4..off + 8] + data) % 0x1_0000_0000)
  {
    hide LittleEndian32, FromLittleEndian32;
    var n := FromLittleEndian32(m[off + 4..off + 8]);
    LengthBytes(m[off + 4..off + 8]);
  }

  lemma LengthBytes(w: Bytes)
    requires |w| == 4
    ensures LittleEndian32(FromLittleEndian32(w)) == w
  {
    hide LittleEndian32, FromLittleEndian32;
    LittleRoundTrip(FromLittleEndian32(w));
    LittleInjective(w, LittleEndian32(FromLittleEndian32(w)));
  }

  /** A checked read of a frame of p whose payload has become q fails, unless q has the checksum of p. */
  lemma DamageFailsRead(crc: Crc, m: Bytes, writeOffset: nat, off: nat, p: Bytes, q: Bytes)
    requires |q| == |p| && off + EntrySize(|p|) <= writeOffset <= |m| <= MAX_SEGMENT_SIZE && SEGMENT_HEADER_SIZE <= off
    requires |p| < WORD - HEADER_SIZE - TRAILER_SIZE
    requires m[off..off + 8] == Frame(crc, p)[..8] && m[off + 8..off + 8 + |q|] == q
    requires m[off + 8 + |q|..off + 16 + |q|] == TRAILER
    requires crc(LittleEndian32(|q|) + q) % 0x1_0000_0000 != crc(LittleEndian32(|p|) + p) % 0x1_0000_0000
    ensures ReadAt(crc, m, writeOffset, true, off) == Err(InvalidCrc)
  {
    hide FromLittleEndian32, LittleEndian32, Frame, Sum, ReadAt;
    HeaderWords(crc, m, off, p);
    LittleRoundTrip(|p|);
    LittleRoundTrip(Sum(crc, p));
    SumMeans(crc, p);
    SumMeans(crc, q);
    ReadReaches(crc, m, writeOffset, off, q);
  }

  /** With length and trailer in order, a checked read comes down to the checksum. */
  lemma ReadReaches(crc: Crc, m: Bytes, writeOffset: nat, off: nat, q: Bytes)
    requires off + EntrySize(|q|) <= writeOffset <= |m| <= MAX_SEGMENT_SIZE && SEGMENT_HEADER_SIZE <= off
    requires FromLittleEndian32(m[off + 4..off + 8]) == |q| && m[off + 8..off + 8 + |q|] == q
    requires m[off + 8 + |q|..off + 16 + |q|] == TRAILER
    ensures ReadAt(crc, m, writeOffset, true, off) ==
            if FromLittleEndian32(m[off..off + 4]) != Sum(crc, q) then Err(InvalidCrc) else Ok(q)
  {
    hide FromLittleEndian32, Sum;
    assert (writeOffset - off - HEADER_SIZE) % WORD == writeOffset - off - HEADER_SIZE;
  }

  /** A frame below the write offset reads back, checksum checked or not. */
  lemma ReadFinds(crc: Crc, m: Bytes, writeOffset: nat, checked: bool, off: nat, p: Bytes)
    requires off + EntrySize(|p|) <= writeOffset <= |m| && FieldsAt(crc, m, off, p)
    requires |m| <= MAX_SEGMENT_SIZE && SEGMENT_HEADER_SIZE <= off
    ensures ReadAt(crc, m, writeOffset, checked, off) == Ok(p)
  {
    hide Sum, LittleEndian32, FromLittleEndian32;
    LittleRoundTrip(|p|);
    SumSmall(crc, p);
    LittleRoundTrip(Sum(crc, p));
    assert (writeOffset - off - HEADER_SIZE) % WORD == writeOffset - off - HEADER_SIZE;
  }

  lemma SumSmall(crc: Crc, p: Bytes)
    ensures Sum(crc, p) % WORD == Sum(crc, p)
  {
  }

  function Offset(ps: seq<Bytes>): nat {
    End(SEGMENT_HEADER_SIZE, ps)
  }

  /** The bytes after writing frames of these records, one after the other, behind those already there. */
  function Framed(crc: Crc, m: Bytes, ps: seq<Bytes>, records: seq<Bytes>): (r: Bytes)
    ensures |r| == |m|
  {
    if records == [] then m
    else
      var before := Framed(crc, m, ps, Front(records));
      var at := Offset(ps + Front(records));
      if at + EntrySize(|Last(records)|) <= |m| then Spliced(before, at, Frame(crc, Last(records))) else before
  }

  lemma FramedNone(crc: Crc, m: Bytes, ps: seq<Bytes>, records: seq<Bytes>)
    ensures Framed(crc, m, ps, records[..0]) == m
  {
  }

  lemma FramedSnoc(crc: Crc, m: Bytes, ps: seq<Bytes>, records: seq<Bytes>, i: nat)
    requires i < |records| && Offset(ps + records[..i]) + EntrySize(|records[i]|) <= |m|
    ensures Framed(crc, m, ps, records[..i + 1]) ==
            Spliced(Framed(crc, m, ps, records[..i]), Offset(ps + records[..i]), Frame(crc, records[i]))
  {
    hide Offset, Frame, Spliced;
    assert Front(records[..i + 1]) == records[..i] && Last(records[..i + 1]) == records[i];
  }

  lemma FramedOne(crc: Crc, m: Bytes, ps: seq<Bytes>, p: Bytes)
    requires Offset(ps) + EntrySize(|p|) <= |m|
    ensures Framed(crc, m, ps, [p]) == Spliced(m, Offset(ps), Frame(crc, p))
  {
    hide Offset, Frame, Spliced;
    assert Front([p]) == [] && ps + [] == ps;
  }

  /** Writing a batch leaves the bytes that writing its records one by one would have left. */
  lemma {:induction false} FramedConcat(crc: Crc, m: Bytes, ps: seq<Bytes>, a: seq<Bytes>, b: seq<Bytes>)
    ensures Framed(crc, m, ps, a + b) == Framed(crc, Framed(crc, m, ps, a), ps + a, b)
  {
    hide Offset, Frame, Spliced;
    if b == [] {
      assert a + b == a;
    } else {
      FramedConcat(crc, m, ps, a, Front(b));
      assert Front(a + b) == a + Front(b) && Last(a + b) == Last(b);
      Associative(ps, a, Front(b));
    }
  }

  /** A record no segment of this size can hold. */
  predicate Oversize(size: nat, p: Bytes) {
    EntrySize(|p|) > size - SEGMENT_HEADER_SIZE
  }

  /** Exactly the first k records fit behind those already there. */
  predicate Fits(size: nat, ps: seq<Bytes>, records: seq<Bytes>, k: nat) {
    && k <= |records|
    && Offset(ps + records[..k]) <= size
    && (k < |records| ==> Offset(ps + records[..k + 1]) > size)
  }

  lemma BatchStep(ps: seq<Bytes>, records: seq<Bytes>, i: nat)
    requires i < |records|
    ensures ps + records[..i + 1] == ps + records[..i] + [records[i]]
    ensures Offset(ps + records[..i + 1]) == Offset(ps + records[..i]) + EntrySize(|records[i]|)
  {
    var s := ps + records[..i + 1];
    assert s == ps + records[..i] + [records[i]];
    assert Front(s) == ps + records[..i] && Last(s) == records[i];
  }

  lemma OffsetGrows(ps: seq<Bytes>, records: seq<Bytes>, i: nat, k: nat)
    requires i <= k <= |records|
    ensures Offset(ps + records[..i]) <= Offset(ps + records[..k])
  {
    var s := ps + records[..k];
    assert s[..|ps| + i] == ps + records[..i];
    EndGrows(SEGMENT_HEADER_SIZE, s, |ps| + i);
  }

  lemma OffsetAtLeastHeader(ps: seq<Bytes>)
    ensures Offset(ps) >= SEGMENT_HEADER_SIZE
  {
    EndGrows(SEGMENT_HEADER_SIZE, ps, 0);
  }

  /** Offsets order the records of a segment. */
  lemma OffsetsOrdered(ps: seq<Bytes>, j: nat, k: nat)
    requires j <= |ps| && k <= |ps|
    ensures Offset(ps[..j]) < Offset(ps[..k]) <==> j < k
  {
    hide End;
    if j < k {
      FramesDisjoint(SEGMENT_HEADER_SIZE, ps, j, k);
      EndGrows(SEGMENT_HEADER_SIZE, ps, j);
    } else if k < j {
      FramesDisjoint(SEGMENT_HEADER_SIZE, ps, k, j);
    }
  }

  /** At most one count satisfies Fits. */
  lemma FitsUnique(size: nat, ps: seq<Bytes>, records: seq<Bytes>, j: nat, k: nat)
    requires Fits(size, ps, records, j) && Fits(size, ps, records, k)
    ensures j == k
  {
    hide End;
    if j < k {
      OffsetGrows(ps, records, j + 1, k);
    } else if k < j {
      OffsetGrows(ps, records, k + 1, j);
    }
  }

  /** The header is one that opens, and says what the segment is; a sealed one holds the write offset. */
  predicate HeaderFits(crc: Crc, header: Bytes, offset: nat, isSealed: bool) {
    && |header| == SEGMENT_HEADER_SIZE && HeaderOk(crc, header)
    && SealedFlag(FlagsOf(header)) == isSealed
    && (isSealed ==> OffsetOf(header) == offset)
  }

  /**
   Opens an existing segment file. A header whose checksum does not match is refused. A sealed segment keeps the write
   offset in its header, for the records it was sealed with; an active one ends where the scan stops, whatever its
   bytes are.
   */
  method OpenSegmentFile(id: nat, crc: Crc, header: Bytes, mmap: array<Byte>, ghost held: seq<Bytes>)
    returns (r: Result<Segment, SegmentError>, ghost found: seq<Bytes>)
    requires SEGMENT_HEADER_SIZE <= mmap.Length <= MAX_SEGMENT_SIZE && |header| == SEGMENT_HEADER_SIZE
    requires HeaderOk(crc, header) && SealedFlag(FlagsOf(header)) ==>
               && OffsetOf(header) == End(SEGMENT_HEADER_SIZE, held) <= mmap.Length
               && Laid(crc, mmap[..], SEGMENT_HEADER_SIZE, held)
    ensures r == Err(HeaderMismatch) <==> !HeaderOk(crc, header)
    ensures HeaderOk(crc, header) && SealedFlag(FlagsOf(header)) ==> r.Ok? && found == held
    ensures HeaderOk(crc, header) && !SealedFlag(FlagsOf(header)) ==>
              && Longest(crc, mmap[..], SEGMENT_HEADER_SIZE, found)
              && (r.Err? <==> OverflowsAt(mmap[..], End(SEGMENT_HEADER_SIZE, found)))
    ensures r.Ok? ==> fresh(r.value) && r.value.Valid() && r.value.mmap == mmap && r.value.payloads == found
    ensures r.Ok? ==> r.value.id == id && r.value.crc == crc && r.value.header == header
    ensures r.Ok? ==> r.value.isSealed == SealedFlag(FlagsOf(header)) && !r.value.inMemorySealed
  {
    hide Laid, OverflowsAt, ValidAt, HeaderOk, SealedFlag, FlagsOf, OffsetOf;
    found := held;
    if !HeaderOk(crc, header) {
      return Err(HeaderMismatch), found;
    }
    var end := OffsetOf(header);
    if !SealedFlag(FlagsOf(header)) {
      var scanned := ScanForLastOffset(crc, mmap);
      found :| Longest(crc, mmap[..], SEGMENT_HEADER_SIZE, found) && scanned == ScanResult(mmap[..], found);
      if scanned.Err? {
        return Err(ScanPanics), found;
      }
      end := scanned.value;
      LaidInBounds(crc, mmap[..], SEGMENT_HEADER_SIZE, found);
    }
    var segment := new Segment.Over(id, crc, header, mmap, end, found);
    return Ok(segment), found;
  }

  lemma LaidInBounds(crc: Crc, m: Bytes, off: nat, ps: seq<Bytes>)
    requires Laid(crc, m, off, ps) && off <= |m|
    ensures End(off, ps) <= |m|
  {
  }

  /** Putting a frame down behind others leaves those in place. */
  lemma Extended(crc: Crc, before: Bytes, after: Bytes, ps: seq<Bytes>, p: Bytes)
    requires |before| <= MAX_SEGMENT_SIZE && Laid(crc, before, SEGMENT_HEADER_SIZE, ps)
    requires End(SEGMENT_HEADER_SIZE, ps) + EntrySize(|p|) <= |before|
    requires after == Spliced(before, End(SEGMENT_HEADER_SIZE, ps), Frame(crc, p))
    ensures Laid(crc, after, SEGMENT_HEADER_SIZE, ps + [p])
    ensures End(SEGMENT_HEADER_SIZE, ps + [p]) == End(SEGMENT_HEADER_SIZE, ps) + EntrySize(|p|)
  {
    hide FieldsAt, Frame, Spliced;
    SplicedParts(before, End(SEGMENT_HEADER_SIZE, ps), Frame(crc, p));
    var e := End(SEGMENT_HEADER_SIZE, ps);
    EndGrows(SEGMENT_HEADER_SIZE, ps, 0);
    LaidSame(crc, before, after, SEGMENT_HEADER_SIZE, ps);
    FrameFields(crc, after, e, p);
    LaidSnoc(crc, after, SEGMENT_HEADER_SIZE, ps, p);
  }
}
