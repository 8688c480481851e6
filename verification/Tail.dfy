/**
 One writer and one tailing reader of a segment, step by step (pkg/walfs/segment.go: Write, WriteBatch, SealSegment,
 SegmentReader.Next, Read).

 The writer copies bytes one at a time behind the write offset, stores the new offset, and may seal. The reader loads
 the sealed flag, then the write offset, and if it is behind it reads the record with further loads of the offset.
 Every load and store is a step of its own, in any interleaving.
 */
module Tail {
  import opened Basics
  import opened Words
  import opened Framing
  import opened Segments

  /** Where the reader stands inside one call of Next. */
  datatype Place =
    | Idle
    | SealLoaded(isSealed: bool)
    | OffsetLoaded(isSealed: bool, limit: nat, count: nat)
    | Behind(isSealed: bool)
    | LengthRead(isSealed: bool, length: nat)
    | LengthChecked(isSealed: bool, length: nat)
    | EndChecked(isSealed: bool, length: nat)

  datatype Outcome = Delivered(p: Bytes) | EndOfSegment | NoNewData(count: nat) | Failed(error: SegmentError)

  datatype State = State(
    m: Bytes,
    writeOffset: nat,
    isSealed: bool,
    payloads: seq<Bytes>,
    place: Place,
    readOffset: nat,
    got: seq<Bytes>,
    last: Option<Outcome>)

  datatype Step =
    | CopyByte(at: nat, b: Byte)
    | StoreOffset(records: seq<Bytes>)
    | Seal
    | LoadSealed
    | LoadOffset
    | Compare
    | ReadLength
    | CheckLength
    | CheckEnd
    | TakeRecord(checked: bool)

  /** The write lock keeps copying, storing and sealing apart; a writer stores the offset once the frames are in place. */
  ghost predicate Enabled(crc: Crc, s: State, step: Step) {
    match step
    case CopyByte(at, _) => !s.isSealed && s.writeOffset <= at < |s.m|
    case StoreOffset(records) =>
      !s.isSealed && Offset(s.payloads + records) <= |s.m| && Laid(crc, s.m, SEGMENT_HEADER_SIZE, s.payloads + records)
    case Seal => true
    case LoadSealed => s.place.Idle?
    case LoadOffset => s.place.SealLoaded?
    case Compare => s.place.OffsetLoaded?
    case ReadLength => s.place.Behind?
    case CheckLength => s.place.LengthRead?
    case CheckEnd => s.place.LengthChecked?
    case TakeRecord(_) => s.place.EndChecked?
  }

  function Return(s: State, outcome: Outcome): State {
    s.(place := Idle, last := Some(outcome))
  }

  ghost function Do(crc: Crc, s: State, step: Step): State
    requires Enabled(crc, s, step)
  {
    match step
    case CopyByte(at, b) => s.(m := s.m[at := b])
    case StoreOffset(records) => s.(payloads := s.payloads + records, writeOffset := Offset(s.payloads + records))
    case Seal => s.(isSealed := true)
    case LoadSealed => s.(place := SealLoaded(s.isSealed))
    case LoadOffset => s.(place := OffsetLoaded(s.place.isSealed, s.writeOffset, |s.payloads|))
    case Compare =>
      if s.readOffset < s.place.limit then s.(place := Behind(s.place.isSealed))
      else if s.place.isSealed then Return(s, EndOfSegment)
      else Return(s, NoNewData(s.place.count))
    case ReadLength =>
      if s.readOffset + HEADER_SIZE > |s.m| then EofIn(s, s.place.isSealed)
      else s.(place := LengthRead(s.place.isSealed, FromLittleEndian32(s.m[s.readOffset + 4..s.readOffset + 8])))
    case CheckLength =>
      if s.place.length > (s.writeOffset - s.readOffset - HEADER_SIZE) % WORD then Return(s, Failed(CorruptHeader))
      else s.(place := LengthChecked(s.place.isSealed, s.place.length))
    case CheckEnd =>
      if s.readOffset + EntrySize(s.place.length) > s.writeOffset then EofIn(s, s.place.isSealed)
      else s.(place := EndChecked(s.place.isSealed, s.place.length))
    case TakeRecord(checked) =>
      var off, n := s.readOffset, s.place.length;
      if off + HEADER_SIZE + n + TRAILER_SIZE > |s.m| || s.m[off + 8 + n..off + 16 + n] != TRAILER then
        Return(s, Failed(IncompleteChunk))
      else
        var data := s.m[off + 8..off + 8 + n];
        if checked && FromLittleEndian32(s.m[off..off + 4]) != Sum(crc, data) then Return(s, Failed(InvalidCrc))
        else Return(s.(readOffset := off + EntrySize(n), got := s.got + [data]), Delivered(data))
  }

  /** End of file from inside a read counts as no new data while the segment was seen unsealed. */
  function EofIn(s: State, isSealed: bool): State {
    Return(s, if isSealed then Failed(Eof) else NoNewData(|s.payloads|))
  }

  ghost predicate IsRun(crc: Crc, s: State, steps: seq<Step>, s': State)
    decreases |steps|
  {
    if steps == [] then s == s'
    else Enabled(crc, s, steps[0]) && IsRun(crc, Do(crc, s, steps[0]), steps[1..], s')
  }

  /** A new segment with a reader at its start. */
  function Fresh(size: nat): State {
    State(Zeros(size), SEGMENT_HEADER_SIZE, false, [], Idle, SEGMENT_HEADER_SIZE, [], None)
  }

  // ---- The invariant ----

  ghost predicate WriterOk(crc: Crc, s: State) {
    && SEGMENT_HEADER_SIZE <= |s.m| <= MAX_SEGMENT_SIZE
    && s.writeOffset == Offset(s.payloads) <= |s.m|
    && Laid(crc, s.m, SEGMENT_HEADER_SIZE, s.payloads)
  }

  /** The next record to read is there, and the reader's view of it is right. */
  ghost predicate NextIs(s: State, n: nat) {
    |s.got| < |s.payloads| && |s.payloads[|s.got|]| == n
  }

  ghost predicate PlaceOk(s: State) {
    match s.place
    case Idle => true
    case SealLoaded(b) => b ==> s.isSealed
    case OffsetLoaded(b, limit, count) =>
      && count <= |s.payloads| && limit == Offset(s.payloads[..count]) && |s.got| <= count
      && (b ==> s.isSealed && count == |s.payloads|)
    case Behind(b) => |s.got| < |s.payloads|
    case LengthRead(b, n) => NextIs(s, n)
    case LengthChecked(b, n) => NextIs(s, n)
    case EndChecked(b, n) => NextIs(s, n)
  }

  ghost predicate ReaderOk(s: State) {
    && |s.got| <= |s.payloads| && s.got == s.payloads[..|s.got|]
    && s.readOffset == Offset(s.got)
    && PlaceOk(s)
  }

  ghost predicate OutcomeOk(s: State) {
    s.last.Some? ==>
      match s.last.value
      case Delivered(p) => s.got != [] && Last(s.got) == p
      case EndOfSegment => s.isSealed && s.got == s.payloads
      case NoNewData(count) => count == |s.got|
      case Failed(_) => false
  }

  ghost predicate Inv(crc: Crc, s: State) {
    WriterOk(crc, s) && ReaderOk(s) && OutcomeOk(s)
  }

  // ---- Writer steps ----

  lemma KeepsWriter(crc: Crc, s: State, step: Step)
    requires Inv(crc, s) && Enabled(crc, s, step) && (step.CopyByte? || step.StoreOffset? || step.Seal?)
    ensures Inv(crc, Do(crc, s, step))
  {
    hide Laid, End;
    match step {
      case CopyByte(at, b) =>
        assert s.m[at := b][..s.writeOffset] == s.m[..s.writeOffset];
        LaidSame(crc, s.m, s.m[at := b], SEGMENT_HEADER_SIZE, s.payloads);
      case StoreOffset(records) =>
        var more := s.payloads + records;
        assert more[..|s.got|] == s.payloads[..|s.got|];
        if s.place.OffsetLoaded? {
          assert more[..s.place.count] == s.payloads[..s.place.count];
        }
      case Seal =>
    }
  }

  // ---- Reader steps ----

  lemma KeepsLoads(crc: Crc, s: State, step: Step)
    requires Inv(crc, s) && Enabled(crc, s, step) && (step.LoadSealed? || step.LoadOffset? || step.Compare?)
    ensures Inv(crc, Do(crc, s, step))
  {
    hide Laid, End;
    assert s.payloads[..|s.payloads|] == s.payloads;
    if step.Compare? {
      OffsetsOrdered(s.payloads, |s.got|, s.place.count);
    }
  }

  /** The bytes of the next record, as they stand while it is being read. */
  lemma NextRecord(crc: Crc, s: State)
    requires WriterOk(crc, s) && ReaderOk(s) && |s.got| < |s.payloads|
    ensures var p := s.payloads[|s.got|];
            && FieldsAt(crc, s.m, s.readOffset, p)
            && SEGMENT_HEADER_SIZE <= s.readOffset && s.readOffset + EntrySize(|p|) <= s.writeOffset <= |s.m|
            && Offset(s.got + [p]) == s.readOffset + EntrySize(|p|)
            && s.got + [p] == s.payloads[..|s.got| + 1]
  {
    hide FieldsAt;
    var k := |s.got|;
    LaidPrefix(crc, s.m, SEGMENT_HEADER_SIZE, s.payloads, k);
    EndGrows(SEGMENT_HEADER_SIZE, s.payloads, k);
    assert s.payloads[..k + 1] == s.payloads[..k] + [s.payloads[k]];
  }

  lemma KeepsLengthSteps(crc: Crc, s: State, step: Step)
    requires Inv(crc, s) && Enabled(crc, s, step) && (step.ReadLength? || step.CheckLength? || step.CheckEnd?)
    ensures Inv(crc, Do(crc, s, step))
  {
    hide Laid, End, Sum, LittleEndian32, FromLittleEndian32;
    NextRecord(crc, s);
    var p := s.payloads[|s.got|];
    LittleRoundTrip(|p|);
    var room := s.writeOffset - s.readOffset - HEADER_SIZE;
    assert |p| <= room && room % WORD == room;
  }

  lemma KeepsTakeRecord(crc: Crc, s: State, step: Step)
    requires Inv(crc, s) && Enabled(crc, s, step) && step.TakeRecord?
    ensures Inv(crc, Do(crc, s, step)) && Do(crc, s, step).got == s.got + [s.payloads[|s.got|]]
  {
    hide Laid, End, Sum, LittleEndian32, FromLittleEndian32;
    NextRecord(crc, s);
    var p := s.payloads[|s.got|];
    SumSmall(crc, p);
    LittleRoundTrip(Sum(crc, p));
  }

  lemma {:induction false} RunKeepsInvariant(crc: Crc, s: State, steps: seq<Step>, s': State)
    requires Inv(crc, s) && IsRun(crc, s, steps, s')
    ensures Inv(crc, s')
    decreases |steps|
  {
    hide Inv, Enabled, Do;
    if steps != [] {
      var step := steps[0];
      if step.CopyByte? || step.StoreOffset? || step.Seal? {
        KeepsWriter(crc, s, step);
      } else if step.LoadSealed? || step.LoadOffset? || step.Compare? {
        KeepsLoads(crc, s, step);
      } else if step.TakeRecord? {
        KeepsTakeRecord(crc, s, step);
      } else {
        KeepsLengthSteps(crc, s, step);
      }
      RunKeepsInvariant(crc, Do(crc, s, step), steps[1..], s');
    }
  }

  /**
   In every interleaving the reader has received a prefix of the records, whole and in order; it is told the segment
   has ended only when it is sealed and every record was delivered; no read ever fails.
   */
  lemma ReaderSeesPrefix(crc: Crc, size: nat, steps: seq<Step>, s: State)
    requires SEGMENT_HEADER_SIZE <= size <= MAX_SEGMENT_SIZE && IsRun(crc, Fresh(size), steps, s)
    ensures s.got <= s.payloads
    ensures s.last == Some(EndOfSegment) ==> s.isSealed && s.got == s.payloads
    ensures s.last.Some? ==> !s.last.value.Failed?
  {
    hide Laid;
    FreshOk(crc, size);
    RunKeepsInvariant(crc, Fresh(size), steps, s);
  }

  // ---- What each call of Next returns ----

  /** What the two loads of the reader's current or last call of Next have seen. */
  datatype Loaded = Loaded(isSealed: bool, stored: seq<Bytes>)

  function LoadedBy(s: State, step: Step, seen: Loaded): Loaded {
    match step
    case LoadSealed => seen.(isSealed := s.isSealed)
    case LoadOffset => seen.(stored := s.payloads)
    case _ => seen
  }

  ghost function LoadedIn(crc: Crc, s: State, steps: seq<Step>, s': State, seen: Loaded): Loaded
    requires IsRun(crc, s, steps, s')
    decreases |steps|
  {
    if steps == [] then seen else LoadedIn(crc, Do(crc, s, steps[0]), steps[1..], s', LoadedBy(s, steps[0], seen))
  }

  /** The reader's place goes with what was loaded. */
  ghost predicate SeenOk(s: State, seen: Loaded) {
    match s.place
    case Idle => true
    case SealLoaded(b) => b == seen.isSealed
    case OffsetLoaded(b, limit, _) =>
      b == seen.isSealed && limit == Offset(seen.stored) && seen.stored <= s.payloads && |s.got| <= |seen.stored|
    case Behind(b) => ReadsNext(s, seen, b)
    case LengthRead(b, _) => ReadsNext(s, seen, b)
    case LengthChecked(b, _) => ReadsNext(s, seen, b)
    case EndChecked(b, _) => ReadsNext(s, seen, b)
  }

  ghost predicate ReadsNext(s: State, seen: Loaded, b: bool) {
    b == seen.isSealed && |s.got| < |seen.stored| && seen.stored <= s.payloads
  }

  /** The call ends with this step. */
  predicate Returns(s: State, s': State) {
    !s.place.Idle? && s'.place.Idle?
  }

  lemma StepSees(crc: Crc, s: State, step: Step, seen: Loaded)
    requires Inv(crc, s) && Enabled(crc, s, step) && SeenOk(s, seen)
    ensures SeenOk(Do(crc, s, step), LoadedBy(s, step, seen))
    ensures Returns(s, Do(crc, s, step)) ==>
              if |s.got| < |seen.stored|
              then
                && Do(crc, s, step).last == Some(Delivered(seen.stored[|s.got|]))
                && Do(crc, s, step).got == s.got + [seen.stored[|s.got|]]
              else seen.stored == s.got == Do(crc, s, step).got &&
                   Do(crc, s, step).last == Some(if seen.isSealed then EndOfSegment else NoNewData(|s.got|))
  {
    hide Laid, End, Sum, LittleEndian32, FromLittleEndian32;
    match step {
      case CopyByte(_, _) =>
      case StoreOffset(_) =>
      case Seal =>
      case LoadSealed =>
      case LoadOffset =>
      case Compare =>
        CompareSees(crc, s, seen);
      case TakeRecord(_) =>
        KeepsTakeRecord(crc, s, step);
        assert s.payloads[|s.got|] == seen.stored[|s.got|];
      case _ =>
        KeepsLengthSteps(crc, s, step);
    }
  }

  lemma CompareSees(crc: Crc, s: State, seen: Loaded)
    requires Inv(crc, s) && s.place.OffsetLoaded? && SeenOk(s, seen)
    ensures s.readOffset < s.place.limit <==> |s.got| < |seen.stored|
    ensures s.place.count == |s.got| || |s.got| < |seen.stored|
  {
    hide Laid, End;
    assert s.got == seen.stored[..|s.got|] && seen.stored[..|seen.stored|] == seen.stored;
    OffsetsOrdered(seen.stored, |s.got|, |seen.stored|);
    OffsetsOrdered(s.payloads, |s.got|, s.place.count);
    assert s.payloads[..|seen.stored|] == seen.stored;
    OffsetsOrdered(s.payloads, |seen.stored|, s.place.count);
    OffsetsOrdered(s.payloads, s.place.count, |seen.stored|);
  }

  lemma {:induction false} RunSees(crc: Crc, s: State, steps: seq<Step>, s': State, seen: Loaded)
    requires Inv(crc, s) && IsRun(crc, s, steps, s') && SeenOk(s, seen)
    ensures Inv(crc, s') && SeenOk(s', LoadedIn(crc, s, steps, s', seen))
    decreases |steps|
  {
    hide Inv, Enabled, Do, SeenOk, LoadedBy;
    if steps != [] {
      StepSees(crc, s, steps[0], seen);
      RunKeepsInvariant(crc, s, steps[..1], Do(crc, s, steps[0]));
      RunSees(crc, Do(crc, s, steps[0]), steps[1..], s', LoadedBy(s, steps[0], seen));
    }
  }

  /**
   What every call of Next returns, in every interleaving: the next record, if it was stored when the call loaded the
   offset; otherwise the end of the segment, if it was sealed when the call loaded the flag, and no new data if not. So
   no new data is reported only if every record stored at the load has been delivered.
   */
  lemma NextReturns(crc: Crc, size: nat, steps: seq<Step>, s: State, step: Step)
    requires SEGMENT_HEADER_SIZE <= size <= MAX_SEGMENT_SIZE && IsRun(crc, Fresh(size), steps, s)
    requires Enabled(crc, s, step) && Returns(s, Do(crc, s, step))
    ensures var seen, s' := LoadedIn(crc, Fresh(size), steps, s, Loaded(false, [])), Do(crc, s, step);
            if |s.got| < |seen.stored| then
              s'.last == Some(Delivered(seen.stored[|s.got|])) && s'.got == s.got + [seen.stored[|s.got|]]
            else
              && seen.stored == s.got == s'.got
              && s'.last == Some(if seen.isSealed then EndOfSegment else NoNewData(|s.got|))
  {
    hide Laid, Do, Enabled;
    FreshOk(crc, size);
    RunSees(crc, Fresh(size), steps, s, Loaded(false, []));
    StepSees(crc, s, step, LoadedIn(crc, Fresh(size), steps, s, Loaded(false, [])));
  }

  // ---- A read step by step, whatever the bytes ----

  /** What Next makes of the result of a read that saw the segment sealed or not. */
  function OutcomeOf(r: Result<Bytes, SegmentError>, isSealed: bool, stored: nat): Outcome {
    match r
    case Ok(data) => Delivered(data)
    case Err(e) => if e.Eof? && !isSealed then NoNewData(stored) else Failed(e)
  }

  /** How a read ends that begins in s, and what it leaves the reader with. */
  ghost predicate EndsAs(s: State, s': State, isSealed: bool, r: Result<Bytes, SegmentError>) {
    && s'.place.Idle? && s'.last == Some(OutcomeOf(r, isSealed, |s.payloads|))
    && s'.got == (if r.Ok? then s.got + [r.value] else s.got)
    && s'.readOffset == (if r.Ok? then s.readOffset + EntrySize(|r.value|) else s.readOffset)
  }

  predicate ReadSteps(steps: seq<Step>, checked: bool) {
    forall i :: 0 <= i < |steps| ==> steps[i] in {ReadLength, CheckLength, CheckEnd, TakeRecord(checked)}
  }

  /** The length word the reader has in hand. */
  ghost predicate HasLength(s: State, n: nat) {
    && s.readOffset + HEADER_SIZE <= |s.m| && s.writeOffset <= |s.m|
    && n == FromLittleEndian32(s.m[s.readOffset + 4..s.readOffset + 8])
  }

  predicate LengthPasses(s: State, n: nat) {
    n <= (s.writeOffset - s.readOffset - HEADER_SIZE) % WORD
  }

  lemma TakesLikeRead(crc: Crc, s: State, checked: bool)
    requires s.place.EndChecked? && HasLength(s, s.place.length) && LengthPasses(s, s.place.length)
    requires s.readOffset + EntrySize(s.place.length) <= s.writeOffset
    ensures EndsAs(s, Do(crc, s, TakeRecord(checked)), s.place.isSealed,
                   ReadAt(crc, s.m, s.writeOffset, checked, s.readOffset))
  {
    hide Sum, FromLittleEndian32;
  }

  lemma ChecksEnd(crc: Crc, s: State, checked: bool)
    requires s.place.LengthChecked? && HasLength(s, s.place.length) && LengthPasses(s, s.place.length)
    ensures var s1 := Do(crc, s, CheckEnd);
            if s1.place.Idle? then EndsAs(s, s1, s.place.isSealed, ReadAt(crc, s.m, s.writeOffset, checked, s.readOffset))
            else s1 == s.(place := EndChecked(s.place.isSealed, s.place.length)) &&
                 s.readOffset + EntrySize(s.place.length) <= s.writeOffset
  {
    hide Sum, FromLittleEndian32;
  }

  lemma EndsLikeRead(crc: Crc, s: State, checked: bool) returns (steps: seq<Step>, s': State)
    requires s.place.LengthChecked? && HasLength(s, s.place.length) && LengthPasses(s, s.place.length)
    ensures IsRun(crc, s, steps, s') && ReadSteps(steps, checked)
    ensures EndsAs(s, s', s.place.isSealed, ReadAt(crc, s.m, s.writeOffset, checked, s.readOffset))
  {
    hide Do, IsRun, ReadAt, FromLittleEndian32, EntrySize;
    ChecksEnd(crc, s, checked);
    s' := Do(crc, s, CheckEnd);
    NoSteps(crc, s');
    steps := [];
    if !s'.place.Idle? {
      TakesLikeRead(crc, s', checked);
      NoSteps(crc, Do(crc, s', TakeRecord(checked)));
      steps := Prepended(crc, s', TakeRecord(checked), steps, Do(crc, s', TakeRecord(checked)));
      s' := Do(crc, s', TakeRecord(checked));
    }
    steps := Prepended(crc, s, CheckEnd, steps, s');
  }

  lemma ChecksLength(crc: Crc, s: State, checked: bool)
    requires s.place.Behind? && s.writeOffset <= |s.m|
    ensures var s1, r := Do(crc, s, ReadLength), ReadAt(crc, s.m, s.writeOffset, checked, s.readOffset);
            if s1.place.Idle? then EndsAs(s, s1, s.place.isSealed, r)
            else
              && s1.place.LengthRead?
              && var s2 := Do(crc, s1, CheckLength);
              if s2.place.Idle? then EndsAs(s, s2, s.place.isSealed, r)
              else s2 == s.(place := LengthChecked(s.place.isSealed, s1.place.length)) &&
                   HasLength(s, s1.place.length) && LengthPasses(s, s1.place.length)
  {
    hide Sum, FromLittleEndian32, EntrySize;
  }

  /**
   With no writer in between, the steps of a read do what Segments.ReadAt does in one, on any bytes, damaged or not:
   the same checks in the same order, and the reader moves on only if a payload is returned.
   */
  lemma ReadsLikeRead(crc: Crc, s: State, checked: bool) returns (steps: seq<Step>, s': State)
    requires s.place.Behind? && s.writeOffset <= |s.m|
    ensures IsRun(crc, s, steps, s') && ReadSteps(steps, checked)
    ensures EndsAs(s, s', s.place.isSealed, ReadAt(crc, s.m, s.writeOffset, checked, s.readOffset))
  {
    hide Do, IsRun, ReadAt, FromLittleEndian32, EntrySize;
    ChecksLength(crc, s, checked);
    var s1 := Do(crc, s, ReadLength);
    NoSteps(crc, s1);
    steps, s' := [], s1;
    if !s1.place.Idle? {
      s' := Do(crc, s1, CheckLength);
      NoSteps(crc, s');
      if !s'.place.Idle? {
        steps, s' := EndsLikeRead(crc, s', checked);
      }
      steps := Prepended(crc, s1, CheckLength, steps, s');
    }
    steps := Prepended(crc, s, ReadLength, steps, s');
  }

  lemma NoSteps(crc: Crc, s: State)
    ensures IsRun(crc, s, [], s)
  {
  }

  lemma Prepended(crc: Crc, s: State, step: Step, rest: seq<Step>, s': State) returns (steps: seq<Step>)
    requires Enabled(crc, s, step) && IsRun(crc, Do(crc, s, step), rest, s')
    ensures steps == [step] + rest && IsRun(crc, s, steps, s')
  {
    steps := [step] + rest;
    assert steps[1..] == rest;
  }

  lemma FreshOk(crc: Crc, size: nat)
    requires SEGMENT_HEADER_SIZE <= size <= MAX_SEGMENT_SIZE
    ensures Inv(crc, Fresh(size))
  {
  }
}
