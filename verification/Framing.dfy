/**
 Record frames and the recovery scan (pkg/walfs/segment.go).

 A frame is a checksum word, a length word, the payload, an eight-byte trailer, and zero padding up to the next
 multiple of eight. The checksum function is a parameter: everything here holds for whatever it computes.
 */
module Framing {
  import opened Basics
  import opened Words

  const HEADER_SIZE := 8
  const TRAILER_SIZE := 8
  const SEGMENT_HEADER_SIZE := 64
  const MAX_SEGMENT_SIZE := WORD

  const TRAILER: Bytes := [0xDE, 0xAD, 0xBE, 0xEF, 0xFE, 0xED, 0xFA, 0xCE]

  type Crc = Bytes -> nat

  function AlignUp(n: nat): (r: nat)
    ensures n <= r < n + 8 && r % 8 == 0
  {
    (n + 7) / 8 * 8
  }

  function EntrySize(n: nat): nat {
    AlignUp(HEADER_SIZE + n + TRAILER_SIZE)
  }

  /** The size estimate of the batch path: payload aligned first, header and trailer added after. */
  function RecordOverhead(n: nat): nat {
    AlignUp(n) + HEADER_SIZE + TRAILER_SIZE
  }

  /** Both ways of rounding give the same size, so a record accepted by the estimate fits an empty segment. */
  lemma OverheadIsEntrySize(n: nat)
    ensures RecordOverhead(n) == EntrySize(n)
  {
  }

  function Zeros(n: nat): (z: Bytes)
    ensures |z| == n && forall i :: 0 <= i < n ==> z[i] == 0
  {
    seq(n, _ => 0)
  }

  /** The checksum covers the length word and the payload. */
  function Sum(crc: Crc, p: Bytes): (s: nat)
    ensures s < WORD
  {
    crc(LittleEndian32(|p|) + p) % WORD
  }

  function Frame(crc: Crc, p: Bytes): (f: Bytes)
    ensures |f| == EntrySize(|p|)
  {
    LittleEndian32(Sum(crc, p)) + LittleEndian32(|p|) + p + TRAILER + Zeros(EntrySize(|p|) - HEADER_SIZE - |p| - TRAILER_SIZE)
  }

  /** Where a run of frames starting at an offset ends. */
  function End(off: nat, ps: seq<Bytes>): nat {
    if ps == [] then off else End(off, Front(ps)) + EntrySize(|Last(ps)|)
  }

  /** Frames start at multiples of eight, and each ends where the next one starts. */
  lemma {:induction false} FramesDisjoint(off: nat, ps: seq<Bytes>, i: nat, j: nat)
    requires off % 8 == 0 && i < j <= |ps|
    ensures End(off, ps[..i]) % 8 == 0
    ensures End(off, ps[..i]) + EntrySize(|ps[i]|) <= End(off, ps[..j])
    decreases j
  {
    Aligned(off, ps[..i]);
    if i + 1 == j {
      assert Front(ps[..j]) == ps[..i] && Last(ps[..j]) == ps[i];
    } else {
      FramesDisjoint(off, ps, i, j - 1);
      assert Front(ps[..j]) == ps[..j - 1];
    }
  }

  lemma {:induction false} Aligned(off: nat, ps: seq<Bytes>)
    requires off % 8 == 0
    ensures End(off, ps) % 8 == 0 && End(off, ps) >= off
  {
    if ps != [] {
      Aligned(off, Front(ps));
    }
  }

  // ---- What a reader and the scan accept as a frame ----

  /** Checksum, length, payload and trailer of p stand at an offset; padding is not looked at. */
  predicate FieldsAt(crc: Crc, m: Bytes, off: nat, p: Bytes) {
    && off + EntrySize(|p|) <= |m|
    && |p| < WORD - HEADER_SIZE - TRAILER_SIZE
    && m[off..off + 4] == LittleEndian32(Sum(crc, p))
    && m[off + 4..off + 8] == LittleEndian32(|p|)
    && m[off + 8..off + 8 + |p|] == p
    && m[off + 8 + |p|..off + 16 + |p|] == TRAILER
  }

  /** Frames of these payloads, one after the other. */
  predicate Laid(crc: Crc, m: Bytes, off: nat, ps: seq<Bytes>)
    decreases |ps|
  {
    ps == [] || (Laid(crc, m, off, Front(ps)) && FieldsAt(crc, m, End(off, Front(ps)), Last(ps)))
  }

  /** The scan also insists on a checksum other than zero. */
  predicate ValidAt(crc: Crc, m: Bytes, off: nat, p: Bytes) {
    FieldsAt(crc, m, off, p) && Sum(crc, p) != 0
  }

  /** Consecutive frames that the scan accepts. */
  ghost predicate Run(crc: Crc, m: Bytes, off: nat, ps: seq<Bytes>) {
    Laid(crc, m, off, ps) && forall i :: 0 <= i < |ps| ==> Sum(crc, ps[i]) != 0
  }

  /** A length word so large that adding header and trailer wraps around in 32 bits. */
  predicate OverflowsAt(m: Bytes, off: nat) {
    && off + HEADER_SIZE <= |m|
    && var n := FromLittleEndian32(m[off + 4..off + 8]);
    && n >= WORD - HEADER_SIZE - TRAILER_SIZE
    && off + AlignUp(n + HEADER_SIZE + TRAILER_SIZE - WORD) <= |m|
  }

  // ---- The scan ----

  datatype Probe = Stop | Panic | Found(length: nat)

  /** One iteration of the scan loop; the frame size is computed in 32 bits. */
  function ProbeAt(crc: Crc, m: Bytes, off: nat): Probe
    requires off + HEADER_SIZE <= |m|
  {
    var n := FromLittleEndian32(m[off + 4..off + 8]);
    var entry := AlignUp((HEADER_SIZE + n + TRAILER_SIZE) % WORD);
    if off + entry > |m| then Stop
    else if off + HEADER_SIZE + n + TRAILER_SIZE > |m| then Panic  // slice bounds out of range
    else
      var saved := FromLittleEndian32(m[off..off + 4]);
      var data := m[off + 8..off + 8 + n];
      if saved == 0 || saved != crc(m[off + 4..off + 8] + data) % WORD || m[off + 8 + n..off + 16 + n] != TRAILER then Stop
      else Found(n)
  }

  lemma ProbeFinds(crc: Crc, m: Bytes, off: nat, p: Bytes)
    requires |m| <= MAX_SEGMENT_SIZE && ValidAt(crc, m, off, p)
    ensures off + HEADER_SIZE <= |m| && ProbeAt(crc, m, off) == Found(|p|)
  {
    hide FromLittleEndian32, LittleEndian32;
    LittleRoundTrip(|p|);
    LittleRoundTrip(Sum(crc, p));
    assert FromLittleEndian32(m[off + 4..off + 8]) == |p|;
    assert FromLittleEndian32(m[off..off + 4]) == crc(m[off + 4..off + 8] + m[off + 8..off + 8 + |p|]) % WORD != 0;
    assert (HEADER_SIZE + |p| + TRAILER_SIZE) % WORD == HEADER_SIZE + |p| + TRAILER_SIZE;
  }

  lemma ProbeFound(crc: Crc, m: Bytes, off: nat)
    requires |m| <= MAX_SEGMENT_SIZE && SEGMENT_HEADER_SIZE <= off && off + HEADER_SIZE <= |m|
    requires ProbeAt(crc, m, off).Found?
    ensures var n := ProbeAt(crc, m, off).length;
            off + 16 + n <= |m| && n < WORD - 16 && ValidAt(crc, m, off, m[off + 8..off + 8 + n])
  {
    hide FromLittleEndian32, LittleEndian32;
    var n := ProbeAt(crc, m, off).length;
    var p := m[off + 8..off + 8 + n];
    LittleRoundTrip(n);
    LittleInjective(m[off + 4..off + 8], LittleEndian32(n));
    LittleRoundTrip(Sum(crc, p));
    LittleInjective(m[off..off + 4], LittleEndian32(Sum(crc, p)));
  }

  /**
   What the checksum covers, byte by byte: the scan passes an offset only if the word saved there is not zero and is the
   checksum of the length word and the payload that stand behind it.
   */
  lemma ScanChecks(crc: Crc, m: Bytes, off: nat)
    requires |m| <= MAX_SEGMENT_SIZE && off + 8 <= |m| && ProbeAt(crc, m, off).Found?
    ensures var n := FromLittleEndian32(m[off + 4..off + 8]);
            && ProbeAt(crc, m, off).length == n && off + 16 + n <= |m|
            && FromLittleEndian32(m[off..off + 4]) == crc(m[off + 4..off + 8] + m[off + 8..off + 8 + n]) % 0x1_0000_0000
            && FromLittleEndian32(m[off..off + 4]) != 0
            && m[off + 8 + n..off + 16 + n] == [0xDE, 0xAD, 0xBE, 0xEF, 0xFE, 0xED, 0xFA, 0xCE]
  {
    hide FromLittleEndian32;
  }

  /** The same of every frame that reads, scans and reopening take for one. */
  lemma FieldsCheck(crc: Crc, m: Bytes, off: nat, p: Bytes)
    requires FieldsAt(crc, m, off, p)
    ensures off + 16 + |p| <= |m| && m[off + 8..off + 8 + |p|] == p
    ensures FromLittleEndian32(m[off + 4..off + 8]) == |p|
    ensures FromLittleEndian32(m[off..off + 4]) == crc(m[off + 4..off + 8] + p) % 0x1_0000_0000
  {
    hide FromLittleEndian32, LittleEndian32;
    LittleRoundTrip(|p|);
    LittleRoundTrip(Sum(crc, p));
  }

  /**
   A frame of p whose payload has become q, with its header as it was: unless q has the checksum of p, the scan stops
   there, and nothing counts as a frame there.
   */
  lemma DamageStopsScan(crc: Crc, m: Bytes, off: nat, p: Bytes, q: Bytes)
    requires |q| == |p| && off + EntrySize(|p|) <= |m| <= MAX_SEGMENT_SIZE && |p| < WORD - HEADER_SIZE - TRAILER_SIZE
    requires m[off..off + 8] == Frame(crc, p)[..8] && m[off + 8..off + 8 + |q|] == q
    requires crc(LittleEndian32(|q|) + q) % 0x1_0000_0000 != crc(LittleEndian32(|p|) + p) % 0x1_0000_0000
    ensures off + HEADER_SIZE <= |m| && !ProbeAt(crc, m, off).Found?
    ensures forall x :: !FieldsAt(crc, m, off, x)
  {
    hide FromLittleEndian32, LittleEndian32, ProbeAt, FieldsAt, Frame, Sum;
    HeaderWords(crc, m, off, p);
    LittleRoundTrip(|p|);
    LittleRoundTrip(Sum(crc, p));
    SumMeans(crc, p);
    if ProbeAt(crc, m, off).Found? {
      ScanChecks(crc, m, off);
    }
    forall x ensures !FieldsAt(crc, m, off, x) {
      if FieldsAt(crc, m, off, x) {
        FieldsCheck(crc, m, off, x);
      }
    }
  }

  lemma SumMeans(crc: Crc, p: Bytes)
    ensures Sum(crc, p) == crc(LittleEndian32(|p|) + p) % 0x1_0000_0000 < WORD
  {
  }

  lemma HeaderWords(crc: Crc, m: Bytes, off: nat, p: Bytes)
    requires off + 8 <= |m| && m[off..off + 8] == Frame(crc, p)[..8]
    ensures m[off..off + 4] == LittleEndian32(Sum(crc, p)) && m[off + 4..off + 8] == LittleEndian32(|p|)
  {
    hide Sum, LittleEndian32;
    var f := Frame(crc, p);
    assert m[off..off + 4] == m[off..off + 8][..4] && m[off + 4..off + 8] == m[off..off + 8][4..];
    assert f[..8][..4] == f[..4] == LittleEndian32(Sum(crc, p));
    assert f[..8][4..] == f[4..8] == LittleEndian32(|p|);
  }

  /** The scan panics exactly where the length word overflows. */
  lemma ProbePanics(crc: Crc, m: Bytes, off: nat)
    requires |m| <= MAX_SEGMENT_SIZE && SEGMENT_HEADER_SIZE <= off && off + HEADER_SIZE <= |m|
    ensures ProbeAt(crc, m, off).Panic? <==> OverflowsAt(m, off)
  {
    hide FromLittleEndian32;
    var n := FromLittleEndian32(m[off + 4..off + 8]);
    if n >= WORD - 16 {
      assert (HEADER_SIZE + n + TRAILER_SIZE) % WORD == n + 16 - WORD;
    } else {
      assert (HEADER_SIZE + n + TRAILER_SIZE) % WORD == n + 16;
    }
  }

  /** Only one payload can be read at an offset. */
  lemma FieldsUnique(crc: Crc, m: Bytes, off: nat, p: Bytes, q: Bytes)
    requires FieldsAt(crc, m, off, p) && FieldsAt(crc, m, off, q)
    ensures p == q
  {
    hide FromLittleEndian32, LittleEndian32;
    LittleRoundTrip(|p|);
    LittleRoundTrip(|q|);
  }

  // ---- The run of frames the scan stops after ----

  /** A run of valid frames that no valid frame follows. */
  ghost predicate Longest(crc: Crc, m: Bytes, off: nat, ps: seq<Bytes>) {
    && Run(crc, m, off, ps)
    && forall p :: !ValidAt(crc, m, End(off, ps), p)
  }

  lemma {:induction false} LaidPrefix(crc: Crc, m: Bytes, off: nat, ps: seq<Bytes>, k: nat)
    requires Laid(crc, m, off, ps) && k <= |ps|
    ensures Laid(crc, m, off, ps[..k])
    ensures k < |ps| ==> FieldsAt(crc, m, End(off, ps[..k]), ps[k])
  {
    hide FieldsAt;
    if k == |ps| {
      assert ps[..k] == ps;
    } else {
      assert Front(ps)[..k] == ps[..k];
      if k + 1 == |ps| {
        assert Front(ps) == ps[..k];
      } else {
        LaidPrefix(crc, m, off, Front(ps), k);
      }
    }
  }

  lemma LaidSnoc(crc: Crc, m: Bytes, off: nat, ps: seq<Bytes>, p: Bytes)
    requires Laid(crc, m, off, ps) && FieldsAt(crc, m, End(off, ps), p)
    ensures Laid(crc, m, off, ps + [p])
    ensures End(off, ps + [p]) == End(off, ps) + EntrySize(|p|)
  {
    assert Front(ps + [p]) == ps && Last(ps + [p]) == p;
  }

  /** Frames depend on nothing outside the bytes they span. */
  lemma {:induction false} LaidSame(crc: Crc, m: Bytes, m': Bytes, off: nat, ps: seq<Bytes>)
    requires Laid(crc, m, off, ps) && End(off, ps) <= |m| && End(off, ps) <= |m'|
    requires m[..End(off, ps)] == m'[..End(off, ps)]
    ensures Laid(crc, m', off, ps)
  {
    if ps != [] {
      var e, e' := End(off, ps), End(off, Front(ps));
      assert m[..e'] == m[..e][..e'] == m'[..e][..e'] == m'[..e'];
      LaidSame(crc, m, m', off, Front(ps));
      FieldsSame(crc, m, m', e', Last(ps));
    }
  }

  lemma FieldsSame(crc: Crc, m: Bytes, m': Bytes, off: nat, p: Bytes)
    requires FieldsAt(crc, m, off, p) && off + EntrySize(|p|) <= |m'|
    requires m[..off + EntrySize(|p|)] == m'[..off + EntrySize(|p|)]
    ensures FieldsAt(crc, m', off, p)
  {
    hide Sum, LittleEndian32;
    var e := off + EntrySize(|p|);
    SameSlice(m, m', e, off, off + 4);
    SameSlice(m, m', e, off + 4, off + 8);
    SameSlice(m, m', e, off + 8, off + 8 + |p|);
    SameSlice(m, m', e, off + 8 + |p|, off + 16 + |p|);
  }

  lemma SameSlice(m: Bytes, m': Bytes, e: nat, i: nat, j: nat)
    requires i <= j <= e <= |m| && e <= |m'| && m[..e] == m'[..e]
    ensures m[i..j] == m'[i..j]
  {
    forall k | 0 <= k < j - i ensures m[i..j][k] == m'[i..j][k] {
      assert m[..e][i + k] == m'[..e][i + k];
    }
  }

  /** Two runs of frames from one offset agree as far as both go. */
  lemma {:induction false} LaidAgree(crc: Crc, m: Bytes, off: nat, ps: seq<Bytes>, qs: seq<Bytes>, k: nat)
    requires Laid(crc, m, off, ps) && Laid(crc, m, off, qs) && k <= |ps| && k <= |qs|
    ensures ps[..k] == qs[..k]
    decreases k
  {
    hide FieldsAt;
    if k > 0 {
      LaidAgree(crc, m, off, ps, qs, k - 1);
      LaidPrefix(crc, m, off, ps, k - 1);
      LaidPrefix(crc, m, off, qs, k - 1);
      FieldsUnique(crc, m, End(off, ps[..k - 1]), ps[k - 1], qs[k - 1]);
      assert ps[..k] == ps[..k - 1] + [ps[k - 1]];
      assert qs[..k] == qs[..k - 1] + [qs[k - 1]];
    }
  }

  lemma LongestBounds(crc: Crc, m: Bytes, off: nat, ps: seq<Bytes>, qs: seq<Bytes>)
    requires Longest(crc, m, off, ps) && Run(crc, m, off, qs)
    ensures qs <= ps
  {
    hide FieldsAt;
    var k := if |ps| <= |qs| then |ps| else |qs|;
    LaidAgree(crc, m, off, ps, qs, k);
    LaidPrefix(crc, m, off, qs, k);
    if k == |ps| {
      assert ps[..k] == ps;
      assert |qs| > k ==> ValidAt(crc, m, End(off, qs[..k]), qs[k]);
    }
    assert qs[..k] == qs;
  }

  /** The bytes determine the longest run. */
  lemma LongestUnique(crc: Crc, m: Bytes, off: nat, ps: seq<Bytes>, qs: seq<Bytes>)
    requires Longest(crc, m, off, ps) && Longest(crc, m, off, qs)
    ensures ps == qs
  {
    hide Laid, ValidAt;
    LongestBounds(crc, m, off, ps, qs);
    LongestBounds(crc, m, off, qs, ps);
  }

  // ---- Written frames ----

  lemma {:induction false} EndGrows(off: nat, ps: seq<Bytes>, k: nat)
    requires k <= |ps|
    ensures off <= End(off, ps[..k]) <= End(off, ps)
    ensures k < |ps| ==> End(off, ps[..k]) + EntrySize(|ps[k]|) == End(off, ps[..k + 1]) <= End(off, ps)
  {
    EndAtLeast(off, ps, k);
    EndAtLeast(off, ps[..k], 0);
    if k < |ps| {
      assert Front(ps[..k + 1]) == ps[..k] && Last(ps[..k + 1]) == ps[k];
      EndAtLeast(off, ps, k + 1);
    }
  }

  lemma {:induction false} EndAtLeast(off: nat, ps: seq<Bytes>, k: nat)
    requires k <= |ps|
    ensures End(off, ps[..k]) <= End(off, ps)
  {
    if k == |ps| {
      assert ps[..k] == ps;
    } else {
      EndAtLeast(off, Front(ps), k);
      assert Front(ps)[..k] == ps[..k];
    }
  }

  /** The bytes the writer puts down carry the fields a reader looks for. */
  lemma FrameFields(crc: Crc, m: Bytes, off: nat, p: Bytes)
    requires SEGMENT_HEADER_SIZE <= off && off + EntrySize(|p|) <= |m| <= MAX_SEGMENT_SIZE
    requires m[off..off + EntrySize(|p|)] == Frame(crc, p)
    ensures FieldsAt(crc, m, off, p)
  {
    hide LittleEndian32;
    var end := off + EntrySize(|p|);
    SliceOfSlice(m, off, end, 0, 4);
    SliceOfSlice(m, off, end, 4, 8);
    SliceOfSlice(m, off, end, 8, 8 + |p|);
    SliceOfSlice(m, off, end, 8 + |p|, 16 + |p|);
    FrameParts(LittleEndian32(Sum(crc, p)), LittleEndian32(|p|), p, TRAILER, Zeros(EntrySize(|p|) - 16 - |p|));
  }

  lemma SliceOfSlice(m: Bytes, a: nat, b: nat, i: nat, j: nat)
    requires a <= b <= |m| && i <= j <= b - a
    ensures m[a..b][i..j] == m[a + i..a + j]
  {
    var s, t := m[a..b][i..j], m[a + i..a + j];
    assert |s| == |t|;
    assert forall k :: 0 <= k < |s| ==> s[k] == t[k];
  }

  lemma FrameParts(sum: Bytes, length: Bytes, p: Bytes, trailer: Bytes, pad: Bytes)
    requires |sum| == |length| == 4 && |trailer| == 8
    ensures var f := sum + length + p + trailer + pad;
            && f[0..4] == sum && f[4..8] == length && f[8..8 + |p|] == p && f[8 + |p|..16 + |p|] == trailer
  {
  }

  /** The scan finds a frame again exactly when its checksum is not zero. */
  lemma FrameFound(crc: Crc, m: Bytes, off: nat, p: Bytes)
    requires FieldsAt(crc, m, off, p)
    ensures (exists q :: ValidAt(crc, m, off, q)) <==> Sum(crc, p) != 0
  {
    hide FieldsAt;
    if q :| ValidAt(crc, m, off, q) {
      FieldsUnique(crc, m, off, p, q);
    }
    assert Sum(crc, p) != 0 ==> ValidAt(crc, m, off, p);
  }

  /**
   Damage to an unsealed segment: whatever the bytes became behind some intact frames, if nothing valid stands where
   the next frame stood, the longest run is those frames and the segment ends there.
   */
  lemma DamageKeepsPrefix(crc: Crc, before: Bytes, after: Bytes, off: nat, ps: seq<Bytes>)
    requires Run(crc, before, off, ps) && End(off, ps) <= |before| && End(off, ps) <= |after|
    requires after[..End(off, ps)] == before[..End(off, ps)]
    requires forall p :: !ValidAt(crc, after, End(off, ps), p)
    ensures Longest(crc, after, off, ps)
  {
    hide ValidAt, FieldsAt;
    LaidSame(crc, before, after, off, ps);
  }

  /** Where the frames of a segment stop being found again: the first one with a zero checksum, if any. */
  ghost predicate FoundCount(crc: Crc, ps: seq<Bytes>, k: nat) {
    && k <= |ps|
    && (forall i :: 0 <= i < k ==> Sum(crc, ps[i]) != 0)
    && (k < |ps| ==> Sum(crc, ps[k]) == 0)
  }

  /** A cleanly written segment with zero bytes behind its frames: the scan finds the frames before the first zero sum. */
  lemma CleanReopen(crc: Crc, m: Bytes, off: nat, ps: seq<Bytes>, k: nat)
    requires Laid(crc, m, off, ps) && FoundCount(crc, ps, k)
    requires forall i :: End(off, ps) <= i < |m| ==> m[i] == 0
    ensures Longest(crc, m, off, ps[..k])
  {
    hide FieldsAt;
    LaidPrefix(crc, m, off, ps, k);
    if k < |ps| {
      FrameFound(crc, m, End(off, ps[..k]), ps[k]);
    } else {
      assert ps[..k] == ps;
      forall p ensures !ValidAt(crc, m, End(off, ps), p) {
        ZerosNotValid(crc, m, End(off, ps), p);
      }
    }
  }

  lemma ZerosNotValid(crc: Crc, m: Bytes, off: nat, p: Bytes)
    requires forall i :: off <= i < |m| ==> m[i] == 0
    ensures !ValidAt(crc, m, off, p)
  {
    hide Sum, LittleEndian32;
    var t := off + 8 + |p|;
    assert t + 8 <= |m| ==> m[t..off + 16 + |p|][0] == 0;
    assert TRAILER[0] == 0xDE;
  }

  // ---- Overwriting bytes ----

  /** A byte sequence written over another one. */
  function Spliced(m: Bytes, at: nat, src: Bytes): (r: Bytes)
    requires at + |src| <= |m|
    ensures |r| == |m|
  {
    m[..at] + src + m[at + |src|..]
  }

  lemma SplicedTwice(m: Bytes, at: nat, a: Bytes, b: Bytes)
    requires at + |a| + |b| <= |m|
    ensures Spliced(Spliced(m, at, a), at + |a|, b) == Spliced(m, at, a + b)
  {
    var once := Spliced(m, at, a);
    assert once[..at + |a|] == m[..at] + a;
    assert once[at + |a| + |b|..] == m[at + |a| + |b|..];
    Associative(m[..at], a, b);
  }

  lemma SplicedParts(m: Bytes, at: nat, src: Bytes)
    requires at + |src| <= |m|
    ensures Spliced(m, at, src)[..at] == m[..at]
    ensures Spliced(m, at, src)[at..at + |src|] == src
  {
  }
}
