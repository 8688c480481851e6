/**
 Where checkpoints come from (dbkernel/engine.go: handleFlush, fSyncStore; dbkernel/internal/metadata.go).

 A table's offset is that of the newest record whose last operation was put into it. A table that one record fills by
 itself has none, and saving a checkpoint without a position ends the process. The trail of a run follows each table,
 from the record being put when it became active to the record being put when it was sealed, through the flush into
 the queued checkpoints.
 */
module Checkpoints {
  import opened Basics
  import opened Cells
  import opened LogRecords
  import opened Engine

  /** What a queued checkpoint stands for: a recovery, or the table in which the records first up to end were finished. */
  datatype Origin = Restart | Span(first: nat, end: nat)

  datatype Trail = Trail(active: nat, sealed: seq<Origin>, pending: seq<Origin>, saving: seq<Origin>)

  const NO_TRAIL := Trail(0, [], [], [])

  ghost function TrailBy(s: State, step: Step, t: Trail): Trail
    requires Enabled(s, step)
  {
    match step
    case Rotate => t.(sealed := t.sealed + [Span(t.active, s.mem.cur)], active := s.mem.cur)
    case PutFails => t.(sealed := t.sealed + [Span(t.active, s.mem.cur)], active := s.mem.cur + 1)
    case FlushEnd => if t.sealed == [] then t else t.(pending := t.pending + [t.sealed[0]])
    case FlushDrop => if t.sealed == [] then t else t.(sealed := t.sealed[1..])
    case Dequeue => if t.pending == [] then t else t.(pending := [], saving := t.saving + [Last(t.pending)])
    case SaveMeta(i) => if i < |t.saving| then t.(saving := t.saving[..i] + t.saving[i + 1..]) else t
    case RecoverDone => Trail(|s.disk.log|, [], if Do(s, step).mem.pending == [] then [] else [Restart], [])
    case _ => t
  }

  ghost function TrailOf(s: State, steps: seq<Step>, s': State, t: Trail): Trail
    requires IsRun(s, steps, s')
    decreases |steps|
  {
    if steps == [] then t else TrailOf(Do(s, steps[0]), steps[1..], s', TrailBy(s, steps[0], t))
  }

  /** The newest of some records that sets an offset. */
  function LastFinished(log: Log, first: nat, end: nat): Option<nat>
    requires first <= end <= |log|
  {
    if end == first then None else if SetsOffset(log[end - 1]) then Some(end - 1) else LastFinished(log, first, end - 1)
  }

  lemma {:induction false} NoneFinished(log: Log, first: nat, end: nat)
    requires first <= end <= |log|
    ensures LastFinished(log, first, end).None? <==>
            forall i :: first <= i < end ==> !log[i].state.TxnNone? && !log[i].state.TxnCommit?
    decreases end
  {
    if first < end {
      NoneFinished(log, first, end - 1);
    }
  }

  lemma {:induction false} LastFinishedStable(log: Log, r: Record, first: nat, end: nat)
    requires first <= end <= |log|
    ensures LastFinished(log + [r], first, end) == LastFinished(log, first, end)
    decreases end
  {
    if first < end {
      LastFinishedStable(log, r, first, end - 1);
    }
  }

  predicate PosOk(log: Log, pos: Option<nat>, o: Origin) {
    match o
    case Restart => pos.Some?
    case Span(first, end) => first <= end <= |log| && pos == LastFinished(log, first, end)
  }

  predicate SealedOk(log: Log, ts: seq<Table>, os: seq<Origin>) {
    |ts| == |os| && forall i :: 0 <= i < |ts| ==> os[i].Span? && PosOk(log, ts[i].lastOffset, os[i])
  }

  predicate MetasFrom(log: Log, ms: seq<Meta>, os: seq<Origin>) {
    |ms| == |os| && forall i :: 0 <= i < |ms| ==> PosOk(log, ms[i].pos, os[i])
  }

  predicate Follows(s: State, t: Trail) {
    s.Running? ==>
      && t.active <= s.mem.cur <= |s.disk.log|
      && PosOk(s.disk.log, s.mem.active.lastOffset, Span(t.active, s.mem.cur))
      && SealedOk(s.disk.log, s.mem.sealed, t.sealed)
      && MetasFrom(s.disk.log, s.mem.pending, t.pending)
      && MetasFrom(s.disk.log, s.mem.saving, t.saving)
  }

  lemma PosStable(log: Log, r: Record, pos: Option<nat>, o: Origin)
    requires PosOk(log, pos, o)
    ensures PosOk(log + [r], pos, o)
  {
    if o.Span? {
      LastFinishedStable(log, r, o.first, o.end);
    }
  }

  lemma AppendFollows(s: State, r: Record, t: Trail)
    requires Enabled(s, Append(r)) && Follows(s, t)
    ensures Follows(Do(s, Append(r)), t)
  {
    hide Effect, PosOk;
    var log := s.disk.log;
    PosStable(log, r, s.mem.active.lastOffset, Span(t.active, s.mem.cur));
    forall i | 0 <= i < |s.mem.sealed| ensures PosOk(log + [r], s.mem.sealed[i].lastOffset, t.sealed[i]) {
      PosStable(log, r, s.mem.sealed[i].lastOffset, t.sealed[i]);
    }
    forall i | 0 <= i < |s.mem.pending| ensures PosOk(log + [r], s.mem.pending[i].pos, t.pending[i]) {
      PosStable(log, r, s.mem.pending[i].pos, t.pending[i]);
    }
    forall i | 0 <= i < |s.mem.saving| ensures PosOk(log + [r], s.mem.saving[i].pos, t.saving[i]) {
      PosStable(log, r, s.mem.saving[i].pos, t.saving[i]);
    }
  }

  lemma StepFollows(s: State, step: Step, t: Trail)
    requires Enabled(s, step) && Follows(s, t)
    ensures Follows(Do(s, step), TrailBy(s, step, t))
  {
    hide Effect, ChunkCount, FlushOrder, Unrecoverable, AnyRefused;
    if step.Append? {
      AppendFollows(s, step.record, t);
    }
  }

  lemma {:induction false} RunFollows(s: State, steps: seq<Step>, s': State, t: Trail)
    requires IsRun(s, steps, s') && Follows(s, t)
    ensures Follows(s', TrailOf(s, steps, s', t))
    decreases |steps|
  {
    hide Do, Enabled, Follows, TrailBy;
    if steps != [] {
      StepFollows(s, steps[0], t);
      RunFollows(Do(s, steps[0]), steps[1..], s', TrailBy(s, steps[0], t));
    }
  }

  lemma {:induction false} LastFinishedIs(log: Log, first: nat, end: nat, p: nat)
    requires first <= end <= |log| && LastFinished(log, first, end) == Some(p)
    ensures first <= p < end && (log[p].state.TxnNone? || log[p].state.TxnCommit?)
    ensures forall j :: p < j < end ==> !log[j].state.TxnNone? && !log[j].state.TxnCommit?
    decreases end
  {
    if !SetsOffset(log[end - 1]) {
      LastFinishedIs(log, first, end - 1, p);
    }
  }

  /**
   In every run, saving a checkpoint ends the process if and only if no plain record or commit was finished in the
   table it stands for; otherwise the position saved is that of the newest one that was.
   */
  lemma SavingEndsProcess(steps: seq<Step>, s: State, i: nat)
    requires IsRun(Init, steps, s) && Enabled(s, SaveMeta(i))
    ensures var t := TrailOf(Init, steps, s, NO_TRAIL);
            |t.saving| == |s.mem.saving| && (t.saving[i].Span? ==> t.saving[i].first <= t.saving[i].end <= |s.disk.log|)
    ensures var o, s', log := TrailOf(Init, steps, s, NO_TRAIL).saving[i], Do(s, SaveMeta(i)), s.disk.log;
            && (s' == Crashed(s) <==>
                o.Span? && forall j :: o.first <= j < o.end ==> !log[j].state.TxnNone? && !log[j].state.TxnCommit?)
            && (s'.Running? && o.Span? ==>
                && s'.disk.checkpoint.Some?
                && var p := s'.disk.checkpoint.value.pos;
                && o.first <= p < o.end && (log[p].state.TxnNone? || log[p].state.TxnCommit?)
                && forall j :: p < j < o.end ==> !log[j].state.TxnNone? && !log[j].state.TxnCommit?)
  {
    hide LastFinished, Effect;
    RunFollows(Init, steps, s, NO_TRAIL);
    var o := TrailOf(Init, steps, s, NO_TRAIL).saving[i];
    if o.Span? {
      NoneFinished(s.disk.log, o.first, o.end);
      if s.mem.saving[i].pos.Some? {
        LastFinishedIs(s.disk.log, o.first, o.end, s.mem.saving[i].pos.value);
      }
    }
  }
}
