/**
 Waking up readers of the log (dbkernel/engine.go: writeOffset, notifyAppend; dbkernel/engine_public.go:
 WaitForAppendOrDone).

 Writers store the current offset and then notify. Without coalescing a notification closes the channel and replaces
 it under the notifier lock. With coalescing the first writer to raise the flag starts a goroutine that later does so
 and lowers the flag; other writers meanwhile do nothing. A waiter checks the offset, takes the channel under the
 lock, checks again, and blocks. Channel c is closed exactly when a later one has replaced it.
 */
module Notify {
  import opened Basics
  import opened Segments
  import opened WalLayout

  datatype Waiter =
    | Arriving(seen: Option<Position>)
    | Unlucky(seen: Option<Position>)
    | HasChannel(seen: Option<Position>, channel: nat)
    | Blocked(seen: Option<Position>, channel: nat)
    | Returned

  datatype State = State(
    coalescing: bool,
    current: Option<Position>,
    channel: nat,
    flag: bool,
    lockHeld: bool,
    storing: nat,
    sleeping: nat,
    clearing: nat,
    waiter: Waiter)

  datatype Step =
    | StoreOffset(pos: Position)
    | NotifyAppend
    | Swap
    | ClearFlag
    | CheckFirst
    | TakeChannel
    | CheckAgain
    | Wake

  predicate HasNewWriteSince(current: Position, lastSeen: Option<Position>) {
    lastSeen.None? || Before(lastSeen.value, current)
  }

  predicate News(s: State, seen: Option<Position>) {
    s.current.Some? && HasNewWriteSince(s.current.value, seen)
  }

  predicate Enabled(s: State, step: Step) {
    match step
    case StoreOffset(_) => true
    case NotifyAppend => s.storing > 0 && (!s.coalescing ==> !s.lockHeld)
    case Swap => s.sleeping > 0 && !s.lockHeld
    case ClearFlag => s.clearing > 0
    case CheckFirst => s.waiter.Arriving?
    case TakeChannel => s.waiter.Unlucky? && !s.lockHeld
    case CheckAgain => s.waiter.HasChannel?
    case Wake => s.waiter.Blocked? && s.waiter.channel < s.channel
  }

  /** One step; the goroutine keeps the lock until it has lowered the flag, unless it is made to release it first. */
  function Do(s: State, step: Step, unlockFirst: bool): State
    requires Enabled(s, step)
  {
    match step
    case StoreOffset(pos) => s.(current := Some(pos), storing := s.storing + 1)
    case NotifyAppend =>
      if !s.coalescing then s.(storing := s.storing - 1, channel := s.channel + 1)
      else if s.flag then s.(storing := s.storing - 1)
      else s.(storing := s.storing - 1, flag := true, sleeping := s.sleeping + 1)
    case Swap => s.(sleeping := s.sleeping - 1, clearing := s.clearing + 1, channel := s.channel + 1, lockHeld := !unlockFirst)
    case ClearFlag => s.(clearing := s.clearing - 1, flag := false, lockHeld := false)
    case CheckFirst =>
      s.(waiter := if News(s, s.waiter.seen) then Returned else Unlucky(s.waiter.seen))
    case TakeChannel => s.(waiter := HasChannel(s.waiter.seen, s.channel))
    case CheckAgain =>
      s.(waiter := if News(s, s.waiter.seen) then Returned else Blocked(s.waiter.seen, s.waiter.channel))
    case Wake => s.(waiter := Returned)
  }

  predicate IsRun(s: State, steps: seq<Step>, unlockFirst: bool, s': State)
    decreases |steps|
  {
    if steps == [] then s == s'
    else Enabled(s, steps[0]) && IsRun(Do(s, steps[0], unlockFirst), steps[1..], unlockFirst, s')
  }

  function Started(coalescing: bool, current: Option<Position>, seen: Option<Position>): State {
    State(coalescing, current, 0, false, false, 0, 0, 0, Arriving(seen))
  }

  /** A waiter that has something to see. */
  predicate Missing(s: State) {
    s.waiter.Blocked? && News(s, s.waiter.seen)
  }

  /** Its channel is closed, or somebody who will close it is on the way. */
  predicate WillWake(s: State) {
    s.waiter.Blocked? && (s.waiter.channel < s.channel || s.storing > 0 || s.sleeping > 0)
  }

  ghost predicate Inv(s: State) {
    && s.sleeping + s.clearing == (if s.flag then 1 else 0)
    && (s.lockHeld <==> s.clearing == 1)
    && (!s.coalescing ==> !s.flag)
    && (s.waiter.HasChannel? || s.waiter.Blocked? ==>
          s.waiter.channel <= s.channel && (s.lockHeld ==> s.waiter.channel < s.channel))
    && (Missing(s) ==> WillWake(s))
  }

  lemma StepKeepsInvariant(s: State, step: Step)
    requires Inv(s) && Enabled(s, step)
    ensures Inv(Do(s, step, false))
  {
  }

  lemma {:induction false} RunKeepsInvariant(s: State, steps: seq<Step>, s': State)
    requires Inv(s) && IsRun(s, steps, false, s')
    ensures Inv(s')
    decreases |steps|
  {
    if steps != [] {
      StepKeepsInvariant(s, steps[0]);
      RunKeepsInvariant(Do(s, steps[0], false), steps[1..], s');
    }
  }

  /** The newest offset stored in a run, or the one there was before. */
  function LastStored(steps: seq<Step>, current: Option<Position>): Option<Position> {
    if steps == [] then current
    else if Last(steps).StoreOffset? then Some(Last(steps).pos)
    else LastStored(Front(steps), current)
  }

  lemma {:induction false} CurrentIsLast(s: State, steps: seq<Step>, s': State, unlockFirst: bool)
    requires IsRun(s, steps, unlockFirst, s')
    ensures s'.current == LastStored(steps, s.current)
    decreases |steps|
  {
    if steps != [] {
      var mid := Do(s, steps[0], unlockFirst);
      CurrentIsLast(mid, steps[1..], s', unlockFirst);
      StoredSplit(steps, s.current);
    }
  }

  lemma {:induction false} StoredSplit(steps: seq<Step>, current: Option<Position>)
    requires steps != []
    ensures LastStored(steps, current) == LastStored(steps[1..], if steps[0].StoreOffset? then Some(steps[0].pos) else current)
  {
    if |steps| > 1 {
      StoredSplit(Front(steps), current);
      assert Front(steps)[1..] == Front(steps[1..]);
    }
  }

  /**
   What a waiter does at each of its checks, in every run: it returns if and only if something has been stored and it
   has seen nothing yet, or the newest offset stored is past the one it has seen.
   */
  lemma ChecksReturnIff(coalescing: bool, current: Option<Position>, seen: Option<Position>, steps: seq<Step>, s: State, step: Step)
    requires IsRun(Started(coalescing, current, seen), steps, false, s)
    requires step in {CheckFirst, CheckAgain} && Enabled(s, step)
    ensures var newest := LastStored(steps, current);
            Do(s, step, false).waiter == Returned <==>
            newest.Some? && (seen.None? || seen.value.segment < newest.value.segment ||
                             (seen.value.segment == newest.value.segment && seen.value.offset < newest.value.offset))
  {
    CurrentIsLast(Started(coalescing, current, seen), steps, s, false);
    SeenStays(Started(coalescing, current, seen), steps, s, seen);
  }

  lemma {:induction false} SeenStays(s: State, steps: seq<Step>, s': State, seen: Option<Position>)
    requires IsRun(s, steps, false, s') && (s.waiter.Returned? || s.waiter.seen == seen)
    ensures s'.waiter.Returned? || s'.waiter.seen == seen
    decreases |steps|
  {
    if steps != [] {
      SeenStays(Do(s, steps[0], false), steps[1..], s', seen);
    }
  }

  /**
   No wakeup is lost: in every interleaving, with or without coalescing, a waiter blocked while the current offset is
   past the one it has seen holds a channel that is closed or that a writer or notifier on the way will close.
   */
  lemma NoLostWakeup(coalescing: bool, current: Option<Position>, seen: Option<Position>, steps: seq<Step>, s: State)
    requires IsRun(Started(coalescing, current, seen), steps, false, s)
    ensures Missing(s) ==> WillWake(s)
  {
    hide Do, Enabled, IsRun;
    RunKeepsInvariant(Started(coalescing, current, seen), steps, s);
  }

  /** And it does get closed: at most two steps of those on the way, and the waiter returns. */
  lemma WakesInTwoSteps(s: State) returns (steps: seq<Step>, s': State)
    requires Inv(s) && Missing(s)
    ensures |steps| <= 2 && (forall i | 0 <= i < |steps| :: steps[i] in {NotifyAppend, Swap})
    ensures IsRun(s, steps, false, s') && s'.waiter == s.waiter && Enabled(s', Wake)
    ensures Do(s', Wake, false).waiter.Returned?
  {
    if s.waiter.channel < s.channel {
      steps, s' := [], s;
    } else if s.sleeping > 0 {
      steps, s' := [Swap], Do(s, Swap, false);
      assert steps[1..] == [];
    } else if !s.coalescing {
      steps, s' := [NotifyAppend], Do(s, NotifyAppend, false);
      assert steps[1..] == [];
    } else {
      var s1 := Do(s, NotifyAppend, false);
      steps, s' := [NotifyAppend, Swap], Do(s1, Swap, false);
      assert steps[1..] == [Swap] && [Swap][1..] == [];
      assert IsRun(s1, [Swap], false, s');
    }
  }

  /**
   The order matters: were the lock released before the flag is lowered, a waiter could take the new channel in
   between, and a writer that finds the flag still up would leave it blocked with nobody on the way.
   */
  lemma UnlockFirstLosesWakeup(seen: Position, later: Position) returns (steps: seq<Step>, s: State)
    requires Before(seen, later)
    ensures IsRun(Started(true, None, Some(seen)), steps, true, s)
    ensures Missing(s) && !WillWake(s)
  {
    var s0 := Started(true, None, Some(seen));
    var s1 := Do(s0, StoreOffset(seen), true);
    var s2 := Do(s1, NotifyAppend, true);
    var s3 := Do(s2, Swap, true);
    var s4 := Do(s3, CheckFirst, true);
    var s5 := Do(s4, TakeChannel, true);
    var s6 := Do(s5, CheckAgain, true);
    var s7 := Do(s6, StoreOffset(later), true);
    var s8 := Do(s7, NotifyAppend, true);
    s := Do(s8, ClearFlag, true);
    steps := Prepended(s8, ClearFlag, [], s);
    steps := Prepended(s7, NotifyAppend, steps, s);
    steps := Prepended(s6, StoreOffset(later), steps, s);
    steps := Prepended(s5, CheckAgain, steps, s);
    steps := Prepended(s4, TakeChannel, steps, s);
    steps := Prepended(s3, CheckFirst, steps, s);
    steps := Prepended(s2, Swap, steps, s);
    steps := Prepended(s1, NotifyAppend, steps, s);
    steps := Prepended(s0, StoreOffset(seen), steps, s);
  }

  lemma Prepended(s: State, step: Step, rest: seq<Step>, s': State) returns (steps: seq<Step>)
    requires Enabled(s, step) && IsRun(Do(s, step, true), rest, true, s')
    ensures steps == [step] + rest && IsRun(s, steps, true, s')
  {
    steps := [step] + rest;
    assert steps[1..] == rest;
  }
}
