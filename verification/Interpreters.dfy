/**
 The three readers of the log side by side: the primary's memtable path, the replica's handler, and recovery.
 */
module Interpreters {
  import opened Basics
  import opened Cells
  import opened LogRecords
  import opened MemPuts
  import opened Segments
  import opened WalLayout
  import opened TxnQueue
  import opened BoltBucket
  import opened Recovery
  import opened Replica
  import Engine
  import Primary

  /** Recovery from nothing folds the log. */
  lemma {:induction false} RecoveryFolds(log: Log, n: nat)
    requires n <= |log|
    ensures Engine.Recovered(Engine.Disk(log, map[], None), n) == Fold(Effects(log, n))
  {
    hide Effect, ApplyAll;
    if n == 0 {
      FoldNone();
    } else {
      RecoveryFolds(log, n - 1);
      ApplyAllConcat(map[], Effects(log, n - 1), Effect(log, n - 1));
      EffectsStep(log, n - 1);
    }
  }

  lemma FoldNone()
    ensures Fold([]) == map[]
  {
  }

  /** What a replica needs to take a whole log: numbers without a gap, records that fit a segment, entries that fit. */
  ghost predicate Acceptable(node: Node, log: Log) {
    && (forall i | 0 <= i < |log| :: log[i].lsn == i + 1)
    && AllFit(node.size, Encoded(node, log))
    && (forall p | p in PutsBetween(log, 0, |log|) :: node.fits(p))
  }

  /**
   A primary's log run through a new replica and through recovery of an empty store. The replica takes it if and only
   if it is acceptable to it, and recovery if and only if it can get past every record. Whoever takes it ends with the
   contents of the log, which the primary's memtables stand for too, less the puts that did not fit them.
   */
  method InterpretersAgree(e: Primary.Engine, replica: ReplicaWALHandler, recovery: WalRecovery, now: nat)
    returns (refused: Option<ApplyError>, recovered: Result<(), RecoveryError>)
    requires e.Valid() && TypedEffects(e.log)
    requires replica.Valid() && replica.Now() == View([], 0, [])
    requires recovery.log == e.log && recovery.bucket.Valid() && recovery.bucket.cells == map[]
    requires recovery.recoveredCount == 0 && recovery.lastRecoveredPos.None?
    modifies replica, replica.wal, replica.wal.current, replica.wal.current.mmap, recovery, recovery.bucket
    ensures e.log == old(e.log) && e.memPuts == old(e.memPuts) && PutsOk(e.log, e.memPuts)
    ensures var lost := Primary.LostBy(e.fits, e.log);
            && ResolveAll(e.log, e.memPuts) == Engine.Kept(e.log, lost, |e.log|)
            && (lost == map[] ==> Fold(ResolveAll(e.log, e.memPuts)) == Contents(e.log))
    ensures refused.None? <==> Acceptable(replica.node, e.log)
    ensures recovered.Ok? <==> forall i :: 0 <= i < |e.log| ==> !Unrecoverable(e.log, i)
    ensures refused.None? ==>
              && replica.log == e.log && PutsOk(e.log, replica.memPuts)
              && Fold(ResolveAll(e.log, replica.memPuts)) == Contents(e.log)
    ensures recovered.Ok? ==> recovery.bucket.cells == Contents(e.log)
  {
    hide *;
    PrimaryMeans(e);
    Primary.MemtablesHold(e.fits, e.log, |e.log|);
    ContentsMeans(e.log);
    refused := ReplicaTakes(replica, e.log, now);
    recovered := RecoveryTakes(recovery);
  }

  method ReplicaTakes(replica: ReplicaWALHandler, log: Log, now: nat) returns (refused: Option<ApplyError>)
    requires WellFormed(log) && replica.Valid() && replica.Now() == View([], 0, [])
    modifies replica, replica.wal, replica.wal.current, replica.wal.current.mmap
    ensures refused.None? <==> Acceptable(replica.node, log)
    ensures refused.None? ==>
              replica.log == log && PutsOk(log, replica.memPuts) && Fold(ResolveAll(log, replica.memPuts)) == Contents(log)
  {
    hide WellFormed, PutsMatchLog, ResolveAll, Effects, Effect, ReplicaWALHandler.Valid, Received, Acceptable, Places, Fold,
         PutsOk, Contents;
    LogTaken(replica.node, log);
    assert [] + log == log;
    refused := replica.ApplyRecords(log, Places(replica.node, [], log), now);
    if refused.None? {
      MatchMeans(log, replica.memPuts);
    }
  }

  method RecoveryTakes(recovery: WalRecovery) returns (r: Result<(), RecoveryError>)
    requires WellFormed(recovery.log) && TypedEffects(recovery.log)
    requires recovery.bucket.Valid() && recovery.bucket.cells == map[]
    requires recovery.recoveredCount == 0 && recovery.lastRecoveredPos.None?
    modifies recovery, recovery.bucket
    ensures r.Ok? <==> forall i :: 0 <= i < |recovery.log| ==> !Unrecoverable(recovery.log, i)
    ensures r.Ok? ==> recovery.bucket.cells == Contents(recovery.log)
  {
    hide WellFormed, Effects, Effect, TypedEffects, Unrecoverable, Engine.Recovered, Fold, Represents;
    r := recovery.Recover(None, false);
    RecoveryFolds(recovery.log, |recovery.log|);
  }

  lemma PrimaryMeans(e: Primary.Engine)
    requires e.Valid()
    ensures WellFormed(e.log) && e.memPuts == KeptPuts(e.fits, e.log, |e.log|)
  {
    hide WellFormed, KeptPuts;
  }

  lemma MatchMeans(log: Log, puts: seq<MemPut>)
    requires PutsMatchLog(log, puts, |log|)
    ensures PutsOk(log, puts) && Fold(ResolveAll(log, puts)) == Contents(log)
  {
  }

  lemma ContentsMeans(log: Log)
    ensures Contents(log) == Fold(Effects(log, |log|))
  {
  }

  /** A new replica and a whole log. */
  lemma LogTaken(node: Node, log: Log)
    requires WellFormed(log)
    ensures var (v, err) := Received(node, View([], 0, []), log, Places(node, [], log));
            && (err.None? <==> Acceptable(node, log))
            && (err.None? ==> v.log == log && Synced(v))
  {
    hide WellFormed, PutsMatchLog, Oversize, LogPosition, Fitting, PutsBetween;
    var start, offsets := View([], 0, []), Places(node, [], log);
    assert [] + log == log;
    NewSynced();
    forall i | 0 <= i < |offsets| && 0 + i < |log| ensures LogPosition(node, log, 0 + i) == offsets[i] && offsets[i].offset != 0 {
      PositionNotZero(node, log, i);
    }
    PrecheckPasses(0, log, offsets, 0);
    FittingMember(node.fits, PutsBetween(log, 0, |log|));
    NoPuts(log);
    if Received(node, start, log, offsets).1.None? {
      ReceivedSynced(node, start, log, offsets);
    }
  }

  lemma NoPuts(log: Log)
    ensures PutsBetween(log, 0, 0) == []
  {
  }

  lemma NewSynced()
    ensures Synced(View([], 0, []))
  {
  }

  lemma FittingMember(fits: MemPut -> bool, ps: seq<MemPut>)
    ensures Fitting(fits, ps) == ps <==> forall p | p in ps :: fits(p)
  {
    FittingAll(fits, ps);
  }
}
