/**
 What every run of service calls keeps.

 A run is any sequence of calls by any number of workers, in any order. The engine may move a
 restore along any declared transition; the one rule it obeys is that a failure code with the
 pre-mutation prefix is stored only before the mutation.
 */
module ControlPlaneRuns {
  import opened Options
  import opened ComponentRegistry
  import opened StateMachines
  import opened FailureCodes
  import opened ControlPlane

  datatype Step =
    | RequestBackup(backup: BackupRequest)
    | MoveBackup(b: nat, to: BackupStatus, code: string, now: int)
    | CheckBackup(b: nat, integrity: IntegrityStatus, now: int)
    | PinBackup(business: nat, b: nat, pinned: bool, entitled: set<Product>)
    | RequestRestore(restore: RestoreRequest)
    | MoveRestore(r: nat, target: RestoreStatus, code: string, rollback: string, now: int)
    | LinkSafetyBackup(r: nat, b: nat)
    | ClaimRestore(business: nat, r: nat, now: int)
    | RestartRestore(r: nat)
    | MarkFailure(r: nat, code: string, now: int)
    | HandleEngineExit(r: nat, exit: EngineExit, now: int)

  function Apply(db: Db, step: Step): Db {
    match step
    case RequestBackup(q) => CreateBackup(db, q).0
    case MoveBackup(b, target, code, now) => TransitionBackup(db, b, target, code, now).0
    case CheckBackup(b, target, now) => SetIntegrity(db, b, target, now).0
    case PinBackup(business, b, pinned, entitled) => SetPinned(db, business, b, pinned, entitled).0
    case RequestRestore(q) => CreateRestore(db, q).0
    case MoveRestore(r, target, code, rollback, now) => TransitionRestore(db, r, target, code, rollback, now).0
    case LinkSafetyBackup(r, b) => LinkSafety(db, r, b).0
    case ClaimRestore(business, r, now) => Claim(db, business, r, now).0
    case RestartRestore(r) => Restart(db, r).0
    case MarkFailure(r, code, now) => MarkBeforeMutation(db, r, code, now)
    case HandleEngineExit(r, exit, now) => HandleExit(db, r, exit, now)
  }

  // ---- Backups: the retention flag and the constraints of the table ----

  ghost predicate SoundBackup(b: Backup) {
    && (b.retentionEligible <==> IsRetentionEligible(b, b.status, b.integrity, b.pinned))
    && (b.status == Succeeded ==> b.integrity in {Verified, Corrupted})
    && (b.trigger == Scheduled ==> b.localDate.Some? && b.scope == AllEnabled)
    && (b.trigger == PreRestoreSafety <==> b.isProtected)
    && (b.isProtected ==> b.parent.Some?)
    && (b.status == Deleted ==> b.deletedAt.Some?)
  }

  /** The check constraints the table of backups declares. */
  ghost predicate BackupConstraints(b: Backup) {
    && (b.trigger == Scheduled ==> b.localDate.Some?)
    && (b.trigger == PreRestoreSafety ==> b.isProtected && !b.retentionEligible && b.parent.Some?)
    && (b.retentionEligible ==>
          && b.trigger == Scheduled && b.scope == AllEnabled && b.status == Succeeded
          && b.integrity == Verified && !b.pinned && !b.isProtected)
    && (b.status == Succeeded ==> b.integrity in {Verified, Corrupted})
    && (b.status == Deleted ==> b.deletedAt.Some?)
  }

  ghost predicate UniqueKeys(db: Db) {
    && (forall i, j :: 0 <= i < j < |db.backups| ==>
                         db.backups[i].business != db.backups[j].business || db.backups[i].key != db.backups[j].key)
    && (forall i, j :: 0 <= i < j < |db.restores| ==>
                         db.restores[i].business != db.restores[j].business || db.restores[i].key != db.restores[j].key)
  }

  // ---- Restores: their safety backups and the count of mutations ----

  /** What a safety backup, once usable, stays: deletion and corruption may only come later. */
  ghost predicate OwnSafety(db: Db, r: nat, b: nat)
    requires r < |db.restores|
  {
    && b < |db.backups| && b != db.restores[r].source
    && db.backups[b].business == db.restores[r].business
    && db.backups[b].parent == Some(r)
    && db.backups[b].trigger == PreRestoreSafety
    && db.backups[b].isProtected
    && db.backups[b].status in {Succeeded, DeletionPending, Deleted}
    && db.backups[b].integrity in {Verified, Corrupted}
  }

  const NEEDS_SAFETY := {Validating, Restoring, RestoreVerifying, RestoreSucceeded}

  /** Parents were created before their backups, and a source before its restore. */
  ghost predicate LinksInOrder(db: Db) {
    && (forall i :: 0 <= i < |db.backups| && db.backups[i].parent.Some? ==>
                      db.backups[i].parent.value < |db.restores| && db.restores[db.backups[i].parent.value].source != i)
    && (forall r :: 0 <= r < |db.restores| ==>
                      db.restores[r].source < |db.backups| && db.backups[db.restores[r].source].business == db.restores[r].business)
  }

  ghost predicate SafetyHeld(db: Db) {
    forall r :: 0 <= r < |db.restores| ==>
                  && (db.restores[r].safety.Some? ==> OwnSafety(db, r, db.restores[r].safety.value))
                  && (db.restores[r].status in NEEDS_SAFETY ==> db.restores[r].safety.Some?)
  }

  ghost predicate Sound(db: Db) {
    && (forall i :: 0 <= i < |db.backups| ==> SoundBackup(db.backups[i]))
    && UniqueKeys(db) && LinksInOrder(db) && SafetyHeld(db)
  }

  /** How often each restore has entered its mutation, counted from the rows alone. */
  type Entries = seq<nat>

  function Entered(before: Db, after: Db, r: nat): nat {
    if r < |after.restores| && after.restores[r].status == Restoring
       && (r >= |before.restores| || before.restores[r].status != Restoring) then 1 else 0
  }

  function CountEntries(entries: Entries, before: Db, after: Db): Entries {
    seq(|after.restores|, r requires 0 <= r < |after.restores| =>
      (if r < |entries| then entries[r] else 0) + Entered(before, after, r))
  }

  /** A restore that has entered its mutation can never be claimed or restarted again. */
  ghost predicate MutatedOnce(x: Restore, entered: nat) {
    && entered <= 1
    && (entered == 1 ==> x.status !in BEFORE_MUTATION && !Retryable(x))
    && (x.status in {Restoring, RestoreVerifying, RestoreSucceeded} ==> entered == 1)
    && (x.rollbackAttempted ==> x.status in {RollingBack, RolledBack, Indeterminate})
  }

  ghost predicate AllMutatedOnce(db: Db, entries: Entries) {
    |entries| == |db.restores| && forall r :: 0 <= r < |db.restores| ==> MutatedOnce(db.restores[r], entries[r])
  }

  /**
   The failure-code rule, and its counterpart for the relabelling of exhausted retries: no prefixed
   failure of a restore inside its mutation, and no relabelling of one that has been inside.
   */
  ghost predicate Disciplined(db: Db, entries: Entries, step: Step) {
    match step
    case MoveRestore(r, target, code, _, _) =>
      r < |db.restores| && target == RestoreFailed && IsPreMutation(SanitizeText(code, CODE_LIMIT)) ==>
        db.restores[r].status !in {Restoring, RestoreVerifying}
    case HandleEngineExit(r, exit, _) =>
      r < |db.restores| && r < |entries| && exit.LockUnavailable? && !exit.retriesLeft ==>
        db.restores[r].status != RestoreFailed || db.restores[r].rollbackAttempted || entries[r] == 0
    case _ => true
  }

  // ---- Every step keeps soundness ----

  /** What no service changes in a backup row, and what only moves forward. */
  ghost predicate BackupProgress(a: Backup, b: Backup) {
    && b.business == a.business && b.key == a.key && b.parent == a.parent && b.trigger == a.trigger
    && b.isProtected == a.isProtected
    && (a.status in {Succeeded, DeletionPending, Deleted} ==> b.status in {Succeeded, DeletionPending, Deleted})
    && (a.integrity in {Verified, Corrupted} ==> b.integrity in {Verified, Corrupted})
  }

  lemma UpdatedBackupKeepsLinks(db: Db, i: nat, b: Backup)
    requires UniqueKeys(db) && LinksInOrder(db) && i < |db.backups| && BackupProgress(db.backups[i], b)
    ensures UniqueKeys(db.(backups := db.backups[i := b])) && LinksInOrder(db.(backups := db.backups[i := b]))
  {
  }

  lemma UpdatedBackupKeepsSafety(db: Db, i: nat, b: Backup)
    requires SafetyHeld(db) && i < |db.backups| && BackupProgress(db.backups[i], b)
    ensures SafetyHeld(db.(backups := db.backups[i := b]))
  {
    var db' := db.(backups := db.backups[i := b]);
    forall r | 0 <= r < |db.restores| && db.restores[r].safety.Some?
      ensures OwnSafety(db', r, db.restores[r].safety.value)
    {
      assert OwnSafety(db, r, db.restores[r].safety.value);
    }
  }

  lemma UpdatedBackupKeepsSound(db: Db, i: nat, b: Backup)
    requires Sound(db) && i < |db.backups| && SoundBackup(b) && BackupProgress(db.backups[i], b)
    ensures Sound(db.(backups := db.backups[i := b]))
  {
    UpdatedBackupKeepsLinks(db, i, b);
    UpdatedBackupKeepsSafety(db, i, b);
    hide SoundBackup, UniqueKeys, LinksInOrder, SafetyHeld, BackupProgress;
  }

  lemma UpdatedRestoreKeepsSound(db: Db, r: nat, x: Restore)
    requires Sound(db) && r < |db.restores|
    requires var a := db.restores[r];
             && x.business == a.business && x.key == a.key && x.source == a.source
             && (x.safety.Some? ==> OwnSafety(db, r, x.safety.value))
             && (x.status in NEEDS_SAFETY ==> x.safety.Some?)
    ensures Sound(db.(restores := db.restores[r := x]))
  {
  }

  lemma TransitionRestoreKeepsSound(db: Db, r: nat, target: RestoreStatus, code: string, rollback: string, now: int)
    requires Sound(db)
    ensures Sound(TransitionRestore(db, r, target, code, rollback, now).0)
  {
    hide Sound, SoundBackup, SanitizeText;
    var (db', outcome) := TransitionRestore(db, r, target, code, rollback, now);
    if outcome.Done? {
      SafetyOf(db, r);
      UpdatedRestoreKeepsSound(db, r, MovedRestore(db.restores[r], target, code, rollback, now));
    }
  }

  lemma SafetyOf(db: Db, r: nat)
    requires Sound(db) && r < |db.restores|
    ensures db.restores[r].safety.Some? ==> OwnSafety(db, r, db.restores[r].safety.value)
    ensures db.restores[r].status in NEEDS_SAFETY ==> db.restores[r].safety.Some?
  {
  }

  lemma ClaimKeepsSound(db: Db, r: nat, current: Restore, now: int)
    requires Sound(db) && r < |db.restores|
    ensures Sound(ClaimFrom(db, r, current, now).0)
    decreases if current == db.restores[r] then 0 else 1
  {
    hide Sound, SoundBackup;
    SafetyOf(db, r);
    var stored := db.restores[r];
    UpdatedRestoreKeepsSound(db, r, stored.(status := Authorizing, startedAt := OrNow(current.startedAt, now)));
    UpdatedRestoreKeepsSound(db, r, Reopened(stored));
    if current != stored {
      ClaimKeepsSound(db, r, stored, now);
    }
  }

  lemma RequestBackupKeepsSound(db: Db, q: BackupRequest)
    requires Sound(db)
    ensures Sound(CreateBackup(db, q).0)
  {
    hide NormalKey, UsableKey;
    if RequestRefusal(db, q).None? && !KeyTaken(db.backups, q.business, NormalKey(q.key)) {
      assert SoundBackup(NewBackup(q));
    }
  }

  lemma HandlersKeepSound(db: Db, r: nat, code: string, now: int)
    requires Sound(db)
    ensures Sound(MarkBeforeMutation(db, r, code, now))
    ensures Sound(Relabel(db, r, now))
    ensures Sound(MarkRecovery(db, r, now))
  {
    hide Sound, SoundBackup, SanitizeText;
    TransitionRestoreKeepsSound(db, r, RestoreFailed, Truncate(PRE_MUTATION + code, CODE_LIMIT), "", now);
    TransitionRestoreKeepsSound(db, r, Indeterminate, RECOVERY_REQUIRED, "", now);
    if r < |db.restores| {
      SafetyOf(db, r);
      UpdatedRestoreKeepsSound(db, r, db.restores[r].(failureCode := RETRY_EXHAUSTED, completedAt := Some(now)));
    }
  }

  lemma MoveBackupKeepsSound(db: Db, b: nat, target: BackupStatus, code: string, now: int)
    requires Sound(db)
    ensures Sound(TransitionBackup(db, b, target, code, now).0)
  {
    hide SanitizeText, UniqueKeys, LinksInOrder, SafetyHeld;
    if TransitionBackup(db, b, target, code, now).1.Done? {
      var moved := MovedBackup(db.backups[b], target, code, now);
      assert SoundBackup(db.backups[b]);
      assert SoundBackup(moved) && BackupProgress(db.backups[b], moved);
      UpdatedBackupKeepsSound(db, b, moved);
    }
  }

  lemma CheckBackupKeepsSound(db: Db, b: nat, target: IntegrityStatus, now: int)
    requires Sound(db)
    ensures Sound(SetIntegrity(db, b, target, now).0)
  {
    hide UniqueKeys, LinksInOrder, SafetyHeld;
    if SetIntegrity(db, b, target, now).1.Done? {
      assert SoundBackup(db.backups[b]);
      UpdatedBackupKeepsSound(db, b, CheckedBackup(db.backups[b], target, now));
    }
  }

  lemma PinBackupKeepsSound(db: Db, business: nat, b: nat, pinned: bool, entitled: set<Product>)
    requires Sound(db)
    ensures Sound(SetPinned(db, business, b, pinned, entitled).0)
  {
    hide UniqueKeys, LinksInOrder, SafetyHeld;
    if SetPinned(db, business, b, pinned, entitled).1.Done? {
      assert SoundBackup(db.backups[b]);
      UpdatedBackupKeepsSound(db, b, PinnedBackup(db.backups[b], pinned));
    }
  }

  lemma RequestRestoreKeepsSound(db: Db, q: RestoreRequest)
    requires Sound(db)
    ensures Sound(CreateRestore(db, q).0)
  {
    hide NormalKey, UsableKey;
    hide SoundBackup;
  }

  lemma ExitKeepsSound(db: Db, r: nat, exit: EngineExit, now: int)
    requires Sound(db)
    ensures Sound(HandleExit(db, r, exit, now))
  {
    hide Sound, MarkBeforeMutation, Relabel, MarkRecovery;
    HandlersKeepSound(db, r, if exit.Unexpected? then "restore_worker_failed" else exit.code, now);
    if exit.LockUnavailable? {
      HandlersKeepSound(MarkBeforeMutation(db, r, exit.code, now), r, exit.code, now);
    }
  }

  lemma OneRestoreStepKeepsSound(db: Db, step: Step)
    requires Sound(db) && (step.LinkSafetyBackup? || step.RestartRestore?)
    ensures Sound(Apply(db, step))
  {
    hide SoundBackup, UniqueKeys, LinksInOrder, IsPreMutation;
    if step.LinkSafetyBackup? && LinkSafety(db, step.r, step.b).1.Done? {
      SafetyIsNotSource(db, step.r, step.b);
      UpdatedRestoreKeepsSound(db, step.r, db.restores[step.r].(safety := Some(step.b)));
    }
    if step.RestartRestore? && Restart(db, step.r).1.Done? {
      UpdatedRestoreKeepsSound(db, step.r, Reopened(db.restores[step.r]));
    }
  }

  /** A usable safety backup differs from the source because its restore was created in between. */
  lemma SafetyIsNotSource(db: Db, r: nat, b: nat)
    requires LinksInOrder(db) && r < |db.restores| && UsableSafety(db, r, b)
    ensures OwnSafety(db, r, b)
  {
  }

  lemma StepKeepsSound(db: Db, step: Step)
    requires Sound(db)
    ensures Sound(Apply(db, step))
  {
    hide Sound;
    match step
    case RequestBackup(q) => RequestBackupKeepsSound(db, q);
    case MoveBackup(b, target, code, now) => MoveBackupKeepsSound(db, b, target, code, now);
    case CheckBackup(b, target, now) => CheckBackupKeepsSound(db, b, target, now);
    case PinBackup(business, b, pinned, entitled) => PinBackupKeepsSound(db, business, b, pinned, entitled);
    case RequestRestore(q) => RequestRestoreKeepsSound(db, q);
    case MoveRestore(r, target, code, rollback, now) => TransitionRestoreKeepsSound(db, r, target, code, rollback, now);
    case LinkSafetyBackup(_, _) => OneRestoreStepKeepsSound(db, step);
    case ClaimRestore(business, r, now) =>
      if r < |db.restores| {
        ClaimKeepsSound(db, r, db.restores[r], now);
      }
    case RestartRestore(_) => OneRestoreStepKeepsSound(db, step);
    case MarkFailure(r, code, now) => HandlersKeepSound(db, r, code, now);
    case HandleEngineExit(r, exit, now) => ExitKeepsSound(db, r, exit, now);
  }

  // ---- Every disciplined step keeps the count ----

  /** The changes a disciplined step may make to one restore row. */
  ghost predicate LegalChange(a: Restore, b: Restore, entered: nat) {
    || (b.status == a.status && b.rollbackAttempted == a.rollbackAttempted && (Retryable(b) ==> Retryable(a) || entered == 0))
    || (b.status == Authorizing && b.rollbackAttempted == a.rollbackAttempted && (a.status == RestoreQueued || Retryable(a)))
    || (&& b.status in RestoreTargets(a.status)
        && b.rollbackAttempted == (a.rollbackAttempted || b.status in {RollingBack, RolledBack})
        && (b.status == RestoreFailed && IsPreMutation(b.failureCode) ==> a.status in BEFORE_MUTATION))
  }

  lemma LegalChangeKeepsMutatedOnce(a: Restore, b: Restore, entered: nat)
    requires MutatedOnce(a, entered) && LegalChange(a, b, entered)
    ensures MutatedOnce(b, entered + if b.status == Restoring && a.status != Restoring then 1 else 0)
  {
  }

  ghost predicate LegalStep(db: Db, entries: Entries, db': Db) {
    && |entries| == |db.restores| <= |db'.restores|
    && (forall r :: 0 <= r < |db.restores| ==> LegalChange(db.restores[r], db'.restores[r], entries[r]))
    && (forall r :: |db.restores| <= r < |db'.restores| ==> db'.restores[r].status == RestoreQueued && !db'.restores[r].rollbackAttempted)
  }

  lemma LegalStepKeepsMutatedOnce(db: Db, entries: Entries, db': Db)
    requires AllMutatedOnce(db, entries) && LegalStep(db, entries, db')
    ensures AllMutatedOnce(db', CountEntries(entries, db, db'))
  {
    var after := CountEntries(entries, db, db');
    hide MutatedOnce, LegalChange;
    forall r | 0 <= r < |db'.restores|
      ensures MutatedOnce(db'.restores[r], after[r])
    {
      if r < |db.restores| {
        LegalChangeKeepsMutatedOnce(db.restores[r], db'.restores[r], entries[r]);
      } else {
        NewRowIsUnmutated(db'.restores[r]);
      }
    }
  }

  lemma NewRowIsUnmutated(x: Restore)
    requires x.status == RestoreQueued && !x.rollbackAttempted
    ensures MutatedOnce(x, 0)
  {
  }

  lemma TransitionIsLegal(db: Db, entries: Entries, r: nat, target: RestoreStatus, code: string, rollback: string, now: int)
    requires |entries| == |db.restores| && Disciplined(db, entries, MoveRestore(r, target, code, rollback, now))
    ensures LegalStep(db, entries, TransitionRestore(db, r, target, code, rollback, now).0)
  {
    hide SanitizeText, IsPreMutation;
  }

  lemma ClaimIsLegal(db: Db, entries: Entries, r: nat, current: Restore, now: int)
    requires |entries| == |db.restores| && r < |db.restores|
    ensures LegalStep(db, entries, ClaimFrom(db, r, current, now).0)
    decreases if current == db.restores[r] then 0 else 1
  {
    if current != db.restores[r] {
      ClaimIsLegal(db, entries, r, db.restores[r], now);
    }
  }

  /** The mark fails a restore before its mutation with a prefixed code, and leaves any other alone. */
  lemma MarkedRow(db: Db, r: nat, code: string, now: int)
    requires r < |db.restores|
    ensures var marked := MarkBeforeMutation(db, r, code, now);
            if db.restores[r].status in BEFORE_MUTATION then
              && marked == db.(restores := db.restores[r := marked.restores[r]])
              && marked.restores[r].status == RestoreFailed && IsPreMutation(marked.restores[r].failureCode)
              && marked.restores[r].rollbackAttempted == db.restores[r].rollbackAttempted
            else marked == db
  {
    PreMutationCodeIsMarked(code);
    hide SanitizeText, IsPreMutation, Truncate;
  }

  lemma MarkIsLegal(db: Db, entries: Entries, r: nat, code: string, now: int)
    requires |entries| == |db.restores|
    ensures LegalStep(db, entries, MarkBeforeMutation(db, r, code, now))
    ensures LegalStep(db, entries, MarkRecovery(db, r, now))
  {
    if r < |db.restores| {
      MarkedRow(db, r, code, now);
    }
    hide SanitizeText, IsPreMutation, Truncate;
  }

  lemma RelabelIsLegal(db: Db, entries: Entries, r: nat, now: int)
    requires |entries| == |db.restores|
    requires r < |db.restores| ==> db.restores[r].status != RestoreFailed || db.restores[r].rollbackAttempted || entries[r] == 0
    ensures LegalStep(db, entries, Relabel(db, r, now))
  {
  }

  lemma ExhaustedExitIsLegal(db: Db, entries: Entries, r: nat, code: string, now: int)
    requires |entries| == |db.restores|
    requires r < |db.restores| ==> db.restores[r].status != RestoreFailed || db.restores[r].rollbackAttempted || entries[r] == 0
    ensures LegalStep(db, entries, Relabel(MarkBeforeMutation(db, r, code, now), r, now))
  {
    if r < |db.restores| {
      MarkedRow(db, r, code, now);
      if db.restores[r].status in BEFORE_MUTATION {
        hide IsPreMutation, MarkBeforeMutation;
        var marked := MarkBeforeMutation(db, r, code, now);
        var row := Relabel(marked, r, now).restores[r];
        assert LegalChange(db.restores[r], row, entries[r]);
      } else {
        RelabelIsLegal(db, entries, r, now);
      }
    }
  }

  lemma ExitIsLegal(db: Db, entries: Entries, r: nat, exit: EngineExit, now: int)
    requires |entries| == |db.restores| && Disciplined(db, entries, HandleEngineExit(r, exit, now))
    ensures LegalStep(db, entries, HandleExit(db, r, exit, now))
  {
    hide MarkBeforeMutation, MarkRecovery, Relabel, IsPreMutation;
    MarkIsLegal(db, entries, r, if exit.Unexpected? then "restore_worker_failed" else exit.code, now);
    if exit.LockUnavailable? && !exit.retriesLeft {
      ExhaustedExitIsLegal(db, entries, r, exit.code, now);
    }
  }

  lemma StepIsLegal(db: Db, entries: Entries, step: Step)
    requires |entries| == |db.restores| && Disciplined(db, entries, step)
    ensures LegalStep(db, entries, Apply(db, step))
  {
    match step
    case MoveRestore(r, target, code, rollback, now) => TransitionIsLegal(db, entries, r, target, code, rollback, now);
    case ClaimRestore(business, r, now) =>
      if r < |db.restores| {
        ClaimIsLegal(db, entries, r, db.restores[r], now);
      }
    case MarkFailure(r, code, now) => MarkIsLegal(db, entries, r, code, now);
    case HandleEngineExit(r, exit, now) => ExitIsLegal(db, entries, r, exit, now);
    case _ =>
  }

  lemma UndisciplinedRow(db: Db, entries: Entries, step: Step)
    requires AllMutatedOnce(db, entries) && !Disciplined(db, entries, step)
    ensures (step.MoveRestore? || step.HandleEngineExit?) && step.r < |db.restores| == |Apply(db, step).restores|
    ensures entries[step.r] == 1 && Apply(db, step).restores[step.r].status == RestoreFailed && Retryable(Apply(db, step).restores[step.r])
  {
    assert MutatedOnce(db.restores[step.r], entries[step.r]);
    assert IsPreMutation(RETRY_EXHAUSTED);
    hide SanitizeText;
  }

  /** A step keeps every restore at one entry, and closed after it, exactly if it obeys the two rules. */
  lemma StepKeepsCountExactly(db: Db, entries: Entries, step: Step)
    requires AllMutatedOnce(db, entries)
    ensures AllMutatedOnce(Apply(db, step), CountEntries(entries, db, Apply(db, step))) <==> Disciplined(db, entries, step)
  {
    hide Disciplined, Apply, LegalStep;
    if Disciplined(db, entries, step) {
      hide AllMutatedOnce;
      EntriesCover(db, entries);
      StepIsLegal(db, entries, step);
      LegalStepKeepsMutatedOnce(db, entries, Apply(db, step));
    } else {
      UndisciplinedRow(db, entries, step);
      assert CountEntries(entries, db, Apply(db, step))[step.r] >= 1;
      assert !MutatedOnce(Apply(db, step).restores[step.r], CountEntries(entries, db, Apply(db, step))[step.r]);
    }
  }

  lemma EntriesCover(db: Db, entries: Entries)
    requires AllMutatedOnce(db, entries)
    ensures |entries| == |db.restores|
  {
  }

  // ---- Runs ----

  function Run(steps: seq<Step>): Db {
    if steps == [] then Db([], []) else Apply(Run(steps[..|steps| - 1]), steps[|steps| - 1])
  }

  function RunEntries(steps: seq<Step>): Entries {
    if steps == [] then []
    else CountEntries(RunEntries(steps[..|steps| - 1]), Run(steps[..|steps| - 1]), Run(steps))
  }

  ghost predicate DisciplinedRun(steps: seq<Step>) {
    forall n :: 0 <= n < |steps| ==> Disciplined(Run(steps[..n]), RunEntries(steps[..n]), steps[n])
  }

  /** Retention flags, constraints, links and safety backups are right after every run whatsoever. */
  lemma {:induction false} RunsAreSound(steps: seq<Step>)
    ensures Sound(Run(steps))
  {
    if steps != [] {
      RunsAreSound(steps[..|steps| - 1]);
      StepKeepsSound(Run(steps[..|steps| - 1]), steps[|steps| - 1]);
    }
  }

  lemma {:induction false} RunsMutateOnce(steps: seq<Step>)
    requires DisciplinedRun(steps)
    ensures AllMutatedOnce(Run(steps), RunEntries(steps))
  {
    if steps != [] {
      var n := |steps| - 1;
      forall m | 0 <= m < n
        ensures Disciplined(Run(steps[..n][..m]), RunEntries(steps[..n][..m]), steps[..n][m])
      {
        assert steps[..n][..m] == steps[..m];
      }
      RunsMutateOnce(steps[..n]);
      hide Disciplined, Apply, AllMutatedOnce;
      StepKeepsCountExactly(Run(steps[..n]), RunEntries(steps[..n]), steps[n]);
    }
  }

  /** Claims, redeliveries, retries and restarts never bring a restore into its mutation a second time. */
  lemma RestoringIsEnteredAtMostOnce(steps: seq<Step>, r: nat)
    requires DisciplinedRun(steps) && r < |Run(steps).restores|
    ensures RunEntries(steps)[r] <= 1
    ensures RunEntries(steps)[r] == 1 ==> forall business, now :: Claim(Run(steps), business, r, now).1 != Claimed
    ensures RunEntries(steps)[r] == 1 ==> Restart(Run(steps), r) == (Run(steps), Refused(NotRetryable))
  {
    RunsMutateOnce(steps);
    assert MutatedOnce(Run(steps).restores[r], RunEntries(steps)[r]);
  }

  /** The declared constraints on the columns of both tables follow from the services alone. */
  lemma DatabaseConstraintsHold(steps: seq<Step>)
    ensures forall i :: 0 <= i < |Run(steps).backups| ==> BackupConstraints(Run(steps).backups[i])
    ensures UniqueKeys(Run(steps))
    ensures forall r :: 0 <= r < |Run(steps).restores| && Run(steps).restores[r].safety.Some? ==>
                          Run(steps).restores[r].safety.value != Run(steps).restores[r].source
  {
    RunsAreSound(steps);
    var db := Run(steps);
    forall i | 0 <= i < |db.backups|
      ensures BackupConstraints(db.backups[i])
    {
      assert SoundBackup(db.backups[i]);
    }
  }

  /** After every run the flag is set exactly on verified scheduled backups that nothing holds back. */
  lemma RetentionFlagIsExact(steps: seq<Step>, i: nat)
    requires i < |Run(steps).backups|
    ensures var b := Run(steps).backups[i];
            b.retentionEligible <==>
            b.trigger == Scheduled && b.scope == AllEnabled && b.status == Succeeded && b.integrity == Verified
            && !b.pinned && !b.isProtected
  {
    RunsAreSound(steps);
    assert SoundBackup(Run(steps).backups[i]);
  }

  /** From validation on, a restore has its own protected safety backup, once verified and not its source. */
  lemma MutationIsBackedUp(steps: seq<Step>, r: nat)
    requires r < |Run(steps).restores| && Run(steps).restores[r].status in NEEDS_SAFETY
    ensures Run(steps).restores[r].safety.Some?
    ensures OwnSafety(Run(steps), r, Run(steps).restores[r].safety.value)
  {
    RunsAreSound(steps);
    SafetyOf(Run(steps), r);
  }

  // ---- How exact the rule on failure codes is ----

  /**
   Storing a prefixed failure on a restore that has entered its mutation breaks the count exactly
   when the table accepts the transition, that is, while the restore is being mutated or verified.
   */
  lemma PrefixRuleIsExact(x: Restore, code: string, now: int)
    requires MutatedOnce(x, 1) && IsPreMutation(SanitizeText(code, CODE_LIMIT))
    ensures (RestoreFailed in RestoreTargets(x.status) && !MutatedOnce(MovedRestore(x, RestoreFailed, code, "", now), 1))
            <==> x.status in {Restoring, RestoreVerifying}
  {
    hide SanitizeText;
  }

  /** Relabelling breaks the count exactly on a mutated restore that failed without being rolled back. */
  lemma RelabelRuleIsExact(db: Db, r: nat, now: int)
    requires r < |db.restores| && MutatedOnce(db.restores[r], 1)
    ensures !MutatedOnce(Relabel(db, r, now).restores[r], 1) <==>
            db.restores[r].status == RestoreFailed && !db.restores[r].rollbackAttempted
  {
    assert IsPreMutation(RETRY_EXHAUSTED);
  }

  // ---- Claims on rows that may be stale ----

  predicate Claimable(x: Restore) {
    x.status == RestoreQueued || Retryable(x)
  }

  /**
   Whatever row the worker had read, its claim is won exactly when that row and the stored row are
   both claimable, and then only the stored row is opened; every other answer changes nothing.
   */
  lemma StaleClaimsAreSafe(db: Db, r: nat, current: Restore, now: int)
    requires r < |db.restores|
    ensures var (db', state) := ClaimFrom(db, r, current, now);
            && (state == Claimed <==> Claimable(current) && Claimable(db.restores[r]))
            && (state != Claimed ==> db' == db)
            && (state == Claimed ==> db'.backups == db.backups && |db'.restores| == |db.restores|
                                     && db'.restores[r].status == Authorizing
                                     && forall k :: 0 <= k < |db.restores| && k != r ==> db'.restores[k] == db.restores[k])
    decreases if current == db.restores[r] then 0 else 1
  {
    if current != db.restores[r] {
      StaleClaimsAreSafe(db, r, db.restores[r], now);
    }
  }

  /** Of two claims with nothing in between, at most one is won. */
  lemma ClaimIsWonOnce(db: Db, business: nat, r: nat, first: int, second: int)
    requires Claim(db, business, r, first).1 == Claimed
    ensures Claim(Claim(db, business, r, first).0, business, r, second) == (Claim(db, business, r, first).0, ActiveOrAmbiguous)
  {
    StaleClaimsAreSafe(db, r, db.restores[r], first);
  }

  const ACTIVE_BEFORE_MUTATION := {Authorizing, Locking, SafetyBackup, Validating}

  /** From `a` to `x` an active restore was stopped before its mutation and may be retried; success is untouched. */
  ghost predicate Settled(a: Restore, x: Restore) {
    && x.status !in ACTIVE_BEFORE_MUTATION
    && (a.status in ACTIVE_BEFORE_MUTATION && !a.rollbackAttempted ==> Retryable(x))
    && (x.status == RestoreSucceeded <==> a.status == RestoreSucceeded)
  }

  lemma MarkSettles(db: Db, r: nat, code: string, now: int)
    requires r < |db.restores|
    ensures |MarkBeforeMutation(db, r, code, now).restores| == |db.restores|
    ensures Settled(db.restores[r], MarkBeforeMutation(db, r, code, now).restores[r])
  {
    MarkedRow(db, r, code, now);
    hide MarkBeforeMutation, IsPreMutation;
  }

  lemma RelabelSettles(a: Restore, db: Db, r: nat, now: int)
    requires r < |db.restores| && Settled(a, db.restores[r])
    ensures |Relabel(db, r, now).restores| == |db.restores| && Settled(a, Relabel(db, r, now).restores[r])
  {
    assert IsPreMutation(RETRY_EXHAUSTED);
    hide IsPreMutation;
  }

  lemma RecoverySettles(db: Db, r: nat, now: int)
    requires r < |db.restores| && db.restores[r].status in {Restoring, RestoreVerifying}
    ensures |MarkRecovery(db, r, now).restores| == |db.restores|
    ensures MarkRecovery(db, r, now).restores[r].status == Indeterminate
  {
    hide SanitizeText;
  }

  /** After any engine failure no restore stays active before its mutation; after a crash none stays inside it. */
  lemma NothingIsStranded(db: Db, r: nat, exit: EngineExit, now: int)
    requires r < |db.restores|
    ensures |HandleExit(db, r, exit, now).restores| == |db.restores|
    ensures Settled(db.restores[r], HandleExit(db, r, exit, now).restores[r])
    ensures exit.Unexpected? ==> HandleExit(db, r, exit, now).restores[r].status !in {Restoring, RestoreVerifying}
  {
    hide MarkBeforeMutation, MarkRecovery, Relabel, IsPreMutation;
    MarkSettles(db, r, if exit.Unexpected? then "restore_worker_failed" else exit.code, now);
    if exit.LockUnavailable? && !exit.retriesLeft {
      RelabelSettles(db.restores[r], MarkBeforeMutation(db, r, exit.code, now), r, now);
    }
    if exit.Unexpected? {
      if db.restores[r].status in {Restoring, RestoreVerifying} {
        RecoverySettles(db, r, now);
      } else {
        MarkedRow(db, r, "restore_worker_failed", now);
      }
    }
  }

  /** Asking again with the same key returns the same backup and changes nothing. */
  lemma RequestIsIdempotent(db: Db, q: BackupRequest)
    requires CreateBackup(db, q).1.Done? && UniqueKeys(CreateBackup(db, q).0)
    ensures CreateBackup(CreateBackup(db, q).0, q) == CreateBackup(db, q)
  {
    var (db', outcome) := CreateBackup(db, q);
    assert RequestRefusal(db', q) == RequestRefusal(db, q);
    var i := outcome.id;
    assert db'.backups[i].business == q.business && db'.backups[i].key == NormalKey(q.key);
    var found := FindBackup(db'.backups, q.business, NormalKey(q.key));
    assert found == i;
  }
}
