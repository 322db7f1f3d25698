/**
 Services whose read and write are not one step.

 Some services read a row, decide, and write later. Here the row they read, the snapshot, may be
 older than the row they write to. The database still enforces its check constraints on the row
 that results, and a refused write leaves the row as it was.
 */
module RacingWrites {
  import opened Options
  import opened StateMachines
  import opened FailureCodes
  import opened ComponentRegistry
  import opened ControlPlane
  import opened ControlPlaneRuns

  /** What two versions of one backup row always share. */
  predicate SameBackup(a: Backup, b: Backup) {
    && a.business == b.business && a.scope == b.scope && a.trigger == b.trigger && a.localDate == b.localDate
    && a.isProtected == b.isProtected && a.parent == b.parent
  }

  ghost function Checked(stored: Backup, written: Backup): Backup {
    if BackupConstraints(written) then written else stored
  }

  ghost predicate FlagIsExact(b: Backup) {
    b.retentionEligible <==> IsRetentionEligible(b, b.status, b.integrity, b.pinned)
  }

  // ---- Pinning: an unconditional write of two columns ----

  ghost function RacingPin(stored: Backup, snapshot: Backup, pinned: bool): Backup {
    Checked(stored, stored.(pinned := pinned,
                            retentionEligible := IsRetentionEligible(snapshot, snapshot.status, snapshot.integrity, pinned)))
  }

  /** However stale the snapshot, the declared constraints hold of the row that results. */
  lemma RacingPinKeepsConstraints(stored: Backup, snapshot: Backup, pinned: bool)
    requires SoundBackup(stored) && SameBackup(stored, snapshot)
    ensures BackupConstraints(RacingPin(stored, snapshot, pinned))
  {
  }

  /**
   A racing pin leaves the flag wrong exactly when it unpins a backup that had become eligible
   after it was read: the flag is lost, and nothing sets it again until the next pin.
   */
  lemma RacingPinLosesFlagExactlyWhen(stored: Backup, snapshot: Backup, pinned: bool)
    requires SoundBackup(stored) && SameBackup(stored, snapshot)
    ensures !FlagIsExact(RacingPin(stored, snapshot, pinned)) <==>
            && IsRetentionEligible(stored, stored.status, stored.integrity, pinned)
            && !(snapshot.status == Succeeded && snapshot.integrity == Verified)
  {
  }

  // ---- Completing a backup: a write guarded by the status alone ----

  ghost function RacingSuccess(stored: Backup, snapshot: Backup, now: int): Backup {
    if Succeeded !in BackupTargets(snapshot.status) || snapshot.integrity != Verified || stored.status != snapshot.status then stored
    else Checked(stored, stored.(status := Succeeded, completedAt := Some(now),
                                 retentionEligible := IsRetentionEligible(snapshot, Succeeded, snapshot.integrity, snapshot.pinned)))
  }

  lemma RacingSuccessKeepsConstraints(stored: Backup, snapshot: Backup, now: int)
    requires SoundBackup(stored) && SameBackup(stored, snapshot)
    ensures BackupConstraints(RacingSuccess(stored, snapshot, now))
  {
  }

  /** The guarded write completes the backup wrongly exactly when a pin was taken off in between. */
  lemma RacingSuccessLosesFlagExactlyWhen(stored: Backup, snapshot: Backup, now: int)
    requires SoundBackup(stored) && SameBackup(stored, snapshot)
    ensures !FlagIsExact(RacingSuccess(stored, snapshot, now)) <==>
            && stored.status == snapshot.status == Verifying
            && stored.integrity == snapshot.integrity == Verified
            && stored.trigger == Scheduled && stored.scope == AllEnabled && !stored.isProtected
            && snapshot.pinned && !stored.pinned
  {
  }

  // ---- Marking a restore as failed before mutation ----

  /**
   The worker looked at the restore while it was still before its mutation and writes the failure
   after another worker has started it: the next claim wins the restore once more.
   */
  lemma StaleMarkAllowsSecondClaim(db: Db, r: nat, code: string, now: int)
    requires Sound(db) && r < |db.restores| && db.restores[r].status == Restoring && !db.restores[r].rollbackAttempted
    ensures var marked := TransitionRestore(db, r, RestoreFailed, Truncate(PRE_MUTATION + code, CODE_LIMIT), "", now).0;
            Claim(marked, db.restores[r].business, r, now).1 == Claimed
  {
    PreMutationCodeIsMarked(code);
    hide SanitizeText, IsPreMutation, Truncate;
    var marked := TransitionRestore(db, r, RestoreFailed, Truncate(PRE_MUTATION + code, CODE_LIMIT), "", now).0;
    assert Retryable(marked.restores[r]);
  }

  /** From a claim, four declared transitions lead back into the mutation while the safety backup is usable. */
  lemma ClaimedRestoreCanMutate(db: Db, r: nat, now: int)
    requires r < |db.restores| && db.restores[r].status == Authorizing
    requires db.restores[r].safety.Some? && UsableSafety(db, r, db.restores[r].safety.value)
    ensures var a := TransitionRestore(db, r, Locking, "", "", now).0;
            var b := TransitionRestore(a, r, SafetyBackup, "", "", now).0;
            var c := TransitionRestore(b, r, Validating, "", "", now).0;
            var d := TransitionRestore(c, r, Restoring, "", "", now).0;
            d.restores[r].status == Restoring
  {
    var a := TransitionRestore(db, r, Locking, "", "", now).0;
    var b := TransitionRestore(a, r, SafetyBackup, "", "", now).0;
    assert UsableSafety(b, r, b.restores[r].safety.value);
  }
}
