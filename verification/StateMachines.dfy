/** The declared lifecycles of backups, of their integrity, and of restores. */
module StateMachines {
  datatype BackupStatus =
    | Queued | Preparing | Snapshotting | Packaging | Uploading | Verifying
    | Succeeded | Failed | Cancelled | DeletionPending | Deleted

  datatype IntegrityStatus = NotChecked | IntegrityVerifying | Verified | IntegrityFailed | Corrupted

  datatype RestoreStatus =
    | RestoreQueued | Authorizing | Locking | SafetyBackup | Validating
    | Restoring | RestoreVerifying | RestoreSucceeded | RestoreFailed
    | RollingBack | RolledBack | Indeterminate

  function BackupTargets(s: BackupStatus): set<BackupStatus> {
    match s
    case Queued => {Preparing, Failed, Cancelled}
    case Preparing => {Snapshotting, Failed, Cancelled}
    case Snapshotting => {Packaging, Failed, Cancelled}
    case Packaging => {Uploading, Failed, Cancelled}
    case Uploading => {Verifying, Failed, Cancelled}
    case Verifying => {Succeeded, Failed, Cancelled}
    case Succeeded => {DeletionPending}
    case Failed => {DeletionPending}
    case Cancelled => {DeletionPending}
    case DeletionPending => {Deleted}
    case Deleted => {}
  }

  function IntegrityTargets(s: IntegrityStatus): set<IntegrityStatus> {
    match s
    case NotChecked => {IntegrityVerifying, IntegrityFailed, Corrupted}
    case IntegrityVerifying => {Verified, IntegrityFailed, Corrupted}
    case Verified => {Corrupted}
    case IntegrityFailed => {IntegrityVerifying, Corrupted}
    case Corrupted => {}
  }

  function RestoreTargets(s: RestoreStatus): set<RestoreStatus> {
    match s
    case RestoreQueued => {Authorizing, RestoreFailed}
    case Authorizing => {Locking, RestoreFailed}
    case Locking => {SafetyBackup, RestoreFailed}
    case SafetyBackup => {Validating, RestoreFailed}
    case Validating => {Restoring, RestoreFailed}
    case Restoring => {RestoreVerifying, RestoreFailed, RollingBack, Indeterminate}
    case RestoreVerifying => {RestoreSucceeded, RestoreFailed, RollingBack, Indeterminate}
    case RestoreFailed => {RollingBack, Indeterminate}
    case RollingBack => {RolledBack, Indeterminate}
    case RestoreSucceeded => {}
    case RolledBack => {}
    case Indeterminate => {}
  }

  // ---- Shape of the tables ----

  function BackupRank(s: BackupStatus): nat {
    match s
    case Queued => 0
    case Preparing => 1
    case Snapshotting => 2
    case Packaging => 3
    case Uploading => 4
    case Verifying => 5
    case Succeeded => 6
    case Failed => 6
    case Cancelled => 6
    case DeletionPending => 7
    case Deleted => 8
  }

  function RestoreRank(s: RestoreStatus): nat {
    match s
    case RestoreQueued => 0
    case Authorizing => 1
    case Locking => 2
    case SafetyBackup => 3
    case Validating => 4
    case Restoring => 5
    case RestoreVerifying => 6
    case RestoreSucceeded => 7
    case RestoreFailed => 7
    case RollingBack => 8
    case RolledBack => 9
    case Indeterminate => 9
  }

  ghost predicate BackupPath(p: seq<BackupStatus>) {
    forall i :: 0 <= i < |p| - 1 ==> p[i + 1] in BackupTargets(p[i])
  }

  ghost predicate RestorePath(p: seq<RestoreStatus>) {
    forall i :: 0 <= i < |p| - 1 ==> p[i + 1] in RestoreTargets(p[i])
  }

  /** No declared path visits a backup status twice. */
  lemma {:induction false} BackupPathsClimb(p: seq<BackupStatus>, i: nat, j: nat)
    requires BackupPath(p) && i < j < |p|
    ensures BackupRank(p[i]) < BackupRank(p[j])
  {
    assert p[j - 1 + 1] in BackupTargets(p[j - 1]);
    if i < j - 1 {
      BackupPathsClimb(p, i, j - 1);
    }
  }

  /** No declared path visits a restore status twice; only the restart outside the table can. */
  lemma {:induction false} RestorePathsClimb(p: seq<RestoreStatus>, i: nat, j: nat)
    requires RestorePath(p) && i < j < |p|
    ensures RestoreRank(p[i]) < RestoreRank(p[j])
  {
    assert p[j - 1 + 1] in RestoreTargets(p[j - 1]);
    if i < j - 1 {
      RestorePathsClimb(p, i, j - 1);
    }
  }

  /** A path that starts before the mutation and succeeds went through every stage, in order. */
  lemma {:induction false} SuccessPassesEveryStage(p: seq<RestoreStatus>)
    requires RestorePath(p) && |p| > 0 && p[|p| - 1] == RestoreSucceeded
    ensures RestoreRank(p[0]) <= 7 && |p| == 8 - RestoreRank(p[0])
    ensures p[0] != RestoreFailed
    ensures forall i :: 0 <= i < |p| ==> RestoreRank(p[i]) == RestoreRank(p[0]) + i
  {
    if |p| > 1 {
      SuccessPassesEveryStage(p[1..]);
      assert p[0 + 1] in RestoreTargets(p[0]);
      forall i | 0 <= i < |p|
        ensures RestoreRank(p[i]) == RestoreRank(p[0]) + i
      {
        if i > 0 {
          assert p[i] == p[1..][i - 1];
        }
      }
    }
  }

  // ---- The tables, read off the stages of the work ----

  predicate BackupWorksOn(s: BackupStatus, t: BackupStatus) {
    || (s == Queued && t == Preparing) || (s == Preparing && t == Snapshotting) || (s == Snapshotting && t == Packaging)
    || (s == Packaging && t == Uploading) || (s == Uploading && t == Verifying) || (s == Verifying && t == Succeeded)
  }

  predicate RestoreWorksOn(s: RestoreStatus, t: RestoreStatus) {
    || (s == RestoreQueued && t == Authorizing) || (s == Authorizing && t == Locking) || (s == Locking && t == SafetyBackup)
    || (s == SafetyBackup && t == Validating) || (s == Validating && t == Restoring)
    || (s == Restoring && t == RestoreVerifying) || (s == RestoreVerifying && t == RestoreSucceeded)
  }

  /** A backup at work goes on to its next stage, fails or is cancelled; a finished one can only be deleted. */
  lemma BackupTableExactly(s: BackupStatus, t: BackupStatus)
    ensures t in BackupTargets(s) <==>
            || BackupWorksOn(s, t)
            || ((exists u :: BackupWorksOn(s, u)) && (t == Failed || t == Cancelled))
            || ((s == Succeeded || s == Failed || s == Cancelled) && t == DeletionPending)
            || (s == DeletionPending && t == Deleted)
  {
    assert BackupWorksOn(Queued, Preparing) && BackupWorksOn(Preparing, Snapshotting) && BackupWorksOn(Snapshotting, Packaging);
    assert BackupWorksOn(Packaging, Uploading) && BackupWorksOn(Uploading, Verifying) && BackupWorksOn(Verifying, Succeeded);
  }

  /** A restore at work goes on or fails; only once tenant data may have changed can it be rolled back or be left undecided. */
  lemma RestoreTableExactly(s: RestoreStatus, t: RestoreStatus)
    ensures t in RestoreTargets(s) <==>
            || RestoreWorksOn(s, t)
            || ((exists u :: RestoreWorksOn(s, u)) && t == RestoreFailed)
            || ((s == Restoring || s == RestoreVerifying || s == RestoreFailed) && (t == RollingBack || t == Indeterminate))
            || (s == RollingBack && (t == RolledBack || t == Indeterminate))
  {
    assert RestoreWorksOn(RestoreQueued, Authorizing) && RestoreWorksOn(Authorizing, Locking) && RestoreWorksOn(Locking, SafetyBackup);
    assert RestoreWorksOn(SafetyBackup, Validating) && RestoreWorksOn(Validating, Restoring);
    assert RestoreWorksOn(Restoring, RestoreVerifying) && RestoreWorksOn(RestoreVerifying, RestoreSucceeded);
  }

  /** Verification may be repeated after a failure, corruption may be found at any time and is final. */
  lemma IntegrityTableExactly(s: IntegrityStatus, t: IntegrityStatus)
    ensures t in IntegrityTargets(s) <==>
            || (t == Corrupted && s != Corrupted)
            || (t == IntegrityVerifying && (s == NotChecked || s == IntegrityFailed))
            || (t == Verified && s == IntegrityVerifying)
            || (t == IntegrityFailed && (s == NotChecked || s == IntegrityVerifying))
  {
  }
}
