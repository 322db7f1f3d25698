/**
 What happens without the two rules on failure codes: a restore that is being mutated comes back to
 its mutation a second time.
 */
module SecondEntries {
  import opened Options
  import opened ComponentRegistry
  import opened StateMachines
  import opened FailureCodes
  import opened ControlPlane
  import opened ControlPlaneRuns

  /** The declared transitions from a claim to the mutation. */
  function Moves(r: nat, now: int): seq<Step> {
    [MoveRestore(r, Locking, "", "", now), MoveRestore(r, SafetyBackup, "", "", now),
     MoveRestore(r, Validating, "", "", now), MoveRestore(r, Restoring, "", "", now)]
  }

  function Reentry(business: nat, r: nat, now: int): seq<Step> {
    [ClaimRestore(business, r, now)] + Moves(r, now)
  }

  predicate HasUsableSafety(db: Db, r: nat)
    requires r < |db.restores|
  {
    db.restores[r].safety.Some? && UsableSafety(db, r, db.restores[r].safety.value)
  }

  // ---- One step more ----

  lemma OneMore(steps: seq<Step>, step: Step)
    ensures Run(steps + [step]) == Apply(Run(steps), step)
    ensures RunEntries(steps + [step]) == CountEntries(RunEntries(steps), Run(steps), Run(steps + [step]))
    ensures DisciplinedRun(steps) && Disciplined(Run(steps), RunEntries(steps), step) ==> DisciplinedRun(steps + [step])
  {
    hide Apply, CountEntries, Disciplined;
    var longer := steps + [step];
    assert longer[..|steps|] == steps;
    assert forall n :: 0 <= n < |steps| ==> longer[..n] == steps[..n] && longer[n] == steps[n];
  }

  lemma EntriesPerRestore(steps: seq<Step>)
    ensures |RunEntries(steps)| == |Run(steps).restores|
  {
  }

  /** A move of restore `r` counts exactly when it leads into the mutation. */
  lemma OneMove(steps: seq<Step>, r: nat, step: Step)
    requires r < |Run(steps).restores| && r < |Apply(Run(steps), step).restores|
    ensures Run(steps + [step]) == Apply(Run(steps), step)
    ensures r < |RunEntries(steps)| && r < |RunEntries(steps + [step])|
    ensures RunEntries(steps + [step])[r] == RunEntries(steps)[r] + Entered(Run(steps), Apply(Run(steps), step), r)
  {
    hide Apply, Entered;
    OneMore(steps, step);
    EntriesPerRestore(steps);
    EntriesPerRestore(steps + [step]);
  }

  // ---- From a retryable restore back into the mutation ----

  /** The restore stands at `status` with a usable safety backup. */
  predicate Stands(db: Db, r: nat, status: RestoreStatus) {
    r < |db.restores| && db.restores[r].status == status && HasUsableSafety(db, r)
  }

  lemma DeclaredMove(db: Db, r: nat, target: RestoreStatus, code: string, now: int)
    requires r < |db.restores| && HasUsableSafety(db, r) && target in RestoreTargets(db.restores[r].status)
    ensures var after := Apply(db, MoveRestore(r, target, code, "", now));
            && Stands(after, r, target) && after.restores[r] == MovedRestore(db.restores[r], target, code, "", now)
            && Entered(db, after, r) == if target == Restoring then 1 else 0
  {
    hide SanitizeText;
  }

  lemma MoveOn(steps: seq<Step>, r: nat, from: RestoreStatus, target: RestoreStatus, now: int)
    requires Stands(Run(steps), r, from) && target in RestoreTargets(from)
    ensures var longer := steps + [MoveRestore(r, target, "", "", now)];
            && Stands(Run(longer), r, target) && r < |RunEntries(steps)| && r < |RunEntries(longer)|
            && RunEntries(longer)[r] == RunEntries(steps)[r] + if target == Restoring then 1 else 0
  {
    DeclaredMove(Run(steps), r, target, "", now);
    hide Apply, Entered, MovedRestore, HasUsableSafety;
    OneMove(steps, r, MoveRestore(r, target, "", "", now));
  }

  lemma RetryIsClaimed(db: Db, r: nat, now: int)
    requires r < |db.restores| && Retryable(db.restores[r]) && HasUsableSafety(db, r)
    requires db.restores[r].source < |db.backups| && db.backups[db.restores[r].source].business == db.restores[r].business
    ensures var after := Apply(db, ClaimRestore(db.restores[r].business, r, now));
            r < |after.restores| && Stands(after, r, Authorizing) && Entered(db, after, r) == 0
  {
    hide IsPreMutation;
  }

  lemma MovesReachMutation(steps: seq<Step>, r: nat, now: int)
    requires Stands(Run(steps), r, Authorizing)
    ensures var longer := steps + Moves(r, now);
            && r < |RunEntries(steps)| && r < |RunEntries(longer)|
            && RunEntries(longer)[r] == RunEntries(steps)[r] + 1 && Stands(Run(longer), r, Restoring)
  {
    hide Run, RunEntries, Stands;
    MoveOn(steps, r, Authorizing, Locking, now);
    var b := steps + [MoveRestore(r, Locking, "", "", now)];
    MoveOn(b, r, Locking, SafetyBackup, now);
    var c := b + [MoveRestore(r, SafetyBackup, "", "", now)];
    MoveOn(c, r, SafetyBackup, Validating, now);
    var d := c + [MoveRestore(r, Validating, "", "", now)];
    MoveOn(d, r, Validating, Restoring, now);
    assert steps + Moves(r, now) == d + [MoveRestore(r, Restoring, "", "", now)];
  }

  lemma Reenters(steps: seq<Step>, r: nat, now: int)
    requires r < |Run(steps).restores| && Retryable(Run(steps).restores[r]) && HasUsableSafety(Run(steps), r)
    ensures var longer := steps + Reentry(Run(steps).restores[r].business, r, now);
            && r < |RunEntries(steps)| && r < |RunEntries(longer)|
            && RunEntries(longer)[r] == RunEntries(steps)[r] + 1 && Stands(Run(longer), r, Restoring)
  {
    hide *;
    var claim := ClaimRestore(Run(steps).restores[r].business, r, now);
    ReentryParts(Run(steps).restores[r].business, r, now);
    SourceIsOwn(steps, r);
    RetryIsClaimed(Run(steps), r, now);
    OneMove(steps, r, claim);
    MovesReachMutation(steps + [claim], r, now);
    assert steps + ([claim] + Moves(r, now)) == steps + [claim] + Moves(r, now);
  }

  lemma ReentryParts(business: nat, r: nat, now: int)
    ensures Reentry(business, r, now) == [ClaimRestore(business, r, now)] + Moves(r, now)
  {
  }

  lemma SourceIsOwn(steps: seq<Step>, r: nat)
    requires r < |Run(steps).restores|
    ensures Run(steps).restores[r].source < |Run(steps).backups|
    ensures Run(steps).backups[Run(steps).restores[r].source].business == Run(steps).restores[r].business
  {
    RunsAreSound(steps);
  }

  /** In a disciplined run a restore in its mutation has entered it once and was not rolled back. */
  lemma RestoringHasEnteredOnce(steps: seq<Step>, r: nat)
    requires DisciplinedRun(steps) && Stands(Run(steps), r, Restoring)
    ensures r < |RunEntries(steps)| && r < |Run(steps).restores| && RunEntries(steps)[r] == 1 && !Run(steps).restores[r].rollbackAttempted
  {
    RunsMutateOnce(steps);
    assert MutatedOnce(Run(steps).restores[r], RunEntries(steps)[r]);
  }

  /** After any disciplined run, one prefixed failure stored during the mutation leads to a second entry. */
  lemma LatePrefixedFailureEntersTwice(steps: seq<Step>, r: nat, code: string, now: int)
    requires DisciplinedRun(steps) && Stands(Run(steps), r, Restoring) && IsPreMutation(SanitizeText(code, CODE_LIMIT))
    ensures var failure := MoveRestore(r, RestoreFailed, code, "", now);
            var longer := steps + [failure] + Reentry(Run(steps).restores[r].business, r, now);
            && !Disciplined(Run(steps), RunEntries(steps), failure)
            && r < |RunEntries(longer)| && RunEntries(longer)[r] == 2
  {
    hide *;
    var failure := MoveRestore(r, RestoreFailed, code, "", now);
    RestoringHasEnteredOnce(steps, r);
    LatePrefixedFailure(Run(steps), r, code, now);
    OneMove(steps, r, failure);
    Reenters(steps + [failure], r, now);
  }

  lemma LatePrefixedFailure(db: Db, r: nat, code: string, now: int)
    requires Stands(db, r, Restoring) && r < |db.restores| && !db.restores[r].rollbackAttempted && IsPreMutation(SanitizeText(code, CODE_LIMIT))
    ensures var failure := MoveRestore(r, RestoreFailed, code, "", now);
            var after := Apply(db, failure);
            && (forall es: Entries :: !Disciplined(db, es, failure)) && r < |after.restores| && Entered(db, after, r) == 0
            && Retryable(after.restores[r]) && HasUsableSafety(after, r) && after.restores[r].business == db.restores[r].business
  {
    hide SanitizeText, IsPreMutation, HasUsableSafety;
    DeclaredMove(db, r, RestoreFailed, code, now);
  }

  lemma PlainFailure(db: Db, r: nat, code: string, now: int)
    requires Stands(db, r, Restoring) && r < |db.restores| && !db.restores[r].rollbackAttempted && !IsPreMutation(SanitizeText(code, CODE_LIMIT))
    ensures var failure := MoveRestore(r, RestoreFailed, code, "", now);
            var after := Apply(db, failure);
            && (forall es: Entries :: Disciplined(db, es, failure)) && r < |after.restores| && Entered(db, after, r) == 0 && Stands(after, r, RestoreFailed)
            && !Retryable(after.restores[r]) && !after.restores[r].rollbackAttempted && after.restores[r].business == db.restores[r].business
  {
    hide SanitizeText, IsPreMutation, HasUsableSafety;
    DeclaredMove(db, r, RestoreFailed, code, now);
  }

  /** After any disciplined run, so does relabelling a failure of the mutation that was not rolled back. */
  lemma LateRelabelEntersTwice(steps: seq<Step>, r: nat, code: string, busy: string, now: int)
    requires DisciplinedRun(steps) && Stands(Run(steps), r, Restoring) && !IsPreMutation(SanitizeText(code, CODE_LIMIT))
    ensures var failure := MoveRestore(r, RestoreFailed, code, "", now);
            var relabel := HandleEngineExit(r, LockUnavailable(busy, false), now);
            var longer := steps + [failure] + [relabel] + Reentry(Run(steps).restores[r].business, r, now);
            && DisciplinedRun(steps + [failure]) && !Disciplined(Run(steps + [failure]), RunEntries(steps + [failure]), relabel)
            && r < |RunEntries(longer)| && RunEntries(longer)[r] == 2
  {
    var failure := MoveRestore(r, RestoreFailed, code, "", now);
    var relabel := HandleEngineExit(r, LockUnavailable(busy, false), now);
    hide *;
    RestoringHasEnteredOnce(steps, r);
    PlainFailure(Run(steps), r, code, now);
    OneMore(steps, failure);
    OneMove(steps, r, failure);
    var failed := steps + [failure];
    LateRelabel(Run(failed), RunEntries(failed), r, busy, now);
    OneMove(failed, r, relabel);
    Reenters(failed + [relabel], r, now);
  }

  lemma LateRelabel(db: Db, entries: Entries, r: nat, busy: string, now: int)
    requires r < |entries| && entries[r] == 1
    requires Stands(db, r, RestoreFailed) && r < |db.restores| && !db.restores[r].rollbackAttempted && !Retryable(db.restores[r])
    ensures var relabel := HandleEngineExit(r, LockUnavailable(busy, false), now);
            var after := Apply(db, relabel);
            && !Disciplined(db, entries, relabel) && Entered(db, after, r) == 0
            && r < |after.restores| && HasUsableSafety(after, r) && Retryable(after.restores[r])
            && after.restores[r].business == db.restores[r].business
  {
    assert IsPreMutation(RETRY_EXHAUSTED);
  }

  // ---- Both kinds of run exist ----

  /** Backup `b` stands at these states; its other columns that matter, and everything else, are as in `db`. */
  ghost predicate BackupAt(db: Db, db': Db, b: nat, status: BackupStatus, integrity: IntegrityStatus) {
    && b < |db.backups| == |db'.backups| && db'.restores == db.restores
    && (forall i :: 0 <= i < |db.backups| && i != b ==> db'.backups[i] == db.backups[i])
    && var x, y := db.backups[b], db'.backups[b];
    && y.business == x.business && y.key == x.key && y.products == x.products && y.trigger == x.trigger && y.parent == x.parent && y.isProtected == x.isProtected
    && y.status == status && y.integrity == integrity
  }

  lemma BackupMoved(first: Db, db: Db, b: nat, from: BackupStatus, integrity: IntegrityStatus, to: BackupStatus)
    requires BackupAt(first, db, b, from, integrity) && to in BackupTargets(from) && (to == Succeeded ==> integrity == Verified)
    ensures BackupAt(first, Apply(db, MoveBackup(b, to, "", 0)), b, to, integrity)
    ensures forall es: Entries :: Disciplined(db, es, MoveBackup(b, to, "", 0))
  {
    hide SanitizeText, BackupTargets;
  }

  lemma BackupMoves(first: Db, steps: seq<Step>, b: nat, from: BackupStatus, integrity: IntegrityStatus, to: BackupStatus)
    requires DisciplinedRun(steps) && BackupAt(first, Run(steps), b, from, integrity)
    requires to in BackupTargets(from) && (to == Succeeded ==> integrity == Verified)
    ensures var longer := steps + [MoveBackup(b, to, "", 0)];
            DisciplinedRun(longer) && BackupAt(first, Run(longer), b, to, integrity)
  {
    hide *;
    BackupMoved(first, Run(steps), b, from, integrity, to);
    OneMore(steps, MoveBackup(b, to, "", 0));
  }

  lemma BackupWasChecked(first: Db, db: Db, b: nat, status: BackupStatus, from: IntegrityStatus, to: IntegrityStatus)
    requires BackupAt(first, db, b, status, from) && to in IntegrityTargets(from)
    ensures BackupAt(first, Apply(db, CheckBackup(b, to, 0)), b, status, to)
    ensures forall es: Entries :: Disciplined(db, es, CheckBackup(b, to, 0))
  {
    hide IntegrityTargets;
  }

  lemma BackupChecked(first: Db, steps: seq<Step>, b: nat, status: BackupStatus, from: IntegrityStatus, to: IntegrityStatus)
    requires DisciplinedRun(steps) && BackupAt(first, Run(steps), b, status, from) && to in IntegrityTargets(from)
    ensures var longer := steps + [CheckBackup(b, to, 0)];
            DisciplinedRun(longer) && BackupAt(first, Run(longer), b, status, to)
  {
    hide *;
    BackupWasChecked(first, Run(steps), b, status, from, to);
    OneMore(steps, CheckBackup(b, to, 0));
  }

  /** A queued backup can run to verified success. */
  lemma BackupSucceeds(steps: seq<Step>, b: nat) returns (longer: seq<Step>)
    requires DisciplinedRun(steps) && BackupAt(Run(steps), Run(steps), b, Queued, NotChecked)
    ensures DisciplinedRun(longer) && BackupAt(Run(steps), Run(longer), b, Succeeded, Verified)
  {
    var first := Run(steps);
    hide DisciplinedRun, Run, BackupAt;
    longer := steps;
    BackupMoves(first, longer, b, Queued, NotChecked, Preparing);
    longer := longer + [MoveBackup(b, Preparing, "", 0)];
    BackupMoves(first, longer, b, Preparing, NotChecked, Snapshotting);
    longer := longer + [MoveBackup(b, Snapshotting, "", 0)];
    BackupMoves(first, longer, b, Snapshotting, NotChecked, Packaging);
    longer := longer + [MoveBackup(b, Packaging, "", 0)];
    BackupMoves(first, longer, b, Packaging, NotChecked, Uploading);
    longer := longer + [MoveBackup(b, Uploading, "", 0)];
    BackupMoves(first, longer, b, Uploading, NotChecked, Verifying);
    longer := longer + [MoveBackup(b, Verifying, "", 0)];
    BackupChecked(first, longer, b, Verifying, NotChecked, IntegrityVerifying);
    longer := longer + [CheckBackup(b, IntegrityVerifying, 0)];
    BackupChecked(first, longer, b, Verifying, IntegrityVerifying, Verified);
    longer := longer + [CheckBackup(b, Verified, 0)];
    BackupMoves(first, longer, b, Verifying, Verified, Succeeded);
    longer := longer + [MoveBackup(b, Succeeded, "", 0)];
  }

  const MANUAL := BackupRequest(0, AllEnabled, [], Manual, None, None, false, "manual")
  const RESTORE := RestoreRequest(0, 0, AllEnabled, {}, true, true, "restore")
  const SAFETY := BackupRequest(0, AllEnabled, [], PreRestoreSafety, None, Some(0), false, "safety")

  predicate IsSource(b: Backup) {
    b.business == 0 && b.key == MANUAL.key && b.products == [] && b.status == Succeeded && b.integrity == Verified
  }

  lemma TightKeyIsNormal(key: string)
    requires 1 <= |key| <= KEY_LIMIT && !IsSpace(key[0]) && !IsSpace(key[|key| - 1])
    ensures NormalKey(key) == key && UsableKey(key)
  {
  }

  lemma ManualIsRequested()
    ensures CreateBackup(Db([], []), MANUAL).0 == Db([NewBackup(MANUAL)], [])
  {
    TightKeyIsNormal(MANUAL.key);
  }

  lemma SourceSucceeds(db: Db, db': Db)
    requires db == Db([NewBackup(MANUAL)], []) && BackupAt(db, db', 0, Succeeded, Verified)
    ensures |db'.backups| == 1 && db'.restores == [] && IsSource(db'.backups[0])
  {
    TightKeyIsNormal(MANUAL.key);
  }

  lemma EmptyRun()
    ensures DisciplinedRun([]) && Run([]) == Db([], [])
  {
  }

  lemma NewBackupIsQueued(db: Db, db': Db, q: BackupRequest)
    requires db' == db.(backups := db.backups + [NewBackup(q)])
    ensures BackupAt(db', db', |db.backups|, Queued, NotChecked)
  {
  }

  lemma RequestIsDisciplined(db: Db, q: BackupRequest)
    ensures (forall es: Entries :: Disciplined(db, es, RequestBackup(q))) && Apply(db, RequestBackup(q)) == CreateBackup(db, q).0
  {
  }

  /** One verified manual backup. */
  lemma SourceRun() returns (steps: seq<Step>)
    ensures DisciplinedRun(steps) && Run(steps).restores == [] && |Run(steps).backups| == 1 && IsSource(Run(steps).backups[0])
  {
    hide *;
    EmptyRun();
    ManualIsRequested();
    RequestIsDisciplined(Db([], []), MANUAL);
    OneMore([], RequestBackup(MANUAL));
    var first := [] + [RequestBackup(MANUAL)];
    NewBackupIsQueued(Db([], []), Run(first), MANUAL);
    steps := BackupSucceeds(first, 0);
    SourceSucceeds(Run(first), Run(steps));
  }

  lemma RestoreIsRequested(db: Db)
    requires |db.backups| == 1 && db.restores == [] && IsSource(db.backups[0])
    ensures Apply(db, RequestRestore(RESTORE)) == db.(restores := [NewRestore(RESTORE)])
    ensures (forall es: Entries :: Disciplined(db, es, RequestRestore(RESTORE)))
  {
    TightKeyIsNormal(RESTORE.key);
  }

  predicate IsClaimed(db: Db) {
    && |db.restores| == 1 && |db.backups| == 1 && db.backups[0].key == MANUAL.key
    && db.restores[0].business == 0 && db.restores[0].status == Authorizing
  }

  lemma RestoreIsClaimed(db: Db)
    requires |db.backups| == 1 && db.restores == [NewRestore(RESTORE)] && IsSource(db.backups[0])
    ensures (forall es: Entries :: Disciplined(db, es, ClaimRestore(0, 0, 0))) && IsClaimed(Apply(db, ClaimRestore(0, 0, 0)))
  {
  }

  /** One restore of it, claimed. */
  lemma ClaimedRun() returns (steps: seq<Step>)
    ensures DisciplinedRun(steps) && IsClaimed(Run(steps))
  {
    hide *;
    var source := SourceRun();
    RestoreIsRequested(Run(source));
    OneMore(source, RequestRestore(RESTORE));
    var requested := source + [RequestRestore(RESTORE)];
    RestoreIsClaimed(Run(requested));
    OneMore(requested, ClaimRestore(0, 0, 0));
    steps := requested + [ClaimRestore(0, 0, 0)];
  }

  /** Its safety backup, requested under another key, runs to verified success and is linked. */
  lemma SafeRun() returns (steps: seq<Step>)
    ensures DisciplinedRun(steps) && |Run(steps).restores| == 1 && Stands(Run(steps), 0, Authorizing)
  {
    hide *;
    var claimed := ClaimedRun();
    SafetyIsRequested(Run(claimed));
    RequestIsDisciplined(Run(claimed), SAFETY);
    OneMore(claimed, RequestBackup(SAFETY));
    var requested := claimed + [RequestBackup(SAFETY)];
    NewBackupIsQueued(Run(claimed), Run(requested), SAFETY);
    var safe := BackupSucceeds(requested, 1);
    SafetyIsLinked(Run(claimed), Run(requested), Run(safe));
    OneMore(safe, LinkSafetyBackup(0, 1));
    steps := safe + [LinkSafetyBackup(0, 1)];
  }

  lemma SafetyIsRequested(db: Db)
    requires IsClaimed(db)
    ensures CreateBackup(db, SAFETY).0 == db.(backups := db.backups + [NewBackup(SAFETY)]) && |db.backups| == 1
  {
    TightKeyIsNormal(SAFETY.key);
    assert MANUAL.key[0] != SAFETY.key[0];
  }

  lemma SafetyIsLinked(claimed: Db, requested: Db, db: Db)
    requires IsClaimed(claimed) && requested == claimed.(backups := claimed.backups + [NewBackup(SAFETY)])
    requires BackupAt(requested, db, 1, Succeeded, Verified)
    ensures var after := Apply(db, LinkSafetyBackup(0, 1));
            (forall es: Entries :: Disciplined(db, es, LinkSafetyBackup(0, 1))) && |after.restores| == 1 && Stands(after, 0, Authorizing)
  {
  }

  /** A disciplined run takes the restore into its mutation. */
  lemma MutatingRun() returns (steps: seq<Step>)
    ensures DisciplinedRun(steps) && Stands(Run(steps), 0, Restoring)
  {
    steps := SafeRun();
    hide DisciplinedRun, Run, Stands, HasUsableSafety;
    MovesReachMutation(steps, 0, 0);
    MovesAreDisciplined(steps, 0, 0);
    steps := steps + Moves(0, 0);
  }

  lemma MovesAreDisciplined(steps: seq<Step>, r: nat, now: int)
    requires DisciplinedRun(steps)
    ensures DisciplinedRun(steps + Moves(r, now))
  {
    hide DisciplinedRun, Run, Apply, CountEntries, RunEntries;
    var m := Moves(r, now);
    OneMore(steps, m[0]);
    OneMore(steps + [m[0]], m[1]);
    OneMore(steps + [m[0]] + [m[1]], m[2]);
    OneMore(steps + [m[0]] + [m[1]] + [m[2]], m[3]);
    assert steps + m == steps + [m[0]] + [m[1]] + [m[2]] + [m[3]];
  }

  /** All steps keep the rules except step `n`. */
  ghost predicate BreaksRuleAt(steps: seq<Step>, n: nat) {
    n < |steps| && forall k :: 0 <= k < |steps| ==> (Disciplined(Run(steps[..k]), RunEntries(steps[..k]), steps[k]) <==> k != n)
  }

  lemma BreakingRun(steps: seq<Step>, bad: Step, business: nat, r: nat, now: int)
    requires DisciplinedRun(steps) && !Disciplined(Run(steps), RunEntries(steps), bad)
    ensures BreaksRuleAt(steps + [bad] + Reentry(business, r, now), |steps|)
  {
    ReentryIsDisciplined(business, r, now);
    hide *;
    PrefixIsDisciplined(steps);
    var all := steps + [bad] + Reentry(business, r, now);
    forall k | 0 <= k < |all|
      ensures Disciplined(Run(all[..k]), RunEntries(all[..k]), all[k]) <==> k != |steps|
    {
      if k < |steps| {
        assert all[..k] == steps[..k] && all[k] == steps[k];
      } else if k == |steps| {
        assert all[..k] == steps && all[k] == bad;
      } else {
        assert all[k] == Reentry(business, r, now)[k - |steps| - 1];
      }
    }
    BreaksRule(all, |steps|);
  }

  lemma ReentryIsDisciplined(business: nat, r: nat, now: int)
    ensures forall db, es: Entries, step :: step in Reentry(business, r, now) ==> Disciplined(db, es, step)
  {
  }

  lemma PrefixIsDisciplined(steps: seq<Step>)
    requires DisciplinedRun(steps)
    ensures forall k :: 0 <= k < |steps| ==> Disciplined(Run(steps[..k]), RunEntries(steps[..k]), steps[k])
  {
  }

  lemma BreaksRule(steps: seq<Step>, n: nat)
    requires n < |steps| && forall k :: 0 <= k < |steps| ==> (Disciplined(Run(steps[..k]), RunEntries(steps[..k]), steps[k]) <==> k != n)
    ensures BreaksRuleAt(steps, n)
  {
  }

  /** A run that breaks only the rule on prefixed codes, once, and mutates the tenant twice. */
  lemma PrefixedFailureRunEntersTwice() returns (steps: seq<Step>, n: nat)
    ensures BreaksRuleAt(steps, n) && steps[n].MoveRestore?
    ensures |RunEntries(steps)| > 0 && RunEntries(steps)[0] == 2
  {
    var code := PRE_MUTATION + "late";
    assert IsPreMutation(SanitizeText(code, CODE_LIMIT)) by {
      SanitizeKeepsPrefix(code, PRE_MUTATION, CODE_LIMIT);
    }
    hide DisciplinedRun, Run, Stands, HasUsableSafety, BreaksRuleAt, Disciplined, RunEntries, IsPreMutation, SanitizeText, Reentry;
    var first := MutatingRun();
    LatePrefixedFailureEntersTwice(first, 0, code, 0);
    var bad := MoveRestore(0, RestoreFailed, code, "", 0);
    BreakingRun(first, bad, Run(first).restores[0].business, 0, 0);
    steps, n := first + [bad] + Reentry(Run(first).restores[0].business, 0, 0), |first|;
  }

  /** A run that breaks only the rule on relabelling, once, and mutates the tenant twice. */
  lemma RelabelRunEntersTwice() returns (steps: seq<Step>, n: nat)
    ensures BreaksRuleAt(steps, n) && steps[n].HandleEngineExit?
    ensures |RunEntries(steps)| > 0 && RunEntries(steps)[0] == 2
  {
    var code := "";
    assert !IsPreMutation(SanitizeText(code, CODE_LIMIT)) by {
      SanitizeFitsColumn(code, 0);
    }
    hide DisciplinedRun, Run, Stands, HasUsableSafety, BreaksRuleAt, Disciplined, RunEntries, IsPreMutation, SanitizeText, Reentry;
    var first := MutatingRun();
    LateRelabelEntersTwice(first, 0, code, "busy", 0);
    var failure, bad := MoveRestore(0, RestoreFailed, code, "", 0), HandleEngineExit(0, LockUnavailable("busy", false), 0);
    BreakingRun(first + [failure], bad, Run(first).restores[0].business, 0, 0);
    steps, n := first + [failure] + [bad] + Reentry(Run(first).restores[0].business, 0, 0), |first| + 1;
  }
}
