/**
 When each service of the control plane answers yes, and what it then leaves behind, in terms of
 the rows and the request alone.
 */
module RequestRules {
  import opened Options
  import opened ComponentRegistry
  import opened StateMachines
  import opened FailureCodes
  import opened ControlPlane
  import opened ControlPlaneRuns

  // ---- Idempotency keys ----

  ghost predicate Blank(s: string) {
    forall i :: 0 <= i < |s| ==> IsSpace(s[i])
  }

  ghost predicate IsStripped(key: string, core: string, before: string, after: string) {
    && key == before + core + after && Blank(before) && Blank(after)
    && (core != "" ==> !IsSpace(core[0]) && !IsSpace(core[|core| - 1]))
  }

  lemma {:induction false} TrimLeftStrips(s: string) returns (before: string)
    ensures s == before + TrimLeft(s) && Blank(before) && (TrimLeft(s) != "" ==> !IsSpace(TrimLeft(s)[0]))
  {
    if s != "" && IsSpace(s[0]) {
      before := TrimLeftStrips(s[1..]);
      before := [s[0]] + before;
      assert s == [s[0]] + s[1..];
    } else {
      before := "";
    }
  }

  lemma {:induction false} TrimRightStrips(s: string) returns (after: string)
    ensures s == TrimRight(s) + after && Blank(after) && (TrimRight(s) != "" ==> !IsSpace(TrimRight(s)[|TrimRight(s)| - 1]))
    ensures TrimRight(s) <= s
  {
    if s != "" && IsSpace(s[|s| - 1]) {
      after := TrimRightStrips(s[..|s| - 1]);
      after := after + [s[|s| - 1]];
      assert s == s[..|s| - 1] + [s[|s| - 1]];
    } else {
      after := "";
    }
  }

  /** A key is stored without the white space around it, and otherwise unchanged. */
  lemma NormalKeyIsStripped(key: string)
    ensures exists before, after :: IsStripped(key, NormalKey(key), before, after)
  {
    var before := TrimLeftStrips(key);
    var after := TrimRightStrips(TrimLeft(key));
    assert key == before + NormalKey(key) + after;
    assert IsStripped(key, NormalKey(key), before, after);
  }

  // ---- Requests ----

  /** A restore is admitted exactly from a verified successful backup of the business that holds the requested products. */
  lemma RestoreIsAdmittedExactly(db: Db, q: RestoreRequest)
    requires UniqueKeys(db)
    ensures CreateRestore(db, q).1.Done? <==>
            && q.source < |db.backups|
            && db.backups[q.source].business == q.business
            && db.backups[q.source].status == Succeeded && db.backups[q.source].integrity == Verified
            && (forall p :: p in q.products ==> p in db.backups[q.source].products)
            && q.reasonGiven && q.compatible
            && 1 <= |NormalKey(q.key)| <= 128
            && (forall x :: x in db.restores && x.business == q.business && x.key == NormalKey(q.key) ==>
                  x.source == q.source && x.scope == q.scope)
  {
    hide NormalKey;
    if RestoreKeyTaken(db.restores, q.business, NormalKey(q.key)) {
      var i := FindRestore(db.restores, q.business, NormalKey(q.key));
      assert db.restores[i] in db.restores;
      forall x | x in db.restores && x.business == q.business && x.key == NormalKey(q.key)
        ensures x == db.restores[i]
      {
        var j :| 0 <= j < |db.restores| && db.restores[j] == x;
        assert !(i < j) && !(j < i);
      }
    }
  }

  /** An admitted restore is a new queued row, or the row already stored under the key; a refusal changes nothing. */
  lemma AdmittedRestoreRow(db: Db, q: RestoreRequest)
    ensures var (db', outcome) := CreateRestore(db, q);
            if outcome.Refused? then db' == db
            else
              && db'.backups == db.backups && outcome.id < |db'.restores|
              && var x := db'.restores[outcome.id];
              && x.business == q.business && x.source == q.source && x.scope == q.scope && x.key == NormalKey(q.key)
              && if exists y :: y in db.restores && y.business == q.business && y.key == NormalKey(q.key) then db' == db
                 else
                   && db'.restores == db.restores + [x] && outcome.id == |db.restores| && x.status == RestoreQueued
                   && x.safety == None && !x.rollbackAttempted && x.failureCode == "" && x.startedAt == None && x.completedAt == None
  {
    hide NormalKey;
    if y :| y in db.restores && y.business == q.business && y.key == NormalKey(q.key) {
      var i :| 0 <= i < |db.restores| && db.restores[i] == y;
      assert RestoreKeyTaken(db.restores, q.business, NormalKey(q.key));
    }
  }

  lemma StepAddsVerifiedRestores(db: Db, step: Step)
    ensures |Apply(db, step).restores| <= |db.restores| + 1
    ensures |Apply(db, step).restores| > |db.restores| ==>
              var x := Apply(db, step).restores[|db.restores|];
              && x.source < |db.backups| && db.backups[x.source].business == x.business
              && db.backups[x.source].status == Succeeded && db.backups[x.source].integrity == Verified
    ensures |Apply(db, step).restores| >= |db.restores|
    ensures forall r :: 0 <= r < |db.restores| ==> Apply(db, step).restores[r].source == db.restores[r].source
  {
    hide NormalKey, SanitizeText, IsPreMutation, Truncate;
    match step
    case ClaimRestore(business, r, now) =>
      if r < |db.restores| {
        ClaimKeepsSource(db, r, db.restores[r], now);
      }
    case _ =>
  }

  lemma ClaimKeepsSource(db: Db, r: nat, current: Restore, now: int)
    requires r < |db.restores|
    ensures |ClaimFrom(db, r, current, now).0.restores| == |db.restores|
    ensures forall k :: 0 <= k < |db.restores| ==> ClaimFrom(db, r, current, now).0.restores[k].source == db.restores[k].source
    decreases if current == db.restores[r] then 0 else 1
  {
    if current != db.restores[r] {
      ClaimKeepsSource(db, r, db.restores[r], now);
    }
  }

  /** The run after its first `n` steps is about to create restore `r`, and its source is then successful and verified. */
  ghost predicate StartsVerified(steps: seq<Step>, n: nat, r: nat, source: nat) {
    && n < |steps| && |Run(steps[..n]).restores| == r && source < |Run(steps[..n]).backups|
    && Run(steps[..n]).backups[source].status == Succeeded && Run(steps[..n]).backups[source].integrity == Verified
  }

  /** Over every run, whatever later becomes of the source, each restore was created from a then verified successful backup. */
  lemma {:induction false} RestoresStartFromVerifiedBackups(steps: seq<Step>, r: nat)
    requires r < |Run(steps).restores|
    ensures exists n: nat :: StartsVerified(steps, n, r, Run(steps).restores[r].source)
  {
    var n := |steps| - 1;
    var before := Run(steps[..n]);
    StepAddsVerifiedRestores(before, steps[n]);
    assert Run(steps) == Apply(before, steps[n]);
    hide Apply, Run;
    if r < |before.restores| {
      RestoresStartFromVerifiedBackups(steps[..n], r);
      var k: nat :| StartsVerified(steps[..n], k, r, before.restores[r].source);
      assert steps[..n][..k] == steps[..k];
      assert StartsVerified(steps, k, r, before.restores[r].source);
    } else {
      assert StartsVerified(steps, n, r, Run(steps).restores[r].source);
    }
  }

  /** A backup request is admitted exactly if its trigger, date, scope, parent and actor fit together and its key is free or repeats it. */
  lemma BackupIsAdmittedExactly(db: Db, q: BackupRequest)
    requires UniqueKeys(db)
    ensures CreateBackup(db, q).1.Done? <==>
            && (q.trigger == Scheduled <==> q.localDate.Some?)
            && (q.trigger == Scheduled ==> q.scope == AllEnabled)
            && (q.parent.Some? ==> q.parent.value < |db.restores|)
            && (q.trigger == PreRestoreSafety ==> q.parent.Some? && db.restores[q.parent.value].business == q.business)
            && !(q.systemActor && q.trigger == Manual)
            && 1 <= |NormalKey(q.key)| <= 128
            && (forall b :: b in db.backups && b.business == q.business && b.key == NormalKey(q.key) ==>
                  b.scope == q.scope && b.products == q.products && b.trigger == q.trigger && b.localDate == q.localDate && b.parent == q.parent)
  {
    hide NormalKey;
    if KeyTaken(db.backups, q.business, NormalKey(q.key)) {
      var i := FindBackup(db.backups, q.business, NormalKey(q.key));
      assert db.backups[i] in db.backups;
      forall b | b in db.backups && b.business == q.business && b.key == NormalKey(q.key)
        ensures b == db.backups[i]
      {
        var j :| 0 <= j < |db.backups| && db.backups[j] == b;
        assert !(i < j) && !(j < i);
      }
    }
  }

  /** An admitted backup is a new queued row, protected exactly if it is a safety backup, or the row under the key. */
  lemma AdmittedBackupRow(db: Db, q: BackupRequest)
    ensures var (db', outcome) := CreateBackup(db, q);
            if outcome.Refused? then db' == db
            else
              && db'.restores == db.restores && outcome.id < |db'.backups|
              && var b := db'.backups[outcome.id];
              && b.business == q.business && b.scope == q.scope && b.products == q.products && b.trigger == q.trigger
              && b.localDate == q.localDate && b.parent == q.parent && b.key == NormalKey(q.key)
              && if exists y :: y in db.backups && y.business == q.business && y.key == NormalKey(q.key) then db' == db
                 else
                   && db'.backups == db.backups + [b] && outcome.id == |db.backups|
                   && b.status == Queued && b.integrity == NotChecked && !b.pinned && !b.retentionEligible
                   && (b.isProtected <==> q.trigger == PreRestoreSafety)
  {
    hide NormalKey;
    if y :| y in db.backups && y.business == q.business && y.key == NormalKey(q.key) {
      var i :| 0 <= i < |db.backups| && db.backups[i] == y;
      assert KeyTaken(db.backups, q.business, NormalKey(q.key));
    }
  }

  // ---- Transitions ----

  /** Only row `i` of the backups may differ. */
  ghost predicate OnlyBackup(db: Db, db': Db, i: nat) {
    && db'.restores == db.restores && |db'.backups| == |db.backups|
    && forall k :: 0 <= k < |db.backups| && k != i ==> db'.backups[k] == db.backups[k]
  }

  ghost predicate OnlyRestore(db: Db, db': Db, r: nat) {
    && db'.backups == db.backups && |db'.restores| == |db.restores|
    && forall k :: 0 <= k < |db.restores| && k != r ==> db'.restores[k] == db.restores[k]
  }

  /** A backup moves exactly along the table, and to success only when verified; every stage stamps its own time. */
  lemma BackupMovesExactly(db: Db, i: nat, target: BackupStatus, code: string, now: int)
    ensures var (db', outcome) := TransitionBackup(db, i, target, code, now);
            && (outcome.Done? <==> i < |db.backups| && target in BackupTargets(db.backups[i].status)
                                   && (target == Succeeded ==> db.backups[i].integrity == Verified))
            && (outcome.Refused? ==> db' == db)
            && (outcome.Done? ==>
                  && OnlyBackup(db, db', i)
                  && var a, b := db.backups[i], db'.backups[i];
                  && b.status == target && b.integrity == a.integrity && b.pinned == a.pinned && b.key == a.key
                  && b.startedAt == (if target == Preparing && a.startedAt.None? then Some(now) else a.startedAt)
                  && b.completedAt == (if target == Succeeded || target == Failed || target == Cancelled then Some(now) else a.completedAt)
                  && b.deletedAt == (if target == Deleted then Some(now) else a.deletedAt)
                  && b.failureCode == (if target == Failed then SanitizeText(code, 80) else a.failureCode)
                  && (b.retentionEligible <==>
                        if target == Succeeded then b.trigger == Scheduled && b.scope == AllEnabled && !b.pinned && !b.isProtected
                        else a.retentionEligible && target != DeletionPending && target != Deleted))
  {
    hide SanitizeText, BackupTargets;
  }

  lemma IntegrityMovesExactly(db: Db, i: nat, target: IntegrityStatus, now: int)
    ensures var (db', outcome) := SetIntegrity(db, i, target, now);
            && (outcome.Done? <==> i < |db.backups| && target in IntegrityTargets(db.backups[i].integrity))
            && (outcome.Refused? ==> db' == db)
            && (outcome.Done? ==>
                  && OnlyBackup(db, db', i)
                  && var a, b := db.backups[i], db'.backups[i];
                  && b.integrity == target && b.status == a.status && b.pinned == a.pinned
                  && b.verifiedAt == (if target == Verified then Some(now) else a.verifiedAt)
                  && (b.retentionEligible <==> a.retentionEligible && target != IntegrityFailed && target != Corrupted))
  {
    hide IntegrityTargets;
  }

  /** Pinning asks only for the business and its products, and a pin decides retention anew. */
  lemma PinsExactly(db: Db, business: nat, i: nat, pinned: bool, entitled: set<Product>)
    ensures var (db', outcome) := SetPinned(db, business, i, pinned, entitled);
            && (outcome.Done? <==> i < |db.backups| && db.backups[i].business == business
                                   && forall p :: p in db.backups[i].products ==> p in entitled)
            && (outcome.Refused? ==> db' == db)
            && (outcome.Done? ==>
                  && OnlyBackup(db, db', i)
                  && var a, b := db.backups[i], db'.backups[i];
                  && b.pinned == pinned && b.status == a.status && b.integrity == a.integrity
                  && (b.retentionEligible <==> b.trigger == Scheduled && b.scope == AllEnabled && b.status == Succeeded
                                               && b.integrity == Verified && !pinned && !b.isProtected))
  {
  }

  /** What a usable safety backup is. */
  ghost predicate IsSafetyOf(db: Db, r: nat, b: nat) {
    && r < |db.restores| && b < |db.backups|
    && db.backups[b].business == db.restores[r].business && db.backups[b].parent == Some(r)
    && db.backups[b].trigger == PreRestoreSafety && db.backups[b].isProtected
    && db.backups[b].status == Succeeded && db.backups[b].integrity == Verified
  }

  /** A restore moves exactly along the table, and to validation only with its own usable safety backup. */
  lemma RestoreMovesExactly(db: Db, r: nat, target: RestoreStatus, code: string, rollback: string, now: int)
    ensures var (db', outcome) := TransitionRestore(db, r, target, code, rollback, now);
            && (outcome.Done? <==> r < |db.restores| && target in RestoreTargets(db.restores[r].status)
                                   && (target == Validating ==> db.restores[r].safety.Some? && IsSafetyOf(db, r, db.restores[r].safety.value)))
            && (outcome.Refused? ==> db' == db)
            && (outcome.Done? ==>
                  && OnlyRestore(db, db', r)
                  && var a, x := db.restores[r], db'.restores[r];
                  && x.status == target && x.safety == a.safety && x.source == a.source
                  && x.startedAt == (if target == Authorizing && a.startedAt.None? then Some(now) else a.startedAt)
                  && x.completedAt == (if target == RestoreSucceeded || target == RestoreFailed || target == RolledBack || target == Indeterminate
                                       then Some(now) else a.completedAt)
                  && x.failureCode == (if target == RestoreFailed || target == Indeterminate then SanitizeText(code, 80) else a.failureCode)
                  && (x.rollbackAttempted <==> a.rollbackAttempted || target == RollingBack || target == RolledBack))
  {
    hide SanitizeText;
  }

  lemma LinksExactly(db: Db, r: nat, b: nat)
    ensures var (db', outcome) := LinkSafety(db, r, b);
            && (outcome.Done? <==> IsSafetyOf(db, r, b))
            && db' == if outcome.Done? then db.(restores := db.restores[r := db.restores[r].(safety := Some(b))]) else db
  {
  }

  // ---- Claims and failure handlers ----

  /** Failed with a code that starts with the prefix, and never rolled back. */
  ghost predicate FailedBeforeMutation(x: Restore) {
    x.status == RestoreFailed && "pre_mutation_" <= x.failureCode && !x.rollbackAttempted
  }

  lemma RestartsExactly(db: Db, r: nat)
    ensures Restart(db, r).1.Done? <==> r < |db.restores| && FailedBeforeMutation(db.restores[r])
    ensures Restart(db, r).1.Done? ==>
              Restart(db, r).0 == db.(restores := db.restores[r := db.restores[r].(status := Authorizing, failureCode := "", completedAt := None)])
  {
  }

  /** Each answer of a claim, by what the worker finds stored. */
  lemma ClaimsExactly(db: Db, business: nat, r: nat, now: int)
    ensures var (db', state) := Claim(db, business, r, now);
            var known := r < |db.restores| && db.restores[r].business == business && db.restores[r].source < |db.backups|
                         && db.backups[db.restores[r].source].business == business;
            && (state == Unavailable <==> !known)
            && (known ==>
                  var x := db.restores[r];
                  && (state == Claimed <==> x.status == RestoreQueued || FailedBeforeMutation(x))
                  && (state == AlreadySucceeded <==> x.status == RestoreSucceeded)
                  && (state == RecoveryRequired <==> x.status == Indeterminate)
                  && (state == ActiveOrAmbiguous <==> x.status == Authorizing || x.status == Locking || x.status == SafetyBackup || x.status == Validating
                                                      || x.status == Restoring || x.status == RestoreVerifying || x.status == RollingBack)
                  && (state == RetryForbidden <==> x.status == RolledBack || (x.status == RestoreFailed && !FailedBeforeMutation(x)))
                  && (state == Claimed ==>
                        && OnlyRestore(db, db', r) && db'.restores[r].status == Authorizing
                        && (x.status == RestoreQueued ==> db'.restores[r] == x.(status := Authorizing, startedAt := if x.startedAt.Some? then x.startedAt else Some(now)))
                        && (x.status == RestoreFailed ==> db'.restores[r] == x.(status := Authorizing, failureCode := "", completedAt := None))))
            && (state != Claimed ==> db' == db)
  {
  }

  /** After the engine call ended otherwise than by returning: which restores fail before mutation, and which need recovery. */
  lemma ExitsExactly(db: Db, r: nat, exit: EngineExit, now: int)
    requires r < |db.restores|
    ensures var db' := HandleExit(db, r, exit, now);
            var a := db.restores[r].status;
            var before := a == Authorizing || a == Locking || a == SafetyBackup || a == Validating;
            && OnlyRestore(db, db', r)
            && var x := db'.restores[r];
            && (before || (a == RestoreQueued && !exit.EngineError?) ==> FailedBeforeMutation(x) || db.restores[r].rollbackAttempted)
            && (before || (a == RestoreQueued && !exit.EngineError?) ==> x.status == RestoreFailed && "pre_mutation_" <= x.failureCode)
            && ((a == Restoring || a == RestoreVerifying) && exit.Unexpected? ==>
                  x.status == Indeterminate && x.failureCode == SanitizeText("restore_recovery_required", 80))
            && ((a == Restoring || a == RestoreVerifying) && !exit.Unexpected? ==> x == db.restores[r])
            && (a == RestoreFailed && exit.LockUnavailable? && !exit.retriesLeft && !db.restores[r].rollbackAttempted ==>
                  x == db.restores[r].(failureCode := "pre_mutation_task_retry_exhausted", completedAt := Some(now)))
            && (a == RestoreFailed && !(exit.LockUnavailable? && !exit.retriesLeft) ==> x == db.restores[r])
            && (a == RestoreSucceeded || a == RollingBack || a == RolledBack || a == Indeterminate ==> x == db.restores[r])
  {
    hide SanitizeText, Truncate, MarkBeforeMutation;
    match exit
    case LockUnavailable(code, retriesLeft) =>
      MarkedRow(db, r, code, now);
      assert IsPreMutation(RETRY_EXHAUSTED);
    case EngineError(code) => MarkedRow(db, r, code, now);
    case Unexpected => MarkedRow(db, r, "restore_worker_failed", now);
  }
}
