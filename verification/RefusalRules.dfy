/** Why a request for a backup or a restore is refused: each reason with its own condition, in the order they are looked at. */
module RefusalRules {
  import opened Options
  import opened StateMachines
  import opened FailureCodes
  import opened ComponentRegistry
  import opened ControlPlane
  import opened ControlPlaneRuns
  import opened RequestRules

  /** Some row of the business has the key, for another source or scope. */
  ghost predicate RestoreKeyConflicts(db: Db, q: RestoreRequest) {
    exists x :: x in db.restores && x.business == q.business && x.key == NormalKey(q.key) && !(x.source == q.source && x.scope == q.scope)
  }

  lemma RestoreReasonsExactly(db: Db, q: RestoreRequest)
    requires UniqueKeys(db)
    ensures var outcome := CreateRestore(db, q).1;
            var known := q.source < |db.backups|;
            var own := known && db.backups[q.source].business == q.business;
            var covered := own && forall p :: p in q.products ==> p in db.backups[q.source].products;
            var restorable := covered && db.backups[q.source].status == Succeeded && db.backups[q.source].integrity == Verified;
            var proper := q.reasonGiven && q.compatible && 1 <= |NormalKey(q.key)| <= 128;
            && (outcome == Refused(NotFound) <==> !known)
            && (outcome == Refused(OtherBusiness) <==> known && !own)
            && (outcome == Refused(ScopeNotAllowed) <==> own && !covered)
            && (outcome == Refused(SourceNotRestorable) <==> covered && !restorable)
            && (outcome == Refused(InvalidRequest) <==> restorable && !proper)
            && (outcome == Refused(IdempotencyConflict) <==> restorable && proper && RestoreKeyConflicts(db, q))
  {
    RestoreIsAdmittedExactly(db, q);
    hide NormalKey, UniqueKeys;
  }

  /** Some row of the business has the key and differs from what is asked for. */
  ghost predicate BackupKeyConflicts(db: Db, q: BackupRequest) {
    exists b :: b in db.backups && b.business == q.business && b.key == NormalKey(q.key)
                && !(b.scope == q.scope && b.products == q.products && b.trigger == q.trigger && b.localDate == q.localDate && b.parent == q.parent)
  }

  lemma BackupReasonsExactly(db: Db, q: BackupRequest)
    requires UniqueKeys(db)
    ensures var outcome := CreateBackup(db, q).1;
            var dated := if q.trigger == Scheduled then q.localDate.Some? && q.scope == AllEnabled else q.localDate.None?;
            var known := q.parent.Some? ==> q.parent.value < |db.restores|;
            var safety := q.trigger == PreRestoreSafety;
            var own := dated && known && (safety ==> q.parent.Some? && db.restores[q.parent.value].business == q.business);
            var proper := own && !(q.systemActor && q.trigger == Manual) && 1 <= |NormalKey(q.key)| <= 128;
            && (outcome == Refused(NotFound) <==> dated && !known)
            && (outcome == Refused(OtherBusiness) <==> dated && known && safety && q.parent.Some? && !own)
            && (outcome == Refused(InvalidRequest) <==> !dated || (known && safety && q.parent.None?) || (own && !proper))
            && (outcome == Refused(IdempotencyConflict) <==> proper && BackupKeyConflicts(db, q))
  {
    BackupIsAdmittedExactly(db, q);
    hide NormalKey, UniqueKeys;
  }

  /** Of a transition that is refused: whether the row is missing, the table has no such move, or its guard fails. */
  lemma MoveReasonsExactly(db: Db, i: nat, backup: BackupStatus, restore: RestoreStatus, code: string, rollback: string, now: int)
    ensures var outcome := TransitionBackup(db, i, backup, code, now).1;
            && (outcome == Refused(NotFound) <==> i >= |db.backups|)
            && (outcome == Refused(InvalidTransition) <==> i < |db.backups| && backup !in BackupTargets(db.backups[i].status))
            && (outcome == Refused(IntegrityNotVerified) <==>
                  i < |db.backups| && db.backups[i].status == Verifying && backup == Succeeded && db.backups[i].integrity != Verified)
    ensures var outcome := TransitionRestore(db, i, restore, code, rollback, now).1;
            && (outcome == Refused(NotFound) <==> i >= |db.restores|)
            && (outcome == Refused(InvalidTransition) <==> i < |db.restores| && restore !in RestoreTargets(db.restores[i].status))
            && (outcome == Refused(SafetyBackupRequired) <==>
                  && i < |db.restores| && db.restores[i].status == SafetyBackup && restore == Validating
                  && forall b: nat :: db.restores[i].safety == Some(b) ==> !IsSafetyOf(db, i, b))
  {
    hide MovedBackup, MovedRestore;
  }
}
