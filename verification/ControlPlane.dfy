/**
 The rows of the backup and restore control plane and the services that change them.

 Each service call is one transaction, stated first as a function of the rows. The class then
 performs the call on its tables, column by column, as the services do. Rows are never deleted,
 so a row's primary key is its position. Times are integers.
 */
module ControlPlane {
  import opened Options
  import opened ComponentRegistry
  import opened StateMachines
  import opened FailureCodes

  datatype Trigger = Manual | Scheduled | PreRestoreSafety

  datatype Backup = Backup(
    business: nat,
    scope: Scope,
    products: seq<Product>,
    trigger: Trigger,
    localDate: Option<int>,
    status: BackupStatus,
    integrity: IntegrityStatus,
    pinned: bool,
    retentionEligible: bool,
    isProtected: bool,
    parent: Option<nat>,
    key: string,
    failureCode: string,
    startedAt: Option<int>,
    completedAt: Option<int>,
    verifiedAt: Option<int>,
    deletedAt: Option<int>)

  datatype Restore = Restore(
    business: nat,
    source: nat,
    safety: Option<nat>,
    scope: Scope,
    status: RestoreStatus,
    key: string,
    failureCode: string,
    rollbackAttempted: bool,
    rollbackResult: string,
    startedAt: Option<int>,
    completedAt: Option<int>)

  datatype Db = Db(backups: seq<Backup>, restores: seq<Restore>)

  datatype Refusal =
    | NotFound | InvalidTransition | IntegrityNotVerified | InvalidRequest | OtherBusiness
    | ScopeNotAllowed | IdempotencyConflict | SourceNotRestorable | SafetyBackupRequired | NotRetryable

  datatype Outcome = Done(id: nat) | Refused(reason: Refusal)

  function OrNow(t: Option<int>, now: int): Option<int> {
    if t.Some? then t else Some(now)
  }

  // ---- Backups ----

  function IsRetentionEligible(b: Backup, status: BackupStatus, integrity: IntegrityStatus, pinned: bool): bool {
    && status == Succeeded && integrity == Verified
    && b.trigger == Scheduled && b.scope == AllEnabled && !pinned && !b.isProtected
  }

  function MovedBackup(b: Backup, target: BackupStatus, code: string, now: int): Backup {
    b.(
    status := target,
    startedAt := if target == Preparing then OrNow(b.startedAt, now) else b.startedAt,
    completedAt := if target in {Succeeded, Failed, Cancelled} then Some(now) else b.completedAt,
    failureCode := if target == Failed then SanitizeText(code, CODE_LIMIT) else b.failureCode,
    retentionEligible :=
      if target == Succeeded then IsRetentionEligible(b, target, b.integrity, b.pinned)
      else b.retentionEligible && target !in {DeletionPending, Deleted},
    deletedAt := if target == Deleted then Some(now) else b.deletedAt)
  }

  function TransitionBackup(db: Db, i: nat, target: BackupStatus, code: string, now: int): (Db, Outcome) {
    if i >= |db.backups| then (db, Refused(NotFound))
    else
      var b := db.backups[i];
      if target !in BackupTargets(b.status) then (db, Refused(InvalidTransition))
      else if target == Succeeded && b.integrity != Verified then (db, Refused(IntegrityNotVerified))
      else (db.(backups := db.backups[i := MovedBackup(b, target, code, now)]), Done(i))
  }

  function CheckedBackup(b: Backup, target: IntegrityStatus, now: int): Backup {
    b.(
    integrity := target,
    verifiedAt := if target == Verified then Some(now) else b.verifiedAt,
    retentionEligible := b.retentionEligible && target !in {IntegrityFailed, Corrupted})
  }

  function SetIntegrity(db: Db, i: nat, target: IntegrityStatus, now: int): (Db, Outcome) {
    if i >= |db.backups| then (db, Refused(NotFound))
    else if target !in IntegrityTargets(db.backups[i].integrity) then (db, Refused(InvalidTransition))
    else (db.(backups := db.backups[i := CheckedBackup(db.backups[i], target, now)]), Done(i))
  }

  function PinnedBackup(b: Backup, pinned: bool): Backup {
    b.(pinned := pinned, retentionEligible := IsRetentionEligible(b, b.status, b.integrity, pinned))
  }

  function SetPinned(db: Db, business: nat, i: nat, pinned: bool, entitled: set<Product>): (Db, Outcome) {
    if i >= |db.backups| then (db, Refused(NotFound))
    else if db.backups[i].business != business then (db, Refused(OtherBusiness))
    else if exists p :: p in db.backups[i].products && p !in entitled then (db, Refused(ScopeNotAllowed))
    else (db.(backups := db.backups[i := PinnedBackup(db.backups[i], pinned)]), Done(i))
  }

  // ---- Idempotency keys ----

  const KEY_LIMIT := 128

  function TrimLeft(s: string): string {
    if s != "" && IsSpace(s[0]) then TrimLeft(s[1..]) else s
  }

  function TrimRight(s: string): string {
    if s != "" && IsSpace(s[|s| - 1]) then TrimRight(s[..|s| - 1]) else s
  }

  function NormalKey(key: string): string {
    TrimRight(TrimLeft(key))
  }

  predicate UsableKey(key: string) {
    1 <= |NormalKey(key)| <= KEY_LIMIT
  }

  // ---- Backup requests ----

  /** `scope` and `products` are the scope as already resolved; `key` is the one supplied, or a generated one. */
  datatype BackupRequest = BackupRequest(
    business: nat, scope: Scope, products: seq<Product>, trigger: Trigger,
    localDate: Option<int>, parent: Option<nat>, systemActor: bool, key: string)

  function RequestRefusal(db: Db, q: BackupRequest): Option<Refusal> {
    if q.trigger == Scheduled && (q.localDate.None? || q.scope != AllEnabled) then Some(InvalidRequest)
    else if q.trigger != Scheduled && q.localDate.Some? then Some(InvalidRequest)
    else if q.parent.Some? && q.parent.value >= |db.restores| then Some(NotFound)
    else if q.trigger == PreRestoreSafety && q.parent.None? then Some(InvalidRequest)
    else if q.trigger == PreRestoreSafety && db.restores[q.parent.value].business != q.business then Some(OtherBusiness)
    else if q.systemActor && q.trigger == Manual then Some(InvalidRequest)
    else if !UsableKey(q.key) then Some(InvalidRequest)
    else None
  }

  function NewBackup(q: BackupRequest): Backup {
    Backup(q.business, q.scope, q.products, q.trigger, q.localDate, Queued, NotChecked, false, false,
           q.trigger == PreRestoreSafety, q.parent, NormalKey(q.key), "", None, None, None, None)
  }

  predicate SameRequest(b: Backup, q: BackupRequest) {
    && b.scope == q.scope && b.products == q.products && b.trigger == q.trigger
    && b.localDate == q.localDate && b.parent == q.parent
  }

  predicate KeyTaken(backups: seq<Backup>, business: nat, key: string) {
    exists i :: 0 <= i < |backups| && backups[i].business == business && backups[i].key == key
  }

  /** The first row of the business with this key. */
  function FindBackup(backups: seq<Backup>, business: nat, key: string): (i: nat)
    requires KeyTaken(backups, business, key)
    ensures i < |backups| && backups[i].business == business && backups[i].key == key
    ensures forall j :: 0 <= j < i ==> !(backups[j].business == business && backups[j].key == key)
  {
    if backups[0].business == business && backups[0].key == key then 0
    else
      assert KeyTaken(backups[1..], business, key) by {
        var i :| 0 <= i < |backups| && backups[i].business == business && backups[i].key == key;
        assert backups[1..][i - 1] == backups[i];
      }
      1 + FindBackup(backups[1..], business, key)
  }

  function CreateBackup(db: Db, q: BackupRequest): (Db, Outcome) {
    var refusal := RequestRefusal(db, q);
    if refusal.Some? then (db, Refused(refusal.value))
    else if KeyTaken(db.backups, q.business, NormalKey(q.key)) then
      var i := FindBackup(db.backups, q.business, NormalKey(q.key));
      (db, if SameRequest(db.backups[i], q) then Done(i) else Refused(IdempotencyConflict))
    else (db.(backups := db.backups + [NewBackup(q)]), Done(|db.backups|))
  }

  // ---- Restores ----

  /** `products` are those of the requested scope; the two flags are checks made elsewhere. */
  datatype RestoreRequest = RestoreRequest(
    business: nat, source: nat, scope: Scope, products: set<Product>,
    reasonGiven: bool, compatible: bool, key: string)

  function RestoreRefusal(db: Db, q: RestoreRequest): Option<Refusal> {
    if q.source >= |db.backups| then Some(NotFound)
    else
      var source := db.backups[q.source];
      if source.business != q.business then Some(OtherBusiness)
      else if exists p :: p in q.products && p !in source.products then Some(ScopeNotAllowed)
      else if source.status != Succeeded || source.integrity != Verified then Some(SourceNotRestorable)
      else if !q.reasonGiven || !q.compatible || !UsableKey(q.key) then Some(InvalidRequest)
      else None
  }

  function NewRestore(q: RestoreRequest): Restore {
    Restore(q.business, q.source, None, q.scope, RestoreQueued, NormalKey(q.key), "", false, "", None, None)
  }

  predicate RestoreKeyTaken(restores: seq<Restore>, business: nat, key: string) {
    exists i :: 0 <= i < |restores| && restores[i].business == business && restores[i].key == key
  }

  function FindRestore(restores: seq<Restore>, business: nat, key: string): (i: nat)
    requires RestoreKeyTaken(restores, business, key)
    ensures i < |restores| && restores[i].business == business && restores[i].key == key
  {
    if restores[0].business == business && restores[0].key == key then 0
    else
      assert RestoreKeyTaken(restores[1..], business, key) by {
        var i :| 0 <= i < |restores| && restores[i].business == business && restores[i].key == key;
        assert restores[1..][i - 1] == restores[i];
      }
      1 + FindRestore(restores[1..], business, key)
  }

  function CreateRestore(db: Db, q: RestoreRequest): (Db, Outcome) {
    var refusal := RestoreRefusal(db, q);
    if refusal.Some? then (db, Refused(refusal.value))
    else if RestoreKeyTaken(db.restores, q.business, NormalKey(q.key)) then
      var i := FindRestore(db.restores, q.business, NormalKey(q.key));
      (db, if db.restores[i].source == q.source && db.restores[i].scope == q.scope then Done(i) else Refused(IdempotencyConflict))
    else (db.(restores := db.restores + [NewRestore(q)]), Done(|db.restores|))
  }

  /** `b` is the protected safety backup made for restore `r`, and it is in good order. */
  predicate UsableSafety(db: Db, r: nat, b: nat)
    requires r < |db.restores|
  {
    && b < |db.backups|
    && db.backups[b].business == db.restores[r].business
    && db.backups[b].parent == Some(r)
    && db.backups[b].trigger == PreRestoreSafety
    && db.backups[b].isProtected
    && db.backups[b].status == Succeeded
    && db.backups[b].integrity == Verified
  }

  function MovedRestore(x: Restore, target: RestoreStatus, code: string, rollback: string, now: int): Restore {
    x.(
    status := target,
    startedAt := if target == Authorizing then OrNow(x.startedAt, now) else x.startedAt,
    completedAt := if target in {RestoreSucceeded, RestoreFailed, RolledBack, Indeterminate} then Some(now) else x.completedAt,
    failureCode := if target in {RestoreFailed, Indeterminate} then SanitizeText(code, CODE_LIMIT) else x.failureCode,
    rollbackAttempted := x.rollbackAttempted || target in {RollingBack, RolledBack},
    rollbackResult := if target == RolledBack then SanitizeText(rollback, 500) else x.rollbackResult)
  }

  function TransitionRestore(db: Db, r: nat, target: RestoreStatus, code: string, rollback: string, now: int): (Db, Outcome) {
    if r >= |db.restores| then (db, Refused(NotFound))
    else
      var x := db.restores[r];
      if target !in RestoreTargets(x.status) then (db, Refused(InvalidTransition))
      else if x.status == SafetyBackup && target == Validating && !(x.safety.Some? && UsableSafety(db, r, x.safety.value))
      then (db, Refused(SafetyBackupRequired))
      else (db.(restores := db.restores[r := MovedRestore(x, target, code, rollback, now)]), Done(r))
  }

  predicate Retryable(x: Restore) {
    x.status == RestoreFailed && IsPreMutation(x.failureCode) && !x.rollbackAttempted
  }

  function Reopened(x: Restore): Restore {
    x.(status := Authorizing, failureCode := "", completedAt := None)
  }

  function Restart(db: Db, r: nat): (Db, Outcome) {
    if r >= |db.restores| then (db, Refused(NotFound))
    else if !Retryable(db.restores[r]) then (db, Refused(NotRetryable))
    else (db.(restores := db.restores[r := Reopened(db.restores[r])]), Done(r))
  }

  function LinkSafety(db: Db, r: nat, b: nat): (Db, Outcome) {
    if r >= |db.restores| || b >= |db.backups| then (db, Refused(NotFound))
    else if db.backups[b].business != db.restores[r].business then (db, Refused(OtherBusiness))
    else if !UsableSafety(db, r, b) then (db, Refused(SafetyBackupRequired))
    else (db.(restores := db.restores[r := db.restores[r].(safety := Some(b))]), Done(r))
  }

  // ---- Claims ----

  datatype ClaimState = Claimed | AlreadySucceeded | ActiveOrAmbiguous | RecoveryRequired | RetryForbidden | Unavailable

  const ACTIVE_OR_AMBIGUOUS := {Authorizing, Locking, SafetyBackup, Validating, Restoring, RestoreVerifying, RollingBack}

  /** The worker decides on the row it read, `current`, and writes only if the stored row still agrees. */
  function ClaimFrom(db: Db, r: nat, current: Restore, now: int): (Db, ClaimState)
    requires r < |db.restores|
    decreases if current == db.restores[r] then 0 else 1
  {
    var stored := db.restores[r];
    if current.status == RestoreSucceeded then (db, AlreadySucceeded)
    else if current.status == Indeterminate then (db, RecoveryRequired)
    else if current.status in ACTIVE_OR_AMBIGUOUS then (db, ActiveOrAmbiguous)
    else if current.status == RolledBack then (db, RetryForbidden)
    else if current.status == RestoreQueued then
      if stored.status == RestoreQueued
      then (db.(restores := db.restores[r := stored.(status := Authorizing, startedAt := OrNow(current.startedAt, now))]), Claimed)
      else ClaimFrom(db, r, stored, now)
    else if Retryable(current) then
      if stored.status == RestoreFailed && stored.failureCode == current.failureCode && !stored.rollbackAttempted
      then (db.(restores := db.restores[r := Reopened(stored)]), Claimed)
      else ClaimFrom(db, r, stored, now)
    else (db, RetryForbidden)
  }

  function Claim(db: Db, business: nat, r: nat, now: int): (Db, ClaimState) {
    if r >= |db.restores| || db.restores[r].business != business then (db, Unavailable)
    else if db.restores[r].source >= |db.backups| || db.backups[db.restores[r].source].business != business then (db, Unavailable)
    else ClaimFrom(db, r, db.restores[r], now)
  }

  // ---- Worker helpers ----

  const BEFORE_MUTATION := {RestoreQueued, Authorizing, Locking, SafetyBackup, Validating}

  function MarkBeforeMutation(db: Db, r: nat, code: string, now: int): Db {
    if r < |db.restores| && db.restores[r].status in BEFORE_MUTATION
    then TransitionRestore(db, r, RestoreFailed, Truncate(PRE_MUTATION + code, CODE_LIMIT), "", now).0
    else db
  }

  /** The bulk update relabels any failed restore that was not rolled back. */
  function Relabel(db: Db, r: nat, now: int): Db {
    if r < |db.restores| && db.restores[r].status == RestoreFailed && !db.restores[r].rollbackAttempted
    then db.(restores := db.restores[r := db.restores[r].(failureCode := RETRY_EXHAUSTED, completedAt := Some(now))])
    else db
  }

  function MarkRecovery(db: Db, r: nat, now: int): Db {
    if r < |db.restores| && db.restores[r].status in {Restoring, RestoreVerifying}
    then TransitionRestore(db, r, Indeterminate, RECOVERY_REQUIRED, "", now).0
    else db
  }

  /** How the engine call of a claimed restore ended, other than by returning. */
  datatype EngineExit = LockUnavailable(code: string, retriesLeft: bool) | EngineError(code: string) | Unexpected

  function HandleExit(db: Db, r: nat, exit: EngineExit, now: int): Db {
    match exit
    case LockUnavailable(code, retriesLeft) =>
      var marked := MarkBeforeMutation(db, r, code, now);
      if retriesLeft then marked else Relabel(marked, r, now)
    case EngineError(code) =>
      if r < |db.restores| && db.restores[r].status in {Authorizing, Locking, SafetyBackup, Validating}
      then MarkBeforeMutation(db, r, code, now) else db
    case Unexpected =>
      if r < |db.restores| && db.restores[r].status in {Restoring, RestoreVerifying}
      then MarkRecovery(db, r, now)
      else MarkBeforeMutation(db, r, "restore_worker_failed", now)
  }

  // ---- The tables and the services ----

  class Tables {
    var backups: seq<Backup>
    var restores: seq<Restore>

    function State(): Db
      reads this
    {
      Db(backups, restores)
    }

    constructor ()
      ensures State() == Db([], [])
    {
      backups, restores := [], [];
    }

    method CreateBackupRequest(q: BackupRequest) returns (outcome: Outcome)
      modifies this`backups
      ensures (State(), outcome) == CreateBackup(old(State()), q)
    {
      if q.trigger == Scheduled {
        if q.localDate.None? || q.scope != AllEnabled {
          return Refused(InvalidRequest);
        }
      } else if q.localDate.Some? {
        return Refused(InvalidRequest);
      }
      if q.parent.Some? && q.parent.value >= |restores| {
        return Refused(NotFound);
      }
      var isProtected := q.trigger == PreRestoreSafety;
      if isProtected {
        if q.parent.None? {
          return Refused(InvalidRequest);
        }
        if restores[q.parent.value].business != q.business {
          return Refused(OtherBusiness);
        }
      }
      if q.systemActor && q.trigger == Manual {
        return Refused(InvalidRequest);
      }
      if !UsableKey(q.key) {
        return Refused(InvalidRequest);
      }
      var key := NormalKey(q.key);
      if KeyTaken(backups, q.business, key) {
        var existing := FindBackup(backups, q.business, key);
        return if SameRequest(backups[existing], q) then Done(existing) else Refused(IdempotencyConflict);
      }
      var row := Backup(q.business, q.scope, q.products, q.trigger, q.localDate, Queued, NotChecked, false, false,
                        isProtected, q.parent, key, "", None, None, None, None);
      backups := backups + [row];
      return Done(|backups| - 1);
    }

    method TransitionBackupStatus(i: nat, target: BackupStatus, code: string, now: int) returns (outcome: Outcome)
      modifies this`backups
      ensures (State(), outcome) == TransitionBackup(old(State()), i, target, code, now)
    {
      if i >= |backups| {
        return Refused(NotFound);
      }
      var row := backups[i];
      if target !in BackupTargets(row.status) {
        return Refused(InvalidTransition);
      }
      if target == Succeeded && row.integrity != Verified {
        return Refused(IntegrityNotVerified);
      }
      var current := row;
      row := row.(status := target);
      if target == Preparing && current.startedAt.None? {
        row := row.(startedAt := Some(now));
      }
      if target in {Succeeded, Failed, Cancelled} {
        row := row.(completedAt := Some(now));
      }
      if target == Failed {
        row := row.(failureCode := SanitizeText(code, CODE_LIMIT));
      }
      if target == Succeeded {
        row := row.(retentionEligible := IsRetentionEligible(current, target, current.integrity, current.pinned));
      }
      if target in {DeletionPending, Deleted} {
        row := row.(retentionEligible := false);
      }
      if target == Deleted {
        row := row.(deletedAt := Some(now));
      }
      backups := backups[i := row];
      return Done(i);
    }

    method SetBackupIntegrity(i: nat, target: IntegrityStatus, now: int) returns (outcome: Outcome)
      modifies this`backups
      ensures (State(), outcome) == SetIntegrity(old(State()), i, target, now)
    {
      if i >= |backups| {
        return Refused(NotFound);
      }
      var row := backups[i];
      if target !in IntegrityTargets(row.integrity) {
        return Refused(InvalidTransition);
      }
      row := row.(integrity := target);
      if target == Verified {
        row := row.(verifiedAt := Some(now));
      }
      if target in {IntegrityFailed, Corrupted} {
        row := row.(retentionEligible := false);
      }
      backups := backups[i := row];
      return Done(i);
    }

    method SetBackupPinned(business: nat, i: nat, pinned: bool, entitled: set<Product>) returns (outcome: Outcome)
      modifies this`backups
      ensures (State(), outcome) == SetPinned(old(State()), business, i, pinned, entitled)
    {
      if i >= |backups| {
        return Refused(NotFound);
      }
      var row := backups[i];
      if row.business != business {
        return Refused(OtherBusiness);
      }
      if exists p :: p in row.products && p !in entitled {
        return Refused(ScopeNotAllowed);
      }
      row := row.(pinned := pinned);
      row := row.(retentionEligible := IsRetentionEligible(row, row.status, row.integrity, pinned));
      backups := backups[i := row];
      return Done(i);
    }

    method CreateRestoreRequest(q: RestoreRequest) returns (outcome: Outcome)
      modifies this`restores
      ensures (State(), outcome) == CreateRestore(old(State()), q)
    {
      if q.source >= |backups| {
        return Refused(NotFound);
      }
      var source := backups[q.source];
      if source.business != q.business {
        return Refused(OtherBusiness);
      }
      if exists p :: p in q.products && p !in source.products {
        return Refused(ScopeNotAllowed);
      }
      if source.status != Succeeded || source.integrity != Verified {
        return Refused(SourceNotRestorable);
      }
      if !q.reasonGiven || !q.compatible || !UsableKey(q.key) {
        return Refused(InvalidRequest);
      }
      var key := NormalKey(q.key);
      if RestoreKeyTaken(restores, q.business, key) {
        var existing := FindRestore(restores, q.business, key);
        var same := restores[existing].source == q.source && restores[existing].scope == q.scope;
        return if same then Done(existing) else Refused(IdempotencyConflict);
      }
      restores := restores + [NewRestore(q)];
      return Done(|restores| - 1);
    }

    method TransitionRestoreStatus(r: nat, target: RestoreStatus, code: string, rollback: string, now: int)
      returns (outcome: Outcome)
      modifies this`restores
      ensures (State(), outcome) == TransitionRestore(old(State()), r, target, code, rollback, now)
    {
      if r >= |restores| {
        return Refused(NotFound);
      }
      var row := restores[r];
      if target !in RestoreTargets(row.status) {
        return Refused(InvalidTransition);
      }
      if row.status == SafetyBackup && target == Validating {
        if row.safety.None? || !UsableSafety(State(), r, row.safety.value) {
          return Refused(SafetyBackupRequired);
        }
      }
      row := row.(status := target);
      if target == Authorizing && row.startedAt.None? {
        row := row.(startedAt := Some(now));
      }
      if target in {RestoreSucceeded, RestoreFailed, RolledBack, Indeterminate} {
        row := row.(completedAt := Some(now));
      }
      if target in {RestoreFailed, Indeterminate} {
        row := row.(failureCode := SanitizeText(code, CODE_LIMIT));
      }
      if target == RollingBack {
        row := row.(rollbackAttempted := true);
      }
      if target == RolledBack {
        row := row.(rollbackAttempted := true, rollbackResult := SanitizeText(rollback, 500));
      }
      restores := restores[r := row];
      return Done(r);
    }

    method RestartFailedRestore(r: nat) returns (outcome: Outcome)
      modifies this`restores
      ensures (State(), outcome) == Restart(old(State()), r)
    {
      if r >= |restores| {
        return Refused(NotFound);
      }
      var row := restores[r];
      if row.status != RestoreFailed || !IsPreMutation(row.failureCode) || row.rollbackAttempted {
        return Refused(NotRetryable);
      }
      restores := restores[r := row.(status := Authorizing, failureCode := "", completedAt := None)];
      return Done(r);
    }

    method SetRestoreSafetyBackup(r: nat, b: nat) returns (outcome: Outcome)
      modifies this`restores
      ensures (State(), outcome) == LinkSafety(old(State()), r, b)
    {
      if r >= |restores| || b >= |backups| {
        return Refused(NotFound);
      }
      var safety := backups[b];
      if safety.business != restores[r].business {
        return Refused(OtherBusiness);
      }
      if safety.parent != Some(r) || safety.trigger != PreRestoreSafety || !safety.isProtected
         || safety.status != Succeeded || safety.integrity != Verified {
        return Refused(SafetyBackupRequired);
      }
      restores := restores[r := restores[r].(safety := Some(b))];
      return Done(r);
    }

    /** A lost race re-reads the row and decides again; it does so at most once. */
    method ClaimCurrent(r: nat, current: Restore, now: int) returns (state: ClaimState)
      requires r < |restores|
      modifies this`restores
      ensures (State(), state) == ClaimFrom(old(State()), r, current, now)
      decreases if current == restores[r] then 0 else 1
    {
      if current.status == RestoreSucceeded {
        return AlreadySucceeded;
      }
      if current.status == Indeterminate {
        return RecoveryRequired;
      }
      if current.status in ACTIVE_OR_AMBIGUOUS {
        return ActiveOrAmbiguous;
      }
      if current.status == RolledBack {
        return RetryForbidden;
      }
      var stored := restores[r];
      var changed := false;
      if current.status == RestoreQueued {
        if stored.status == RestoreQueued {
          restores := restores[r := stored.(status := Authorizing, startedAt := OrNow(current.startedAt, now))];
          changed := true;
        }
      } else if current.status == RestoreFailed && IsPreMutation(current.failureCode) && !current.rollbackAttempted {
        if stored.status == RestoreFailed && stored.failureCode == current.failureCode && !stored.rollbackAttempted {
          restores := restores[r := stored.(status := Authorizing, failureCode := "", completedAt := None)];
          changed := true;
        }
      } else {
        return RetryForbidden;
      }
      var refreshed := restores[r];
      if changed && refreshed.status == Authorizing {
        return Claimed;
      }
      state := ClaimCurrent(r, refreshed, now);
    }

    method ClaimRestoreOperation(business: nat, r: nat, now: int) returns (state: ClaimState)
      modifies this`restores
      ensures (State(), state) == Claim(old(State()), business, r, now)
    {
      if r >= |restores| || restores[r].business != business {
        return Unavailable;
      }
      var source := restores[r].source;
      if source >= |backups| || backups[source].business != business {
        return Unavailable;
      }
      state := ClaimCurrent(r, restores[r], now);
    }

    method MarkRestorePreMutationFailure(r: nat, code: string, now: int)
      modifies this`restores
      ensures State() == MarkBeforeMutation(old(State()), r, code, now)
    {
      if r < |restores| && restores[r].status in BEFORE_MUTATION {
        var safeCode := Truncate(PRE_MUTATION + code, CODE_LIMIT);
        var _ := TransitionRestoreStatus(r, RestoreFailed, safeCode, "", now);
      }
    }

    method MarkRestoreRetryExhausted(r: nat, now: int)
      modifies this`restores
      ensures State() == Relabel(old(State()), r, now)
    {
      if r < |restores| && restores[r].status == RestoreFailed && !restores[r].rollbackAttempted {
        restores := restores[r := restores[r].(failureCode := RETRY_EXHAUSTED, completedAt := Some(now))];
      }
    }

    method MarkUnexpectedRestoreRecovery(r: nat, now: int)
      modifies this`restores
      ensures State() == MarkRecovery(old(State()), r, now)
    {
      if r < |restores| && restores[r].status in {Restoring, RestoreVerifying} {
        var _ := TransitionRestoreStatus(r, Indeterminate, RECOVERY_REQUIRED, "", now);
      }
    }

    /** The exception handlers around the engine call of the restore worker. */
    method HandleEngineExit(r: nat, exit: EngineExit, now: int)
      modifies this`restores
      ensures State() == HandleExit(old(State()), r, exit, now)
    {
      match exit {
        case LockUnavailable(code, retriesLeft) =>
          MarkRestorePreMutationFailure(r, code, now);
          if !retriesLeft {
            MarkRestoreRetryExhausted(r, now);
          }
        case EngineError(code) =>
          if r < |restores| && restores[r].status in {Authorizing, Locking, SafetyBackup, Validating} {
            MarkRestorePreMutationFailure(r, code, now);
          }
        case Unexpected =>
          if r < |restores| && restores[r].status in {Restoring, RestoreVerifying} {
            MarkUnexpectedRestoreRecovery(r, now);
          } else {
            MarkRestorePreMutationFailure(r, "restore_worker_failed", now);
          }
      }
    }
  }
}
