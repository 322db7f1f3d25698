# Verified model of the platform's state-keeping services

A Dafny model of the parts of the business platform that keep state across many calls, with proofs of what
every run of those calls keeps. `dafny verify dfyconfig.toml` checks the whole project.

## Parts

| files | what they model |
|---|---|
| `DailyOccurrences.dfy`, `ScheduleClaims.dfy`, `ClaimRules.dfy` | the daily backup scheduler: wall-clock times across gaps and folds, and the claim protocol over them |
| `ComponentRegistry.dfy`, `ScopeResolution.dfy`, `ScopeRules.dfy`, `TenantModels.dfy` | the component registry: cycle check, scope resolution, discovery of tenant models |
| `TenantLocks.dfy`, `LockRules.dfy` | the lease lock of a tenant |
| `StateMachines.dfy`, `FailureCodes.dfy`, `ControlPlane.dfy`, `ControlPlaneRuns.dfy`, `RacingWrites.dfy`, `SecondEntries.dfy`, `RequestRules.dfy`, `RefusalRules.dfy` | backups and restores: transition tables, services, worker claims, failure handlers, and all runs of them |
| `DispatchJournal.dfy`, `DispatchRuns.dfy`, `DispatchRules.dfy` | the dispatch journal, its attempt budget and the reconcile passes |
| `AverageCost.dfy`, `StockLedger.dfy`, `MovementRules.dfy` | rounding, moving-average cost, and the stock ledger with its cached levels |
| `StockWorkflows.dfy`, `StockRuns.dfy`, `StockGuarantees.dfy`, `StockRules.dfy` | transfers, adjustments and counts over the ledger, and all runs of them |
| `InventoryImport.dfy`, `ImportGuarantees.dfy`, `ImportRules.dfy` | bulk stock import |
| `RecurringExpenses.dfy`, `ExpenseRules.dfy` | fixed monthly expenses |
| `FreshCodes.dfy`, `CodeRules.dfy` | numbered codes and generated SKUs |

## How it is built

Tables are classes whose methods update them as the services do. Each method is proved equal to a function on
table values; the functions are the steps of a run, and the theorems are about every run. The `…Rules.dfy` files say
independently of those functions, on the rows and the request alone, when each operation answers what, and what
it then leaves behind. A method that fails leaves every table as it was. Each service call is one atomic step, as the row locks and transactions of the
services make it; `RacingWrites.dfy` drops that assumption for the two places where a row is read outside the
write that depends on it. A clock reading, the publisher's answer, the order of unordered rows and what an
identifier matches are arguments.

Amounts of stock and money are counted in thousandths: what a caller supplies is any real, what a table holds
is an integer. Instants and readings of the wall clock are counted on one integer scale, minutes being the
smallest step of the search.

A time zone is a function from instants to readings with the two proposals of PEP 495 (the `fold` attribute).
The zone rules are stated once, in `ZoneRules`: local dates do not go back, the clock is never set back by more
than three hours, and every gap is left within 180 minutes. `SummerTimeMeetsRules` shows that they can be met.
A time of day keeps up with its zone (`RunsKeepUp`) if no run is carried past the start of a new local date; this
is exactly when the two searches are right at all times, and the claim protocol is modelled on such clocks.

## Where the code falls short of its promise

* A restore enters its mutation at most once only while two rules hold: no prefixed failure is stored inside the
  mutation, and no restore that has been inside is relabelled. `ControlPlaneRuns.StepKeepsCountExactly` shows the
  rules to be exact, and `SecondEntries.dfy` gives a whole run for each rule that breaks it once and enters twice.
  `_mark_restore_pre_mutation_failure` reads the row and then transitions it, so a mark decided before the mutation
  and written after it began breaks the first rule (`RacingWrites.StaleMarkAllowsSecondClaim`);
  `_mark_restore_retry_exhausted` relabels any failed restore that was not rolled back, which breaks the second.
* The retention flag can be lost, never wrongly set, when a pin and a success or verification race:
  `RacingWrites.RacingPinLosesFlagExactlyWhen` and `RacingWrites.RacingSuccessLosesFlagExactlyWhen`.
* `upsert_backup_schedule` accepts an explicit next run in the past. Later claims stay in order exactly if that next
  run lies after the last claimed run or a daily run of the saved clock has fallen due since
  (`ScheduleClaims.SaveKeepsOrderExactly`); otherwise a run can be claimed twice (`ScheduleClaims.ExplicitPastRunRepeatsAClaim`).
* Where a gap runs up to midnight, as in Greenland, and the daily time has seconds, the moved run falls into the new
  date and is skipped or found too early; `DailyOccurrences.MidnightGapKeepsUpExactly` gives the times that are safe.
* Two locks of one business can have overlapping intervals if clocks disagree (`TenantLocks.BackwardClockBreaksExclusion`).
  The locks follow one another, and so never overlap, exactly if each acquisition comes after the ends of the earlier
  ones (`TenantLocks.HistoryIsSuccessiveExactly`); two locks are never held at once whatever the clocks.
* A recurring range that takes in December 9999 generates its expenses and then raises
  (`RecurringExpenses.RangeOverflowsExactly`).
* In an import, a row whose amounts are rejected still takes its place, so a later good row for the same item
  is a duplicate; `ImportGuarantees.Accepted` states acceptance with that rule.

## Model

| member | source | states |
|---|---|---|
| DailyOccurrences.ResolveLocalDailyOccurrence | apps/backups/scheduling.py:93-119 | the result is the run of that date: the first instant at which the earliest shown minute at or after the wall time is shown; an error exactly when nothing is shown within three hours |
| DailyOccurrences.NextDailyOccurrence | apps/backups/scheduling.py:122-136 | under the zone rules the search always succeeds, and returns the least daily run strictly after its argument exactly when every run of an earlier local date is past |
| DailyOccurrences.LatestDueOccurrence | apps/backups/scheduling.py:139-162 | not due exactly when there is no next run or it lies ahead; otherwise the result is the larger of the next run and the greatest run not after now, within [next run, now], exactly when every run of an earlier local date is past |
| DailyOccurrences.OccurrenceExists | apps/backups/scheduling.py:93-119 | under the zone rules every date has a run, whatever gap covers its wall time |
| DailyOccurrences.OccurrenceIsUnique | apps/backups/scheduling.py:93-119 | a date has at most one run, also in a repeated hour |
| DailyOccurrences.OccurrenceDate | apps/backups/scheduling.py:100-118 | a gap delays a run by three hours at most, so into the next local date at most |
| DailyOccurrences.OccurrencesAreOrderedByDate | apps/backups/scheduling.py:122-136 | runs of later dates are later instants, also when one is delayed past midnight |
| DailyOccurrences.OccurrenceAgainstNow | apps/backups/scheduling.py:145-158 | runs of later dates are ahead and runs before yesterday are past, so only yesterday decides whether looking from today is enough |
| DailyOccurrences.SameDayGapsKeepUp | apps/backups/scheduling.py:122-162 | where every run stays on its date both searches are right at every time |
| DailyOccurrences.SummerTimeMeetsRules | apps/backups/scheduling.py:84-90 | the zone rules can be met: every zone with one gap, anywhere, and one fold inside a date meets them |
| DailyOccurrences.SummerTimeKeepsUp | apps/backups/scheduling.py:122-162 | where the gap ends on its own date both searches are right for every time of day |
| DailyOccurrences.MidnightGapKeepsUpExactly | apps/backups/scheduling.py:122-162 | where the gap runs up to midnight both searches are right at every time exactly for times before the gap or on a whole minute |
| ScheduleClaims.ScheduleRow.AdvanceSchedule | apps/backups/scheduling.py:182-192 | next run becomes the least run after now and a claimed run is remembered; an unknown zone changes nothing |
| ScheduleClaims.ScheduleRow.ClaimDueSchedule | apps/backups/scheduling.py:196-283 | row, backups and outcome are those of the claim specification, branch by branch |
| ScheduleClaims.ScheduleRow.ClaimRun | apps/backups/scheduling.py:224-283 | an eligible due run creates the backup under its key or finds it, and only then advances the row |
| ScheduleClaims.AdvancingClaimEndsInFuture | apps/backups/scheduling.py:196-283 | every claim that moves the schedule leaves the next run after now, and repeating it at the same time answers FUTURE and changes nothing |
| ScheduleClaims.ClaimKeepsConsistent | apps/backups/scheduling.py:196-283 | one claim keeps the order of claimed runs and the one-backup-per-claim count, and never meets a used key |
| ScheduleClaims.ClaimsStrictlyIncrease | apps/backups/scheduling.py:196-283 | over every orderly run of claims, saves and finishing backups the claimed runs strictly increase and each has exactly one backup; orderly asks only that each explicit save and each claim carrying a time before the last save is safe |
| ScheduleClaims.KeyIsAlwaysFresh | apps/backups/scheduling.py:239-257 | no claim of an orderly run finds its idempotency key already used |
| ScheduleClaims.OneBackupPerInstant | apps/backups/scheduling.py:196-283 | however many days were missed and however often the dispatcher looks at one instant, at most one backup is created |
| ScheduleClaims.DeferralLosesNoRun | apps/backups/scheduling.py:224-237 | a claim deferred by an active backup changes nothing, and a later claim with none active still claims a run |
| ScheduleClaims.SaveKeepsOrderExactly | apps/backups/services.py:984-1040 | after any orderly history, saving an explicit next run keeps every later claim after the last one exactly if it lies after the last claimed run or a daily run of the saved clock has fallen due since |
| ScheduleClaims.ClaimKeepsOrderExactly | apps/backups/scheduling.py:196-283 | a claim that carries a time before the last save keeps the order exactly if the next run lies after the last claimed run or a daily run has fallen due since |
| ScheduleClaims.ExplicitPastRunRepeatsAClaim | apps/backups/services.py:984-1040 | saving the run just claimed as the next run is unsafe by that condition, and the next claim takes it again |
| ComponentRegistry.DependencyCheck.constructor | apps/backups/registry.py:146-149 | both sets start empty |
| ComponentRegistry.DependencyCheck.Visit | apps/backups/registry.py:150-163 | a visit that succeeds leaves the path set as it was and the key visited in dependency order; one that fails has found a cycle |
| ComponentRegistry.AssertAcyclic | apps/backups/registry.py:146-166 | accepts exactly the dependency graphs without a cycle, and terminates |
| ComponentRegistry.BuildRegistry | apps/backups/registry.py:112-143 | a registry is built exactly when keys are distinct, no model is classified twice, dependencies are known and acyclic; each rejection names a fault that is there |
| ComponentRegistry.ClaimModels | apps/backups/registry.py:120-126 | a model already owned is reported exactly when the classification repeats one; otherwise owners are exact |
| ComponentRegistry.KeyMapIndexes | apps/backups/registry.py:113-127 | with distinct keys the key map holds every definition under its key and nothing else |
| ComponentRegistry.OrderedIsAcyclic | apps/backups/registry.py:146-166 | a graph all of whose nodes are listed after their dependencies has no cycle |
| ComponentRegistry.BackEdgeClosesCycle | apps/backups/registry.py:150-154 | meeting a key that is being visited closes a cycle |
| ScopeResolution.SortForExportSorts | apps/backups/registry.py:242-247 | sorting by export order and key gives a strictly ordered list |
| ScopeResolution.SelectIsExact | apps/backups/registry.py:226-234 | exactly the shared components and those of the selected products are chosen, each once |
| ScopeResolution.ResolvedIsExactClosedAndSorted | apps/backups/registry.py:204-247 | a resolution holds exactly the included components, each once, sorted, and everything they depend on |
| ScopeResolution.ResolvesExactlyWhenClosed | apps/backups/registry.py:204-247 | resolution is refused exactly when the scope is closed to the business or a dependency is not included |
| TenantModels.TenantRelatedModels | apps/backups/registry.py:592-625 | the in-place loop terminates with exactly the models from which a chain of many-to-one fields leads to a root model, and that set is closed |
| TenantModels.ClosedHoldsRelated | apps/backups/registry.py:605-622 | every set closed under children holds all related models, so the result is the least one |
| TenantLocks.LockTable.ExpireLeases | apps/backups/services.py:911-914 | exactly the lapsed active locks of the business become inactive |
| TenantLocks.LockTable.AcquireTenantOperationLock | apps/backups/services.py:890-940 | table and outcome are those of acquiring: expire, then insert unless one is active |
| TenantLocks.LockTable.HeartbeatTenantOperationLock | apps/backups/services.py:943-966 | table and answer are those of a heartbeat guarded by token, activity and lease |
| TenantLocks.LockTable.ReleaseTenantOperationLock | apps/backups/services.py:969-980 | table and answer are those of a release guarded by token and activity |
| TenantLocks.IntervalsAreDisjoint | apps/backups/services.py:890-980 | in every history whose acquisitions each come after the earlier locks of the business have ended, the validity intervals of two of its locks are disjoint |
| TenantLocks.AtMostOneHeld | apps/backups/services.py:890-980 | at no time do two locks protect one business, whatever the clocks of the calls |
| TenantLocks.AcquiresExactlyWhenFree | apps/backups/services.py:890-940 | acquiring succeeds exactly when no lock of the business is active and unexpired; a refusal changes nothing |
| TenantLocks.LapsedLocksStayLapsed | apps/backups/services.py:943-966 | no later call revives a lock that expired or was released |
| TenantLocks.HeldMomentsStayInInterval | apps/backups/services.py:943-980 | whenever a lock protected its holder, that moment lies in the half-open interval the table finally shows, or is its end when a later call carries the same time |
| TenantLocks.HistoryIsConsistent | apps/backups/services.py:890-980 | with a clock that does not go back each call keeps the intervals successive |
| TenantLocks.DatabaseConstraintsHold | apps/backups/models.py:494-508 | one active lock per business and no release time on an active row in every history; a lease after its acquisition in those whose clock does not go back |
| TenantLocks.AcquireKeepsOrderExactly | apps/backups/services.py:890-940 | whatever its clock, an acquisition that succeeds keeps the locks of a business successive exactly if its earlier locks have ended by then |
| TenantLocks.OtherCallsKeepOrder | apps/backups/services.py:943-980 | heartbeats, releases and refused acquisitions keep the order under any clock |
| TenantLocks.HistoryIsSuccessiveExactly | apps/backups/services.py:890-980 | the locks of a history are successive exactly if every acquisition met that condition |
| TenantLocks.TimelyIsInOrder | apps/backups/services.py:890-980 | a clock that does not go back is enough |
| TenantLocks.HistoryKeepsActiveLast | apps/backups/services.py:915-940 | an active lock is the last one of its business in every history |
| TenantLocks.AcquiringTooEarlyOverlaps | apps/backups/services.py:890-940 | an acquisition while an earlier interval still runs makes two intervals share that moment |
| TenantLocks.BackwardClockBreaksExclusion | apps/backups/services.py:890-980 | a concrete history that misses the condition, in which two intervals overlap |
| StateMachines.BackupPathsClimb | apps/backups/state_machines.py:24-62 | no declared path visits a backup status twice |
| StateMachines.RestorePathsClimb | apps/backups/state_machines.py:87-134 | no declared path visits a restore status twice, so only the restart outside the table can |
| StateMachines.SuccessPassesEveryStage | apps/backups/state_machines.py:87-134 | a path to success passes every later stage, one after another |
| FailureCodes.SanitizeKeepsPrefix | apps/backups/services.py:189-190 | a prefix without blanks survives collapsing white space and cutting |
| FailureCodes.PreMutationCodeIsMarked | apps/backups/tasks.py:559-567 | whatever the code, the stored code of a failure before mutation carries the prefix |
| FailureCodes.SanitizeFitsColumn | apps/backups/services.py:189-190 | a stored code fits its column |
| ControlPlane.Tables.CreateBackupRequest | apps/backups/services.py:398-518 | creates the row, or returns the row already stored under the key, or refuses, as specified |
| ControlPlane.Tables.TransitionBackupStatus | apps/backups/services.py:533-580 | a declared transition with its success guard moves the row and recomputes retention; anything else changes nothing |
| ControlPlane.Tables.SetBackupIntegrity | apps/backups/services.py:584-600 | a declared integrity change recomputes retention |
| ControlPlane.Tables.SetBackupPinned | apps/backups/services.py:604-656 | sets or clears the pin of any backup whose products are all entitled and recomputes retention |
| ControlPlane.Tables.CreateRestoreRequest | apps/backups/services.py:676-776 | creates the restore or returns the one stored under the key |
| ControlPlane.Tables.TransitionRestoreStatus | apps/backups/services.py:780-837 | the transition with its safety-backup, rollback and time-stamp rules; a refusal changes nothing |
| ControlPlane.Tables.RestartFailedRestore | apps/backups/services.py:841-866 | reopens exactly a failed restore with a prefixed code and no rollback |
| ControlPlane.Tables.SetRestoreSafetyBackup | apps/backups/services.py:870-887 | links exactly a protected, usable safety backup made for this restore |
| ControlPlane.Tables.ClaimCurrent | apps/backups/restore_execution.py:96-138 | decides on the row that was read and writes only if the stored row agrees; a lost race decides once more |
| ControlPlane.Tables.ClaimRestoreOperation | apps/backups/restore_execution.py:142-163 | claims the restore of the named business or answers unavailable |
| ControlPlane.Tables.MarkRestorePreMutationFailure | apps/backups/tasks.py:539-586 | fails exactly a restore before its mutation, with a prefixed code |
| ControlPlane.Tables.MarkRestoreRetryExhausted | apps/backups/tasks.py:589-625 | relabels a failed restore that was not rolled back |
| ControlPlane.Tables.MarkUnexpectedRestoreRecovery | apps/backups/tasks.py:628-664 | makes a restore inside its mutation indeterminate |
| ControlPlane.Tables.HandleEngineExit | apps/backups/tasks.py:829-881 | the three exception handlers around the engine call |
| ControlPlaneRuns.RunsAreSound | apps/backups/services.py:398-887 | constraints, links in creation order, retention and safety backups are right after every run of services, workers and handlers |
| ControlPlaneRuns.RetentionFlagIsExact | apps/backups/services.py:521-656 | in every reachable state the flag is set exactly on scheduled, full-scope, successful, verified, unpinned, unprotected backups |
| ControlPlaneRuns.DatabaseConstraintsHold | apps/backups/models.py:160-215 | the declared check and unique constraints on the modelled columns follow from the services |
| ControlPlaneRuns.MutationIsBackedUp | apps/backups/services.py:788-807 | a restore in validation or later has its own protected, parent-linked safety backup that succeeded and was verified, and is not the source |
| ControlPlaneRuns.SafetyIsNotSource | apps/backups/services.py:869-887 | a usable safety backup differs from the source because its restore was created in between |
| ControlPlaneRuns.RunsMutateOnce | apps/backups/restore_execution.py:96-138 | over every disciplined run, entering the mutation closes every way back to a claim |
| ControlPlaneRuns.StepKeepsCountExactly | apps/backups/tasks.py:539-664 | a step keeps every restore at one entry into its mutation, and closed after it, exactly if it stores no prefixed failure inside the mutation and relabels no restore that has been inside |
| ControlPlaneRuns.RestoringIsEnteredAtMostOnce | apps/backups/restore_execution.py:96-138 | over every run of claims, redeliveries, retries and restarts that obeys the two rules a restore enters RESTORING at most once, after which no claim is won and no restart accepted |
| ControlPlaneRuns.PrefixRuleIsExact | apps/backups/services.py:841-866 | storing a prefixed failure on a mutated restore undoes that guarantee exactly where the transition to FAILED is declared and nothing was rolled back |
| ControlPlaneRuns.RelabelRuleIsExact | apps/backups/tasks.py:599-608 | the unguarded relabel undoes it exactly on a mutated restore that failed without rollback |
| ControlPlaneRuns.StaleClaimsAreSafe | apps/backups/restore_execution.py:104-138 | whatever row a worker had read, its claim is won exactly when both that row and the stored row may be claimed |
| ControlPlaneRuns.ClaimIsWonOnce | apps/backups/restore_execution.py:96-138 | of two claims with nothing in between at most one is won |
| ControlPlaneRuns.NothingIsStranded | apps/backups/tasks.py:829-881 | after any engine failure no restore stays active before its mutation, and after a crash none stays inside it |
| ControlPlaneRuns.RequestIsIdempotent | apps/backups/services.py:398-518 | asking again with the same key returns the same backup and changes nothing |
| RacingWrites.RacingPinKeepsConstraints | apps/backups/services.py:604-656 | however stale the row read by the pin, the declared constraints hold of the row written |
| RacingWrites.RacingPinLosesFlagExactlyWhen | apps/backups/services.py:604-656 | a racing pin leaves the retention flag wrong exactly when it takes the pin off a backup that became eligible in between |
| RacingWrites.RacingSuccessKeepsConstraints | apps/backups/services.py:533-580 | the guarded status write keeps the declared constraints however stale the other columns were |
| RacingWrites.RacingSuccessLosesFlagExactlyWhen | apps/backups/services.py:559-580 | the guarded success write leaves the flag wrong exactly when a pin was taken off in between |
| RacingWrites.StaleMarkAllowsSecondClaim | apps/backups/tasks.py:551-567 | a failure mark decided before the mutation but written after it began makes the restore claimable again |
| RacingWrites.ClaimedRestoreCanMutate | apps/backups/state_machines.py:87-134 | from such a claim declared transitions lead into the mutation again |
| SecondEntries.Reenters | apps/backups/restore_execution.py:96-138 | a retryable restore with a usable safety backup can be claimed and enters its mutation once more |
| SecondEntries.LatePrefixedFailureEntersTwice | apps/backups/tasks.py:551-567 | after any run that obeys the rules, one prefixed failure stored inside the mutation leads to a second entry |
| SecondEntries.LateRelabelEntersTwice | apps/backups/tasks.py:599-608 | after any run that obeys the rules, so does relabelling a failure of the mutation |
| SecondEntries.PrefixedFailureRunEntersTwice | apps/backups/tasks.py:551-567 | a whole run from empty tables that breaks only the first rule, once, and enters the mutation twice |
| SecondEntries.RelabelRunEntersTwice | apps/backups/tasks.py:599-608 | a whole run from empty tables that breaks only the second rule, once, and enters the mutation twice |
| DispatchJournal.BatchLimit | apps/backups/dispatch.py:94-104 | one batch never takes the attempts past the total limit, and is empty exactly when the budget is spent |
| DispatchJournal.DispatchTables.DispatchOperation | apps/backups/dispatch.py:81-166 | journal, publisher calls and result are those of one batch of attempts |
| DispatchJournal.DispatchTables.ReconcileQueued | apps/backups/reconciliation.py:99-150 | journal and tally are those of a pass over the candidates, each judged again under its lock |
| DispatchJournal.DispatchTables.RequestManualBackup | apps/backups/owner_services.py:94-145 | refused while a backup is active or one was already requested in the same minute; otherwise row and intent are written together and dispatched once |
| DispatchJournal.DispatchTables.RequestRestoreDelivery | apps/backups/owner_services.py:292-356 | an intent is written once per restore and then dispatched |
| DispatchJournal.AbortEndsPass | apps/backups/reconciliation.py:99-150 | an interrupted dispatch ends the pass |
| DispatchRuns.DispatchKeepsBounded | apps/backups/dispatch.py:81-166 | a dispatch keeps the bound, calls the publisher once per attempt event, touches no other operation, and attempts a queued operation with budget left |
| DispatchRuns.RunsAreBounded | apps/backups/dispatch.py:81-277 | over every run of first dispatches, reconcile passes and worker events no operation has more attempts than the total limit, one publisher call each, and at most one intent |
| DispatchRuns.EligibleIsAttempted | apps/backups/dispatch.py:207-277 | an operation judged eligible gets at least one attempt |
| DispatchRuns.ConfirmedIsNotReconciled | apps/backups/reconciliation.py:99-150 | a pass publishes nothing that was confirmed before |
| DispatchRuns.RunsConfirmOnlyRequested | apps/backups/dispatch.py:65-78 | in every run a confirmed operation has its intent recorded |
| DispatchRuns.ConfirmedIsNeverRepublished | apps/backups/dispatch.py:207-277 | in every run, once an operation has a confirmed event nothing that follows publishes it again |
| DispatchRuns.TallyMatchesJournal | apps/backups/reconciliation.py:99-150 | eligible is confirmed plus failed plus an abort, and each counter is the number of journal events written |
| AverageCost.RoundIsTheNearest | apps/core/money.py:28-33 | rounding is to nearest with halves away from zero (section 4.3.1 of IEEE 754-2019), and nothing else is |
| AverageCost.RoundIsMonotone | apps/core/money.py:28-33 | rounding keeps order |
| AverageCost.RoundKeepsGrid | apps/core/money.py:28-33 | an amount on the grid is unchanged |
| AverageCost.RoundIsOdd | apps/core/money.py:28-33 | rounding a negated amount negates it |
| AverageCost.AverageIsBetween | apps/inventory/services.py:270-282 | the new average lies between the old one and the rounded incoming cost, whatever was held |
| AverageCost.NothingHeldTakesIncomingCost | apps/inventory/services.py:272-280 | with nothing, or less than nothing, held the average becomes the incoming cost |
| AverageCost.DriftIsBounded | apps/inventory/services.py:270-282 | over any number of receipts the valued stock differs from what was paid by at most half a thousandth times the sum of the running totals |
| StockLedger.StockTables.constructor | apps/inventory/models.py:15-25 | the ledger starts empty |
| StockLedger.StockTables.RollBack | apps/inventory/services.py:160-161 | a failed transaction puts every table back |
| StockLedger.StockTables.GetTotalStock | apps/inventory/services.py:107-111 | the loop over the levels is the sum over all warehouses of the item |
| StockLedger.StockTables.UpdateAverageCost | apps/inventory/services.py:270-282 | only the item changes, to the average of the specification |
| StockLedger.StockTables.CheckMovement | apps/inventory/services.py:177-237 | the refusals, in the order the code tries them |
| StockLedger.StockTables.PostMovement | apps/inventory/services.py:239-259 | level, ledger row and average of an accepted movement |
| StockLedger.StockTables.RecordMovement | apps/inventory/services.py:161-267 | either the whole movement is posted or the refusal leaves every table as it was |
| StockLedger.StockTables.RecordEntries | apps/inventory/workflows.py:181-188 | movements recorded in a loop inside one transaction: all of them, or none |
| StockLedger.RecordKeepsConsistent | apps/inventory/services.py:206-255 | a movement keeps every level equal to the sum of its movements and every balance equal to its prefix sum, and changes one level by exactly its quantity |
| StockLedger.BatchKeepsConsistent | apps/inventory/workflows.py:181-188 | a batch adds exactly its entries to every net quantity and keeps the ledger consistent |
| StockLedger.RefusalEndsBatch | apps/inventory/workflows.py:181-188 | a refusal decides the batch, whatever entries follow |
| StockLedger.TotalAfterWrite | apps/inventory/services.py:107-111 | writing one level moves the total of its item by the difference and no other total |
| StockLedger.BlockPolicyHolds | apps/inventory/services.py:225-237 | under the block policy only an unenforced or count movement takes goods out of a level that ends below zero |
| StockLedger.MeterParentOnlyRepaired | apps/inventory/services.py:200-223 | the parent of meter variants only moves to exactly zero, by a correction kind |
| StockLedger.AverageMovesTowardsCost | apps/inventory/services.py:257-282 | an average changes only with an opening or purchase movement, and stays between itself and the cost |
| StockLedger.LedgerDriftIsBounded | apps/inventory/services.py:257-282 | the drift bound on the ledger itself, with movements of other items in between |
| StockLedger.NetOfTail | apps/inventory/services.py:239-255 | net quantities split at any point of the ledger |
| StockWorkflows.WorkflowTables.CheckRowItems | apps/inventory/workflows.py:29-65 | the first row that fails decides; no rows is a failure |
| StockWorkflows.WorkflowTables.CreateTransferRow | apps/inventory/workflows.py:96-154 | creates a draft between different open warehouses with positive lines, or changes nothing |
| StockWorkflows.WorkflowTables.DispatchTransferRow | apps/inventory/workflows.py:158-196 | status and outgoing movements change together or not at all |
| StockWorkflows.WorkflowTables.ReceiveTransferRow | apps/inventory/workflows.py:200-238 | status and incoming movements change together or not at all |
| StockWorkflows.WorkflowTables.CancelTransferRow | apps/inventory/workflows.py:242-285 | a dispatched transfer returns its goods, an undispatched one only closes, any other is refused |
| StockWorkflows.WorkflowTables.ApplyAdjustmentRow | apps/inventory/workflows.py:368-382 | the lines that change something are recorded, or none |
| StockWorkflows.WorkflowTables.CreateAdjustmentRow | apps/inventory/workflows.py:299-365 | creates a pending row or applies it at once; a refused movement takes the row back |
| StockWorkflows.WorkflowTables.ApproveAdjustmentRow | apps/inventory/workflows.py:386-416 | applies exactly a pending adjustment |
| StockWorkflows.WorkflowTables.RejectAdjustmentRow | apps/inventory/workflows.py:420-449 | closes exactly a pending adjustment |
| StockWorkflows.WorkflowTables.TakeSnapshot | apps/inventory/workflows.py:473-483 | one uncounted line per level of the warehouse, expecting its quantity, in any order |
| StockWorkflows.WorkflowTables.StartCount | apps/inventory/workflows.py:456-484 | opens a count holding such a snapshot |
| StockWorkflows.WorkflowTables.EnterCountedRow | apps/inventory/views.py:745-781 | figures are accepted only while the count is open |
| StockWorkflows.WorkflowTables.ApproveCountRow | apps/inventory/workflows.py:488-542 | corrections and status change together or not at all |
| StockRuns.RunsAreSound | apps/inventory/workflows.py:96-542 | after every run of stock operations the ledger is consistent and every document has moved exactly what its status says |
| StockRuns.EmptyTablesAreSound | apps/inventory/services.py:161-267 | empty tables are sound |
| StockRuns.StepKeepsSound | apps/inventory/workflows.py:96-542 | each operation keeps soundness and only appends to the ledger |
| StockRuns.TransfersConserveGoods | apps/inventory/workflows.py:157-285 | for each item, stock over all warehouses plus goods on the way equals the net of all movements that are not transfers |
| StockRuns.TransferMovesLinesOnce | apps/inventory/workflows.py:157-285 | a received transfer has moved each line once out and once in; a dispatched one only out; any other nothing |
| StockRuns.AdjustmentMovesLinesOnce | apps/inventory/workflows.py:368-382 | an applied adjustment has moved its lines once, any other nothing |
| StockRuns.CountMoved | apps/inventory/workflows.py:516-533 | the corrections of a count add up to its variances |
| StockGuarantees.RunProgresses | apps/inventory/workflows.py:96-542 | rows are only added, finished documents never change, and a count keeps its snapshot |
| StockGuarantees.FinishedTransferStays | apps/inventory/workflows.py:157-285 | a received or cancelled transfer keeps its status and net effect for ever |
| StockGuarantees.ApprovedCountIsExact | apps/inventory/workflows.py:455-542 | whatever happened between snapshot and approval, a counted line ends at the counted quantity plus what moved on its key in between; an uncounted one keeps its level |
| StockGuarantees.LevelAfterApproval | apps/inventory/workflows.py:488-542 | approval moves exactly the counted levels, by their variance |
| StockGuarantees.BlockedStockStaysNonNegative | apps/inventory/services.py:225-237 | while the policy blocks and nothing bypasses it, no level ever goes below zero |
| InventoryImport.Resolve | apps/inventory/services.py:549-597 | an item is found exactly when every identifier matches one thing and all agree on product and variant |
| InventoryImport.ImportTables.ApplyImportRow | apps/inventory/services.py:644-777 | one screened row: its movement and minimum, or its problem and no change |
| InventoryImport.ImportTables.ImportOneRow | apps/inventory/services.py:522-777 | one row from its identifiers to its outcome |
| InventoryImport.ImportTables.ImportInventory | apps/inventory/services.py:443-779 | ledger, minimums, counters and errors are those of the rows taken in order |
| ImportGuarantees.ScreenedMovementIsRecorded | apps/inventory/services.py:735-763 | the ledger never refuses what the screening let through, and reaches the goal of the mode |
| ImportGuarantees.KeyAppliedOnce | apps/inventory/services.py:637-642 | no key is applied by two rows |
| ImportGuarantees.ImportReachesEveryGoal | apps/inventory/services.py:519-779 | accepted rows end exactly at their quantity (replace) or at initial plus quantity (add, opening), every other level is unchanged, counters sum to the row count, and exactly the rejected rows have one error each, in file order |
| ImportGuarantees.ImportKeepsLedgerConsistent | apps/inventory/services.py:519-779 | every change an import makes goes through the ledger |
| RecurringExpenses.ExpenseTables.EnsureForMonth | apps/expenses/services.py:519-584 | the templates in order, all or nothing |
| RecurringExpenses.ExpenseTables.EnsureForRange | apps/expenses/services.py:587-634 | the months of the range in order, each committed by itself |
| RecurringExpenses.VisitsExactlyTheRange | apps/expenses/services.py:602-628 | a day lies in a visited month exactly when it lies between the first day of the first month and the last day of the last |
| RecurringExpenses.MonthsAreDistinct | apps/expenses/services.py:621-628 | no month is visited twice |
| RecurringExpenses.DueDateIsInMonth | apps/expenses/services.py:548 | the due date is a valid date of its month, on the due day or the last day |
| RecurringExpenses.GenerateEffect | apps/expenses/services.py:543-579 | a month appends exactly one expense for each applicable template that had none, and counts the rest as existing |
| RecurringExpenses.MonthKeepsOnePerMonth | apps/expenses/services.py:543-579 | after a month each applicable template has exactly one expense for it |
| RecurringExpenses.FailsExactlyWithoutBranch | apps/expenses/services.py:493-515 | a month fails exactly when an applicable template has no branch to use |
| RecurringExpenses.RangeCoversEveryMonth | apps/expenses/services.py:587-634 | after a counted range every template has exactly one expense in each month in which it applies |
| RecurringExpenses.SecondRunCreatesNothing | apps/expenses/services.py:587-634 | a second run creates none and reports as existing what the first created plus what it found |
| RecurringExpenses.EarlyExitSkipsNothing | apps/expenses/services.py:609-616 | the early exit skips only ranges in which no month has anything to generate |
| RecurringExpenses.RangeOverflowsExactly | apps/expenses/services.py:621-628 | a range generates everything and then raises exactly when it takes in December 9999 |
| RecurringExpenses.RunsKeepOnePerMonth | apps/expenses/models.py:168-175 | over every run no template has two expenses for one month, and no expense is removed |
| FreshCodes.ReadPrinted | apps/inventory/workflows.py:22-26 | reading a printed number gives the number |
| FreshCodes.ReadPadded | apps/inventory/workflows.py:22-26 | padding changes neither what is read nor that there are only digits |
| FreshCodes.CodesDiffer | apps/inventory/workflows.py:22-26 | different numbers print to different codes, beyond six digits too |
| FreshCodes.NextNumber | apps/inventory/workflows.py:22-26 | the search terminates with the first unused code, after at most one more look than there are used codes |
| FreshCodes.OneLessAhead | apps/expenses/services.py:34-40 | each used candidate leaves one code less ahead |
| FreshCodes.RecurringNumbersDiffer | apps/expenses/services.py:554-556 | no two pairs of template and month share an expense number |
| FreshCodes.RecurringAndManualDiffer | apps/expenses/services.py:34-40 | generated and manual expense numbers never meet |
| FreshCodes.CodeCarriesNumber | apps/catalog/services.py:77 | the scan reads back the number of every code it could generate |
| FreshCodes.HighestNumber | apps/catalog/services.py:79-89 | the highest number in use under the prefix |
| FreshCodes.GenerateSku | apps/catalog/services.py:66-97 | the code one past the highest number is unused, so the first candidate is returned |
| StateMachines.BackupTableExactly | apps/backups/state_machines.py:24-62 | a declared move is exactly: on to the next stage, failing or being cancelled while at work, deletion of a finished backup |
| StateMachines.RestoreTableExactly | apps/backups/state_machines.py:87-134 | a declared move is exactly: on to the next stage or failing while at work; rolling back or becoming indeterminate only once tenant data may have changed |
| StateMachines.IntegrityTableExactly | apps/backups/state_machines.py:65-85 | verification is reached only from verifying, and corruption from everywhere but itself |
| FailureCodes.SanitizesExactly | apps/backups/services.py:189-190 | what is stored is the text with each run of white space made one blank and none at the ends, in one pass, cut only if it is too long |
| RequestRules.NormalKeyIsStripped | apps/backups/services.py:163-167 | a key is stored without the white space around it and otherwise unchanged |
| RequestRules.RestoreIsAdmittedExactly | apps/backups/services.py:676-776 | a restore is admitted exactly if the source is of the business, successful, verified and holds the requested products, the request is proper, and any row under the key has the same source and scope |
| RequestRules.AdmittedRestoreRow | apps/backups/services.py:722-776 | an admitted restore is one new queued row for the requested source and scope, or the row already under the key; a refusal changes nothing |
| RequestRules.RestoresStartFromVerifiedBackups | apps/backups/services.py:694-702 | over every run each restore was created when its source was successful and verified, whatever later becomes of the source |
| RequestRules.BackupIsAdmittedExactly | apps/backups/services.py:398-518 | a backup is admitted exactly if trigger, local date, scope, parent and actor fit together and any row under the key repeats the request |
| RequestRules.AdmittedBackupRow | apps/backups/services.py:455-518 | an admitted backup is one new queued row as requested, protected exactly if it is a safety backup, or the row under the key |
| RequestRules.BackupMovesExactly | apps/backups/services.py:533-581 | when a transition is accepted, and every column of the row it leaves; no other row changes |
| RequestRules.IntegrityMovesExactly | apps/backups/services.py:584-601 | the same for integrity |
| RequestRules.PinsExactly | apps/backups/services.py:604-656 | a pin is accepted exactly for an own backup whose products are all entitled, and decides retention anew from the row |
| RequestRules.RestoreMovesExactly | apps/backups/services.py:780-838 | when a restore moves, validation asking for its own usable safety backup, and every column of the row it leaves |
| RequestRules.LinksExactly | apps/backups/services.py:870-887 | a safety backup is linked exactly if it is a protected, successful, verified safety backup with this restore as parent |
| RequestRules.RestartsExactly | apps/backups/services.py:841-867 | a restart is accepted exactly for a failure that carries the prefix and was never rolled back |
| RequestRules.ClaimsExactly | apps/backups/restore_execution.py:96-163 | each answer of a claim by what the worker finds stored, and the row a won claim leaves |
| RequestRules.ExitsExactly | apps/backups/tasks.py:829-880 | what each way out of the engine leaves of a restore in each status |
| RefusalRules.RestoreReasonsExactly | apps/backups/services.py:676-735 | each reason to refuse a restore request has its own condition, in the order of the checks |
| RefusalRules.BackupReasonsExactly | apps/backups/services.py:398-487 | each reason to refuse a backup request has its own condition, in the order of the checks |
| RefusalRules.MoveReasonsExactly | apps/backups/services.py:533-838 | whether a refused transition lacks the row, the move or its guard |
| ClaimRules.AnswersExactly | apps/backups/scheduling.py:196-237 | every answer of a claim has its own condition; a due run of an eligible business is deferred exactly while any backup is active, of whatever kind |
| ClaimRules.ClaimedRunExactly | apps/backups/scheduling.py:239-283 | the run claimed is the later of the next run and the greatest run not after now; a backup under its date and instant is created exactly if none is stored |
| ClaimRules.OtherAnswersWriteExactly | apps/backups/scheduling.py:196-237 | every other answer writes nothing, but that initializing and ineligibility move the next run |
| ClaimRules.DispatchStartsAlone | apps/backups/scheduling.py:224-257 | after any events, a dispatched claim adds the only active backup there is |
| ClaimRules.SavesExactly | apps/backups/services.py:984-1040 | a save takes effect exactly for a usable zone, and the next run is none, the explicit one, or the next daily run |
| ScopeRules.ResolvedAreWanted | apps/backups/registry.py:204-247 | a resolution holds exactly the definitions of the scope that are shared or owned by a product the scope covers |
| ScopeRules.RefusalsExactly | apps/backups/registry.py:204-240 | resolution is refused exactly for an unknown scope, a wrong product, a scope the business has not, or a need that the scope does not cover |
| ScopeRules.OrderExactly | apps/backups/registry.py:242-247 | components are ordered by export number, and by key, compared character by character, where the numbers are equal |
| TenantModels.RelatedExactly | apps/backups/registry.py:592-625 | a model is related exactly if it is the business, has a business field, or has a related parent |
| LockRules.AcquiringHoldsForLease | apps/backups/services.py:890-940 | an acquisition gives its caller a new lock that is held at every moment of the lease |
| LockRules.AcquiringTouchesOnlyLapsed | apps/backups/services.py:911-914 | an acquisition closes the lapsed lock of the business and touches no other |
| LockRules.HeartbeatsExactly | apps/backups/services.py:943-966 | a heartbeat is alive exactly for the own token on an active, unexpired lock, which is then held for the whole lease from now |
| LockRules.ReleasesExactly | apps/backups/services.py:969-980 | a release succeeds exactly for the own token on an active lock, and ends it |
| LockRules.HeldThroughCalls | apps/backups/services.py:890-980 | a lock stays held through any calls of anybody, in any order and under any clock before its end, but for its own release or a shorter lease in its own name |
| LockRules.HolderKeepsOthersOut | apps/backups/services.py:890-980 | after a heartbeat answered alive, every acquisition before the end of the lease is refused, whatever calls come in between |
| LockRules.AcquirerKeepsOthersOut | apps/backups/services.py:890-980 | the same after an acquisition |
| DispatchRules.LimitsExactly | apps/backups/dispatch.py:31-35 | which settings are taken, and the limits otherwise |
| DispatchRules.EligibleExactly | apps/backups/dispatch.py:197-277 | an operation is eligible exactly if it is queued, untouched, requested, unlocked, has attempts left, and no event shows that it got anywhere |
| DispatchRules.BatchExactly | apps/backups/dispatch.py:98-166 | a batch calls the publisher until the first answer that is no rejection, and its journal is one event per call and one for the outcome |
| DispatchRules.DispatchesExactly | apps/backups/dispatch.py:81-166 | the same for a dispatch: nothing without a queued operation and attempts left |
| DispatchRules.PassTriesEveryEligible | apps/backups/reconciliation.py:99-150 | a pass that is not interrupted calls the publisher for every eligible operation among its candidates, though earlier candidates change the journal |
| DispatchRules.ManualBackupsExactly | apps/backups/owner_services.py:94-145 | a manual backup is refused exactly while one is queued or running or one has its key; else row and intent are new |
| DispatchRules.ManualRepliesExactly | apps/backups/owner_services.py:131-145 | the owner is told sent, delayed or interrupted exactly as the publisher answered the first batch |
| DispatchRules.RestoreDeliveriesExactly | apps/backups/owner_services.py:292-356 | a restore already requested is answered from the journal, one not queued is refused, any other gets its intent |
| MovementRules.RefusalsExactly | apps/inventory/services.py:177-237 | each refusal has its own condition; stock is insufficient exactly when an enforced movement that is no count correction takes a level below zero and the policy blocks |
| MovementRules.UnblockedMovementsAreRecorded | apps/inventory/services.py:225-237 | where the policy does not block, every nonzero movement of a known item outside the meter-parent rule is recorded, however little is held |
| MovementRules.WritesExactly | apps/inventory/services.py:239-259 | a recorded movement appends one row with the balance it leaves, moves one level and at most one average, and nothing else |
| MovementRules.AverageExactly | apps/inventory/services.py:270-282 | the new average is the value held and received over the quantity, rounded to nearest |
| StockRules.FirstRowDecides | apps/inventory/workflows.py:29-65 | a request fails with what its first bad row fails with |
| StockRules.TransfersAreCreatedExactly | apps/inventory/workflows.py:96-134 | a transfer is created exactly between two different open warehouses for at least one row, each a positive amount of a plain item |
| StockRules.TransferFailuresExactly | apps/inventory/workflows.py:96-134 | each failure of a creation has its own condition |
| StockRules.CreatedTransferRow | apps/inventory/workflows.py:136-154 | the created row is a draft from the requested source to the requested destination, with one line for each row; nothing else changes |
| StockRules.RequestedTransferMovesRows | apps/inventory/workflows.py:96-285 | after any run of operations, the movements of the transfer add up, at each warehouse and item, to what the rows of the request say for its status |
| StockRules.TransferEndToEnd | apps/inventory/workflows.py:96-238 | created, dispatched and received, a transfer lowers the source and raises the destination by the sum of the rows for each item, and moves no other level |
| StockRules.OutgoingExactly | apps/inventory/workflows.py:175-188 | goods leave exactly if the policy does not block or the warehouse holds, item by item, what all lines ask for together |
| StockRules.TransferStepsExactly | apps/inventory/workflows.py:158-285 | when dispatch, receipt and cancellation of a transfer of plain items are accepted |
| StockRules.PendingAdjustmentsExactly | apps/inventory/workflows.py:299-365 | a pending adjustment is created exactly for a sound request, with its rows as requested, and moves nothing |
| StockRules.AppliedAdjustmentMovesRows | apps/inventory/workflows.py:299-382 | an adjustment applied at once changes each level of its warehouse by the sum of its rows and no other |
| StockRules.DecisionsExactly | apps/inventory/workflows.py:386-449 | approval moves the lines of a pending adjustment, rejection nothing |
| StockRules.AdjustmentKinds | apps/inventory/workflows.py:368-382 | each changing line is recorded under the kind its reason names, at the average cost, under the policy |
| StockRules.SnapshotsExactly | apps/inventory/workflows.py:456-484 | a count has exactly one uncounted line, expecting the level, for each covered level of its warehouse |
| StockRules.FiguresExactly | apps/inventory/views.py:745-781 | a figure is stored exactly on an existing line of a count open or in review, and changes nothing else |
| StockRules.ApprovalsExactly | apps/inventory/workflows.py:488-542 | a count of plain items is approved exactly while open or in review, whatever its variances and the policy |
| ImportRules.ScreeningExactly | apps/inventory/services.py:522-642 | a row takes its place exactly if it names the warehouse and, unanimously, a known item that the mode allows |
| ImportRules.ReasonsExactly | apps/inventory/services.py:530-590 | why a row is turned down before its item is known |
| ImportRules.ItemReasonsExactly | apps/inventory/services.py:606-642 | why it is turned down for its item, a second row of the item included |
| ImportRules.AmountReasonsExactly | apps/inventory/services.py:651-733 | why it is turned down for its amounts, in the order they are read |
| ImportRules.AcceptedRowMovesExactly | apps/inventory/services.py:735-763 | an accepted row appends one movement of its mode, for what is missing to its goal, at the cost given or else known, or none if nothing is missing |
| ImportRules.ImportSetsMinimumsExactly | apps/inventory/services.py:651-773 | over the whole file a minimum ends as the last accepted row that names one says, and is unchanged if none does |
| ExpenseRules.TemplatesApplyExactly | apps/expenses/services.py:530-541 | a template applies to a month exactly if it is active and runs on some day of it |
| ExpenseRules.GeneratedMonthExactly | apps/expenses/services.py:493-584 | what a month generates: the amount of a template that runs in it, in a branch it books to, on the due day or the last day; it fails exactly if such a template books nowhere |
| ExpenseRules.RangeAnswersExactly | apps/expenses/services.py:587-619 | a range is refused exactly if it spans more months than allowed, and an empty one answers zero |
| ExpenseRules.MonthLengths | apps/expenses/services.py:470-475 | the lengths of the months |
| CodeRules.CodesExactly | apps/inventory/workflows.py:22-26 | a code is the prefix, a dash and the decimal number filled up with zeros to six digits |
| CodeRules.NumberedExactly | apps/catalog/services.py:77-85 | a SKU counts as numbered exactly if it is the prefix, a dash and digits, typed by hand or not; its number is what the digits say |

## Left out

* Authorization, entitlements, support sessions, branch and warehouse scopes: calls are taken as allowed. One business at a time, except where rows of several share a table.
* The backup engine (snapshot, packaging, encryption, storage, restore mutation): it may take any declared transition; the failure-code rule it must obey is the condition of the run theorem.
* Celery, the broker, the ORM and the real clock; retry countdown and jitter.
* The unique object key of a backup artifact, which the engine writes.
* Activities and audit records other than the dispatch journal, notifications, low-stock alerts, views, forms, exports, PDFs.
* The platform services, which repeat the owner services.
* Owner preflight, readiness checks and settings validation.
* `dispatch_due_schedules` batch counters and `record_scheduled_backup_outcome`.
* Classification of stale backup and restore operations; they only report.
* Two dispatches of one operation at the same time: the budget theorem is about dispatches one after another.
* `VERIFYING` written by the engine inside a transaction that may not commit.
* Other interleavings inside a service call than those of `RacingWrites.dfy`.
* Decimal contexts of 28 digits, column widths of numbers and text, and the database's own rounding of a row quantity with more than three decimals.
* Digits outside ASCII in SKUs, and the derivation of a SKU prefix from the business name.
* Reading cells and dates from text: an import gets what each cell says, a range gets dates.
* A minimum stock level that the database rejects beside an import quantity.
* `stock_value`, `set_opening_stock`, the routing of meter stock, and the callers in sales and purchases: they appear as direct movements.
* Purchase prices and costs on transfer lines do not influence any average, and nothing is proved about them.
* Meter and tailoring product-shape rules, catalogue and customer import, closed-shift snapshots of expenses.
* Two callers that search for a code at once: the unique constraint decides between them.
* Deleting products, warehouses, branches or templates.

Contracts stated with a condition the code does not enforce itself:

- RestoringIsEnteredAtMostOnce: no prefixed failure inside the mutation and no relabel of a restore that has been inside; StepKeepsCountExactly shows both rules exact.
- RunsMutateOnce: the same two rules.
- ClaimsStrictlyIncrease: explicit saves, and claims carrying a time before the last save, are safe; SaveKeepsOrderExactly and ClaimKeepsOrderExactly show the conditions exact. Zones and times whose runs do not keep up with their dates are not modelled as saved clocks.
- KeyIsAlwaysFresh: the same.
- ClaimRun: the conflict raised when a stored row under the key has other products; no orderly run meets a used key.
- IntervalsAreDisjoint: each acquisition comes after the earlier locks of its business have ended; AcquireKeepsOrderExactly shows the condition exact.
- DatabaseConstraintsHold: of a heartbeat whose clock went back far enough to end the lease before its acquisition, the refusal by the database is not modelled.
- RunsAreBounded: the dispatches of one operation follow one another, and the settings stay fixed.
- LedgerDriftIsBounded: the item only receives goods at a known cost; goods going out at another value are not covered.
