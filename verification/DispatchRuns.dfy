/** What the dispatch journal keeps over every run of requests, reconcile passes and worker events. */
module DispatchRuns {
  import opened Options
  import opened DispatchJournal

  function Calls(published: seq<nat>, operation: nat): nat {
    if published == [] then 0
    else (if published[0] == operation then 1 else 0) + Calls(published[1..], operation)
  }

  /** All events of one kind, whatever their operation. */
  function CountAll(journal: Journal, kind: Kind): nat {
    if journal == [] then 0 else (if journal[0].kind == kind then 1 else 0) + CountAll(journal[1..], kind)
  }

  lemma {:induction false} CallsAppend(p: seq<nat>, x: nat, operation: nat)
    ensures Calls(p + [x], operation) == Calls(p, operation) + if x == operation then 1 else 0
  {
    if p != [] {
      assert (p + [x])[1..] == p[1..] + [x];
      CallsAppend(p[1..], x, operation);
    }
  }

  lemma {:induction false} CountAppendOne(j: Journal, e: Event, operation: nat, kind: Kind)
    ensures Count(j + [e], operation, kind) == Count(j, operation, kind) + if e == Event(operation, kind) then 1 else 0
  {
    if j != [] {
      assert (j + [e])[1..] == j[1..] + [e];
      CountAppendOne(j[1..], e, operation, kind);
    }
  }

  lemma {:induction false} CountAllAppendOne(j: Journal, e: Event, kind: Kind)
    ensures CountAll(j + [e], kind) == CountAll(j, kind) + if e.kind == kind then 1 else 0
  {
    if j != [] {
      assert (j + [e])[1..] == j[1..] + [e];
      CountAllAppendOne(j[1..], e, kind);
    }
  }

  /** The same three facts for every operation and kind at once. */
  lemma AppendCounts(j: Journal, e: Event)
    ensures forall x: nat, k :: Count(j + [e], x, k) == Count(j, x, k) + if e == Event(x, k) then 1 else 0
    ensures forall k :: CountAll(j + [e], k) == CountAll(j, k) + if e.kind == k then 1 else 0
  {
    forall x: nat, k
      ensures Count(j + [e], x, k) == Count(j, x, k) + if e == Event(x, k) then 1 else 0
    {
      CountAppendOne(j, e, x, k);
    }
    forall k
      ensures CountAll(j + [e], k) == CountAll(j, k) + if e.kind == k then 1 else 0
    {
      CountAllAppendOne(j, e, k);
    }
  }

  lemma AppendCall(p: seq<nat>, x: nat)
    ensures forall y: nat :: Calls(p + [x], y) == Calls(p, y) + if x == y then 1 else 0
  {
    forall y: nat
      ensures Calls(p + [x], y) == Calls(p, y) + if x == y then 1 else 0
    {
      CallsAppend(p, x, y);
    }
  }

  lemma {:induction false} CountPositive(j: Journal, operation: nat, kind: Kind)
    ensures Recorded(j, operation, kind) <==> Count(j, operation, kind) > 0
  {
    if j != [] {
      CountPositive(j[1..], operation, kind);
      assert j == [j[0]] + j[1..];
    }
  }

  // ---- What one batch of attempts does ----

  /** Per operation: one call per attempt, other operations untouched, no new request. */
  ghost predicate BatchEffect(j: Journal, p: seq<nat>, j': Journal, p': seq<nat>, operation: nat, least: nat, most: nat) {
    && j <= j'
    && forall x: nat ::
         && Count(j', x, Attempted) - Count(j, x, Attempted) == Calls(p', x) - Calls(p, x)
         && Count(j', x, Requested) == Count(j, x, Requested)
         && (if x == operation then least <= Count(j', x, Attempted) - Count(j, x, Attempted) <= most
             else Count(j', x, Attempted) == Count(j, x, Attempted))
  }

  lemma {:induction false} AttemptsEffect(j: Journal, p: seq<nat>, operation: nat, n: nat, limit: nat, answers: nat -> Publication, redispatch: bool)
    requires 1 <= n <= limit + 1
    ensures var (j', p', delivery) := Attempts(j, p, operation, n, limit, answers, redispatch);
            BatchEffect(j, p, j', p', operation, if n <= limit then 1 else 0, limit + 1 - n)
    decreases limit + 1 - n
  {
    if n > limit {
      AppendCounts(j, Event(operation, DeliveryFailed));
    } else {
      var attempted := j + [Event(operation, Attempted)];
      var confirmed := attempted + [Event(operation, Confirmed)];
      AppendCounts(j, Event(operation, Attempted));
      AppendCounts(attempted, Event(operation, Confirmed));
      AppendCounts(confirmed, Event(operation, Redispatched));
      AppendCall(p, operation);
      if answers(n).Rejected? {
        AttemptsEffect(attempted, p + [operation], operation, n + 1, limit, answers, redispatch);
      }
    }
  }

  lemma {:induction false} AttemptsOutcome(j: Journal, p: seq<nat>, operation: nat, n: nat, limit: nat, answers: nat -> Publication)
    requires 1 <= n <= limit + 1
    ensures var (j', _, delivery) := Attempts(j, p, operation, n, limit, answers, true);
            && CountAll(j', Confirmed) == CountAll(j, Confirmed) + (if delivery.Delivery? && delivery.confirmed then 1 else 0)
            && CountAll(j', Redispatched) == CountAll(j, Redispatched) + (if delivery.Delivery? && delivery.confirmed then 1 else 0)
            && CountAll(j', DeliveryFailed) == CountAll(j, DeliveryFailed) + (if delivery.Delivery? && !delivery.confirmed then 1 else 0)
    decreases limit + 1 - n
  {
    var attempted := j + [Event(operation, Attempted)];
    var confirmed := attempted + [Event(operation, Confirmed)];
    AppendCounts(j, Event(operation, DeliveryFailed));
    AppendCounts(j, Event(operation, Attempted));
    AppendCounts(attempted, Event(operation, Confirmed));
    AppendCounts(confirmed, Event(operation, Redispatched));
    if n <= limit && answers(n).Rejected? {
      AttemptsOutcome(attempted, p + [operation], operation, n + 1, limit, answers);
    }
  }

  // ---- The invariant ----

  ghost predicate Bounded(d: Desk, s: Settings) {
    && (forall e :: e in d.journal ==> e.operation < |d.operations|)
    && forall x: nat ::
         && Count(d.journal, x, Attempted) <= TotalLimit(s)
         && Count(d.journal, x, Attempted) == Calls(d.published, x)
         && Count(d.journal, x, Requested) <= 1
  }

  ghost predicate Grows(d: Desk, d': Desk) {
    d.journal <= d'.journal && |d.operations| <= |d'.operations|
  }

  lemma {:induction false} AttemptsStayOnOperation(j: Journal, p: seq<nat>, operation: nat, n: nat, limit: nat, answers: nat -> Publication, redispatch: bool)
    requires 1 <= n <= limit + 1
    ensures forall e :: e in Attempts(j, p, operation, n, limit, answers, redispatch).0 ==> e in j || e.operation == operation
    decreases limit + 1 - n
  {
    if n <= limit && answers(n).Rejected? {
      AttemptsStayOnOperation(j + [Event(operation, Attempted)], p + [operation], operation, n + 1, limit, answers, redispatch);
    }
  }

  /** A dispatch keeps the bound; on a queued operation with budget left it makes an attempt. */
  lemma DispatchKeepsBounded(d: Desk, s: Settings, operation: nat, answers: nat -> Publication, redispatch: bool)
    requires Bounded(d, s)
    ensures var d' := Dispatch(d, s, operation, answers, redispatch).0;
            && Bounded(d', s) && Grows(d, d')
            && (forall x: nat :: x != operation ==> Calls(d'.published, x) == Calls(d.published, x))
            && (forall x: nat :: Count(d'.journal, x, Requested) == Count(d.journal, x, Requested))
            && (operation < |d.operations| && d.operations[operation].queued && Count(d.journal, operation, Attempted) < TotalLimit(s)
                ==> Calls(d'.published, operation) > Calls(d.published, operation))
  {
    var limit := BatchLimit(s, Count(d.journal, operation, Attempted));
    if operation < |d.operations| && limit > 0 {
      AttemptsEffect(d.journal, d.published, operation, 1, limit, answers, redispatch);
      AttemptsStayOnOperation(d.journal, d.published, operation, 1, limit, answers, redispatch);
    }
  }

  // ---- Reconcile passes ----

  lemma {:induction false} ReconcileKeepsBounded(d: Desk, s: Settings, candidates: seq<nat>, answers: (nat, nat) -> Publication)
    requires Bounded(d, s)
    ensures Bounded(Reconcile(d, s, candidates, answers).0, s)
    ensures Grows(d, Reconcile(d, s, candidates, answers).0)
    ensures forall x: nat :: Count(Reconcile(d, s, candidates, answers).0.journal, x, Requested) == Count(d.journal, x, Requested)
  {
    if candidates != [] {
      var n := |candidates| - 1;
      ReconcileKeepsBounded(d, s, candidates[..n], answers);
      DispatchKeepsBounded(Reconcile(d, s, candidates[..n], answers).0, s, candidates[n], AnswersTo(answers, n), true);
    }
  }

  /** Once the broker has confirmed an operation, no reconcile pass publishes it again. */
  lemma {:induction false} ConfirmedIsNotReconciled(d: Desk, s: Settings, candidates: seq<nat>, answers: (nat, nat) -> Publication, operation: nat)
    requires Bounded(d, s) && Recorded(d.journal, operation, Confirmed)
    ensures Calls(Reconcile(d, s, candidates, answers).0.published, operation) == Calls(d.published, operation)
  {
    if candidates != [] {
      var n := |candidates| - 1;
      ConfirmedIsNotReconciled(d, s, candidates[..n], answers, operation);
      ReconcileKeepsBounded(d, s, candidates[..n], answers);
      var before := Reconcile(d, s, candidates[..n], answers).0;
      assert Event(operation, Confirmed) in before.journal;
      assert !Eligible(before, s, operation);
      DispatchKeepsBounded(before, s, candidates[n], AnswersTo(answers, n), true);
    }
  }

  /** An operation judged eligible gets at least one attempt, and one publisher call for each. */
  lemma EligibleIsAttempted(d: Desk, s: Settings, operation: nat, answers: nat -> Publication)
    requires Bounded(d, s) && Eligible(d, s, operation)
    ensures var (d', delivery) := Dispatch(d, s, operation, answers, true);
            && Count(d'.journal, operation, Attempted) > Count(d.journal, operation, Attempted)
            && Count(d'.journal, operation, Attempted) == Calls(d'.published, operation)
            && Count(d'.journal, operation, Attempted) <= TotalLimit(s)
  {
    DispatchKeepsBounded(d, s, operation, answers, true);
  }

  /** The tally of a pass is what the journal shows. */
  lemma {:induction false} TallyMatchesJournal(d: Desk, s: Settings, candidates: seq<nat>, answers: (nat, nat) -> Publication)
    ensures var (d', t) := Reconcile(d, s, candidates, answers);
            && t.eligible == t.confirmed + t.failed + (if t.aborted then 1 else 0)
            && t.eligible <= |candidates|
            && CountAll(d'.journal, Confirmed) == CountAll(d.journal, Confirmed) + t.confirmed
            && CountAll(d'.journal, Redispatched) == CountAll(d.journal, Redispatched) + t.confirmed
            && CountAll(d'.journal, DeliveryFailed) == CountAll(d.journal, DeliveryFailed) + t.failed
  {
    if candidates != [] {
      var n := |candidates| - 1;
      TallyMatchesJournal(d, s, candidates[..n], answers);
      var (before, t) := Reconcile(d, s, candidates[..n], answers);
      if !t.aborted && Eligible(before, s, candidates[n]) {
        var limit := BatchLimit(s, Count(before.journal, candidates[n], Attempted));
        AttemptsOutcome(before.journal, before.published, candidates[n], 1, limit, AnswersTo(answers, n));
      }
    }
  }

  // ---- Runs ----

  datatype Step =
    | ManualBackup(key: nat, answers: nat -> Publication)
      /** A claimed daily run: the new backup is recorded with its intent and dispatched on commit. */
    | ScheduledBackup(key: nat, answers: nat -> Publication)
    | RestoreDelivery(restore: nat, answers: nat -> Publication)
    | ReconcilePass(candidates: seq<nat>, replies: (nat, nat) -> Publication)
    | AddOperation(row: Operation)
    | ChangeOperation(changed: nat, to: Operation)
    | WorkerEvent(worker: nat, kind: Kind)
    | SetLocks(locked: set<nat>)

  const WORKER_KINDS := {WorkerStarted, Started, MutationStarted, Completed, Failed, RecoveryRequired, Note}

  function WithNewBackup(d: Desk, key: nat): Desk {
    d.(operations := d.operations + [NewBackup(key)],
    journal := d.journal + [Event(|d.operations|, Note), Event(|d.operations|, Requested)])
  }

  function Apply(d: Desk, s: Settings, step: Step): Desk {
    match step
    case ManualBackup(key, answers) => RequestBackup(d, s, key, answers).0
    case ScheduledBackup(key, answers) => Dispatch(WithNewBackup(d, key), s, |d.operations|, answers, false).0
    case RestoreDelivery(r, answers) => if r < |d.operations| then RequestRestore(d, s, r, answers).0 else d
    case ReconcilePass(candidates, replies) => Reconcile(d, s, candidates, replies).0
    case AddOperation(row) => d.(operations := d.operations + [row])
    case ChangeOperation(x, to) => if x < |d.operations| then d.(operations := d.operations[x := to]) else d
    case WorkerEvent(x, kind) =>
      if x < |d.operations| && kind in WORKER_KINDS then d.(journal := d.journal + [Event(x, kind)]) else d
    case SetLocks(locked) => d.(locked := locked)
  }

  function Run(d: Desk, s: Settings, steps: seq<Step>): Desk {
    if steps == [] then d else Apply(Run(d, s, steps[..|steps| - 1]), s, steps[|steps| - 1])
  }

  lemma NewBackupKeepsBounded(d: Desk, s: Settings, key: nat)
    requires Bounded(d, s)
    ensures Bounded(WithNewBackup(d, key), s) && Grows(d, WithNewBackup(d, key))
    ensures Count(d.journal, |d.operations|, Requested) == 0
  {
    var op := |d.operations|;
    CountPositive(d.journal, op, Requested);
    var noted := d.journal + [Event(op, Note)];
    assert WithNewBackup(d, key).journal == noted + [Event(op, Requested)];
    AppendCounts(d.journal, Event(op, Note));
    AppendCounts(noted, Event(op, Requested));
  }

  lemma RestoreIntentKeepsBounded(d: Desk, s: Settings, r: nat)
    requires Bounded(d, s) && r < |d.operations| && !Recorded(d.journal, r, Requested)
    ensures Bounded(d.(journal := d.journal + [Event(r, Requested)]), s)
  {
    CountPositive(d.journal, r, Requested);
    AppendCounts(d.journal, Event(r, Requested));
  }

  lemma WorkerEventKeepsBounded(d: Desk, s: Settings, x: nat, kind: Kind)
    requires Bounded(d, s) && x < |d.operations| && kind in WORKER_KINDS
    ensures Bounded(d.(journal := d.journal + [Event(x, kind)]), s)
  {
    AppendCounts(d.journal, Event(x, kind));
  }

  lemma StepKeepsBounded(d: Desk, s: Settings, step: Step)
    requires Bounded(d, s)
    ensures Bounded(Apply(d, s, step), s) && Grows(d, Apply(d, s, step))
  {
    match step
    case ManualBackup(key, answers) =>
      NewBackupKeepsBounded(d, s, key);
      DispatchKeepsBounded(WithNewBackup(d, key), s, |d.operations|, answers, false);
    case ScheduledBackup(key, answers) =>
      NewBackupKeepsBounded(d, s, key);
      DispatchKeepsBounded(WithNewBackup(d, key), s, |d.operations|, answers, false);
    case RestoreDelivery(r, answers) =>
      if r < |d.operations| && !Recorded(d.journal, r, Requested) {
        RestoreIntentKeepsBounded(d, s, r);
        DispatchKeepsBounded(d.(journal := d.journal + [Event(r, Requested)]), s, r, answers, false);
      }
    case ReconcilePass(candidates, replies) => ReconcileKeepsBounded(d, s, candidates, replies);
    case WorkerEvent(x, kind) =>
      if x < |d.operations| && kind in WORKER_KINDS {
        WorkerEventKeepsBounded(d, s, x, kind);
      }
    case _ =>
  }

  /** Over every run the attempts of each operation stay within the total limit, one publisher call each. */
  lemma {:induction false} RunsAreBounded(operations: seq<Operation>, s: Settings, steps: seq<Step>)
    ensures Bounded(Run(Desk(operations, [], [], {}), s, steps), s)
  {
    if steps != [] {
      var d := Desk(operations, [], [], {});
      RunsAreBounded(operations, s, steps[..|steps| - 1]);
      StepKeepsBounded(Run(d, s, steps[..|steps| - 1]), s, steps[|steps| - 1]);
    }
  }

  lemma ConfirmedStepPublishesNothing(d: Desk, s: Settings, step: Step, operation: nat)
    requires Bounded(d, s) && Recorded(d.journal, operation, Confirmed) && Recorded(d.journal, operation, Requested)
    ensures Calls(Apply(d, s, step).published, operation) == Calls(d.published, operation)
  {
    match step
    case ManualBackup(key, answers) =>
      NewBackupKeepsBounded(d, s, key);
      DispatchKeepsBounded(WithNewBackup(d, key), s, |d.operations|, answers, false);
    case ScheduledBackup(key, answers) =>
      NewBackupKeepsBounded(d, s, key);
      DispatchKeepsBounded(WithNewBackup(d, key), s, |d.operations|, answers, false);
    case RestoreDelivery(r, answers) =>
      if r < |d.operations| && !Recorded(d.journal, r, Requested) {
        RestoreIntentKeepsBounded(d, s, r);
        DispatchKeepsBounded(d.(journal := d.journal + [Event(r, Requested)]), s, r, answers, false);
      }
    case ReconcilePass(candidates, replies) => ConfirmedIsNotReconciled(d, s, candidates, replies, operation);
    case _ =>
  }

  lemma {:induction false} NothingPublishedAfter(d: Desk, s: Settings, steps: seq<Step>, operation: nat)
    requires Bounded(d, s) && Recorded(d.journal, operation, Confirmed) && Recorded(d.journal, operation, Requested)
    ensures Calls(Run(d, s, steps).published, operation) == Calls(d.published, operation)
    ensures Bounded(Run(d, s, steps), s) && d.journal <= Run(d, s, steps).journal
  {
    if steps != [] {
      var n := |steps| - 1;
      NothingPublishedAfter(d, s, steps[..n], operation);
      var before := Run(d, s, steps[..n]);
      assert Event(operation, Confirmed) in before.journal && Event(operation, Requested) in before.journal;
      StepKeepsBounded(before, s, steps[n]);
      ConfirmedStepPublishesNothing(before, s, steps[n], operation);
    }
  }

  // ---- Confirmed operations were requested ----

  ghost predicate ConfirmedWasRequested(journal: Journal) {
    forall e :: e in journal && e.kind == Confirmed ==> Recorded(journal, e.operation, Requested)
  }

  lemma DispatchKeepsRequested(d: Desk, s: Settings, operation: nat, answers: nat -> Publication, redispatch: bool)
    requires Bounded(d, s) && ConfirmedWasRequested(d.journal) && Recorded(d.journal, operation, Requested)
    ensures ConfirmedWasRequested(Dispatch(d, s, operation, answers, redispatch).0.journal)
  {
    DispatchKeepsBounded(d, s, operation, answers, redispatch);
    var after := Dispatch(d, s, operation, answers, redispatch).0.journal;
    assert forall e :: e in d.journal ==> e in after;
    var limit := BatchLimit(s, Count(d.journal, operation, Attempted));
    if operation < |d.operations| && d.operations[operation].queued && limit > 0 {
      AttemptsStayOnOperation(d.journal, d.published, operation, 1, limit, answers, redispatch);
    }
  }

  lemma AppendKeepsRequested(journal: Journal, e: Event)
    requires ConfirmedWasRequested(journal) && e.kind != Confirmed
    ensures ConfirmedWasRequested(journal + [e])
  {
  }

  lemma {:induction false} ReconcileKeepsRequested(d: Desk, s: Settings, candidates: seq<nat>, answers: (nat, nat) -> Publication)
    requires Bounded(d, s) && ConfirmedWasRequested(d.journal)
    ensures ConfirmedWasRequested(Reconcile(d, s, candidates, answers).0.journal)
  {
    if candidates != [] {
      hide Bounded, ConfirmedWasRequested, Dispatch;
      var n := |candidates| - 1;
      ReconcileKeepsRequested(d, s, candidates[..n], answers);
      ReconcileKeepsBounded(d, s, candidates[..n], answers);
      var before := Reconcile(d, s, candidates[..n], answers).0;
      if Eligible(before, s, candidates[n]) {
        DispatchKeepsRequested(before, s, candidates[n], AnswersTo(answers, n), true);
      }
    }
  }

  lemma NewBackupKeepsRequested(d: Desk, s: Settings, key: nat, answers: nat -> Publication)
    requires Bounded(d, s) && ConfirmedWasRequested(d.journal)
    ensures ConfirmedWasRequested(Dispatch(WithNewBackup(d, key), s, |d.operations|, answers, false).0.journal)
  {
    var op := |d.operations|;
    NewBackupKeepsBounded(d, s, key);
    AppendKeepsRequested(d.journal, Event(op, Note));
    AppendKeepsRequested(d.journal + [Event(op, Note)], Event(op, Requested));
    assert WithNewBackup(d, key).journal == d.journal + [Event(op, Note)] + [Event(op, Requested)];
    hide Bounded, ConfirmedWasRequested, Dispatch;
    DispatchKeepsRequested(WithNewBackup(d, key), s, op, answers, false);
  }

  lemma StepKeepsRequested(d: Desk, s: Settings, step: Step)
    requires Bounded(d, s) && ConfirmedWasRequested(d.journal)
    ensures ConfirmedWasRequested(Apply(d, s, step).journal)
  {
    hide Bounded, ConfirmedWasRequested, Dispatch, Reconcile;
    match step
    case ManualBackup(key, answers) => NewBackupKeepsRequested(d, s, key, answers);
    case ScheduledBackup(key, answers) => NewBackupKeepsRequested(d, s, key, answers);
    case RestoreDelivery(r, answers) =>
      if r < |d.operations| && !Recorded(d.journal, r, Requested) {
        RestoreIntentKeepsBounded(d, s, r);
        AppendKeepsRequested(d.journal, Event(r, Requested));
        DispatchKeepsRequested(d.(journal := d.journal + [Event(r, Requested)]), s, r, answers, false);
      }
    case ReconcilePass(candidates, replies) => ReconcileKeepsRequested(d, s, candidates, replies);
    case WorkerEvent(x, kind) =>
      if kind in WORKER_KINDS {
        AppendKeepsRequested(d.journal, Event(x, kind));
      }
    case _ =>
  }

  /** In every run an operation with a confirmed event has its intent recorded. */
  lemma {:induction false} RunsConfirmOnlyRequested(operations: seq<Operation>, s: Settings, steps: seq<Step>)
    ensures ConfirmedWasRequested(Run(Desk(operations, [], [], {}), s, steps).journal)
  {
    if steps != [] {
      var d := Desk(operations, [], [], {});
      RunsConfirmOnlyRequested(operations, s, steps[..|steps| - 1]);
      RunsAreBounded(operations, s, steps[..|steps| - 1]);
      StepKeepsRequested(Run(d, s, steps[..|steps| - 1]), s, steps[|steps| - 1]);
    }
  }

  /** In every run, once an operation has a confirmed event nothing that follows publishes it again. */
  lemma ConfirmedIsNeverRepublished(operations: seq<Operation>, s: Settings, steps: seq<Step>, more: seq<Step>, operation: nat)
    requires Recorded(Run(Desk(operations, [], [], {}), s, steps).journal, operation, Confirmed)
    ensures var d := Run(Desk(operations, [], [], {}), s, steps);
            Calls(Run(d, s, more).published, operation) == Calls(d.published, operation)
  {
    hide Bounded, Apply;
    var d := Run(Desk(operations, [], [], {}), s, steps);
    RunsAreBounded(operations, s, steps);
    RunsConfirmOnlyRequested(operations, s, steps);
    assert Event(operation, Confirmed) in d.journal;
    NothingPublishedAfter(d, s, more, operation);
  }
}
