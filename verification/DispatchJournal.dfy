/**
 Handing queued operations to the broker, and the append-only journal that bounds the attempts.

 The publisher is unknown code: for each attempt it may accept, fail, or be interrupted.
 Dispatches and reconcile passes run one after another; between them workers, locks and rows
 may change in any way.
 */
module DispatchJournal {
  import opened Options

  datatype Operation =
      /** `running` stands for every active status after queued; `key` is the idempotency key of the request. */
    | BackupOperation(queued: bool, running: bool, key: nat, safety: bool, started: bool, durableEvidence: bool)
    | RestoreOperation(queued: bool, started: bool, safetyLinked: bool, rollbackAttempted: bool)

  datatype Kind =
    | Requested | Attempted | Confirmed | DeliveryFailed | Redispatched
    | WorkerStarted | Started | MutationStarted | Completed | Failed | RecoveryRequired | Note

  datatype Event = Event(operation: nat, kind: Kind)

  type Journal = seq<Event>

  function Count(journal: Journal, operation: nat, kind: Kind): nat {
    if journal == [] then 0
    else (if journal[0] == Event(operation, kind) then 1 else 0) + Count(journal[1..], operation, kind)
  }

  predicate Recorded(journal: Journal, operation: nat, kind: Kind) {
    Event(operation, kind) in journal
  }

  // ---- Settings ----

  datatype Settings = Settings(immediate: Option<int>, total: Option<int>)

  function BoundedSetting(value: Option<int>, default: int, minimum: int, maximum: int): int {
    if value.Some? && minimum <= value.value <= maximum then value.value else default
  }

  function ImmediateLimit(s: Settings): int {
    BoundedSetting(s.immediate, 3, 1, 3)
  }

  function TotalLimit(s: Settings): int {
    BoundedSetting(s.total, 12, 3, 100)
  }

  function Min(a: int, b: int): int { if a <= b then a else b }

  function Max(a: int, b: int): int { if a <= b then b else a }

  function BatchLimit(s: Settings, prior: nat): (n: nat)
    ensures n <= ImmediateLimit(s)
    ensures prior <= TotalLimit(s) ==> prior + n <= TotalLimit(s)
    ensures n == 0 <==> TotalLimit(s) <= prior
  {
    Min(ImmediateLimit(s), Max(0, TotalLimit(s) - prior))
  }

  // ---- One batch of attempts ----

  datatype Publication = Accepted | Rejected | Interrupted

  datatype Delivery = Delivery(confirmed: bool, attempts: nat) | Aborted

  /** What attempts `n` to `limit` leave behind, given how the publisher answers each attempt. */
  function Attempts(journal: Journal, published: seq<nat>, operation: nat, n: nat, limit: nat, answers: nat -> Publication, redispatch: bool)
    : (Journal, seq<nat>, Delivery)
    decreases limit + 1 - n
  {
    if n > limit then (journal + [Event(operation, DeliveryFailed)], published, Delivery(false, limit))
    else
      var attempted, called := journal + [Event(operation, Attempted)], published + [operation];
      match answers(n)
      case Interrupted => (attempted, called, Aborted)
      case Rejected => Attempts(attempted, called, operation, n + 1, limit, answers, redispatch)
      case Accepted =>
        var confirmed := attempted + [Event(operation, Confirmed)];
        (if redispatch then confirmed + [Event(operation, Redispatched)] else confirmed, called, Delivery(true, n))
  }

  datatype Desk = Desk(operations: seq<Operation>, journal: Journal, published: seq<nat>, locked: set<nat>)

  function Dispatch(d: Desk, s: Settings, operation: nat, answers: nat -> Publication, redispatch: bool): (Desk, Delivery) {
    if operation >= |d.operations| || !d.operations[operation].queued then (d, Delivery(false, 0))
    else
      var limit := BatchLimit(s, Count(d.journal, operation, Attempted));
      if limit == 0 then (d, Delivery(false, 0))
      else
        var (journal, published, delivery) := Attempts(d.journal, d.published, operation, 1, limit, answers, redispatch);
        (d.(journal := journal, published := published), delivery)
  }

  // ---- Eligibility ----

  const BACKUP_EVIDENCE := {Confirmed, Started, Completed, Failed}
  const RESTORE_EVIDENCE := {Confirmed, WorkerStarted, Started, MutationStarted, Completed, Failed, RecoveryRequired}

  predicate Untouched(o: Operation) {
    match o
    case BackupOperation(queued, _, _, safety, started, durable) => queued && !safety && !started && !durable
    case RestoreOperation(queued, started, linked, rolledBack) => queued && !started && !linked && !rolledBack
  }

  predicate NoEvidence(journal: Journal, operation: nat, evidence: set<Kind>) {
    forall e :: e in journal && e.operation == operation ==> e.kind !in evidence
  }

  predicate Eligible(d: Desk, s: Settings, operation: nat) {
    && operation < |d.operations| && Untouched(d.operations[operation])
    && Recorded(d.journal, operation, Requested)
    && NoEvidence(d.journal, operation, if d.operations[operation].BackupOperation? then BACKUP_EVIDENCE else RESTORE_EVIDENCE)
    && operation !in d.locked
    && Count(d.journal, operation, Attempted) < TotalLimit(s)
  }

  // ---- Reconciling ----

  datatype Tally = Tally(eligible: nat, confirmed: nat, failed: nat, aborted: bool)

  function AnswersTo(answers: (nat, nat) -> Publication, candidate: nat): nat -> Publication {
    (attempt: nat) => answers(candidate, attempt)
  }

  function Reconcile(d: Desk, s: Settings, candidates: seq<nat>, answers: (nat, nat) -> Publication): (Desk, Tally) {
    if candidates == [] then (d, Tally(0, 0, 0, false))
    else
      var n := |candidates| - 1;
      var (before, t) := Reconcile(d, s, candidates[..n], answers);
      if t.aborted || !Eligible(before, s, candidates[n]) then (before, t)
      else
        var (after, delivery) := Dispatch(before, s, candidates[n], AnswersTo(answers, n), true);
        if delivery.Aborted? then (after, t.(eligible := t.eligible + 1, aborted := true))
        else if delivery.confirmed then (after, t.(eligible := t.eligible + 1, confirmed := t.confirmed + 1))
        else (after, t.(eligible := t.eligible + 1, failed := t.failed + 1))
  }

  // ---- Owner requests ----

  datatype Request = Sent | Delayed | RequestRefused | Nothing | Interruption

  function Reply(delivery: Delivery): Request {
    if delivery.Aborted? then Interruption else if delivery.confirmed then Sent else Delayed
  }

  predicate ActiveBackup(d: Desk) {
    exists i :: 0 <= i < |d.operations| && d.operations[i].BackupOperation? && (d.operations[i].queued || d.operations[i].running)
  }

  predicate KeyUsed(d: Desk, key: nat) {
    exists i :: 0 <= i < |d.operations| && d.operations[i].BackupOperation? && d.operations[i].key == key
  }

  function NewBackup(key: nat): Operation {
    BackupOperation(true, false, key, false, false, false)
  }

  /**
   A new manual backup: row and intent in one transaction, then the first dispatch. The key names actor,
   scope and minute; a backup found under it is no longer queued, for none is active, so it is refused.
   */
  function RequestBackup(d: Desk, s: Settings, key: nat, answers: nat -> Publication): (Desk, Request) {
    if ActiveBackup(d) || KeyUsed(d, key) then (d, RequestRefused)
    else
      var operation := |d.operations|;
      var requested := d.(
        operations := d.operations + [NewBackup(key)],
        journal := d.journal + [Event(operation, Note), Event(operation, Requested)]);
      var (after, delivery) := Dispatch(requested, s, operation, answers, false);
      (after, Reply(delivery))
  }

  predicate DeliveryDelayed(journal: Journal, operation: nat) {
    Recorded(journal, operation, DeliveryFailed) && !Recorded(journal, operation, Confirmed)
  }

  function RequestRestore(d: Desk, s: Settings, operation: nat, answers: nat -> Publication): (Desk, Request)
    requires operation < |d.operations|
  {
    if Recorded(d.journal, operation, Requested) then
      (d, if DeliveryDelayed(d.journal, operation) then Delayed else Nothing)
    else if !d.operations[operation].queued then (d, RequestRefused)
    else
      var requested := d.(journal := d.journal + [Event(operation, Requested)]);
      var (after, delivery) := Dispatch(requested, s, operation, answers, false);
      (after, Reply(delivery))
  }

  // ---- The tables and the services ----

  class DispatchTables {
    var operations: seq<Operation>
    var journal: Journal
    var published: seq<nat>
    var locked: set<nat>

    ghost function State(): Desk
      reads this
    {
      Desk(operations, journal, published, locked)
    }

    method DispatchOperation(s: Settings, operation: nat, answers: nat -> Publication, redispatch: bool)
      returns (delivery: Delivery)
      modifies this`journal, this`published
      ensures (State(), delivery) == Dispatch(old(State()), s, operation, answers, redispatch)
    {
      if operation >= |operations| || !operations[operation].queued {
        return Delivery(false, 0);
      }
      var limit := Min(ImmediateLimit(s), Max(0, TotalLimit(s) - Count(journal, operation, Attempted)));
      if limit == 0 {
        return Delivery(false, 0);
      }
      var attempts := 0;
      while attempts < limit
        invariant 0 <= attempts <= limit
        invariant Attempts(old(journal), old(published), operation, 1, limit, answers, redispatch)
               == Attempts(journal, published, operation, attempts + 1, limit, answers, redispatch)
      {
        attempts := attempts + 1;
        journal := journal + [Event(operation, Attempted)];
        published := published + [operation];
        match answers(attempts) {
          case Interrupted =>
            return Aborted;
          case Rejected =>
            continue;
          case Accepted =>
        }
        journal := journal + [Event(operation, Confirmed)];
        if redispatch {
          journal := journal + [Event(operation, Redispatched)];
        }
        return Delivery(true, attempts);
      }
      journal := journal + [Event(operation, DeliveryFailed)];
      return Delivery(false, attempts);
    }

    method ReconcileQueued(s: Settings, candidates: seq<nat>, answers: (nat, nat) -> Publication)
      returns (examined: nat, tally: Tally)
      modifies this`journal, this`published
      ensures (State(), tally) == Reconcile(old(State()), s, candidates, answers) && examined == |candidates|
    {
      var eligible, confirmed, failed := 0, 0, 0;
      for i := 0 to |candidates|
        invariant (State(), Tally(eligible, confirmed, failed, false)) == Reconcile(old(State()), s, candidates[..i], answers)
      {
        assert candidates[..i + 1][..i] == candidates[..i];
        if Eligible(Desk(operations, journal, published, locked), s, candidates[i]) {
          eligible := eligible + 1;
          var delivery := DispatchOperation(s, candidates[i], AnswersTo(answers, i), true);
          if delivery.Aborted? {
            AbortEndsPass(old(State()), s, candidates, i + 1, answers);
            return |candidates|, Tally(eligible, confirmed, failed, true);
          }
          if delivery.confirmed {
            confirmed := confirmed + 1;
          } else {
            failed := failed + 1;
          }
        }
      }
      assert candidates[..|candidates|] == candidates;
      return |candidates|, Tally(eligible, confirmed, failed, false);
    }

    method RequestManualBackup(s: Settings, key: nat, answers: nat -> Publication) returns (reply: Request)
      modifies this
      ensures (State(), reply) == RequestBackup(old(State()), s, key, answers)
    {
      var desk := Desk(operations, journal, published, locked);
      if ActiveBackup(desk) {
        return RequestRefused;
      }
      if KeyUsed(desk, key) {
        return RequestRefused;
      }
      var operation := |operations|;
      operations := operations + [NewBackup(key)];
      journal := journal + [Event(operation, Note), Event(operation, Requested)];
      var delivery := DispatchOperation(s, operation, answers, false);
      return Reply(delivery);
    }

    method RequestRestoreDelivery(s: Settings, operation: nat, answers: nat -> Publication) returns (reply: Request)
      requires operation < |operations|
      modifies this`journal, this`published
      ensures (State(), reply) == RequestRestore(old(State()), s, operation, answers)
    {
      var alreadyQueued := Recorded(journal, operation, Requested);
      if alreadyQueued && DeliveryDelayed(journal, operation) {
        return Delayed;
      }
      if alreadyQueued {
        return Nothing;
      }
      if !operations[operation].queued {
        return RequestRefused;
      }
      journal := journal + [Event(operation, Requested)];
      var delivery := DispatchOperation(s, operation, answers, false);
      return Reply(delivery);
    }
  }

  lemma {:induction false} AbortEndsPass(d: Desk, s: Settings, candidates: seq<nat>, n: nat, answers: (nat, nat) -> Publication)
    requires n <= |candidates| && Reconcile(d, s, candidates[..n], answers).1.aborted
    ensures Reconcile(d, s, candidates, answers) == Reconcile(d, s, candidates[..n], answers)
  {
    if n == |candidates| {
      assert candidates[..n] == candidates;
    } else {
      var last := |candidates| - 1;
      assert candidates[..last][..n] == candidates[..n];
      AbortEndsPass(d, s, candidates[..last], n, answers);
    }
  }
}
