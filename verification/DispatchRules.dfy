/** Which operations are handed to the broker, how often it is tried, and what the journal then says. */
module DispatchRules {
  import opened Options
  import opened DispatchJournal
  import opened DispatchRuns

  /** The immediate limit is what is set if that is from 1 to 3, else 3; the total limit from 3 to 100, else 12. */
  lemma LimitsExactly(s: Settings)
    ensures s.immediate.Some? && 1 <= s.immediate.value <= 3 ==> ImmediateLimit(s) == s.immediate.value
    ensures s.immediate.None? || s.immediate.value < 1 || 3 < s.immediate.value ==> ImmediateLimit(s) == 3
    ensures s.total.Some? && 3 <= s.total.value <= 100 ==> TotalLimit(s) == s.total.value
    ensures s.total.None? || s.total.value < 3 || 100 < s.total.value ==> TotalLimit(s) == 12
  {
  }

  /** An event of the operation shows that it got somewhere. */
  ghost predicate Shows(journal: Journal, operation: nat, kind: Kind) {
    exists i :: 0 <= i < |journal| && journal[i].operation == operation && journal[i].kind == kind
  }

  /**
   An operation is eligible exactly if it is queued and untouched, was requested, shows no sign of delivery or
   work in the journal, is not locked by another worker, and has attempts left.
   */
  lemma EligibleExactly(d: Desk, s: Settings, operation: nat)
    ensures Eligible(d, s, operation) <==>
            && operation < |d.operations| && operation !in d.locked
            && Shows(d.journal, operation, Requested) && Count(d.journal, operation, Attempted) < TotalLimit(s)
            && !Shows(d.journal, operation, Confirmed) && !Shows(d.journal, operation, Started)
            && !Shows(d.journal, operation, Completed) && !Shows(d.journal, operation, Failed)
            && match d.operations[operation]
               case BackupOperation(queued, _, _, safety, started, durable) => queued && !safety && !started && !durable
               case RestoreOperation(queued, started, linked, rolledBack) =>
                 && queued && !started && !linked && !rolledBack
                 && !Shows(d.journal, operation, WorkerStarted) && !Shows(d.journal, operation, MutationStarted)
                 && !Shows(d.journal, operation, RecoveryRequired)
  {
    hide Count, TotalLimit;
    forall kind
      ensures Shows(d.journal, operation, kind) <==> Event(operation, kind) in d.journal
    {
      if Event(operation, kind) in d.journal {
        var i :| 0 <= i < |d.journal| && d.journal[i] == Event(operation, kind);
      }
    }
    forall evidence: set<Kind>
      ensures NoEvidence(d.journal, operation, evidence) <==> forall kind :: kind in evidence ==> !Shows(d.journal, operation, kind)
    {
      forall e | e in d.journal && e.operation == operation
        ensures e == Event(operation, e.kind) && Shows(d.journal, operation, e.kind)
      {
      }
    }
  }

  // ---- One batch ----

  /** `m` is the first of the attempts `n` to `limit` that the broker does not reject, or one more than the limit. */
  ghost predicate StopsAt(answers: nat -> Publication, n: nat, limit: nat, m: nat) {
    && n <= m <= limit + 1
    && (forall k: nat :: n <= k < m ==> answers(k) == Rejected)
    && (m <= limit ==> answers(m) != Rejected)
  }

  function Tries(operation: nat, n: nat): seq<Event> {
    seq(n, _ => Event(operation, Attempted))
  }

  lemma {:induction false} BatchExactly(j: Journal, p: seq<nat>, operation: nat, n: nat, limit: nat, answers: nat -> Publication, redispatch: bool) returns (m: nat)
    requires 1 <= n <= limit + 1
    ensures StopsAt(answers, n, limit, m)
    ensures var (j', p', delivery) := Attempts(j, p, operation, n, limit, answers, redispatch);
            var made := (if m <= limit then m else limit) - n + 1;
            && p' == p + seq(made, _ => operation)
            && if m > limit then delivery == Delivery(false, limit) && j' == j + Tries(operation, made) + [Event(operation, DeliveryFailed)]
               else if answers(m) == Interrupted then delivery == Aborted && j' == j + Tries(operation, made)
               else
                 && delivery == Delivery(true, m)
                 && j' == j + Tries(operation, made) + [Event(operation, Confirmed)] + (if redispatch then [Event(operation, Redispatched)] else [])
    decreases limit + 1 - n
  {
    if n > limit {
      m := n;
      assert j + Tries(operation, 0) == j && p + seq(0, _ => operation) == p;
    } else if answers(n) != Rejected {
      m := n;
      assert Tries(operation, 1) == [Event(operation, Attempted)] && seq(1, _ => operation) == [operation];
    } else {
      var attempted, called := j + [Event(operation, Attempted)], p + [operation];
      m := BatchExactly(attempted, called, operation, n + 1, limit, answers, redispatch);
      var made := (if m <= limit then m else limit) - n;
      assert attempted + Tries(operation, made) == j + Tries(operation, made + 1);
      assert called + seq(made, _ => operation) == p + seq(made + 1, _ => operation);
    }
  }

  /** A dispatch does nothing without a queued operation and attempts left; else it tries until the first answer that is no rejection. */
  lemma DispatchesExactly(d: Desk, s: Settings, operation: nat, answers: nat -> Publication, redispatch: bool) returns (m: nat)
    ensures var (d', delivery) := Dispatch(d, s, operation, answers, redispatch);
            var left := TotalLimit(s) - Count(d.journal, operation, Attempted);
            var limit := if left < ImmediateLimit(s) then left else ImmediateLimit(s);
            && d' == d.(journal := d'.journal, published := d'.published)
            && if operation >= |d.operations| || !d.operations[operation].queued || left <= 0 then d' == d && delivery == Delivery(false, 0)
               else
                 && limit >= 1 && StopsAt(answers, 1, limit, m)
                 && d'.published == d.published + seq(if m <= limit then m else limit, _ => operation)
                 && if m > limit then delivery == Delivery(false, limit) && d'.journal == d.journal + Tries(operation, limit) + [Event(operation, DeliveryFailed)]
                    else if answers(m) == Interrupted then delivery == Aborted && d'.journal == d.journal + Tries(operation, m)
                    else
                      && delivery == Delivery(true, m)
                      && d'.journal == d.journal + Tries(operation, m) + [Event(operation, Confirmed)]
                                       + (if redispatch then [Event(operation, Redispatched)] else [])
  {
    m := 0;
    hide Count, Attempts;
    var limit := BatchLimit(s, Count(d.journal, operation, Attempted));
    if operation < |d.operations| && d.operations[operation].queued && limit > 0 {
      m := BatchExactly(d.journal, d.published, operation, 1, limit, answers, redispatch);
    }
  }

  // ---- Reconciling delivers what is eligible ----

  lemma OthersStayEligible(d: Desk, s: Settings, candidate: nat, operation: nat, answers: nat -> Publication)
    requires Bounded(d, s) && Eligible(d, s, operation) && candidate != operation
    ensures Eligible(Dispatch(d, s, candidate, answers, true).0, s, operation)
  {
    var d' := Dispatch(d, s, candidate, answers, true).0;
    DispatchKeepsBounded(d, s, candidate, answers, true);
    var limit := BatchLimit(s, Count(d.journal, candidate, Attempted));
    if candidate < |d.operations| && limit > 0 {
      AttemptsStayOnOperation(d.journal, d.published, candidate, 1, limit, answers, true);
    }
    assert Event(operation, Requested) in d'.journal;
    assert Count(d'.journal, operation, Attempted) == Count(d.journal, operation, Attempted);
  }

  /** The operation is still eligible, or the pass has called the publisher for it. */
  ghost predicate WaitsOrTried(d: Desk, d': Desk, s: Settings, operation: nat) {
    Eligible(d', s, operation) || Calls(d'.published, operation) > Calls(d.published, operation)
  }

  lemma CandidateKeepsWaiting(d: Desk, before: Desk, s: Settings, candidate: nat, operation: nat, answers: nat -> Publication)
    requires Bounded(before, s) && WaitsOrTried(d, before, s, operation) && Eligible(before, s, candidate)
    requires Calls(before.published, operation) >= Calls(d.published, operation)
    ensures var after := Dispatch(before, s, candidate, answers, true).0;
            && WaitsOrTried(d, after, s, operation) && Calls(after.published, operation) >= Calls(before.published, operation)
            && (candidate == operation ==> Calls(after.published, operation) > Calls(d.published, operation))
  {
    DispatchKeepsBounded(before, s, candidate, answers, true);
    var after := Dispatch(before, s, candidate, answers, true).0;
    assert Calls(after.published, candidate) > Calls(before.published, candidate);
    if candidate != operation && Eligible(before, s, operation) {
      OthersStayEligible(before, s, candidate, operation, answers);
    }
  }

  lemma {:induction false} PassKeepsWaiting(d: Desk, s: Settings, candidates: seq<nat>, answers: (nat, nat) -> Publication, operation: nat)
    requires Bounded(d, s) && Eligible(d, s, operation)
    ensures var (d', tally) := Reconcile(d, s, candidates, answers);
            && WaitsOrTried(d, d', s, operation) && Calls(d'.published, operation) >= Calls(d.published, operation)
            && (!tally.aborted && operation in candidates ==> Calls(d'.published, operation) > Calls(d.published, operation))
  {
    if candidates != [] {
      hide Bounded, Eligible, Calls;
      var n := |candidates| - 1;
      PassKeepsWaiting(d, s, candidates[..n], answers, operation);
      var (before, tally) := Reconcile(d, s, candidates[..n], answers);
      LastCandidate(candidates, operation);
      if tally.aborted || !Eligible(before, s, candidates[n]) {
        SkippedCandidate(d, s, candidates, answers);
      } else {
        ReconcileKeepsBounded(d, s, candidates[..n], answers);
        TakenCandidate(d, s, candidates, answers);
        hide Reconcile, Dispatch;
        CandidateKeepsWaiting(d, before, s, candidates[n], operation, AnswersTo(answers, n));
      }
    }
  }

  lemma LastCandidate(candidates: seq<nat>, operation: nat)
    requires candidates != []
    ensures operation in candidates <==> operation in candidates[..|candidates| - 1] || operation == candidates[|candidates| - 1]
  {
    assert candidates == candidates[..|candidates| - 1] + [candidates[|candidates| - 1]];
  }

  lemma SkippedCandidate(d: Desk, s: Settings, candidates: seq<nat>, answers: (nat, nat) -> Publication)
    requires candidates != []
    requires var (before, tally) := Reconcile(d, s, candidates[..|candidates| - 1], answers);
             tally.aborted || !Eligible(before, s, candidates[|candidates| - 1])
    ensures Reconcile(d, s, candidates, answers) == Reconcile(d, s, candidates[..|candidates| - 1], answers)
  {
    hide Eligible, Dispatch;
  }

  lemma TakenCandidate(d: Desk, s: Settings, candidates: seq<nat>, answers: (nat, nat) -> Publication)
    requires candidates != []
    requires var (before, tally) := Reconcile(d, s, candidates[..|candidates| - 1], answers);
             !tally.aborted && Eligible(before, s, candidates[|candidates| - 1])
    ensures var n := |candidates| - 1;
            Reconcile(d, s, candidates, answers).0
            == Dispatch(Reconcile(d, s, candidates[..n], answers).0, s, candidates[n], AnswersTo(answers, n), true).0
  {
    hide Eligible, Dispatch;
  }

  /** A pass that is not interrupted calls the publisher for every operation that was eligible when it began and is among its candidates. */
  lemma PassTriesEveryEligible(d: Desk, s: Settings, candidates: seq<nat>, answers: (nat, nat) -> Publication, operation: nat)
    requires Bounded(d, s) && Eligible(d, s, operation) && operation in candidates
    requires !Reconcile(d, s, candidates, answers).1.aborted
    ensures Calls(Reconcile(d, s, candidates, answers).0.published, operation) > Calls(d.published, operation)
  {
    hide Bounded, Eligible, Reconcile;
    PassKeepsWaiting(d, s, candidates, answers, operation);
  }

  // ---- Owner requests ----

  /** A manual backup is refused exactly while a backup is queued or running, or one was stored under its key; else its row and intent are new. */
  lemma ManualBackupsExactly(d: Desk, s: Settings, key: nat, answers: nat -> Publication)
    ensures var (d', reply) := RequestBackup(d, s, key, answers);
            var op := |d.operations|;
            && (reply == RequestRefused <==>
                  exists i :: 0 <= i < op && d.operations[i].BackupOperation?
                              && (d.operations[i].queued || d.operations[i].running || d.operations[i].key == key))
            && (reply == RequestRefused ==> d' == d)
            && (reply != RequestRefused ==>
                  && |d'.operations| == op + 1 && d.operations <= d'.operations
                  && d'.operations[op] == BackupOperation(true, false, key, false, false, false)
                  && d.journal + [Event(op, Note), Event(op, Requested)] <= d'.journal)
  {
    var requested := d.(operations := d.operations + [NewBackup(key)], journal := d.journal + [Event(|d.operations|, Note), Event(|d.operations|, Requested)]);
    var m := DispatchesExactly(requested, s, |d.operations|, answers, false);
    hide Dispatch;
  }

  /** A restore is delivered once: first refused unless queued, then answered from the journal. */
  lemma RestoreDeliveriesExactly(d: Desk, s: Settings, operation: nat, answers: nat -> Publication)
    requires operation < |d.operations|
    ensures var (d', reply) := RequestRestore(d, s, operation, answers);
            if Shows(d.journal, operation, Requested) then
              d' == d && reply == if Shows(d.journal, operation, DeliveryFailed) && !Shows(d.journal, operation, Confirmed) then Delayed else Nothing
            else if !d.operations[operation].queued then d' == d && reply == RequestRefused
            else d.journal + [Event(operation, Requested)] <= d'.journal && reply != RequestRefused && reply != Nothing
  {
    forall kind
      ensures Shows(d.journal, operation, kind) <==> Event(operation, kind) in d.journal
    {
      if Event(operation, kind) in d.journal {
        var i :| 0 <= i < |d.journal| && d.journal[i] == Event(operation, kind);
      }
    }
    var m := DispatchesExactly(d.(journal := d.journal + [Event(operation, Requested)]), s, operation, answers, false);
    hide Dispatch;
  }

  /** An attempt was confirmed: sent. None was within the limit: delayed. The broker call did not return: interrupted. */
  ghost predicate Answers(answers: nat -> Publication, limit: nat, reply: Request) {
    && (reply == Sent <==> exists m: nat :: m <= limit && StopsAt(answers, 1, limit, m) && answers(m) == Accepted)
    && (reply == Interruption <==> exists m: nat :: m <= limit && StopsAt(answers, 1, limit, m) && answers(m) == Interrupted)
    && (reply == Delayed <==> forall k: nat :: 1 <= k <= limit ==> answers(k) == Rejected)
  }

  lemma StopsOnce(answers: nat -> Publication, limit: nat, m: nat, m': nat)
    requires StopsAt(answers, 1, limit, m) && StopsAt(answers, 1, limit, m')
    ensures m == m'
  {
    assert !(m < m') && !(m' < m);
  }

  lemma DeliveryAnswers(d: Desk, s: Settings, operation: nat, answers: nat -> Publication)
    requires operation < |d.operations| && d.operations[operation].queued && Count(d.journal, operation, Attempted) < TotalLimit(s)
    ensures Answers(answers, BatchLimit(s, Count(d.journal, operation, Attempted)), Reply(Dispatch(d, s, operation, answers, false).1))
  {
    var limit := BatchLimit(s, Count(d.journal, operation, Attempted));
    var m := DispatchesExactly(d, s, operation, answers, false);
    hide Dispatch, Count;
    forall other: nat | StopsAt(answers, 1, limit, other)
      ensures other == m
    {
      StopsOnce(answers, limit, m, other);
    }
  }

  lemma {:induction false} NothingCounted(journal: Journal, operation: nat, kind: Kind)
    requires forall e :: e in journal ==> e.operation != operation
    ensures Count(journal, operation, kind) == 0
  {
    if journal != [] {
      assert journal[0] in journal;
      NothingCounted(journal[1..], operation, kind);
    }
  }

  /** The owner learns what became of the first batch for a new manual backup, which is never short of attempts. */
  lemma ManualRepliesExactly(d: Desk, s: Settings, key: nat, answers: nat -> Publication)
    requires forall e :: e in d.journal ==> e.operation < |d.operations|
    requires RequestBackup(d, s, key, answers).1 != RequestRefused
    ensures Answers(answers, ImmediateLimit(s), RequestBackup(d, s, key, answers).1)
  {
    var operation := |d.operations|;
    var requested := d.(operations := d.operations + [NewBackup(key)], journal := d.journal + [Event(operation, Note), Event(operation, Requested)]);
    NothingCounted(d.journal, operation, Attempted);
    CountAppendOne(d.journal, Event(operation, Note), operation, Attempted);
    CountAppendOne(d.journal + [Event(operation, Note)], Event(operation, Requested), operation, Attempted);
    assert d.journal + [Event(operation, Note)] + [Event(operation, Requested)] == requested.journal;
    hide Count, Answers, Dispatch;
    DeliveryAnswers(requested, s, operation, answers);
  }
}
