/**
 Lease locks: at most one exclusive operation of a business at any time.

 The table is append-only apart from the columns a service updates. Times are integers in
 seconds; a lease is whole seconds, as the services demand.
 */
module TenantLocks {
  import opened Options

  const MIN_LEASE := 1
  const MAX_LEASE := 86400

  type Business = nat
  type Token = nat

  datatype Lock = Lock(
    business: Business,
    operation: nat,
    token: Token,
    acquiredAt: int,
    leaseExpiresAt: int,
    heartbeatAt: int,
    releasedAt: Option<int>,
    active: bool)

  type Table = seq<Lock>

  predicate ValidLease(seconds: int) {
    MIN_LEASE <= seconds <= MAX_LEASE
  }

  /** The lock protects its holder at `now`. */
  predicate Held(l: Lock, now: int) {
    l.active && now < l.leaseExpiresAt
  }

  // ---- The service calls as functions of the table ----

  function Expire(l: Lock, business: Business, now: int): Lock {
    if l.business == business && l.active && l.leaseExpiresAt <= now
    then l.(active := false, releasedAt := Some(now))
    else l
  }

  function ExpireAll(t: Table, business: Business, now: int): Table {
    seq(|t|, i requires 0 <= i < |t| => Expire(t[i], business, now))
  }

  predicate ActiveExists(t: Table, business: Business) {
    exists i :: 0 <= i < |t| && t[i].business == business && t[i].active
  }

  function NewLock(business: Business, operation: nat, token: Token, now: int, lease: int): Lock {
    Lock(business, operation, token, now, now + lease, now, None, true)
  }

  datatype Acquisition = Acquired(index: nat) | Locked | BadLease

  function Acquire(t: Table, business: Business, operation: nat, token: Token, now: int, lease: int): (Table, Acquisition) {
    if !ValidLease(lease) then (t, BadLease)
    else if ActiveExists(ExpireAll(t, business, now), business) then (t, Locked)
    else (ExpireAll(t, business, now) + [NewLock(business, operation, token, now, lease)], Acquired(|t|))
  }

  predicate Beats(l: Lock, token: Token, now: int) {
    l.token == token && l.active && now < l.leaseExpiresAt
  }

  datatype Beat = Alive | Lost | InvalidLease

  function Heartbeat(t: Table, index: nat, token: Token, now: int, lease: int): (Table, Beat) {
    if !ValidLease(lease) then (t, InvalidLease)
    else if index < |t| && Beats(t[index], token, now)
    then (t[index := t[index].(heartbeatAt := now, leaseExpiresAt := now + lease)], Alive)
    else (t, Lost)
  }

  function Release(t: Table, index: nat, token: Token, now: int): (Table, bool) {
    if index < |t| && t[index].token == token && t[index].active
    then (t[index := t[index].(active := false, releasedAt := Some(now))], true)
    else (t, false)
  }

  // ---- The table the services update ----

  class LockTable {
    var rows: Table

    constructor ()
      ensures rows == []
    {
      rows := [];
    }

    /** The bulk update that closes the expired leases of the business. */
    method ExpireLeases(business: Business, now: int)
      modifies this
      ensures rows == ExpireAll(old(rows), business, now)
    {
      ghost var before := rows;
      for i := 0 to |rows|
        invariant |rows| == |before|
        invariant forall j :: 0 <= j < i ==> rows[j] == Expire(before[j], business, now)
        invariant forall j :: i <= j < |rows| ==> rows[j] == before[j]
      {
        var row := rows[i];
        if row.business == business && row.active && row.leaseExpiresAt <= now {
          rows := rows[i := row.(active := false, releasedAt := Some(now))];
        }
      }
    }

    /** One transaction: expire, insert under the unique-active constraint, roll back on conflict. */
    method AcquireTenantOperationLock(business: Business, operation: nat, token: Token, now: int, lease: int)
      returns (outcome: Acquisition)
      modifies this
      ensures (rows, outcome) == Acquire(old(rows), business, operation, token, now, lease)
    {
      if !ValidLease(lease) {
        return BadLease;
      }
      var savepoint := rows;
      ExpireLeases(business, now);
      if ActiveExists(rows, business) {
        rows := savepoint;
        return Locked;
      }
      rows := rows + [NewLock(business, operation, token, now, lease)];
      return Acquired(|rows| - 1);
    }

    method HeartbeatTenantOperationLock(index: nat, token: Token, now: int, lease: int) returns (beat: Beat)
      modifies this
      ensures (rows, beat) == Heartbeat(old(rows), index, token, now, lease)
    {
      if !ValidLease(lease) {
        return InvalidLease;
      }
      if |rows| <= index || !Beats(rows[index], token, now) {
        return Lost;
      }
      rows := rows[index := rows[index].(heartbeatAt := now, leaseExpiresAt := now + lease)];
      return Alive;
    }

    method ReleaseTenantOperationLock(index: nat, token: Token, now: int) returns (released: bool)
      modifies this
      ensures (rows, released) == Release(old(rows), index, token, now)
    {
      released := index < |rows| && rows[index].token == token && rows[index].active;
      if released {
        rows := rows[index := rows[index].(active := false, releasedAt := Some(now))];
      }
    }
  }

  // ---- Histories ----

  datatype Call =
    | AcquireCall(business: Business, operation: nat, token: Token, now: int, lease: int)
    | HeartbeatCall(index: nat, token: Token, now: int, lease: int)
    | ReleaseCall(index: nat, token: Token, now: int)

  function Apply(t: Table, c: Call): Table {
    match c
    case AcquireCall(business, operation, token, now, lease) => Acquire(t, business, operation, token, now, lease).0
    case HeartbeatCall(index, token, now, lease) => Heartbeat(t, index, token, now, lease).0
    case ReleaseCall(index, token, now) => Release(t, index, token, now).0
  }

  function History(calls: seq<Call>): Table {
    if calls == [] then [] else Apply(History(calls[..|calls| - 1]), calls[|calls| - 1])
  }

  /** The clock of a history never goes back. */
  ghost predicate Timely(calls: seq<Call>) {
    forall i, j :: 0 <= i < j < |calls| ==> calls[i].now <= calls[j].now
  }

  function End(l: Lock): int {
    if l.releasedAt.Some? && l.releasedAt.value < l.leaseExpiresAt then l.releasedAt.value else l.leaseExpiresAt
  }

  ghost predicate WellFormed(l: Lock, clock: int) {
    && l.acquiredAt < l.leaseExpiresAt && l.acquiredAt <= clock
    && (l.active <==> l.releasedAt.None?)
    && (l.releasedAt.Some? ==> l.acquiredAt <= l.releasedAt.value <= clock)
  }

  /** Locks of one business succeed one another: a later lock starts after an earlier one ended. */
  ghost predicate Successive(t: Table) {
    forall i, j :: 0 <= i < j < |t| && t[i].business == t[j].business ==> !t[i].active && End(t[i]) <= t[j].acquiredAt
  }

  ghost predicate Consistent(t: Table, clock: int) {
    Successive(t) && forall i :: 0 <= i < |t| ==> WellFormed(t[i], clock)
  }

  lemma ApplyKeepsConsistent(t: Table, clock: int, c: Call)
    requires Consistent(t, clock) && clock <= c.now
    ensures Consistent(Apply(t, c), c.now)
  {
  }

  lemma {:induction false} HistoryIsConsistent(calls: seq<Call>, clock: int)
    requires Timely(calls) && forall i :: 0 <= i < |calls| ==> calls[i].now <= clock
    ensures Consistent(History(calls), clock)
  {
    if calls != [] {
      var n := |calls| - 1;
      HistoryIsConsistent(calls[..n], calls[n].now);
      ApplyKeepsConsistent(History(calls[..n]), calls[n].now, calls[n]);
    }
  }

  // ---- Exactly which calls keep the order ----

  /** What can be read before acquiring: every inactive lock of the business has ended by `now`. */
  ghost predicate Ended(t: Table, business: Business, now: int) {
    forall i :: 0 <= i < |t| && t[i].business == business && !t[i].active ==> End(t[i]) <= now
  }

  /** An active lock is the last one of its business. */
  ghost predicate ActiveIsLast(t: Table) {
    forall i, j :: 0 <= i < j < |t| && t[i].business == t[j].business ==> !t[i].active
  }

  /** Whatever the clocks say, an acquisition that succeeds keeps the locks successive exactly if the earlier ones have ended. */
  lemma AcquireKeepsOrderExactly(t: Table, business: Business, operation: nat, token: Token, now: int, lease: int)
    requires Successive(t) && Acquire(t, business, operation, token, now, lease).1.Acquired?
    ensures Successive(Acquire(t, business, operation, token, now, lease).0) <==> Ended(t, business, now)
  {
    var after := Acquire(t, business, operation, token, now, lease).0;
    forall i | 0 <= i < |t|
      ensures after[i] == Expire(t[i], business, now)
      ensures t[i].business == business ==> !after[i].active && (End(after[i]) <= now <==> t[i].active || End(t[i]) <= now)
    {
      assert t[i].business == business ==> !ExpireAll(t, business, now)[i].active;
    }
    assert after[|t|].business == business && after[|t|].acquiredAt == now;
  }

  /** Heartbeats and releases keep the order under any clock, and so does a refused acquisition. */
  lemma OtherCallsKeepOrder(t: Table, c: Call)
    requires Successive(t)
    requires c.AcquireCall? ==> !Acquire(t, c.business, c.operation, c.token, c.now, c.lease).1.Acquired?
    ensures Successive(Apply(t, c))
  {
  }

  ghost predicate AcquiresInOrder(t: Table, c: Call) {
    c.AcquireCall? && Acquire(t, c.business, c.operation, c.token, c.now, c.lease).1.Acquired? ==> Ended(t, c.business, c.now)
  }

  /** Every acquisition of the history comes after the earlier locks of its own business have ended. */
  ghost predicate InOrder(calls: seq<Call>) {
    forall n :: 0 <= n < |calls| ==> AcquiresInOrder(History(calls[..n]), calls[n])
  }

  lemma ApplyKeepsActiveLast(t: Table, c: Call)
    requires ActiveIsLast(t)
    ensures ActiveIsLast(Apply(t, c))
    ensures Successive(Apply(t, c)) ==> Successive(t)
  {
    var t' := Apply(t, c);
    assert |t| <= |t'| && forall i :: 0 <= i < |t| ==>
      t'[i].business == t[i].business && t'[i].acquiredAt == t[i].acquiredAt && (!t[i].active ==> t'[i] == t[i]);
    if c.AcquireCall? && |t'| > |t| {
      assert forall i :: 0 <= i < |t| && t[i].business == c.business ==> !ExpireAll(t, c.business, c.now)[i].active;
    }
  }

  /** In every history, whatever its clocks, an active lock is the last one of its business. */
  lemma {:induction false} HistoryKeepsActiveLast(calls: seq<Call>)
    ensures ActiveIsLast(History(calls))
  {
    if calls != [] {
      HistoryKeepsActiveLast(calls[..|calls| - 1]);
      ApplyKeepsActiveLast(History(calls[..|calls| - 1]), calls[|calls| - 1]);
    }
  }

  /** The locks of a history succeed one another exactly if each was acquired after the earlier ones had ended. */
  lemma {:induction false} HistoryIsSuccessiveExactly(calls: seq<Call>)
    ensures Successive(History(calls)) <==> InOrder(calls)
  {
    if calls != [] {
      var n, c := |calls| - 1, calls[|calls| - 1];
      var before := History(calls[..n]);
      HistoryIsSuccessiveExactly(calls[..n]);
      HistoryKeepsActiveLast(calls[..n]);
      ApplyKeepsActiveLast(before, c);
      assert InOrder(calls) <==> InOrder(calls[..n]) && AcquiresInOrder(before, c) by {
        PrefixInOrder(calls);
      }
      hide Successive, InOrder, Ended, ActiveIsLast, Apply;
      if Successive(before) {
        StepInOrder(before, c);
      }
    }
  }

  lemma StepInOrder(t: Table, c: Call)
    requires Successive(t)
    ensures Successive(Apply(t, c)) <==> AcquiresInOrder(t, c)
  {
    if c.AcquireCall? && Acquire(t, c.business, c.operation, c.token, c.now, c.lease).1.Acquired? {
      AcquireKeepsOrderExactly(t, c.business, c.operation, c.token, c.now, c.lease);
    } else {
      OtherCallsKeepOrder(t, c);
    }
  }

  lemma PrefixInOrder(calls: seq<Call>)
    requires calls != []
    ensures var n := |calls| - 1; InOrder(calls) <==> InOrder(calls[..n]) && AcquiresInOrder(History(calls[..n]), calls[n])
  {
    hide AcquiresInOrder, History;
    var n := |calls| - 1;
    assert forall k :: 0 <= k < n ==> calls[..n][..k] == calls[..k] && calls[..n][k] == calls[k];
  }

  /** A clock that never goes back is enough. */
  lemma {:induction false} TimelyIsInOrder(calls: seq<Call>)
    requires Timely(calls)
    ensures InOrder(calls)
  {
    forall n | 0 <= n < |calls|
      ensures AcquiresInOrder(History(calls[..n]), calls[n])
    {
      HistoryIsConsistent(calls[..n], calls[n].now);
    }
  }

  predicate During(l: Lock, at: int) {
    l.acquiredAt <= at < End(l)
  }

  /** In every history acquired in order the validity intervals of two locks of one business are disjoint. */
  lemma IntervalsAreDisjoint(calls: seq<Call>, i: nat, j: nat, at: int)
    requires InOrder(calls) && i < |History(calls)| && j < |History(calls)| && i != j
    requires History(calls)[i].business == History(calls)[j].business
    ensures !(During(History(calls)[i], at) && During(History(calls)[j], at))
  {
    HistoryIsSuccessiveExactly(calls);
  }

  /** An acquisition while an earlier lock's interval still runs makes two intervals share that very moment. */
  lemma AcquiringTooEarlyOverlaps(t: Table, i: nat, business: Business, operation: nat, token: Token, now: int, lease: int)
    requires i < |t| && t[i].business == business && !t[i].active && During(t[i], now)
    requires Acquire(t, business, operation, token, now, lease).1.Acquired?
    ensures var after := Acquire(t, business, operation, token, now, lease).0;
            During(after[i], now) && During(after[|t|], now) && !Ended(t, business, now)
  {
  }

  /** At no time do two locks protect the same business, whatever the clocks of the calls. */
  lemma AtMostOneHeld(calls: seq<Call>, i: nat, j: nat, now: int)
    requires i < |History(calls)| && j < |History(calls)|
    requires History(calls)[i].business == History(calls)[j].business
    requires Held(History(calls)[i], now) && Held(History(calls)[j], now)
    ensures i == j
  {
    HistoryKeepsActiveLast(calls);
  }

  /** Two of the declared constraints hold in every history, the third in those whose clock does not go back. */
  lemma DatabaseConstraintsHold(calls: seq<Call>)
    ensures forall i, j :: 0 <= i < j < |History(calls)| && History(calls)[i].active && History(calls)[j].active ==>
                             History(calls)[i].business != History(calls)[j].business
    ensures forall i :: 0 <= i < |History(calls)| && History(calls)[i].active ==> History(calls)[i].releasedAt.None?
    ensures Timely(calls) ==> forall i :: 0 <= i < |History(calls)| ==> History(calls)[i].acquiredAt < History(calls)[i].leaseExpiresAt
  {
    HistoryKeepsActiveLast(calls);
    ActiveIsNotReleased(calls);
    if Timely(calls) && calls != [] {
      HistoryIsConsistent(calls, calls[|calls| - 1].now);
    }
  }

  lemma {:induction false} ActiveIsNotReleased(calls: seq<Call>)
    ensures forall i :: 0 <= i < |History(calls)| && History(calls)[i].active ==> History(calls)[i].releasedAt.None?
  {
    if calls != [] {
      ActiveIsNotReleased(calls[..|calls| - 1]);
    }
  }

  /** Acquiring succeeds exactly when no lock of the business is active and unexpired; a refusal changes nothing. */
  lemma AcquiresExactlyWhenFree(t: Table, business: Business, operation: nat, token: Token, now: int, lease: int)
    requires ValidLease(lease)
    ensures Acquire(t, business, operation, token, now, lease).1.Acquired? <==>
            forall i :: 0 <= i < |t| && t[i].business == business ==> !Held(t[i], now)
    ensures !Acquire(t, business, operation, token, now, lease).1.Acquired? ==>
              Acquire(t, business, operation, token, now, lease).0 == t
  {
    var expired := ExpireAll(t, business, now);
    if ActiveExists(expired, business) {
      var i :| 0 <= i < |expired| && expired[i].business == business && expired[i].active;
      assert Held(t[i], now);
    }
    forall i | 0 <= i < |t| && t[i].business == business && Held(t[i], now)
      ensures ActiveExists(expired, business)
    {
      assert expired[i].active;
    }
  }

  /** No later call revives a lock that was released or whose lease had run out. */
  lemma {:induction false} LapsedLocksStayLapsed(t: Table, calls: seq<Call>, i: nat, clock: int)
    requires i < |t| && !Held(t[i], clock)
    requires forall k :: 0 <= k < |calls| ==> clock <= calls[k].now
    ensures i < |ReplayFrom(t, calls)|
    ensures forall now :: clock <= now ==> !Held(ReplayFrom(t, calls)[i], now)
  {
    if calls != [] {
      LapsedLocksStayLapsed(t, calls[..|calls| - 1], i, clock);
      assert !Held(ReplayFrom(t, calls[..|calls| - 1])[i], calls[|calls| - 1].now);
    }
  }

  function ReplayFrom(t: Table, calls: seq<Call>): Table {
    if calls == [] then t else Apply(ReplayFrom(t, calls[..|calls| - 1]), calls[|calls| - 1])
  }

  /**
   Whenever a lock protected its holder, that time lies in the interval the table finally shows, or is
   its end if a later call bears the very same time.
   */
  lemma {:induction false} HeldMomentsStayInInterval(t: Table, calls: seq<Call>, i: nat, at: int)
    requires i < |t| && Held(t[i], at) && t[i].releasedAt.None? && t[i].acquiredAt <= at
    requires forall k :: 0 <= k < |calls| ==> at <= calls[k].now
    ensures var t' := ReplayFrom(t, calls);
            && i < |t'| && t'[i].business == t[i].business
            && t'[i].acquiredAt <= at <= End(t'[i])
            && (t'[i].active ==> t'[i].releasedAt.None? && at < t'[i].leaseExpiresAt)
            && ((forall k :: 0 <= k < |calls| ==> at < calls[k].now) ==> During(t'[i], at))
  {
    if calls != [] {
      HeldMomentsStayInInterval(t, calls[..|calls| - 1], i, at);
    }
  }

  /** With a clock that goes back, two intervals of one business can overlap. */
  lemma BackwardClockBreaksExclusion()
    ensures var calls := [AcquireCall(7, 1, 1, 100, 10), ReleaseCall(0, 1, 105), AcquireCall(7, 2, 2, 103, 10)];
            && |History(calls)| == 2 && !InOrder(calls)
            && During(History(calls)[0], 104) && During(History(calls)[1], 104)
  {
    var calls := [AcquireCall(7, 1, 1, 100, 10), ReleaseCall(0, 1, 105), AcquireCall(7, 2, 2, 103, 10)];
    assert calls[..2][..1] == [calls[0]] && calls[..2][..1][..0] == [];
    assert History(calls[..2][..1]) == [NewLock(7, 1, 1, 100, 10)];
    assert History(calls[..2]) == [NewLock(7, 1, 1, 100, 10).(active := false, releasedAt := Some(105))];
    var t := History(calls);
    assert |t| == 2 && t[0].business == t[1].business && t[1].acquiredAt < End(t[0]);
    assert !Successive(t);
    HistoryIsSuccessiveExactly(calls);
  }
}
