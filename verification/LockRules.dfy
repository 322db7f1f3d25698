/** What a lock promises its holder: it is kept alive as long as it was asked for, and keeps everyone else out. */
module LockRules {
  import opened Options
  import opened TenantLocks

  /** The lock with this token protects the business at least until `until`, whatever time before that is looked at. */
  ghost predicate HeldUntil(t: Table, i: nat, business: Business, token: Token, until: int) {
    && i < |t| && t[i].business == business && t[i].token == token && t[i].active && until <= t[i].leaseExpiresAt
    && forall at :: at < until ==> Held(t[i], at)
  }

  /** An acquisition gives its caller a new lock for the whole lease. */
  lemma AcquiringHoldsForLease(t: Table, business: Business, operation: nat, token: Token, now: int, lease: int)
    requires Acquire(t, business, operation, token, now, lease).1.Acquired?
    ensures var (after, outcome) := Acquire(t, business, operation, token, now, lease);
            && outcome.index == |t| && |after| == |t| + 1
            && HeldUntil(after, |t|, business, token, now + lease)
            && after[|t|].acquiredAt == now && after[|t|].leaseExpiresAt == now + lease && after[|t|].operation == operation
            && (forall at :: now <= at < now + lease <==> after[|t|].acquiredAt <= at && Held(after[|t|], at))
  {
  }

  /** Other locks only change when the business's own lease has lapsed: they are then closed at this moment. */
  lemma AcquiringTouchesOnlyLapsed(t: Table, business: Business, operation: nat, token: Token, now: int, lease: int, i: nat)
    requires i < |t| && Acquire(t, business, operation, token, now, lease).1.Acquired?
    ensures var after := Acquire(t, business, operation, token, now, lease).0;
            if t[i].business == business && t[i].active then
              t[i].leaseExpiresAt <= now && after[i] == t[i].(active := false, releasedAt := Some(now))
            else after[i] == t[i]
  {
    assert t[i].business == business && t[i].active ==> !ExpireAll(t, business, now)[i].active;
  }

  /** A heartbeat is answered alive exactly for the own token on an active, unexpired lock, and then sets the lease anew from now. */
  lemma HeartbeatsExactly(t: Table, index: nat, token: Token, now: int, lease: int)
    ensures var (after, beat) := Heartbeat(t, index, token, now, lease);
            && (beat == InvalidLease <==> !(1 <= lease <= 86400))
            && (beat == Alive <==> 1 <= lease <= 86400 && index < |t| && t[index].token == token && t[index].active && now < t[index].leaseExpiresAt)
            && (beat == Alive ==>
                  && HeldUntil(after, index, t[index].business, token, now + lease)
                  && after == t[index := t[index].(heartbeatAt := now, leaseExpiresAt := now + lease)])
            && (beat != Alive ==> after == t)
  {
  }

  /** A release succeeds exactly for the own token on an active lock, and ends it now. */
  lemma ReleasesExactly(t: Table, index: nat, token: Token, now: int)
    ensures var (after, released) := Release(t, index, token, now);
            && (released <==> index < |t| && t[index].token == token && t[index].active)
            && (released ==> after == t[index := t[index].(active := false, releasedAt := Some(now))] && forall at :: !Held(after[index], at))
            && (!released ==> after == t)
  {
  }

  /** A call that neither releases lock `i` with its token nor asks for less than `until` in its name. */
  predicate LeavesAlone(c: Call, i: nat, token: Token, until: int) {
    && c.now < until
    && (c.ReleaseCall? ==> c.index != i || c.token != token)
    && (c.HeartbeatCall? && c.index == i && c.token == token ==> until <= c.now + c.lease || !(1 <= c.lease <= 86400))
  }

  lemma OneCallLeavesHeld(t: Table, c: Call, i: nat, business: Business, token: Token, until: int)
    requires HeldUntil(t, i, business, token, until) && LeavesAlone(c, i, token, until)
    ensures HeldUntil(Apply(t, c), i, business, token, until)
  {
  }

  /** Until then the lock stays held through any calls of anybody, unless released with its own token. */
  lemma {:induction false} HeldThroughCalls(t: Table, calls: seq<Call>, i: nat, business: Business, token: Token, until: int)
    requires HeldUntil(t, i, business, token, until)
    requires forall c :: c in calls ==> LeavesAlone(c, i, token, until)
    ensures HeldUntil(ReplayFrom(t, calls), i, business, token, until)
  {
    hide HeldUntil, LeavesAlone, Apply;
    if calls != [] {
      var n := |calls| - 1;
      HeldThroughCalls(t, calls[..n], i, business, token, until);
      OneCallLeavesHeld(ReplayFrom(t, calls[..n]), calls[n], i, business, token, until);
    }
  }

  /** And as long as it is held nobody acquires the business. */
  lemma HeldKeepsOthersOut(t: Table, i: nat, business: Business, token: Token, until: int, operation: nat, other: Token, now: int, lease: int)
    requires HeldUntil(t, i, business, token, until) && now < until && 1 <= lease <= 86400
    ensures Acquire(t, business, operation, other, now, lease) == (t, Locked)
  {
    assert ExpireAll(t, business, now)[i] == t[i];
    assert ActiveExists(ExpireAll(t, business, now), business);
  }

  /** A lease that is not from one second to a day is refused before anything is looked at. */
  lemma AcquiresOnlyForALease(t: Table, business: Business, operation: nat, token: Token, now: int, lease: int)
    ensures Acquire(t, business, operation, token, now, lease).1 == BadLease <==> !(1 <= lease <= 86400)
    ensures Acquire(t, business, operation, token, now, lease).1 == BadLease ==> Acquire(t, business, operation, token, now, lease).0 == t
  {
  }

  /**
   A worker that acquired the business, or last got an alive heartbeat, at `now` for `lease` seconds
   keeps everyone out until then: no acquisition by anyone in between succeeds.
   */
  lemma HolderKeepsOthersOut(t: Table, index: nat, token: Token, now: int, lease: int, calls: seq<Call>, operation: nat, other: Token, later: int, wanted: int)
    requires Heartbeat(t, index, token, now, lease).1 == Alive
    requires forall c :: c in calls ==> LeavesAlone(c, index, token, now + lease)
    requires later < now + lease && 1 <= wanted <= 86400
    ensures var after := ReplayFrom(Heartbeat(t, index, token, now, lease).0, calls);
            Acquire(after, t[index].business, operation, other, later, wanted) == (after, Locked)
  {
    HeartbeatsExactly(t, index, token, now, lease);
    hide HeldUntil, LeavesAlone, Heartbeat, Acquire;
    var alive := Heartbeat(t, index, token, now, lease).0;
    HeldThroughCalls(alive, calls, index, t[index].business, token, now + lease);
    HeldKeepsOthersOut(ReplayFrom(alive, calls), index, t[index].business, token, now + lease, operation, other, later, wanted);
  }

  lemma AcquirerKeepsOthersOut(t: Table, business: Business, mine: nat, token: Token, now: int, lease: int, calls: seq<Call>, operation: nat, other: Token, later: int, wanted: int)
    requires Acquire(t, business, mine, token, now, lease).1.Acquired?
    requires forall c :: c in calls ==> LeavesAlone(c, |t|, token, now + lease)
    requires later < now + lease && 1 <= wanted <= 86400
    ensures var after := ReplayFrom(Acquire(t, business, mine, token, now, lease).0, calls);
            Acquire(after, business, operation, other, later, wanted) == (after, Locked)
  {
    AcquiringHoldsForLease(t, business, mine, token, now, lease);
    hide HeldUntil, LeavesAlone, Acquire;
    var mineHeld := Acquire(t, business, mine, token, now, lease).0;
    HeldThroughCalls(mineHeld, calls, |t|, business, token, now + lease);
    HeldKeepsOthersOut(ReplayFrom(mineHeld, calls), |t|, business, token, now + lease, operation, other, later, wanted);
  }
}
