/**
 The daily schedule row of one business and the claim that turns a due run into a backup.

 A claim is one transaction. Everything that may happen between two claims (the owner saves
 the schedule, a backup ends, another backup is requested) is an event of its own, so that a
 run of the system is any sequence of events.
 */
module ScheduleClaims {
  import opened Options
  import opened DailyOccurrences

  /** Keys of scheduled requests name the local date and the run; other requests never use them. */
  datatype Key = DailyKey(localDate: int, run: int) | OtherKey(id: nat)

  datatype Backup = Backup(key: Key, active: bool)

  datatype ClaimState =
    | Dispatched | AlreadyDispatched | DeferredActive | Future
    | Disabled | Ineligible | Invalid | Initialized

  /** The columns of the row, the backups of the business, and the runs claimed so far. */
  datatype World = World(
    enabled: bool,
    zone: Option<Zone>,
    time: int,
    nextRun: Option<int>,
    lastClaimed: Option<int>,
    backups: seq<Backup>,
    claims: seq<int>)

  predicate ActiveBackupExists(backups: seq<Backup>) {
    exists i :: 0 <= i < |backups| && backups[i].active
  }

  predicate KeyUsed(backups: seq<Backup>, key: Key) {
    exists i :: 0 <= i < |backups| && backups[i].key == key
  }

  /** A time of day whose runs keep up with the dates of the zone: there the searches always find the right run. */
  ghost predicate ValidClock(z: Zone, time: int) {
    0 <= time < DAY && RunsKeepUp(z, time)
  }

  /** A time zone name that is not recognised is None. */
  ghost predicate UsableClock(zone: Option<Zone>, time: int) {
    0 <= time < DAY && (zone.Some? ==> RunsKeepUp(zone.value, time))
  }

  // ---- The runs named by the zone rules ----

  lemma NextRunExists(z: Zone, time: int, after: int)
    requires ValidClock(z, time)
    ensures exists u :: NextRun(z, time, after, u)
  {
    hide ZoneRules, NextRun, Occurrence, NoneUpcoming;
    var date := Date(z.shows(after));
    NoneUpcomingYet(z, time, after, date);
    var u := OccurrenceExists(z, date, time);
    if u <= after {
      PastRunExtends(z, time, after, date, u);
      date := date + 1;
      u := OccurrenceExists(z, date, time);
      OccurrenceAgainstNow(z, time, after, date, u);
    }
    FirstUpcomingIsNext(z, time, after, date, u);
  }

  ghost function NextAfter(z: Zone, time: int, after: int): (u: int)
    requires ValidClock(z, time)
    ensures NextRun(z, time, after, u)
  {
    NextRunExists(z, time, after);
    var u :| NextRun(z, time, after, u);
    u
  }

  lemma LatestRunExists(z: Zone, time: int, now: int)
    requires ValidClock(z, time)
    ensures exists u :: LatestRun(z, time, now, u)
  {
    hide ZoneRules, LatestRun, Occurrence;
    var date := Date(z.shows(now));
    var today := OccurrenceExists(z, date, time);
    if today <= now {
      TodaysRunIsLatest(z, time, now, today);
    } else {
      var u := OccurrenceExists(z, date - 1, time);
      YesterdaysRunIsLatest(z, time, now, today, u);
    }
  }

  ghost function LatestAtOrBefore(z: Zone, time: int, now: int): (u: int)
    requires ValidClock(z, time)
    ensures LatestRun(z, time, now, u)
  {
    LatestRunExists(z, time, now);
    var u :| LatestRun(z, time, now, u);
    u
  }

  ghost function DueRunOf(z: Zone, time: int, nextRun: int, now: int): int
    requires ValidClock(z, time)
  {
    var g := LatestAtOrBefore(z, time, now);
    if g < nextRun then nextRun else g
  }

  // ---- One claim, as a function of the rows ----

  ghost function Advanced(w: World, now: int): World
    requires UsableClock(w.zone, w.time) && w.zone.Some?
  {
    w.(nextRun := Some(NextAfter(w.zone.value, w.time, now)))
  }

  ghost function ClaimedRun(w: World, now: int): (World, ClaimState)
    requires UsableClock(w.zone, w.time) && w.zone.Some? && w.nextRun.Some?
  {
    var due := DueRunOf(w.zone.value, w.time, w.nextRun.value, now);
    var key := DailyKey(Date(w.zone.value.shows(due)), due);
    var w' := Advanced(w, now).(lastClaimed := Some(due), claims := w.claims + [due]);
    if KeyUsed(w.backups, key) then (w', AlreadyDispatched)
    else (w'.(backups := w.backups + [Backup(key, true)]), Dispatched)
  }

  ghost function Claim(w: World, eligible: bool, now: int): (World, ClaimState)
    requires UsableClock(w.zone, w.time)
  {
    if !w.enabled then (w, Disabled)
    else if w.nextRun.None? then
      if w.zone.None? then (w, Invalid) else (Advanced(w, now), Initialized)
    else if now < w.nextRun.value then (w, Future)
    else if w.zone.None? then (w, Invalid)
    else if !eligible then (Advanced(w, now), Ineligible)
    else if ActiveBackupExists(w.backups) then (w, DeferredActive)
    else ClaimedRun(w, now)
  }

  // ---- The row and the transaction that claims it ----

  class ScheduleRow {
    var enabled: bool
    var zone: Option<Zone>
    var time: int
    var nextRun: Option<int>
    var lastClaimed: Option<int>
    var backups: seq<Backup>
    ghost var claims: seq<int>

    ghost function State(): World
      reads this
    {
      World(enabled, zone, time, nextRun, lastClaimed, backups, claims)
    }

    ghost predicate Valid()
      reads this
    {
      UsableClock(zone, time)
    }

    /** False stands for the dispatcher's error, which leaves the row as it was. */
    method AdvanceSchedule(now: int, claimed: Option<int>) returns (ok: bool)
      requires Valid()
      modifies this`nextRun, this`lastClaimed
      ensures ok <==> zone.Some?
      ensures !ok ==> State() == old(State())
      ensures ok ==> nextRun.Some? && NextRun(zone.value, time, now, nextRun.value)
      ensures ok ==> State() == Advanced(old(State()), now).(lastClaimed := if claimed.Some? then claimed else old(lastClaimed))
    {
      if zone.None? {
        return false;
      }
      var next := NextDailyOccurrence(zone.value, time, now);
      if next.None? {
        return false;
      }
      NextRunIsUnique(zone.value, time, now, next.value, NextAfter(zone.value, time, now));
      nextRun := next;
      if claimed.Some? {
        lastClaimed := claimed;
      }
      return true;
    }

    method ClaimDueSchedule(eligible: bool, now: int) returns (outcome: ClaimState)
      requires Valid()
      modifies this
      ensures Valid() && (State(), outcome) == Claim(old(State()), eligible, now)
    {
      assert zone.Some? ==> FoldsCoverInstants(zone.value) && ZoneRules(zone.value) && forall at :: DayIsOver(zone.value, time, at);
      hide RunsKeepUp, ZoneRules, DayIsOver, FoldsCoverInstants, NextRun, LatestRun, Occurrence, Date, DueRunOf, KeyUsed, ActiveBackupExists;
      if !enabled {
        return Disabled;
      }
      if nextRun.None? {
        var advanced := AdvanceSchedule(now, None);
        return if advanced then Initialized else Invalid;
      }
      if now < nextRun.value {
        return Future;
      }
      if zone.None? {
        return Invalid;
      }
      var r := LatestDueOccurrence(zone.value, time, nextRun, now);
      if r.Unresolvable? {
        return Invalid;
      }
      DueIsFunctional(zone.value, time, nextRun.value, now, r.run);
      if !eligible {
        var advanced := AdvanceSchedule(now, None);
        return if advanced then Ineligible else Invalid;
      }
      if ActiveBackupExists(backups) {
        return DeferredActive;
      }
      outcome := ClaimRun(r.run, now);
    }

    method ClaimRun(due: int, now: int) returns (outcome: ClaimState)
      requires Valid() && zone.Some? && nextRun.Some? && due == DueRunOf(zone.value, time, nextRun.value, now)
      modifies this
      ensures Valid() && (State(), outcome) == ClaimedRun(old(State()), now)
    {
      hide RunsKeepUp, NextRun, LatestRun, Date, DueRunOf, KeyUsed;
      var key := DailyKey(Date(zone.value.shows(due)), due);
      outcome := if KeyUsed(backups, key) then AlreadyDispatched else Dispatched;
      if outcome == Dispatched {
        backups := backups + [Backup(key, true)];
      }
      var _ := AdvanceSchedule(now, Some(due));
      claims := claims + [due];
    }
  }

  lemma DueIsFunctional(z: Zone, time: int, nextRun: int, now: int, run: int)
    requires ValidClock(z, time)
    requires IsLatestDue(z, time, nextRun, now, run)
    ensures run == DueRunOf(z, time, nextRun, now)
  {
    var g :| LatestRun(z, time, now, g) && run == if g < nextRun then nextRun else g;
    LatestRunIsUnique(z, time, now, g, LatestAtOrBefore(z, time, now));
  }

  // ---- Runs of the system ----

  datatype Event =
    | ClaimDue(eligible: bool, now: int)
      /** The owner saves the schedule; `explicit` is a next run chosen by the caller. */
    | Configure(enabled: bool, zone: Option<Zone>, time: int, explicit: Option<int>, now: int)
    | FinishBackup(index: nat)
    | RequestBackup(id: nat)

  ghost function Configured(w: World, e: Event): World
    requires e.Configure?
  {
    if e.zone.None? || !UsableClock(e.zone, e.time) then w
    else
      var nextRun := if !e.enabled then None
                     else if e.explicit.Some? then e.explicit
                     else Some(NextAfter(e.zone.value, e.time, e.now));
      w.(enabled := e.enabled, zone := e.zone, time := e.time, nextRun := nextRun)
  }

  ghost function Apply(w: World, e: Event): World
    requires UsableClock(w.zone, w.time)
    ensures UsableClock(Apply(w, e).zone, Apply(w, e).time)
  {
    match e
    case ClaimDue(eligible, now) => Claim(w, eligible, now).0
    case Configure(_, _, _, _, _) => Configured(w, e)
    case FinishBackup(i) =>
      if i < |w.backups| then w.(backups := w.backups[i := w.backups[i].(active := false)]) else w
    case RequestBackup(id) =>
      if KeyUsed(w.backups, OtherKey(id)) then w else w.(backups := w.backups + [Backup(OtherKey(id), true)])
  }

  ghost function Replay(w: World, events: seq<Event>): World
    requires UsableClock(w.zone, w.time)
    ensures UsableClock(Replay(w, events).zone, Replay(w, events).time)
    decreases |events|
  {
    if events == [] then w else Apply(Replay(w, events[..|events| - 1]), events[|events| - 1])
  }

  /** The latest time seen: a claim may carry the older time at which its batch began. */
  function ClockAfter(clock: int, e: Event): int {
    if (e.ClaimDue? || e.Configure?) && clock < e.now then e.now else clock
  }

  ghost function Clock(events: seq<Event>, clock: int): int
    decreases |events|
  {
    if events == [] then clock else ClockAfter(Clock(events[..|events| - 1], clock), events[|events| - 1])
  }

  /** The time of the last save. */
  ghost function Saved(events: seq<Event>, clock: int): int
    decreases |events|
  {
    if events == [] then clock
    else if events[|events| - 1].Configure? then events[|events| - 1].now
    else Saved(events[..|events| - 1], clock)
  }

  /** The next run lies after the last claim. */
  predicate Ahead(w: World) {
    w.lastClaimed.Some? && w.nextRun.Some? ==> w.lastClaimed.value < w.nextRun.value
  }

  /**
   What a caller can check before saving an explicit next run: it lies after the last claimed run,
   or a daily run of the saved clock has fallen due since.
   */
  ghost predicate SafeSave(w: World, e: Event)
    requires e.Configure?
  {
    w.lastClaimed.Some? && e.enabled && e.explicit.Some? && e.zone.Some? && UsableClock(e.zone, e.time) ==>
      || w.lastClaimed.value < e.explicit.value
      || w.lastClaimed.value < LatestAtOrBefore(e.zone.value, e.time, e.now)
  }

  /** A claim may be older than the last save `saved` if the next run is ahead, or a daily run has fallen due since the last claim. */
  ghost predicate SafeClaim(w: World, saved: int, now: int)
    requires UsableClock(w.zone, w.time)
  {
    saved <= now || Ahead(w) || (w.zone.Some? ==> w.lastClaimed.value < LatestAtOrBefore(w.zone.value, w.time, now))
  }

  /** Saves are not older than what was claimed, and safe; claims are safe against the last save. */
  ghost predicate Orderly(w: World, clock: int, events: seq<Event>)
    requires UsableClock(w.zone, w.time)
    decreases |events|
  {
    events == [] ||
    (var n := |events| - 1;
     && Orderly(w, clock, events[..n])
     && match events[n]
        case Configure(_, _, _, _, now) => Clock(events[..n], clock) <= now && SafeSave(Replay(w, events[..n]), events[n])
        case ClaimDue(_, now) => SafeClaim(Replay(w, events[..n]), Saved(events[..n], clock), now)
        case _ => true)
  }

  ghost predicate StrictlyIncreasing(s: seq<int>) {
    forall i, j :: 0 <= i < j < |s| ==> s[i] < s[j]
  }

  function DailyBackups(backups: seq<Backup>): nat {
    if backups == [] then 0
    else DailyBackups(backups[..|backups| - 1]) + if backups[|backups| - 1].key.DailyKey? then 1 else 0
  }

  /** Every claim from `saved` on takes a run after the last one. */
  ghost predicate NextIsSafe(w: World, saved: int)
    requires UsableClock(w.zone, w.time)
  {
    Ahead(w) || (w.zone.Some? ==> w.lastClaimed.value < LatestAtOrBefore(w.zone.value, w.time, saved))
  }

  ghost predicate Consistent(w: World, clock: int, saved: int) {
    && UsableClock(w.zone, w.time) && saved <= clock
    && StrictlyIncreasing(w.claims)
    && (forall c :: c in w.claims ==> c <= clock)
    && w.lastClaimed == (if w.claims == [] then None else Some(w.claims[|w.claims| - 1]))
    && (w.enabled && w.nextRun.None? ==> w.claims == [])
    && NextIsSafe(w, saved)
    && (forall i :: 0 <= i < |w.backups| && w.backups[i].key.DailyKey? ==> w.backups[i].key.run in w.claims)
    && DailyBackups(w.backups) == |w.claims|
  }

  lemma {:induction false} FinishingKeepsDailyCount(backups: seq<Backup>, i: nat)
    requires i < |backups|
    ensures DailyBackups(backups[i := backups[i].(active := false)]) == DailyBackups(backups)
  {
    var n := |backups| - 1;
    var changed := backups[i := backups[i].(active := false)];
    if i < n {
      assert changed[..n] == backups[..n][i := backups[i].(active := false)];
      FinishingKeepsDailyCount(backups[..n], i);
    } else {
      assert changed[..n] == backups[..n];
    }
  }

  lemma AppendDailyCount(backups: seq<Backup>, b: Backup)
    ensures DailyBackups(backups + [b]) == DailyBackups(backups) + if b.key.DailyKey? then 1 else 0
  {
    assert (backups + [b])[..|backups|] == backups;
  }

  /** A claim that moves the schedule leaves its next run after `now`. */
  lemma AdvancingClaimEndsInFuture(w: World, eligible: bool, now: int)
    requires UsableClock(w.zone, w.time)
    requires Claim(w, eligible, now).1 in {Dispatched, AlreadyDispatched, Ineligible, Initialized}
    ensures Claim(w, eligible, now).0.nextRun.Some? && now < Claim(w, eligible, now).0.nextRun.value
    ensures forall e :: Claim(Claim(w, eligible, now).0, e, now) == (Claim(w, eligible, now).0, Future)
  {
  }

  lemma DueRunBounds(z: Zone, time: int, nextRun: int, now: int)
    requires ValidClock(z, time) && nextRun <= now
    ensures nextRun <= DueRunOf(z, time, nextRun, now) <= now < NextAfter(z, time, now)
  {
  }

  /** Later times see later runs. */
  lemma LatestIsMonotone(z: Zone, time: int, a: int, b: int)
    requires ValidClock(z, time) && a <= b
    ensures LatestAtOrBefore(z, time, a) <= LatestAtOrBefore(z, time, b) <= b
  {
    hide RunsKeepUp;
    assert LatestRun(z, time, a, LatestAtOrBefore(z, time, a));
  }

  lemma DueAfterLast(w: World, saved: int, now: int)
    requires UsableClock(w.zone, w.time) && NextIsSafe(w, saved) && SafeClaim(w, saved, now)
    requires w.zone.Some? && w.nextRun.Some? && w.nextRun.value <= now && w.lastClaimed.Some?
    ensures w.lastClaimed.value < DueRunOf(w.zone.value, w.time, w.nextRun.value, now)
  {
    hide RunsKeepUp, NextRun, LatestRun;
    if saved <= now {
      LatestIsMonotone(w.zone.value, w.time, saved, now);
    }
  }

  /** A safe claim takes a run after the last one. */
  lemma DueIsNew(w: World, clock: int, saved: int, now: int)
    requires Consistent(w, clock, saved) && SafeClaim(w, saved, now)
    requires w.zone.Some? && w.nextRun.Some? && w.nextRun.value <= now
    ensures var due := DueRunOf(w.zone.value, w.time, w.nextRun.value, now);
            due <= now < NextAfter(w.zone.value, w.time, now) && forall c :: c in w.claims ==> c < due
    ensures forall c :: c in w.claims ==> c < NextAfter(w.zone.value, w.time, now)
  {
    hide RunsKeepUp, NextRun, LatestRun, NextIsSafe, SafeClaim, DueRunOf, DailyBackups;
    DueRunBounds(w.zone.value, w.time, w.nextRun.value, now);
    if w.claims != [] {
      DueAfterLast(w, saved, now);
      LastIsGreatest(w.claims);
    }
  }

  lemma LastIsGreatest(s: seq<int>)
    requires StrictlyIncreasing(s)
    ensures forall c :: c in s ==> c <= s[|s| - 1]
  {
    forall c | c in s
      ensures c <= s[|s| - 1]
    {
      var i :| 0 <= i < |s| && s[i] == c;
    }
  }

  lemma ClaimedRunKeepsConsistent(w: World, clock: int, saved: int, now: int)
    requires Consistent(w, clock, saved) && SafeClaim(w, saved, now)
    requires w.zone.Some? && w.nextRun.Some? && w.nextRun.value <= now
    ensures Consistent(ClaimedRun(w, now).0, if clock < now then now else clock, saved)
    ensures ClaimedRun(w, now).1 == Dispatched
  {
    DueIsNew(w, clock, saved, now);
    hide RunsKeepUp, NextRun, LatestRun, DueRunOf;
    var due := DueRunOf(w.zone.value, w.time, w.nextRun.value, now);
    var key := DailyKey(Date(w.zone.value.shows(due)), due);
    assert due !in w.claims;
    assert !KeyUsed(w.backups, key);
    AppendDailyCount(w.backups, Backup(key, true));
    var w' := ClaimedRun(w, now).0;
    assert w'.claims == w.claims + [due] && w'.backups == w.backups + [Backup(key, true)];
    assert forall i :: 0 <= i < |w.claims| ==> w.claims[i] in w.claims;
    assert StrictlyIncreasing(w'.claims);
    assert forall i :: 0 <= i < |w'.backups| && w'.backups[i].key.DailyKey? ==> w'.backups[i].key.run in w'.claims;
  }

  lemma ClaimKeepsConsistent(w: World, clock: int, saved: int, eligible: bool, now: int)
    requires Consistent(w, clock, saved) && SafeClaim(w, saved, now)
    ensures Consistent(Claim(w, eligible, now).0, if clock < now then now else clock, saved)
    ensures Claim(w, eligible, now).1 != AlreadyDispatched
  {
    hide RunsKeepUp, LatestRun, DueRunOf;
    if w.enabled && w.nextRun.Some? && w.nextRun.value <= now && w.zone.Some? {
      DueIsNew(w, clock, saved, now);
      ClaimedRunKeepsConsistent(w, clock, saved, now);
    }
  }

  lemma SaveKeepsConsistent(w: World, clock: int, saved: int, e: Event)
    requires Consistent(w, clock, saved) && e.Configure? && clock <= e.now && SafeSave(w, e)
    ensures Consistent(Configured(w, e), e.now, e.now)
  {
    hide RunsKeepUp, LatestRun;
    assert w.claims != [] ==> w.claims[|w.claims| - 1] in w.claims;
    if !Ahead(w) && w.zone.Some? {
      LatestIsMonotone(w.zone.value, w.time, saved, e.now);
    }
  }

  lemma StepKeepsConsistent(w: World, clock: int, saved: int, e: Event)
    requires Consistent(w, clock, saved)
    requires e.Configure? ==> clock <= e.now && SafeSave(w, e)
    requires e.ClaimDue? ==> SafeClaim(w, saved, e.now)
    ensures Consistent(Apply(w, e), ClockAfter(clock, e), if e.Configure? then e.now else saved)
  {
    hide RunsKeepUp, LatestRun, NextRun, ClaimedRun, SafeSave, SafeClaim;
    match e
    case ClaimDue(eligible, now) => ClaimKeepsConsistent(w, clock, saved, eligible, now);
    case Configure(_, _, _, _, _) => SaveKeepsConsistent(w, clock, saved, e);
    case FinishBackup(i) =>
      if i < |w.backups| {
        FinishingKeepsDailyCount(w.backups, i);
      }
    case RequestBackup(id) => AppendDailyCount(w.backups, Backup(OtherKey(id), true));
  }

  // ---- Exactly which claims and saves keep the order ----

  /** After any history, a claim that takes a run keeps the order exactly if it is safe. */
  lemma ClaimKeepsOrderExactly(w: World, clock: int, saved: int, now: int)
    requires Consistent(w, clock, saved) && Claim(w, true, now).1 in {Dispatched, AlreadyDispatched}
    ensures StrictlyIncreasing(Claim(w, true, now).0.claims) <==> SafeClaim(w, saved, now)
  {
    hide RunsKeepUp, LatestRun;
    if SafeClaim(w, saved, now) {
      hide Claim, SafeClaim;
      ClaimKeepsConsistent(w, clock, saved, true, now);
    } else {
      var after, n := Claim(w, true, now).0, |w.claims|;
      assert after.claims[n] <= after.claims[n - 1];
    }
  }

  /** No claim at `since` or later, whatever backups have ended by then, repeats or precedes an earlier one. */
  ghost predicate KeepsOrder(w: World, since: int)
    requires UsableClock(w.zone, w.time)
  {
    forall backups, now :: since <= now && !ActiveBackupExists(backups) ==>
      StrictlyIncreasing(Claim(w.(backups := backups), true, now).0.claims)
  }

  lemma NextIsSafeKeepsOrder(w: World, saved: int)
    requires UsableClock(w.zone, w.time) && StrictlyIncreasing(w.claims) && NextIsSafe(w, saved)
    requires w.lastClaimed == if w.claims == [] then None else Some(w.claims[|w.claims| - 1])
    ensures KeepsOrder(w, saved)
  {
    hide RunsKeepUp, LatestRun;
    forall backups, now | saved <= now && !ActiveBackupExists(backups)
      ensures StrictlyIncreasing(Claim(w.(backups := backups), true, now).0.claims)
    {
      if w.zone.Some? {
        LatestIsMonotone(w.zone.value, w.time, saved, now);
      }
    }
  }

  /** After any history, a save keeps all later claims in order exactly if it is safe. */
  lemma SaveKeepsOrderExactly(w: World, clock: int, saved: int, e: Event)
    requires Consistent(w, clock, saved) && e.Configure? && clock <= e.now
    ensures KeepsOrder(Configured(w, e), e.now) <==> SafeSave(w, e)
  {
    hide RunsKeepUp, LatestRun, KeepsOrder;
    var w' := Configured(w, e);
    if SafeSave(w, e) {
      SaveKeepsConsistent(w, clock, saved, e);
      NextIsSafeKeepsOrder(w', e.now);
    } else {
      assert w.claims[|w.claims| - 1] in w.claims;
      UnsafeSaveRepeats(w, clock, e);
    }
  }

  lemma UnsafeSaveRepeats(w: World, clock: int, e: Event)
    requires UsableClock(w.zone, w.time) && e.Configure? && clock <= e.now && !SafeSave(w, e)
    requires w.claims != [] && w.lastClaimed == Some(w.claims[|w.claims| - 1]) && w.lastClaimed.value <= clock
    ensures !KeepsOrder(Configured(w, e), e.now)
  {
    hide RunsKeepUp, LatestRun;
    var w' := Configured(w, e).(backups := []);
    var after := Claim(w', true, e.now).0;
    var n := |w.claims|;
    assert after.claims[n] <= after.claims[n - 1];
  }

  ghost predicate Fresh(w: World) {
    && UsableClock(w.zone, w.time) && w.claims == [] && w.lastClaimed.None?
    && forall i :: 0 <= i < |w.backups| ==> w.backups[i].key.OtherKey?
  }

  lemma {:induction false} FreshHasNoDailyBackups(backups: seq<Backup>)
    requires forall i :: 0 <= i < |backups| ==> backups[i].key.OtherKey?
    ensures DailyBackups(backups) == 0
  {
    if backups != [] {
      FreshHasNoDailyBackups(backups[..|backups| - 1]);
    }
  }

  /**
   Over every orderly run of events the claimed runs strictly increase, none is claimed before it is
   due, and there is exactly one scheduled backup per claim.
   */
  lemma {:induction false} ClaimsStrictlyIncrease(w: World, clock: int, events: seq<Event>)
    requires Fresh(w) && Orderly(w, clock, events)
    ensures Consistent(Replay(w, events), Clock(events, clock), Saved(events, clock))
    decreases |events|
  {
    if events == [] {
      FreshHasNoDailyBackups(w.backups);
    } else {
      var n := |events| - 1;
      ClaimsStrictlyIncrease(w, clock, events[..n]);
      hide Consistent, SafeSave, SafeClaim, Apply;
      StepKeepsConsistent(Replay(w, events[..n]), Clock(events[..n], clock), Saved(events[..n], clock), events[n]);
    }
  }

  /** In no orderly run does a claim find its idempotency key already used. */
  lemma KeyIsAlwaysFresh(w: World, clock: int, events: seq<Event>, eligible: bool, now: int)
    requires Fresh(w) && Orderly(w, clock, events + [ClaimDue(eligible, now)])
    ensures Claim(Replay(w, events), eligible, now).1 != AlreadyDispatched
  {
    assert (events + [ClaimDue(eligible, now)])[..|events|] == events;
    ClaimsStrictlyIncrease(w, clock, events);
    ClaimKeepsConsistent(Replay(w, events), Clock(events, clock), Saved(events, clock), eligible, now);
  }

  function ClaimEvents(eligible: seq<bool>, now: int): seq<Event> {
    seq(|eligible|, i requires 0 <= i < |eligible| => ClaimDue(eligible[i], now))
  }

  /** However many days were missed and however often the dispatcher looks, one instant yields one backup. */
  lemma {:induction false} OneBackupPerInstant(w: World, eligible: seq<bool>, now: int)
    requires UsableClock(w.zone, w.time)
    ensures var w' := Replay(w, ClaimEvents(eligible, now));
            || (w'.claims == w.claims && w'.backups == w.backups)
            || (&& w.nextRun.Some? && w.zone.Some?
                && w'.claims == w.claims + [DueRunOf(w.zone.value, w.time, w.nextRun.value, now)]
                && w.backups <= w'.backups && |w'.backups| <= |w.backups| + 1
                && w'.nextRun.Some? && now < w'.nextRun.value)
    ensures var w' := Replay(w, ClaimEvents(eligible, now));
            w' == w || (w'.nextRun.Some? && now < w'.nextRun.value)
    decreases |eligible|
  {
    if eligible != [] {
      var n := |eligible| - 1;
      assert ClaimEvents(eligible, now)[..n] == ClaimEvents(eligible[..n], now);
      OneBackupPerInstant(w, eligible[..n], now);
      var before := Replay(w, ClaimEvents(eligible[..n], now));
      assert Replay(w, ClaimEvents(eligible, now)) == Claim(before, eligible[n], now).0;
    }
  }

  /**
   A claim deferred by a running backup changes nothing; once no backup is running, a later claim
   takes a run at least as late as every daily run that was waiting.
   */
  lemma DeferralLosesNoRun(w: World, now: int, later: int, backups: seq<Backup>)
    requires UsableClock(w.zone, w.time) && Claim(w, true, now).1 == DeferredActive
    requires now <= later && !ActiveBackupExists(backups)
    ensures Claim(w, true, now).0 == w
    ensures var (w', outcome) := Claim(w.(backups := backups), true, later);
            && outcome in {Dispatched, AlreadyDispatched}
            && w'.claims == w.claims + [w'.lastClaimed.value]
            && w.nextRun.value <= w'.lastClaimed.value <= later
            && forall date, v :: Occurrence(w.zone.value, date, w.time, v) && v <= now ==> v <= w'.lastClaimed.value
  {
  }

  /**
   Saving the run just claimed as explicit next run is not safe, and the next claim repeats it; only
   the idempotency key then prevents a second backup.
   */
  lemma ExplicitPastRunRepeatsAClaim(z: Zone, time: int, run: int, now: int)
    requires ValidClock(z, time) && LatestRun(z, time, now, run)
    ensures var start := World(true, Some(z), time, Some(run), None, [], []);
            var save := Configure(true, Some(z), time, Some(run), now);
            var events := [ClaimDue(true, now), FinishBackup(0), save, ClaimDue(true, now)];
            && Orderly(start, now, events[..2]) && !SafeSave(Replay(start, events[..2]), save)
            && Replay(start, events).claims == [run, run]
  {
    hide RunsKeepUp, NextRun, LatestRun, DueRunOf, Date, Replay;
    var start := World(true, Some(z), time, Some(run), None, [], []);
    var events := [ClaimDue(true, now), FinishBackup(0), Configure(true, Some(z), time, Some(run), now), ClaimDue(true, now)];
    RepeatedRun(z, time, run, now);
    ReplayNone(start);
    var one := Claim(start, true, now).0;
    assert events[..2][..1] == events[..1] && events[..1][..0] == [];
    assert Orderly(start, now, []) && Orderly(start, now, events[..1]) && Orderly(start, now, events[..2]);
    hide Orderly;
    assert events[..1] == [] + [ClaimDue(true, now)];
    ReplayLast(start, [], ClaimDue(true, now));
    assert events[..2] == events[..1] + [FinishBackup(0)];
    ReplayLast(start, events[..1], FinishBackup(0));
    assert events[..3] == events[..2] + [events[2]];
    ReplayLast(start, events[..2], events[2]);
    assert events == events[..3] + [events[3]];
    ReplayLast(start, events[..3], events[3]);
  }

  lemma ReplayLast(w: World, events: seq<Event>, e: Event)
    requires UsableClock(w.zone, w.time)
    ensures Replay(w, events + [e]) == Apply(Replay(w, events), e)
  {
    assert (events + [e])[..|events|] == events;
  }

  lemma ReplayNone(w: World)
    requires UsableClock(w.zone, w.time)
    ensures Replay(w, []) == w
  {
  }

  lemma RepeatedRun(z: Zone, time: int, run: int, now: int)
    requires ValidClock(z, time) && LatestRun(z, time, now, run)
    ensures run <= now && DueRunOf(z, time, run, now) == run == LatestAtOrBefore(z, time, now)
  {
  }
}
