/** Which answer a claim gives and what it writes, in terms of the row, the backups and the zone alone. */
module ClaimRules {
  import opened Options
  import opened DailyOccurrences
  import opened ScheduleClaims

  /** The row is enabled and its next run is not ahead. */
  predicate FallenDue(w: World, now: int) {
    w.enabled && w.nextRun.Some? && w.nextRun.value <= now
  }

  /** Every answer of a claim has its own condition; a due run of an eligible business waits exactly while any backup of it is active. */
  lemma AnswersExactly(w: World, eligible: bool, now: int)
    requires UsableClock(w.zone, w.time)
    ensures var answer := Claim(w, eligible, now).1;
            && (answer == Disabled <==> !w.enabled)
            && (answer == Initialized <==> w.enabled && w.nextRun.None? && w.zone.Some?)
            && (answer == Future <==> w.enabled && w.nextRun.Some? && now < w.nextRun.value)
            && (answer == Invalid <==> w.enabled && w.zone.None? && (w.nextRun.None? || w.nextRun.value <= now))
            && (answer == Ineligible <==> FallenDue(w, now) && w.zone.Some? && !eligible)
            && (answer == DeferredActive <==> FallenDue(w, now) && w.zone.Some? && eligible
                                              && exists i :: 0 <= i < |w.backups| && w.backups[i].active)
            && (answer == Dispatched || answer == AlreadyDispatched <==>
                  FallenDue(w, now) && w.zone.Some? && eligible && forall i :: 0 <= i < |w.backups| ==> !w.backups[i].active)
  {
    hide RunsKeepUp, NextRun, LatestRun;
  }

  /** The run a due row stands for: the greatest daily run not after now, or the next run if that is later. */
  ghost predicate IsDueRun(w: World, now: int, run: int) {
    && w.zone.Some? && w.nextRun.Some? && w.nextRun.value <= run <= now
    && exists g :: LatestRun(w.zone.value, w.time, now, g) && (run == g || (run == w.nextRun.value && g < run))
  }

  /** A claimed run is dispatched unless a backup is stored under its date and instant. */
  lemma ClaimedRunExactly(w: World, now: int)
    requires UsableClock(w.zone, w.time) && Claim(w, true, now).1 in {Dispatched, AlreadyDispatched}
    ensures var (w', answer) := Claim(w, true, now);
            && w'.lastClaimed.Some? && var run := w'.lastClaimed.value;
            && IsDueRun(w, now, run)
            && w'.claims == w.claims + [run]
            && w'.nextRun.Some? && NextRun(w.zone.value, w.time, now, w'.nextRun.value)
            && var key := DailyKey(Date(w.zone.value.shows(run)), run);
            && (answer == AlreadyDispatched <==> exists i :: 0 <= i < |w.backups| && w.backups[i].key == key)
            && w'.backups == (if answer == Dispatched then w.backups + [Backup(key, true)] else w.backups)
            && w'.enabled == w.enabled && w'.zone == w.zone && w'.time == w.time
  {
    hide RunsKeepUp;
    var g := LatestAtOrBefore(w.zone.value, w.time, now);
    assert LatestRun(w.zone.value, w.time, now, g);
  }

  /** An answer without a run writes at most the next run, and that only when the row is initialized or not eligible. */
  lemma OtherAnswersWriteExactly(w: World, eligible: bool, now: int)
    requires UsableClock(w.zone, w.time) && Claim(w, eligible, now).1 !in {Dispatched, AlreadyDispatched}
    ensures var (w', answer) := Claim(w, eligible, now);
            if answer == Initialized || answer == Ineligible then
              w'.nextRun.Some? && NextRun(w.zone.value, w.time, now, w'.nextRun.value) && w' == w.(nextRun := w'.nextRun)
            else w' == w
  {
    hide RunsKeepUp;
  }

  /** No dispatched claim ever starts a daily backup beside another one at work, in any run of events. */
  lemma DispatchStartsAlone(w: World, events: seq<Event>, eligible: bool, now: int)
    requires UsableClock(w.zone, w.time) && Claim(Replay(w, events), eligible, now).1 == Dispatched
    ensures var before := Replay(w, events);
            var after := Claim(before, eligible, now).0;
            && |after.backups| == |before.backups| + 1
            && forall i :: 0 <= i < |after.backups| && after.backups[i].active ==> i == |before.backups|
  {
    hide Replay;
    AnswersExactly(Replay(w, events), eligible, now);
    ClaimedRunExactly(Replay(w, events), now);
  }

  /** A save takes effect exactly for a usable zone: it replaces the settings, and the next run is the explicit one, the computed one, or none. */
  lemma SavesExactly(w: World, e: Event)
    requires e.Configure?
    ensures var w' := Configured(w, e);
            if e.zone.None? || !UsableClock(e.zone, e.time) then w' == w
            else
              && w' == w.(enabled := e.enabled, zone := e.zone, time := e.time, nextRun := w'.nextRun)
              && (!e.enabled ==> w'.nextRun.None?)
              && (e.enabled && e.explicit.Some? ==> w'.nextRun == e.explicit)
              && (e.enabled && e.explicit.None? ==> w'.nextRun.Some? && NextRun(e.zone.value, e.time, e.now, w'.nextRun.value))
  {
    hide RunsKeepUp;
  }
}
