/**
 Daily wall-clock times under daylight-saving changes.

 UTC instants and wall-clock readings are counted in microseconds. A zone says what the
 clock shows at each instant, and which instant it proposes for a reading under each of
 the two `fold` values of PEP 495.
 */
module DailyOccurrences {
  import opened Options

  const MINUTE := 60_000_000
  const DAY := 1440 * MINUTE
  const LAST_OFFSET := 180

  datatype Zone = Zone(shows: int -> int, foldZero: int -> int, foldOne: int -> int)

  function Date(reading: int): int {
    reading / DAY
  }

  /** The clock shows this reading at some instant; readings inside a gap are never shown. */
  ghost predicate Shown(z: Zone, reading: int) {
    exists u: int :: z.shows(u) == reading
  }

  /** PEP 495: every instant is what one of the two folds proposes for its own reading. */
  ghost predicate FoldsCoverInstants(z: Zone) {
    forall u :: u == z.foldZero(z.shows(u)) || u == z.foldOne(z.shows(u))
  }

  ghost predicate DatesNeverGoBack(z: Zone) {
    forall u, v :: u <= v ==> Date(z.shows(u)) <= Date(z.shows(v))
  }

  /** The clock is never set back by more than three hours. */
  ghost predicate SetbacksAreShort(z: Zone) {
    forall u, v :: u <= v ==> z.shows(u) <= z.shows(v) + LAST_OFFSET * MINUTE
  }

  /** `end` closes the gap around `reading`: close by, and followed by a shown minute. */
  ghost predicate ClosesGap(z: Zone, reading: int, end: int) {
    reading < end <= reading + LAST_OFFSET * MINUTE && forall x :: end <= x < end + MINUTE ==> Shown(z, x)
  }

  ghost predicate GapsAreShort(z: Zone) {
    forall reading :: Shown(z, reading) || exists end :: ClosesGap(z, reading, end)
  }

  ghost predicate ZoneRules(z: Zone) {
    FoldsCoverInstants(z) && DatesNeverGoBack(z) && SetbacksAreShort(z) && GapsAreShort(z)
  }

  // ---- What a daily occurrence is, without saying how it is found ----

  /** `k` minutes is the shortest whole-minute delay after which the wall time is shown. */
  ghost predicate ShortestDelay(z: Zone, wall: int, k: nat) {
    Shown(z, wall + k * MINUTE) && forall j: nat :: j < k ==> !Shown(z, wall + j * MINUTE)
  }

  ghost predicate EarliestShowing(z: Zone, reading: int, u: int) {
    z.shows(u) == reading && forall v :: z.shows(v) == reading ==> u <= v
  }

  /** `u` is the run of the daily `time` on local `date`. */
  ghost predicate Occurrence(z: Zone, date: int, time: int, u: int) {
    exists k: nat :: k <= LAST_OFFSET && ShortestDelay(z, date * DAY + time, k)
                     && EarliestShowing(z, date * DAY + time + k * MINUTE, u)
  }

  /** Every run of an earlier local date than that of `at` is past. */
  ghost predicate DayIsOver(z: Zone, time: int, at: int) {
    forall date, u :: Occurrence(z, date, time, u) && date < Date(z.shows(at)) ==> u <= at
  }

  /** No run is carried past the start of a new local date. */
  ghost predicate RunsKeepUp(z: Zone, time: int) {
    ZoneRules(z) && forall at :: DayIsOver(z, time, at)
  }

  /** `u` is the least daily run strictly after `after`. */
  ghost predicate NextRun(z: Zone, time: int, after: int, u: int) {
    && after < u
    && (exists date :: Occurrence(z, date, time, u))
    && forall date, v :: Occurrence(z, date, time, v) && after < v ==> u <= v
  }

  /** `u` is the greatest daily run not after `now`. */
  ghost predicate LatestRun(z: Zone, time: int, now: int, u: int) {
    && u <= now
    && (exists date :: Occurrence(z, date, time, u))
    && forall date, v :: Occurrence(z, date, time, v) && v <= now ==> v <= u
  }

  // ---- Properties of occurrences ----

  lemma ShortestDelayIsUnique(z: Zone, wall: int, j: nat, k: nat)
    requires ShortestDelay(z, wall, j) && ShortestDelay(z, wall, k)
    ensures j == k
  {
    assert !(j < k) && !(k < j);
  }

  lemma OccurrenceIsUnique(z: Zone, date: int, time: int, u: int, v: int)
    requires Occurrence(z, date, time, u) && Occurrence(z, date, time, v)
    ensures u == v
  {
    var wall := date * DAY + time;
    var j: nat :| ShortestDelay(z, wall, j) && EarliestShowing(z, wall + j * MINUTE, u);
    var k: nat :| ShortestDelay(z, wall, k) && EarliestShowing(z, wall + k * MINUTE, v);
    ShortestDelayIsUnique(z, wall, j, k);
  }

  lemma CombineDate(date: int, time: int)
    requires 0 <= time < DAY
    ensures Date(date * DAY + time) == date
  {
  }

  lemma OccurrenceReading(z: Zone, date: int, time: int, u: int) returns (k: nat)
    requires Occurrence(z, date, time, u)
    ensures ShortestDelay(z, date * DAY + time, k) && z.shows(u) == date * DAY + time + k * MINUTE
  {
    k :| k <= LAST_OFFSET && ShortestDelay(z, date * DAY + time, k)
      && EarliestShowing(z, date * DAY + time + k * MINUTE, u);
  }

  /** A gap delays a run by three hours at most, so into the next date at most. */
  lemma OccurrenceDate(z: Zone, date: int, time: int, u: int)
    requires 0 <= time < DAY && Occurrence(z, date, time, u)
    ensures date * DAY + time <= z.shows(u) <= date * DAY + time + LAST_OFFSET * MINUTE
    ensures date <= Date(z.shows(u)) <= date + 1
  {
    var k: nat :| k <= LAST_OFFSET && ShortestDelay(z, date * DAY + time, k)
      && EarliestShowing(z, date * DAY + time + k * MINUTE, u);
  }

  /** Minute by minute, a gap is always left within the searched three hours. */
  lemma DelayOutOfGap(z: Zone, wall: int) returns (k: nat)
    requires GapsAreShort(z)
    ensures k <= LAST_OFFSET && ShortestDelay(z, wall, k)
  {
    if Shown(z, wall) {
      k := 0;
    } else {
      var end :| ClosesGap(z, wall, end);
      k := (end - wall + MINUTE - 1) / MINUTE;
      assert end <= wall + k * MINUTE < end + MINUTE;
      assert Shown(z, wall + k * MINUTE);
      k := ShorterDelay(z, wall, k);
    }
  }

  lemma {:induction false} ShorterDelay(z: Zone, wall: int, start: nat) returns (k: nat)
    requires Shown(z, wall + start * MINUTE)
    ensures k <= start && ShortestDelay(z, wall, k)
  {
    if j: nat :| j < start && Shown(z, wall + j * MINUTE) {
      k := ShorterDelay(z, wall, j);
    } else {
      k := start;
    }
  }

  lemma EarliestExists(z: Zone, reading: int) returns (u: int)
    requires FoldsCoverInstants(z) && Shown(z, reading)
    ensures EarliestShowing(z, reading, u)
  {
    var v :| z.shows(v) == reading;
    var a, b := z.foldZero(reading), z.foldOne(reading);
    u := if z.shows(a) != reading then b else if z.shows(b) != reading then a else if a <= b then a else b;
  }

  lemma OccurrenceExists(z: Zone, date: int, time: int) returns (u: int)
    requires ZoneRules(z)
    ensures Occurrence(z, date, time, u)
  {
    var k := DelayOutOfGap(z, date * DAY + time);
    u := EarliestExists(z, date * DAY + time + k * MINUTE);
  }

  /** Later dates have later runs: a delay and a setback together are less than a day. */
  lemma OccurrencesAreOrderedByDate(z: Zone, time: int, d: int, u: int, e: int, v: int)
    requires ZoneRules(z) && 0 <= time < DAY
    requires Occurrence(z, d, time, u) && Occurrence(z, e, time, v) && d < e
    ensures u < v
  {
    hide Occurrence, GapsAreShort, FoldsCoverInstants, DatesNeverGoBack;
    OccurrenceDate(z, d, time, u);
    OccurrenceDate(z, e, time, v);
    assert v <= u ==> z.shows(v) <= z.shows(u) + LAST_OFFSET * MINUTE;
  }

  /** The run of a later date is ahead, and that of a date before yesterday is past; yesterday's may be delayed. */
  lemma OccurrenceAgainstNow(z: Zone, time: int, now: int, date: int, u: int)
    requires ZoneRules(z) && 0 <= time < DAY && Occurrence(z, date, time, u)
    ensures date < Date(z.shows(now)) - 1 ==> u < now
    ensures date > Date(z.shows(now)) ==> u > now
    ensures date < Date(z.shows(now)) && DayIsOver(z, time, now) ==> u <= now
  {
    hide Occurrence, GapsAreShort, FoldsCoverInstants, SetbacksAreShort, Date;
    OccurrenceDate(z, date, time, u);
  }

  /** If every gap ends on its own date, no run of any time leaves its date. */
  lemma SameDayGapsKeepUp(z: Zone, time: int)
    requires ZoneRules(z) && 0 <= time < DAY
    requires forall date, u :: Occurrence(z, date, time, u) ==> Date(z.shows(u)) == date
    ensures RunsKeepUp(z, time)
  {
    hide Occurrence, Date, GapsAreShort;
    forall at, date, u | Occurrence(z, date, time, u) && date < Date(z.shows(at))
      ensures u <= at
    {
      assert Date(z.shows(u)) < Date(z.shows(at));
    }
  }

  lemma NextRunIsUnique(z: Zone, time: int, after: int, u: int, v: int)
    requires NextRun(z, time, after, u) && NextRun(z, time, after, v)
    ensures u == v
  {
  }

  lemma LatestRunIsUnique(z: Zone, time: int, now: int, u: int, v: int)
    requires LatestRun(z, time, now, u) && LatestRun(z, time, now, v)
    ensures u == v
  {
  }

  lemma KeepsUp(z: Zone, time: int)
    requires ZoneRules(z)
    requires forall at, date, u :: Occurrence(z, date, time, u) && date < Date(z.shows(at)) ==> u <= at
    ensures RunsKeepUp(z, time)
  {
    hide Occurrence, ZoneRules, Date;
  }

  lemma FallsBehind(z: Zone, time: int, date: int, u: int, at: int)
    requires Occurrence(z, date, time, u) && date < Date(z.shows(at)) && at < u
    ensures !DayIsOver(z, time, at) && !RunsKeepUp(z, time)
  {
    hide Occurrence, ZoneRules;
  }

  // ---- The searches ----

  /** None stands for the dispatcher's error: no reading is shown within three hours. */
  method ResolveLocalDailyOccurrence(z: Zone, date: int, time: int) returns (r: Option<int>)
    requires FoldsCoverInstants(z)
    ensures r.Some? ==> Occurrence(z, date, time, r.value)
    ensures r.None? <==> forall k: nat :: k <= LAST_OFFSET ==> !Shown(z, date * DAY + time + k * MINUTE)
  {
    var wall := date * DAY + time;
    var k := 0;
    while k <= LAST_OFFSET
      invariant 0 <= k <= LAST_OFFSET + 1
      invariant forall j: nat :: j < k ==> !Shown(z, wall + j * MINUTE)
    {
      var candidate := wall + k * MINUTE;
      var earliest := None;
      var a := z.foldZero(candidate);
      if z.shows(a) == candidate {
        earliest := Some(a);
      }
      var b := z.foldOne(candidate);
      if z.shows(b) == candidate && (earliest.None? || b < earliest.value) {
        earliest := Some(b);
      }
      if earliest.Some? {
        assert ShortestDelay(z, wall, k) && EarliestShowing(z, wall + k * MINUTE, earliest.value);
        return earliest;
      }
      k := k + 1;
    }
    return None;
  }

  method NextDailyOccurrence(z: Zone, time: int, after: int) returns (r: Option<int>)
    requires FoldsCoverInstants(z) && 0 <= time < DAY
    ensures ZoneRules(z) ==> r.Some? && (NextRun(z, time, after, r.value) <==> DayIsOver(z, time, after))
    ensures r.Some? ==> after < r.value && exists date :: Occurrence(z, date, time, r.value)
  {
    hide ZoneRules, FoldsCoverInstants, NextRun, DayIsOver, NoneUpcoming, Occurrence, Shown, Date;
    var date := Date(z.shows(after));
    var offset := 0;
    NoneUpcomingYet(z, time, after, date);
    while offset < 3
      invariant 0 <= offset <= 3
      invariant ZoneRules(z) ==> offset < 2 && NoneUpcoming(z, time, after, date, date + offset)
    {
      var candidate := ResolveLocalDailyOccurrence(z, date + offset, time);
      if candidate.None? {
        SearchSucceeds(z, date + offset, time);
        return None;
      }
      if candidate.value > after {
        FirstUpcomingIsNext(z, time, after, date + offset, candidate.value);
        return candidate;
      }
      PastRunExtends(z, time, after, date + offset, candidate.value);
      offset := offset + 1;
    }
    return None;
  }

  /** No run of the dates from `first` up to `date` lies ahead. */
  ghost predicate NoneUpcoming(z: Zone, time: int, after: int, first: int, date: int) {
    forall d, v :: first <= d < date && Occurrence(z, d, time, v) ==> v <= after
  }

  lemma NoneUpcomingYet(z: Zone, time: int, after: int, date: int)
    ensures NoneUpcoming(z, time, after, date, date)
  {
  }

  /** The search starts at the date of `after`: it finds the next run exactly when yesterday's is past. */
  lemma FirstUpcomingIsNext(z: Zone, time: int, after: int, date: int, u: int)
    requires 0 <= time < DAY && Occurrence(z, date, time, u) && after < u && Date(z.shows(after)) <= date
    requires ZoneRules(z) ==> NoneUpcoming(z, time, after, Date(z.shows(after)), date)
    ensures ZoneRules(z) ==> (NextRun(z, time, after, u) <==> DayIsOver(z, time, after))
  {
    hide ZoneRules, Occurrence, Date;
    if ZoneRules(z) {
      var today := Date(z.shows(after));
      if NextRun(z, time, after, u) {
        forall d, v | Occurrence(z, d, time, v) && d < today
          ensures v <= after
        {
          OccurrencesAreOrderedByDate(z, time, d, v, date, u);
        }
      }
      if DayIsOver(z, time, after) {
        forall d, v | Occurrence(z, d, time, v) && after < v
          ensures u <= v
        {
          if d > date {
            OccurrencesAreOrderedByDate(z, time, date, u, d, v);
          } else if d == date {
            OccurrenceIsUnique(z, d, time, v, u);
          }
        }
      }
    }
  }

  /** A run already past is on today's date at the latest, so the search moves on at most once. */
  lemma PastRunExtends(z: Zone, time: int, after: int, date: int, u: int)
    requires 0 <= time < DAY && Occurrence(z, date, time, u) && u <= after
    requires ZoneRules(z) ==> NoneUpcoming(z, time, after, Date(z.shows(after)), date)
    ensures ZoneRules(z) ==> date <= Date(z.shows(after)) && NoneUpcoming(z, time, after, Date(z.shows(after)), date + 1)
  {
    hide ZoneRules, Occurrence, Date;
    if ZoneRules(z) {
      OccurrenceAgainstNow(z, time, after, date, u);
      forall d, v | Date(z.shows(after)) <= d < date + 1 && Occurrence(z, d, time, v)
        ensures v <= after
      {
        if d == date {
          OccurrenceIsUnique(z, d, time, v, u);
        }
      }
    }
  }

  lemma SearchSucceeds(z: Zone, date: int, time: int)
    ensures ZoneRules(z) ==> exists k: nat :: k <= LAST_OFFSET && Shown(z, date * DAY + time + k * MINUTE)
  {
    if ZoneRules(z) {
      var k := DelayOutOfGap(z, date * DAY + time);
    }
  }

  datatype DueRun = NotDue | Due(run: int) | Unresolvable

  /** `run` is the larger of the greatest past run and the next run, and not ahead. */
  ghost predicate IsLatestDue(z: Zone, time: int, nextRun: int, now: int, run: int) {
    run <= now && exists g :: LatestRun(z, time, now, g) && run == if g < nextRun then nextRun else g
  }

  method LatestDueOccurrence(z: Zone, time: int, nextRun: Option<int>, now: int) returns (r: DueRun)
    requires FoldsCoverInstants(z) && 0 <= time < DAY
    ensures r.NotDue? <==> nextRun.None? || now < nextRun.value
    ensures r.Due? ==> nextRun.value <= r.run
    ensures ZoneRules(z) && !r.NotDue? ==> r.Due? && (IsLatestDue(z, time, nextRun.value, now, r.run) <==> DayIsOver(z, time, now))
  {
    hide ZoneRules, FoldsCoverInstants, LatestRun, DayIsOver, Occurrence, Shown, Date;
    if nextRun.None? || now < nextRun.value {
      return NotDue;
    }
    var date := Date(z.shows(now));
    var candidate := ResolveLocalDailyOccurrence(z, date, time);
    if candidate.None? {
      SearchSucceeds(z, date, time);
      return Unresolvable;
    }
    if candidate.value <= now {
      TodaysRunIsLatest(z, time, now, candidate.value);
    } else {
      ghost var today := candidate.value;
      candidate := ResolveLocalDailyOccurrence(z, date - 1, time);
      if candidate.None? {
        SearchSucceeds(z, date - 1, time);
        return Unresolvable;
      }
      YesterdaysRunIsLatest(z, time, now, today, candidate.value);
    }
    return Due(if candidate.value < nextRun.value then nextRun.value else candidate.value);
  }

  lemma TodaysRunIsLatest(z: Zone, time: int, now: int, u: int)
    requires 0 <= time < DAY && Occurrence(z, Date(z.shows(now)), time, u) && u <= now
    ensures ZoneRules(z) ==> LatestRun(z, time, now, u) && DayIsOver(z, time, now)
  {
    hide ZoneRules, Occurrence, Date;
    if ZoneRules(z) {
      var today := Date(z.shows(now));
      forall d, v | Occurrence(z, d, time, v)
        ensures d < today ==> v < u
        ensures d == today ==> v == u
        ensures d > today ==> now < v
      {
        if d < today {
          OccurrencesAreOrderedByDate(z, time, d, v, today, u);
        } else if d == today {
          OccurrenceIsUnique(z, d, time, u, v);
        } else {
          OccurrenceAgainstNow(z, time, now, d, v);
        }
      }
    }
  }

  /** With today's run ahead, yesterday's is the latest exactly when it is past. */
  lemma YesterdaysRunIsLatest(z: Zone, time: int, now: int, today: int, u: int)
    requires 0 <= time < DAY && Occurrence(z, Date(z.shows(now)), time, today) && now < today
    requires Occurrence(z, Date(z.shows(now)) - 1, time, u)
    ensures ZoneRules(z) ==> (u <= now <==> DayIsOver(z, time, now))
    ensures ZoneRules(z) && u <= now ==> LatestRun(z, time, now, u)
  {
    hide ZoneRules, Occurrence, Date;
    if ZoneRules(z) {
      var date := Date(z.shows(now));
      forall d, v | Occurrence(z, d, time, v)
        ensures d < date - 1 ==> v < u
        ensures d == date - 1 ==> v == u
        ensures d >= date ==> now < v
      {
        if d < date - 1 {
          OccurrencesAreOrderedByDate(z, time, d, v, date - 1, u);
        } else if d == date - 1 {
          OccurrenceIsUnique(z, d, time, u, v);
        } else if d == date {
          OccurrenceIsUnique(z, d, time, today, v);
        } else {
          OccurrenceAgainstNow(z, time, now, d, v);
        }
      }
    }
  }

  // ---- The zone rules hold of summer-time zones ----

  /** Clocks go forward one `shift` at `spring` and back at `autumn`. */
  function SummerTime(spring: int, autumn: int, shift: int): Zone {
    Zone(
      (u: int) => if spring <= u < autumn then u + shift else u,
      (reading: int) => if spring + shift <= reading < autumn + shift then reading - shift else reading,
      (reading: int) => if spring + shift <= reading < autumn then reading - shift else reading)
  }

  /** The fold lies inside one local date; the gap may lie anywhere. */
  predicate IsSummerTime(spring: int, autumn: int, shift: int) {
    && 0 < shift <= LAST_OFFSET * MINUTE && spring + shift + MINUTE <= autumn
    && Date(autumn) == Date(autumn + shift - 1)
  }

  lemma DateIsMonotone(a: int, b: int)
    requires a <= b
    ensures Date(a) <= Date(b)
  {
  }

  lemma SummerTimeDates(spring: int, autumn: int, shift: int, u: int, v: int)
    requires IsSummerTime(spring, autumn, shift) && u <= v
    ensures Date(SummerTime(spring, autumn, shift).shows(u)) <= Date(SummerTime(spring, autumn, shift).shows(v))
  {
    var z := SummerTime(spring, autumn, shift);
    if spring <= u < autumn <= v {
      DateIsMonotone(z.shows(u), autumn + shift - 1);
      DateIsMonotone(autumn, z.shows(v));
    } else {
      DateIsMonotone(z.shows(u), z.shows(v));
    }
  }

  lemma SummerTimeShows(spring: int, autumn: int, shift: int, reading: int)
    requires IsSummerTime(spring, autumn, shift)
    ensures Shown(SummerTime(spring, autumn, shift), reading) <==> !(spring <= reading < spring + shift)
  {
    var z := SummerTime(spring, autumn, shift);
    if !(spring <= reading < spring + shift) {
      assert z.shows(z.foldZero(reading)) == reading;
    }
  }

  lemma SummerTimeMeetsRules(spring: int, autumn: int, shift: int)
    requires IsSummerTime(spring, autumn, shift)
    ensures ZoneRules(SummerTime(spring, autumn, shift))
  {
    var z := SummerTime(spring, autumn, shift);
    forall u, v | u <= v
      ensures Date(z.shows(u)) <= Date(z.shows(v))
    {
      SummerTimeDates(spring, autumn, shift, u, v);
    }
    forall reading
      ensures Shown(z, reading) || exists end :: ClosesGap(z, reading, end)
    {
      SummerTimeShows(spring, autumn, shift, reading);
      if !Shown(z, reading) {
        forall x | spring + shift <= x < spring + shift + MINUTE
          ensures Shown(z, x)
        {
          SummerTimeShows(spring, autumn, shift, x);
        }
        assert ClosesGap(z, reading, spring + shift);
      }
    }
  }

  /** Where the gap ends on its own date, every daily time keeps up. */
  lemma SummerTimeKeepsUp(spring: int, autumn: int, shift: int, time: int)
    requires IsSummerTime(spring, autumn, shift) && Date(spring) == Date(spring + shift + MINUTE) && 0 <= time < DAY
    ensures RunsKeepUp(SummerTime(spring, autumn, shift), time)
  {
    var z := SummerTime(spring, autumn, shift);
    SummerTimeMeetsRules(spring, autumn, shift);
    hide *;
    forall date, u | Occurrence(z, date, time, u)
      ensures Date(z.shows(u)) == date
    {
      SummerTimeKeepsDate(spring, autumn, shift, date, time, u);
    }
    SameDayGapsKeepUp(z, time);
  }

  lemma SummerTimeKeepsDate(spring: int, autumn: int, shift: int, date: int, time: int, u: int)
    requires IsSummerTime(spring, autumn, shift) && Date(spring) == Date(spring + shift + MINUTE) && 0 <= time < DAY
    requires Occurrence(SummerTime(spring, autumn, shift), date, time, u)
    ensures Date(SummerTime(spring, autumn, shift).shows(u)) == date
  {
    hide Occurrence, SummerTime, Date;
    SummerTimeRun(spring, autumn, shift, date, time, u);
    CombineDate(date, time);
    var wall, reading := date * DAY + time, SummerTime(spring, autumn, shift).shows(u);
    if spring <= wall < spring + shift {
      DateIsMonotone(spring, wall);
      DateIsMonotone(wall, spring + shift + MINUTE);
      DateIsMonotone(wall, reading);
      DateIsMonotone(reading, spring + shift + MINUTE);
    }
  }

  /** A run is at its own time, or in the first minute after the gap. */
  lemma SummerTimeRun(spring: int, autumn: int, shift: int, date: int, time: int, u: int)
    requires IsSummerTime(spring, autumn, shift) && 0 <= time < DAY && Occurrence(SummerTime(spring, autumn, shift), date, time, u)
    ensures var wall := date * DAY + time;
            var reading := SummerTime(spring, autumn, shift).shows(u);
            if spring <= wall < spring + shift
            then spring + shift <= reading < spring + shift + MINUTE && (reading - wall) % MINUTE == 0
            else reading == wall
  {
    var z, wall := SummerTime(spring, autumn, shift), date * DAY + time;
    var k := OccurrenceReading(z, date, time, u);
    SummerTimeShows(spring, autumn, shift, wall);
    SummerTimeShows(spring, autumn, shift, wall + k * MINUTE);
    if k > 0 {
      SummerTimeShows(spring, autumn, shift, wall + (k - 1) * MINUTE);
      assert !Shown(z, wall + (k - 1) * MINUTE);
      assert !Shown(z, wall + 0 * MINUTE);
    }
  }

  /** The time lies before a gap of `shift` that ends at midnight, or on a whole minute. */
  predicate MissesMidnightGap(time: int, shift: int) {
    time < DAY - shift || time % MINUTE == 0
  }

  lemma MidnightGapMissed(day: int, autumn: int, shift: int, time: int, z: Zone)
    requires IsSummerTime(day * DAY - shift, autumn, shift) && 0 <= time < DAY && MissesMidnightGap(time, shift)
    requires z == SummerTime(day * DAY - shift, autumn, shift)
    ensures RunsKeepUp(z, time)
  {
    hide *;
    SummerTimeMeetsRules(day * DAY - shift, autumn, shift);
    forall at, date, u | Occurrence(z, date, time, u) && date < Date(z.shows(at))
      ensures u <= at
    {
      MidnightGapRun(day, autumn, shift, time, date, at, u);
    }
    KeepsUp(z, time);
  }

  lemma MidnightGapHit(day: int, autumn: int, shift: int, time: int, z: Zone)
    requires IsSummerTime(day * DAY - shift, autumn, shift) && 0 <= time < DAY && !MissesMidnightGap(time, shift)
    requires z == SummerTime(day * DAY - shift, autumn, shift)
    ensures !DayIsOver(z, time, day * DAY - shift) && !RunsKeepUp(z, time)
  {
    hide *;
    SummerTimeMeetsRules(day * DAY - shift, autumn, shift);
    var u := OccurrenceExists(z, day - 1, time);
    MidnightGapDelay(day, autumn, shift, time, u);
    FallsBehind(z, time, day - 1, u, day * DAY - shift);
  }

  /**
   Where the gap runs up to midnight, as in Greenland, a daily time keeps up exactly if it lies before
   the gap or on a whole minute. Any other is carried some seconds into the new date, where the
   search no longer looks for it.
   */
  lemma MidnightGapKeepsUpExactly(day: int, autumn: int, shift: int, time: int)
    requires IsSummerTime(day * DAY - shift, autumn, shift) && 0 <= time < DAY
    ensures ZoneRules(SummerTime(day * DAY - shift, autumn, shift))
    ensures RunsKeepUp(SummerTime(day * DAY - shift, autumn, shift), time) <==> MissesMidnightGap(time, shift)
  {
    hide *;
    SummerTimeMeetsRules(day * DAY - shift, autumn, shift);
    if MissesMidnightGap(time, shift) {
      MidnightGapMissed(day, autumn, shift, time, SummerTime(day * DAY - shift, autumn, shift));
    } else {
      MidnightGapHit(day, autumn, shift, time, SummerTime(day * DAY - shift, autumn, shift));
    }
  }

  lemma MidnightGapDelay(day: int, autumn: int, shift: int, time: int, u: int)
    requires IsSummerTime(day * DAY - shift, autumn, shift) && 0 <= time < DAY && !MissesMidnightGap(time, shift)
    requires Occurrence(SummerTime(day * DAY - shift, autumn, shift), day - 1, time, u)
    ensures day - 1 < Date(SummerTime(day * DAY - shift, autumn, shift).shows(day * DAY - shift)) && day * DAY - shift < u
  {
    hide Occurrence;
    var spring := day * DAY - shift;
    var z := SummerTime(spring, autumn, shift);
    SummerTimeRun(spring, autumn, shift, day - 1, time, u);
    assert z.shows(spring) == day * DAY;
    CombineDate(day, 0);
    OffTheMinute(day, time, z.shows(u));
    assert z.shows(u) > day * DAY;
  }

  lemma OffTheMinute(day: int, time: int, reading: int)
    requires time % MINUTE != 0 && (reading - ((day - 1) * DAY + time)) % MINUTE == 0
    ensures reading != day * DAY
  {
    var k := (reading - ((day - 1) * DAY + time)) / MINUTE;
    assert time == (1440 - k) * MINUTE + (reading - day * DAY);
    MinutesAside(reading - day * DAY, 1440 - k);
  }

  lemma MinutesAside(x: int, n: int)
    ensures (n * MINUTE + x) % MINUTE == x % MINUTE
  {
  }

  lemma MidnightGapRun(day: int, autumn: int, shift: int, time: int, date: int, at: int, u: int)
    requires IsSummerTime(day * DAY - shift, autumn, shift) && 0 <= time < DAY
    requires MissesMidnightGap(time, shift)
    requires Occurrence(SummerTime(day * DAY - shift, autumn, shift), date, time, u)
    requires date < Date(SummerTime(day * DAY - shift, autumn, shift).shows(at))
    ensures u <= at
  {
    hide Occurrence;
    var spring := day * DAY - shift;
    var z := SummerTime(spring, autumn, shift);
    SummerTimeRun(spring, autumn, shift, date, time, u);
    CombineDate(date, time);
    if spring <= date * DAY + time < spring + shift {
      GapDate(day, shift, date, time);
      WholeMinutes(day, time, z.shows(u));
      assert u == spring;
      assert z.shows(at) >= day * DAY;
    } else if at < u {
      SummerTimeDates(spring, autumn, shift, at, u);
    }
  }

  lemma GapDate(day: int, shift: int, date: int, time: int)
    requires 0 < shift <= LAST_OFFSET * MINUTE && 0 <= time < DAY && day * DAY - shift <= date * DAY + time < day * DAY
    ensures date == day - 1 && DAY - shift <= time
  {
  }

  lemma WholeMinutes(day: int, time: int, reading: int)
    requires time % MINUTE == 0 && day * DAY <= reading < day * DAY + MINUTE && (reading - ((day - 1) * DAY + time)) % MINUTE == 0
    ensures reading == day * DAY
  {
    var m := time / MINUTE;
    assert time == m * MINUTE;
    var k := (reading - ((day - 1) * DAY + time)) / MINUTE;
    assert reading == ((day - 1) * 1440 + m + k) * MINUTE;
  }
}
