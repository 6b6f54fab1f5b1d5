/** The calendar scheduler: the search for the next daily or weekly run and the run loop
    over the readings of a clock. */
module CalendarScheduler {
  import opened Ordering
  import opened Instants
  import opened Calendar
  import I = IntervalScheduler

  /** The greatest number of days a duration can tell apart. */
  const MAX_DAYS: int := MAX_DURATION / DAY

  function CivilDaysBetween(from: int, to: int): int {
    Quotient(Elapsed(from * DAY, to * DAY), DAY)
  }

  /** Days are counted exactly up to their greatest number, and never over. */
  lemma CivilDays(from: int, to: int)
    ensures var d := CivilDaysBetween(from, to);
            && d <= Max(to - from, 0) && d <= MAX_DAYS
            && (0 <= to - from <= MAX_DAYS ==> d == to - from)
            && (to >= from ==> d >= 0)
  {
  }

  function NextMultiple(value: int, every: int): int
    requires value >= 0 && every > 0
  {
    if value % every == 0 then value else value + every - value % every
  }

  lemma NextMultipleIsLeast(value: int, every: int)
    requires value >= 0 && every > 0
    ensures var m := NextMultiple(value, every);
            && value <= m < value + every && m % every == 0
            && forall k :: k % every == 0 && k >= value ==> k >= m
  {
    if value % every != 0 {
      MultiplesApart(value, every);
    }
  }

  lemma MultiplesApart(value: int, every: int)
    requires every > 0 && value % every != 0
    ensures (value + every - value % every) % every == 0
    ensures forall k :: k % every == 0 && k >= value ==> k >= value + every - value % every
  {
    var q := value / every;
    assert value + every - value % every == (q + 1) * every;
    I.MulMonotone(0, 0, every);
    assert ((q + 1) * every) % every == 0 by { MultipleRemainder(q + 1, every); }
    forall k | k % every == 0 && k >= value ensures k >= (q + 1) * every {
      assert k == (k / every) * every;
      I.MulMonotone(q + 1, k / every, every);
      I.MulMonotone(k / every, q, every);
    }
  }

  lemma MultipleRemainder(q: int, every: int)
    requires every > 0
    ensures (q * every) % every == 0
  {
    var a := q * every;
    var d, r := a / every, a % every;
    assert (q - d) * every == r;
    I.MulMonotone(q - d, 0, every);
    I.MulMonotone(1, q - d, every);
  }

  // ---------------------------------------------------------------- searching the dates

  /** The first of a date's times not before `from`, as an instant. */
  ghost predicate IsFirstOnDay(zone: Zone, day: int, times: seq<int>, from: int, first: Occurrence) {
    && (first.At? ==> from <= first.instant && exists t :: t in times && zone.occurrence(day, t) == first)
    && forall t :: t in times && zone.occurrence(day, t).At? && from <= zone.occurrence(day, t).instant ==>
         first.At? && first.instant <= zone.occurrence(day, t).instant
  }

  /** No occurrence on an active date before `bound` is as late as `from`. */
  ghost predicate NoneBefore(logger: Logger, from: int, bound: int)
    requires Every(logger) > 0
  {
    forall day, t ::
      ActiveDay(logger, day) && day < bound && t in logger.times && logger.zone.occurrence(day, t).At? ==>
        logger.zone.occurrence(day, t).instant < from
  }

  method FirstOnDay(zone: Zone, day: int, times: seq<int>, startAt: int, threshold: int) returns (first: Occurrence)
    requires zone.Valid() && StrictlyIncreasing(times)
    ensures IsFirstOnDay(zone, day, times, Max(startAt, threshold), first)
  {
    for i := 0 to |times|
      invariant IsFirstOnDay(zone, day, times[..i], Max(startAt, threshold), Absent)
    {
      assert times[..i + 1] == times[..i] + [times[i]];
      var candidate := zone.occurrence(day, times[i]);
      if candidate.At? && candidate.instant >= startAt && candidate.instant >= threshold {
        assert forall k :: 0 <= k < i ==> times[k] in times[..i];
        assert forall k :: i <= k < |times| ==> times[i] <= times[k];
        assert times[i] in times && zone.occurrence(day, times[i]) == candidate;
        return candidate;
      }
    }
    assert times[..|times|] == times;
    return Absent;
  }

  ghost predicate Searchable(logger: Logger, times: seq<int>) {
    && logger.zone.Valid() && Every(logger) > 0 && StrictlyIncreasing(times)
    && logger.unit in {Days, Weeks}
    && forall t :: t in times <==> t in logger.times
  }

  lemma FoundIsNext(logger: Logger, times: seq<int>, from: int, day: int, first: Occurrence)
    requires Searchable(logger, times) && logger.startAt <= from
    requires NoneBefore(logger, from, day) && ActiveDay(logger, day)
    requires IsFirstOnDay(logger.zone, day, times, from, first) && first.At?
    ensures IsNext(logger, from, first.instant) && logger.zone.localDay(first.instant) == day
  {
    var t :| t in times && logger.zone.occurrence(day, t) == first;
    assert OccursAt(logger, first.instant, t);
    forall q | Occurs(logger, q) && from <= q ensures first.instant <= q {
      var u :| u in logger.times && OccursAt(logger, q, u);
      assert logger.zone.localDay(q) >= day;
    }
  }

  /** A date without a run may be passed, with the inactive dates after it. */
  lemma PassDay(logger: Logger, times: seq<int>, from: int, day: int, bound: int)
    requires Searchable(logger, times)
    requires NoneBefore(logger, from, day)
    requires IsFirstOnDay(logger.zone, day, times, from, Absent)
    requires forall d :: day < d < bound ==> !ActiveDay(logger, d)
    ensures NoneBefore(logger, from, bound)
  {
  }

  /** A date after that of `from` has all its times after `from`. */
  lemma LaterDayHasRun(logger: Logger, times: seq<int>, from: int, day: int)
    requires Searchable(logger, times) && logger.zone.GapFree(times) && times != []
    requires logger.zone.localDay(from) < day
    ensures !IsFirstOnDay(logger.zone, day, times, from, Absent)
  {
    var t := times[0];
    assert t in times && logger.zone.occurrence(day, t).At?;
    var instant := logger.zone.occurrence(day, t).instant;
    assert logger.zone.localDay(instant) == day;
    assert instant <= from ==> logger.zone.localDay(instant) <= logger.zone.localDay(from);
  }

  ghost predicate Dense(logger: Logger, from: int) {
    logger.zone.GapFree(logger.times) && logger.zone.localDay(from) - StartWeek(logger) <= MAX_DAYS
  }

  /** A search without gaps to fear is at most two cycles past the date of `from`. */
  ghost predicate Prompt(logger: Logger, from: int, cycle: int, date: int) {
    Dense(logger, from) ==> date < logger.zone.localDay(from) + 2 * cycle
  }

  /** What a search promises: the least run; or, having found none, that no active date
      before the limit has one. When every date shows every time, the limit is beyond the
      date of `from`, and the run lies within two cycles of that date. */
  ghost predicate Searched(logger: Logger, from: int, cycle: int, limit: int, run: Occurrence)
    requires Every(logger) > 0
  {
    && (run.At? ==> IsNext(logger, from, run.instant) && logger.zone.localDay(run.instant) < limit)
    && (run.Absent? ==> NoneBefore(logger, from, limit))
    && (Dense(logger, from) ==> run.At? && logger.zone.localDay(run.instant) < logger.zone.localDay(from) + 2 * cycle)
  }

  // ---------------------------------------------------------------- every so many days

  function FirstDailyCycle(logger: Logger, threshold: int): int
    requires Every(logger) > 0
  {
    NextMultiple(Max(CivilDaysBetween(StartDay(logger), logger.zone.localDay(threshold)), 0), Every(logger))
  }

  lemma DailyStart(logger: Logger, times: seq<int>, threshold: int)
    requires Searchable(logger, times) && logger.unit == Days
    ensures var from, first := Max(logger.startAt, threshold), StartDay(logger) + FirstDailyCycle(logger, threshold);
            && NoneBefore(logger, from, first) && ActiveDay(logger, first)
            && (Dense(logger, from) ==>
                  logger.zone.localDay(from) <= first < logger.zone.localDay(from) + Every(logger))
  {
    var from := Max(logger.startAt, threshold);
    CivilDays(StartDay(logger), logger.zone.localDay(threshold));
    NextMultipleIsLeast(Max(CivilDaysBetween(StartDay(logger), logger.zone.localDay(threshold)), 0), Every(logger));
    assert Max(CivilDaysBetween(StartDay(logger), logger.zone.localDay(threshold)), 0)
        <= logger.zone.localDay(from) - StartDay(logger);
    forall day, t | ActiveDay(logger, day) && day < StartDay(logger) + FirstDailyCycle(logger, threshold)
                    && t in logger.times && logger.zone.occurrence(day, t).At?
      ensures logger.zone.occurrence(day, t).instant < from
    {
      assert day < logger.zone.localDay(from);
    }
  }

  lemma DailyNeighbours(logger: Logger, day: int)
    requires Every(logger) > 0 && logger.unit == Days && ActiveDay(logger, day)
    ensures ActiveDay(logger, day + Every(logger))
    ensures forall d :: day < d < day + Every(logger) ==> !ActiveDay(logger, d)
  {
    Neighbours(day - StartDay(logger), Every(logger));
    forall d | day < d < day + Every(logger) ensures !ActiveDay(logger, d) {
      var k := d - StartDay(logger);
      assert k % Every(logger) != 0;
    }
  }

  /** Between a multiple and the next one there is none. */
  lemma Neighbours(base: int, every: int)
    requires every > 0 && base % every == 0
    ensures (base + every) % every == 0
    ensures forall k :: base < k < base + every ==> k % every != 0
  {
    var q := base / every;
    assert base == q * every;
    MultipleRemainder(q + 1, every);
    I.MulMonotone(q, q, every);
    forall k | base < k < base + every ensures k % every != 0 {
      I.MulMonotone(k / every, q, every);
      I.MulMonotone(q + 1, k / every, every);
      assert k == k / every * every + k % every;
    }
  }

  /** Where the search stands before its attempt number `attempts`. */
  ghost predicate DailyProgress(logger: Logger, threshold: int, attempts: int, date: int)
    requires Every(logger) > 0
  {
    var from := Max(logger.startAt, threshold);
    && date == StartDay(logger) + FirstDailyCycle(logger, threshold) + attempts * Every(logger)
    && ActiveDay(logger, date)
    && NoneBefore(logger, from, date)
    && Prompt(logger, from, Every(logger), date)
  }

  ghost predicate DailySearched(logger: Logger, threshold: int, run: Occurrence)
    requires Every(logger) > 0
  {
    Searched(logger, Max(logger.startAt, threshold), Every(logger),
             StartDay(logger) + FirstDailyCycle(logger, threshold) + 8 * Every(logger), run)
  }

  lemma FoundDaily(logger: Logger, times: seq<int>, threshold: int, attempts: int, date: int, run: Occurrence)
    requires Searchable(logger, times) && logger.unit == Days
    requires 0 <= attempts < 8 && DailyProgress(logger, threshold, attempts, date)
    requires IsFirstOnDay(logger.zone, date, times, Max(logger.startAt, threshold), run) && run.At?
    ensures DailySearched(logger, threshold, run)
  {
    FoundIsNext(logger, times, Max(logger.startAt, threshold), date, run);
    I.MulMonotone(attempts + 1, 8, Every(logger));
  }

  /** One cycle without a run. */
  lemma PassDailyCycle(logger: Logger, times: seq<int>, threshold: int, attempts: int, date: int)
    requires Searchable(logger, times) && logger.unit == Days && times != []
    requires DailyProgress(logger, threshold, attempts, date)
    requires IsFirstOnDay(logger.zone, date, times, Max(logger.startAt, threshold), Absent)
    ensures DailyProgress(logger, threshold, attempts + 1, date + Every(logger))
  {
    var from := Max(logger.startAt, threshold);
    DailyNeighbours(logger, date);
    PassDay(logger, times, from, date, date + Every(logger));
    I.MulMonotone(attempts, attempts, Every(logger));
    if Dense(logger, from) && logger.zone.localDay(from) < date {
      LaterDayHasRun(logger, times, from, date);
    }
  }

  lemma NoDailyRun(logger: Logger, times: seq<int>, threshold: int, date: int)
    requires Searchable(logger, times) && logger.unit == Days
    requires DailyProgress(logger, threshold, 8, date)
    ensures DailySearched(logger, threshold, Absent)
  {
    DailyStart(logger, times, threshold);
  }

  lemma DailyAttempt(logger: Logger, times: seq<int>, threshold: int, attempts: int, date: int, run: Occurrence)
    requires Searchable(logger, times) && logger.unit == Days && times != []
    requires 0 <= attempts < 8 && DailyProgress(logger, threshold, attempts, date)
    requires IsFirstOnDay(logger.zone, date, times, Max(logger.startAt, threshold), run)
    ensures run.At? ==> DailySearched(logger, threshold, run)
    ensures run.Absent? ==> DailyProgress(logger, threshold, attempts + 1, date + Every(logger))
  {
    if run.At? {
      FoundDaily(logger, times, threshold, attempts, date, run);
    } else {
      PassDailyCycle(logger, times, threshold, attempts, date);
    }
  }

  lemma DailyBegins(logger: Logger, times: seq<int>, threshold: int)
    requires Searchable(logger, times) && logger.unit == Days
    ensures DailyProgress(logger, threshold, 0, StartDay(logger) + FirstDailyCycle(logger, threshold))
  {
    DailyStart(logger, times, threshold);
  }

  method NextDailyRun(logger: Logger, times: seq<int>, threshold: int) returns (run: Occurrence)
    requires Searchable(logger, times) && logger.unit == Days && times != []
    ensures DailySearched(logger, threshold, run)
  {
    var startDate := StartDay(logger);
    var daysSinceStart := CivilDaysBetween(startDate, logger.zone.localDay(threshold));
    if daysSinceStart < 0 {
      daysSinceStart := 0;
    }
    var cycle := NextMultiple(daysSinceStart, Every(logger));
    DailyBegins(logger, times, threshold);
    var date := startDate + cycle;
    for attempts := 0 to 8
      invariant DailyProgress(logger, threshold, attempts, date)
    {
      run := FirstOnDay(logger.zone, date, times, logger.startAt, threshold);
      DailyAttempt(logger, times, threshold, attempts, date, run);
      if run.At? {
        return;
      }
      date := date + Every(logger);
    }
    NoDailyRun(logger, times, threshold, date);
    return Absent;
  }

  // ---------------------------------------------------------------- every so many weeks

  function FirstWeeklyCycle(logger: Logger, threshold: int): int
    requires Every(logger) > 0
  {
    var days := CivilDaysBetween(StartWeek(logger), logger.zone.localDay(threshold));
    NextMultiple(Max(Quotient(days, 7), 0), Every(logger))
  }

  /** The active dates of an active week are its chosen weekdays. */
  lemma WeekOf(day: int, base: int)
    requires Weekday(base) == 1
    ensures Monday(day) == base + (day - base) / 7 * 7
    ensures Weekday(day) == day - Monday(day) + 1
    ensures (Monday(day) - base) / 7 == (day - base) / 7
  {
  }

  /** Active weeks before the first one tried lie before the week of `from`. */
  lemma FirstWeek(logger: Logger, threshold: int)
    requires logger.zone.Valid() && Every(logger) > 0
    ensures var first := FirstWeeklyCycle(logger, threshold);
            var before := logger.zone.localDay(Max(logger.startAt, threshold)) - StartWeek(logger);
            && first >= 0 && first % Every(logger) == 0
            && (forall k :: 0 <= k < first && k % Every(logger) == 0 ==> 7 * (k + 1) <= before)
            && (before <= MAX_DAYS ==> before - 7 < 7 * first < before + 7 * Every(logger))
  {
    var from := Max(logger.startAt, threshold);
    var days := CivilDaysBetween(StartWeek(logger), logger.zone.localDay(threshold));
    CivilDays(StartWeek(logger), logger.zone.localDay(threshold));
    NextMultipleIsLeast(Max(Quotient(days, 7), 0), Every(logger));
    assert logger.zone.localDay(threshold) <= logger.zone.localDay(from);
    assert logger.zone.localDay(logger.startAt) <= logger.zone.localDay(from);
  }

  /** An active date before the first week tried comes before the date of `from`. */
  lemma BeforeFirstWeek(logger: Logger, threshold: int, day: int)
    requires logger.zone.Valid() && Every(logger) > 0 && logger.unit == Weeks && ActiveDay(logger, day)
    requires day < StartWeek(logger) + 7 * FirstWeeklyCycle(logger, threshold)
    ensures day < logger.zone.localDay(Max(logger.startAt, threshold))
  {
    FirstWeek(logger, threshold);
    ActiveWeek(logger, day);
    var k := (day - StartWeek(logger)) / 7;
    assert day < StartWeek(logger) + 7 * (k + 1);
  }

  /** The number of an active date's week is a multiple of the interval. */
  lemma ActiveWeek(logger: Logger, day: int)
    requires Every(logger) > 0 && logger.unit == Weeks && ActiveDay(logger, day)
    ensures var k := (day - StartWeek(logger)) / 7; k >= 0 && k % Every(logger) == 0
  {
    WeekOf(day, StartWeek(logger));
  }

  lemma NoneBeforeFirstWeek(logger: Logger, times: seq<int>, threshold: int)
    requires Searchable(logger, times) && logger.unit == Weeks
    ensures var first := StartWeek(logger) + 7 * FirstWeeklyCycle(logger, threshold);
            NoneBefore(logger, Max(logger.startAt, threshold), first)
  {
    var from, start := Max(logger.startAt, threshold), StartWeek(logger);
    forall day, t | ActiveDay(logger, day) && day < start + 7 * FirstWeeklyCycle(logger, threshold)
                    && t in logger.times && logger.zone.occurrence(day, t).At?
      ensures logger.zone.occurrence(day, t).instant < from
    {
      BeforeFirstWeek(logger, threshold, day);
    }
  }

  lemma WeeklyStart(logger: Logger, times: seq<int>, threshold: int)
    requires Searchable(logger, times) && logger.unit == Weeks
    ensures WeeklyProgress(logger, threshold, 0, FirstWeeklyCycle(logger, threshold))
    ensures var from := Max(logger.startAt, threshold);
            Dense(logger, from) ==>
              logger.zone.localDay(from) - 7 < StartWeek(logger) + 7 * FirstWeeklyCycle(logger, threshold)
  {
    FirstWeek(logger, threshold);
    NoneBeforeFirstWeek(logger, times, threshold);
  }

  /** In the weeks of one cycle only the chosen weekdays of the first are active. */
  lemma WeekIsActive(logger: Logger, week: int)
    requires Every(logger) > 0 && logger.unit == Weeks && week >= 0 && week % Every(logger) == 0
    ensures (week + Every(logger)) % Every(logger) == 0
    ensures var monday := StartWeek(logger) + 7 * week;
            forall day :: monday <= day < monday + 7 * Every(logger) ==>
              (ActiveDay(logger, day) <==> day - monday + 1 in logger.weekdays && day < monday + 7)
  {
    var every, start := Every(logger), StartWeek(logger);
    var monday := start + 7 * week;
    Neighbours(week, every);
    forall day | monday <= day < monday + 7 * every
      ensures ActiveDay(logger, day) <==> day - monday + 1 in logger.weekdays && day < monday + 7
    {
      WeekOf(day, start);
      assert week <= (day - start) / 7 < week + every;
      if day < monday + 7 {
        assert (day - start) / 7 == week;
      }
    }
  }

  /** Where the search stands before its attempt number `attempts`. */
  ghost predicate WeeklyProgress(logger: Logger, threshold: int, attempts: int, week: int)
    requires Every(logger) > 0
  {
    var from, monday := Max(logger.startAt, threshold), StartWeek(logger) + 7 * week;
    && week == FirstWeeklyCycle(logger, threshold) + attempts * Every(logger)
    && week >= 0 && week % Every(logger) == 0
    && NoneBefore(logger, from, monday)
    && (Dense(logger, from) ==> monday <= logger.zone.localDay(from) + 7 * Every(logger))
  }

  ghost predicate WeeklySearched(logger: Logger, threshold: int, run: Occurrence)
    requires Every(logger) > 0
  {
    Searched(logger, Max(logger.startAt, threshold), 7 * Every(logger),
             StartWeek(logger) + 7 * (FirstWeeklyCycle(logger, threshold) + 8 * Every(logger)), run)
  }

  /** Where the search of one week stands after its first `tried` weekdays. */
  ghost predicate WeekdayProgress(logger: Logger, weekdays: seq<int>, threshold: int, week: int, tried: nat)
    requires Every(logger) > 0 && tried <= |weekdays|
  {
    var from, monday := Max(logger.startAt, threshold), StartWeek(logger) + 7 * week;
    && NoneBefore(logger, from, monday + (if tried == 0 then 0 else weekdays[tried - 1]))
    && (tried > 0 && Dense(logger, from) ==> monday <= logger.zone.localDay(from))
  }

  ghost predicate WeeklySearchable(logger: Logger, times: seq<int>, weekdays: seq<int>) {
    && Searchable(logger, times) && logger.unit == Weeks && times != [] && weekdays != []
    && StrictlyIncreasing(weekdays)
    && (forall w :: w in weekdays ==> 1 <= w <= 7)
    && (forall w :: w in weekdays <==> w in logger.weekdays)
  }

  lemma SkipInactive(logger: Logger, from: int, bound: int, next: int)
    requires Every(logger) > 0 && NoneBefore(logger, from, bound)
    requires forall d :: bound <= d < next ==> !ActiveDay(logger, d)
    ensures NoneBefore(logger, from, next)
  {
  }

  /** The weekdays before the one to try next have been tried. */
  lemma ReachWeekday(logger: Logger, times: seq<int>, weekdays: seq<int>, threshold: int, week: int, tried: nat)
    requires WeeklySearchable(logger, times, weekdays) && week >= 0 && week % Every(logger) == 0
    requires tried < |weekdays| && WeekdayProgress(logger, weekdays, threshold, week, tried)
    ensures var day := StartWeek(logger) + 7 * week + weekdays[tried] - 1;
            NoneBefore(logger, Max(logger.startAt, threshold), day) && ActiveDay(logger, day)
  {
    var from, monday := Max(logger.startAt, threshold), StartWeek(logger) + 7 * week;
    WeekIsActive(logger, week);
    var last := if tried == 0 then 0 else weekdays[tried - 1];
    assert weekdays[tried] in weekdays;
    forall d | monday + last <= d < monday + weekdays[tried] - 1 ensures !ActiveDay(logger, d) {
      assert tried > 0 ==> weekdays[tried - 1] in weekdays;
      assert monday <= d < monday + 7 * Every(logger);
      BetweenWeekdays(weekdays, tried, d - monday + 1);
    }
    SkipInactive(logger, from, monday + last, monday + weekdays[tried] - 1);
  }

  lemma BetweenWeekdays(weekdays: seq<int>, tried: nat, w: int)
    requires StrictlyIncreasing(weekdays) && tried <= |weekdays|
    requires tried > 0 ==> weekdays[tried - 1] < w
    requires tried < |weekdays| ==> w < weekdays[tried]
    ensures w !in weekdays
  {
    forall k | 0 <= k < |weekdays| ensures weekdays[k] != w {
      if k < tried {
        assert weekdays[k] <= weekdays[tried - 1];
      } else {
        assert weekdays[tried] <= weekdays[k];
      }
    }
  }

  lemma PassWeekday(logger: Logger, times: seq<int>, weekdays: seq<int>, threshold: int, week: int, tried: nat)
    requires WeeklySearchable(logger, times, weekdays) && week >= 0 && week % Every(logger) == 0
    requires tried < |weekdays| && WeekdayProgress(logger, weekdays, threshold, week, tried)
    requires var day := StartWeek(logger) + 7 * week + weekdays[tried] - 1;
             IsFirstOnDay(logger.zone, day, times, Max(logger.startAt, threshold), Absent)
    ensures WeekdayProgress(logger, weekdays, threshold, week, tried + 1)
  {
    var from, day := Max(logger.startAt, threshold), StartWeek(logger) + 7 * week + weekdays[tried] - 1;
    ReachWeekday(logger, times, weekdays, threshold, week, tried);
    PassDay(logger, times, from, day, day + 1);
    assert weekdays[tried] in weekdays;
    if Dense(logger, from) && logger.zone.localDay(from) < day {
      LaterDayHasRun(logger, times, from, day);
    }
  }

  lemma FoundWeekly(logger: Logger, times: seq<int>, weekdays: seq<int>, threshold: int, attempts: int, week: int,
                    tried: nat, run: Occurrence)
    requires WeeklySearchable(logger, times, weekdays) && 0 <= attempts < 8
    requires WeeklyProgress(logger, threshold, attempts, week) && tried < |weekdays|
    requires WeekdayProgress(logger, weekdays, threshold, week, tried)
    requires var day := StartWeek(logger) + 7 * week + weekdays[tried] - 1;
             IsFirstOnDay(logger.zone, day, times, Max(logger.startAt, threshold), run)
    requires run.At?
    ensures WeeklySearched(logger, threshold, run)
  {
    var from, day := Max(logger.startAt, threshold), StartWeek(logger) + 7 * week + weekdays[tried] - 1;
    ReachWeekday(logger, times, weekdays, threshold, week, tried);
    FoundIsNext(logger, times, from, day, run);
    WeekLimit(FirstWeeklyCycle(logger, threshold), attempts, Every(logger));
    assert weekdays[tried] in weekdays;
    FoundWithin(logger, from, 7 * Every(logger), StartWeek(logger) + 7 * week, day,
                StartWeek(logger) + 7 * (FirstWeeklyCycle(logger, threshold) + 8 * Every(logger)), run);
  }

  lemma WeekLimit(first: int, attempts: int, every: int)
    requires every > 0 && attempts < 8
    ensures 7 * (first + attempts * every) + 7 <= 7 * (first + 8 * every)
  {
    I.MulMonotone(attempts + 1, 8, every);
    I.MulMonotone(attempts, attempts, every);
  }

  lemma FoundWithin(logger: Logger, from: int, cycle: int, monday: int, day: int, limit: int, run: Occurrence)
    requires Every(logger) > 0 && run.At? && IsNext(logger, from, run.instant)
    requires logger.zone.localDay(run.instant) == day < monday + 7 <= limit && cycle >= 7
    requires Dense(logger, from) ==> monday <= logger.zone.localDay(from) + cycle
    ensures Searched(logger, from, cycle, limit, run)
  {
  }

  /** One active week without a run. */
  lemma PassWeek(logger: Logger, times: seq<int>, weekdays: seq<int>, threshold: int, attempts: int, week: int)
    requires WeeklySearchable(logger, times, weekdays)
    requires WeeklyProgress(logger, threshold, attempts, week)
    requires WeekdayProgress(logger, weekdays, threshold, week, |weekdays|)
    ensures WeeklyProgress(logger, threshold, attempts + 1, week + Every(logger))
  {
    var from, monday := Max(logger.startAt, threshold), StartWeek(logger) + 7 * week;
    var last := weekdays[|weekdays| - 1];
    WeekIsActive(logger, week);
    I.MulMonotone(attempts, attempts, Every(logger));
    forall d | monday + last <= d < monday + 7 * Every(logger) ensures !ActiveDay(logger, d) {
      BetweenWeekdays(weekdays, |weekdays|, d - monday + 1);
      assert last in weekdays;
    }
    SkipInactive(logger, from, monday + last, monday + 7 * Every(logger));
  }

  lemma NoWeeklyRun(logger: Logger, times: seq<int>, threshold: int, week: int)
    requires Searchable(logger, times) && logger.unit == Weeks
    requires WeeklyProgress(logger, threshold, 8, week)
    ensures WeeklySearched(logger, threshold, Absent)
  {
    WeeklyStart(logger, times, threshold);
  }

  lemma WeekdayAttempt(logger: Logger, times: seq<int>, weekdays: seq<int>, threshold: int, attempts: int, week: int,
                       tried: nat, run: Occurrence)
    requires WeeklySearchable(logger, times, weekdays) && 0 <= attempts < 8
    requires WeeklyProgress(logger, threshold, attempts, week) && tried < |weekdays|
    requires WeekdayProgress(logger, weekdays, threshold, week, tried)
    requires var day := StartWeek(logger) + 7 * week + weekdays[tried] - 1;
             IsFirstOnDay(logger.zone, day, times, Max(logger.startAt, threshold), run)
    ensures run.At? ==> WeeklySearched(logger, threshold, run)
    ensures run.Absent? ==> WeekdayProgress(logger, weekdays, threshold, week, tried + 1)
  {
    if run.At? {
      FoundWeekly(logger, times, weekdays, threshold, attempts, week, tried, run);
    } else {
      PassWeekday(logger, times, weekdays, threshold, week, tried);
    }
  }

  /** The search of one active week. */
  method FirstInWeek(logger: Logger, times: seq<int>, weekdays: seq<int>, threshold: int, ghost attempts: int,
                     week: int, weekStart: int)
    returns (run: Occurrence)
    requires WeeklySearchable(logger, times, weekdays) && 0 <= attempts < 8
    requires WeeklyProgress(logger, threshold, attempts, week) && weekStart == StartWeek(logger) + week * 7
    ensures run.At? ==> WeeklySearched(logger, threshold, run)
    ensures run.Absent? ==> WeeklyProgress(logger, threshold, attempts + 1, week + Every(logger))
  {
    for i := 0 to |weekdays|
      invariant WeekdayProgress(logger, weekdays, threshold, week, i)
    {
      var date := weekStart + weekdays[i] - 1;
      run := FirstOnDay(logger.zone, date, times, logger.startAt, threshold);
      WeekdayAttempt(logger, times, weekdays, threshold, attempts, week, i, run);
      if run.At? {
        return;
      }
    }
    PassWeek(logger, times, weekdays, threshold, attempts, week);
    return Absent;
  }

  method NextWeeklyRun(logger: Logger, times: seq<int>, weekdays: seq<int>, threshold: int) returns (run: Occurrence)
    requires WeeklySearchable(logger, times, weekdays)
    ensures WeeklySearched(logger, threshold, run)
  {
    var startLocalDate := StartDay(logger);
    var startWeek := startLocalDate + (1 - Weekday(startLocalDate));
    var weeksSinceStart := Quotient(CivilDaysBetween(startWeek, logger.zone.localDay(threshold)), 7);
    if weeksSinceStart < 0 {
      weeksSinceStart := 0;
    }
    var activeWeek := NextMultiple(weeksSinceStart, Every(logger));
    WeeklyStart(logger, times, threshold);
    for attempts := 0 to 8
      invariant WeeklyProgress(logger, threshold, attempts, activeWeek)
    {
      run := FirstInWeek(logger, times, weekdays, threshold, attempts, activeWeek, startWeek + activeWeek * 7);
      if run.At? {
        return;
      }
      activeWeek := activeWeek + Every(logger);
    }
    NoWeeklyRun(logger, times, threshold, activeWeek);
    return Absent;
  }
}
