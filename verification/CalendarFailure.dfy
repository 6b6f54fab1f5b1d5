/** When the search over dates fails: exactly, in zones that show every time on every date,
    and with runs still due, in UTC. */
module CalendarFailure {
  import opened Ordering
  import opened Instants
  import opened Calendar
  import opened CalendarScheduler
  import opened CalendarNext

  /** A search fails only where some date lacks a time or dates are too far apart to count. */
  lemma FailureNeedsGap(logger: Logger, from: int)
    requires Accepts(logger) && logger.startAt <= from && SearchFails(logger, from)
    ensures !Dense(logger, from)
  {
    DefinitionIsSearchable(logger);
    if Dense(logger, from) {
      if logger.unit == Days {
        DenseDays(logger, from);
      } else {
        DenseWeeks(logger, from);
      }
    }
  }

  lemma DenseDays(logger: Logger, from: int)
    requires Accepts(logger) && logger.unit == Days && logger.startAt <= from && Dense(logger, from)
    ensures !SearchFails(logger, from)
  {
    DefinitionIsSearchable(logger);
    DailyStart(logger, Define(logger).times, from);
    var day := StartDay(logger) + FirstDailyCycle(logger, from);
    DailyNeighbours(logger, day);
    ActiveDateHasRun(logger, from, day + Every(logger));
  }

  lemma DenseWeeks(logger: Logger, from: int)
    requires Accepts(logger) && logger.unit == Weeks && logger.startAt <= from && Dense(logger, from)
    ensures !SearchFails(logger, from)
  {
    DefinitionIsSearchable(logger);
    WeeklyStart(logger, Define(logger).times, from);
    var week := FirstWeeklyCycle(logger, from) + Every(logger);
    WeekIsActive(logger, FirstWeeklyCycle(logger, from));
    WeekIsActive(logger, week);
    var weekday := logger.weekdays[0];
    assert weekday in logger.weekdays;
    ActiveDateHasRun(logger, from, StartWeek(logger) + 7 * week + weekday - 1);
  }

  lemma ActiveDateHasRun(logger: Logger, from: int, day: int)
    requires Accepts(logger) && logger.unit in {Days, Weeks} && Dense(logger, from)
    requires ActiveDay(logger, day) && logger.zone.localDay(from) < day < SearchLimit(logger, from)
    ensures !SearchFails(logger, from)
  {
    var time := logger.times[0];
    assert time in logger.times && logger.zone.occurrence(day, time).At?;
    var at := logger.zone.occurrence(day, time).instant;
    assert at <= from ==> logger.zone.localDay(at) <= logger.zone.localDay(from);
  }

  // ---------------------------------------------------------------- without gaps

  /** The last date that the search looks at. */
  function LastDate(logger: Logger, from: int): int
    requires Accepts(logger) && logger.unit in {Days, Weeks}
  {
    if logger.unit == Days then SearchLimit(logger, from) - Every(logger)
    else
      DefinitionIsSearchable(logger);
      var weekdays := Define(logger).weekdays;
      SearchLimit(logger, from) - 7 * Every(logger) + weekdays[|weekdays| - 1] - 1
  }

  /** The last date is active and before the limit, and no active date between is later. */
  ghost predicate IsLastDate(logger: Logger, limit: int, last: int)
    requires Every(logger) > 0
  {
    ActiveDay(logger, last) && last < limit && forall day :: ActiveDay(logger, day) && day < limit ==> day <= last
  }

  lemma SevenCyclesOn(first: int, every: int)
    requires every > 0 && first % every == 0
    ensures (first + 7 * every) % every == 0
  {
    MultipleRemainder(first / every + 7, every);
    assert first + 7 * every == (first / every + 7) * every;
  }

  lemma LastDayIsActive(logger: Logger, from: int)
    requires Accepts(logger) && logger.unit == Days
    ensures ActiveDay(logger, LastDate(logger, from))
  {
    var days := Max(CivilDaysBetween(StartDay(logger), logger.zone.localDay(from)), 0);
    NextMultipleIsLeast(days, Every(logger));
    SevenCyclesOn(FirstDailyCycle(logger, from), Every(logger));
  }

  lemma LastDateOfDays(logger: Logger, from: int)
    requires Accepts(logger) && logger.unit == Days
    ensures IsLastDate(logger, SearchLimit(logger, from), LastDate(logger, from))
  {
    LastDayIsActive(logger, from);
    DailyNeighbours(logger, LastDate(logger, from));
  }

  /** The weekday of the last date is the last one chosen. */
  lemma LastOfWeek(logger: Logger, week: int, weekdays: seq<int>, last: int)
    requires Accepts(logger) && logger.unit == Weeks && week >= 0 && week % Every(logger) == 0
    requires weekdays != [] && StrictlyIncreasing(weekdays) && forall w :: w in weekdays <==> w in logger.weekdays
    requires last == StartWeek(logger) + 7 * week + weekdays[|weekdays| - 1] - 1
    ensures IsLastDate(logger, StartWeek(logger) + 7 * (week + Every(logger)), last)
  {
    var monday := StartWeek(logger) + 7 * week;
    WeekIsActive(logger, week);
    assert weekdays[|weekdays| - 1] in weekdays;
    forall day | ActiveDay(logger, day) && monday <= day < monday + 7 * Every(logger) ensures day <= last {
      var k :| 0 <= k < |weekdays| && weekdays[k] == day - monday + 1;
      assert weekdays[k] <= weekdays[|weekdays| - 1];
    }
  }

  lemma LastDateOfWeeks(logger: Logger, from: int)
    requires Accepts(logger) && logger.unit == Weeks
    ensures IsLastDate(logger, SearchLimit(logger, from), LastDate(logger, from))
  {
    var first := FirstWeeklyCycle(logger, from);
    DefinitionIsSearchable(logger);
    FirstWeek(logger, from);
    SevenCyclesOn(first, Every(logger));
    LastOfWeek(logger, first + 7 * Every(logger), Define(logger).weekdays, LastDate(logger, from));
  }

  lemma LastDateIsLast(logger: Logger, from: int)
    requires Accepts(logger) && logger.unit in {Days, Weeks}
    ensures IsLastDate(logger, SearchLimit(logger, from), LastDate(logger, from))
  {
    if logger.unit == Days {
      LastDateOfDays(logger, from);
    } else {
      LastDateOfWeeks(logger, from);
    }
  }

  /** Where every date shows every time, a daily or weekly search fails exactly when all
      times of the last date it looks at lie before the instant searched from. */
  lemma FailsIff(logger: Logger, from: int)
    requires Accepts(logger) && logger.unit in {Days, Weeks} && logger.zone.GapFree(logger.times)
    ensures SearchFails(logger, from) <==>
              forall t :: t in logger.times ==> logger.zone.occurrence(LastDate(logger, from), t).instant < from
  {
    var last := LastDate(logger, from);
    LastDateIsLast(logger, from);
    DefinitionIsSearchable(logger);
    var latest := logger.times[0];
    assert latest in logger.times && logger.zone.occurrence(last, latest).At?;
    forall day, t | ActiveDay(logger, day) && day < last && t in logger.times
      ensures logger.zone.occurrence(day, t).instant < logger.zone.occurrence(last, latest).instant
    {
      assert logger.zone.localDay(logger.zone.occurrence(day, t).instant) == day;
    }
  }

  // ---------------------------------------------------------------- in UTC

  /** The days from the date of the zero time to day 0. */
  const ZERO_DATE: int := -719162

  function Midnight(day: int): int {
    (day - ZERO_DATE) * DAY
  }

  function DateAt(instant: int): int {
    ZERO_DATE + instant / DAY
  }

  function TimeOn(day: int, time: int): Occurrence {
    if 0 <= time < 1440 then At(Midnight(day) + time * MINUTE) else Absent
  }

  /** Every date shows every minute, in order. */
  function Utc(): Zone {
    Zone(DateAt, TimeOn)
  }

  lemma DateOf(day: int, rest: int)
    requires 0 <= rest < DAY
    ensures DateAt(Midnight(day) + rest) == day
  {
  }

  lemma DatesFollow(i: int, j: int)
    requires i <= j
    ensures DateAt(i) <= DateAt(j)
  {
  }

  lemma TimesFollow(day: int, t: int, u: int)
    requires t < u && TimeOn(day, t).At? && TimeOn(day, u).At?
    ensures TimeOn(day, t).instant < TimeOn(day, u).instant
  {
  }

  lemma UtcIsValid()
    ensures Utc().Valid()
  {
    forall i, j | i <= j ensures Utc().localDay(i) <= Utc().localDay(j) {
      DatesFollow(i, j);
    }
    forall day, time | Utc().occurrence(day, time).At?
      ensures Utc().localDay(Utc().occurrence(day, time).instant) == day
    {
      DateOf(day, time * MINUTE);
    }
    forall day, t, u | t < u && Utc().occurrence(day, t).At? && Utc().occurrence(day, u).At?
      ensures Utc().occurrence(day, t).instant < Utc().occurrence(day, u).instant
    {
      TimesFollow(day, t, u);
    }
  }

  /** The zero time is a Monday. */
  lemma ZeroDateIsMonday()
    ensures Monday(ZERO_DATE) == ZERO_DATE
  {
  }

  /** Midnight of every day, from some start on. */
  function Midnights(startAt: int): Logger {
    Logger(true, startAt, Unbounded, Days, 1, [0], [], Utc())
  }

  lemma MidnightsAreAccepted(startAt: int)
    requires startAt != ZERO_TIME
    ensures Accepts(Midnights(startAt)) && Midnights(startAt).zone.GapFree(Midnights(startAt).times)
  {
    UtcIsValid();
    assert ValidConfig(Midnights(startAt));
  }

  lemma MidnightOccurs(startAt: int, day: int)
    requires startAt != ZERO_TIME && startAt <= Midnight(day)
    ensures Accepts(Midnights(startAt)) && Occurs(Midnights(startAt), Midnight(day))
  {
    var logger := Midnights(startAt);
    MidnightsAreAccepted(startAt);
    DateOf(day, 0);
    assert startAt / DAY <= Midnight(day) / DAY;
    assert OccursAt(logger, Midnight(day), 0);
  }

  lemma LastMidnight(startAt: int, from: int)
    requires startAt != ZERO_TIME && startAt <= from
    ensures Accepts(Midnights(startAt))
    ensures var logger := Midnights(startAt);
            var away := Utc().localDay(from) - StartDay(logger);
            LastDate(logger, from) == StartDay(logger) + (if away <= MAX_DAYS then away else MAX_DAYS) + 7
  {
    var logger := Midnights(startAt);
    MidnightsAreAccepted(startAt);
    CivilDays(StartDay(logger), Utc().localDay(from));
    if Utc().localDay(from) - StartDay(logger) > MAX_DAYS {
      FarDays(StartDay(logger), Utc().localDay(from));
    }
  }

  lemma FarDays(start: int, target: int)
    requires target - start > MAX_DAYS
    ensures CivilDaysBetween(start, target) == MAX_DAYS
  {
  }

  lemma MidnightsFailIff(startAt: int, from: int)
    requires startAt != ZERO_TIME && startAt <= from && Accepts(Midnights(startAt))
    ensures SearchFails(Midnights(startAt), from) <==>
              Midnight(StartDay(Midnights(startAt)) + MAX_DAYS + 7) < from
  {
    var logger := Midnights(startAt);
    MidnightsAreAccepted(startAt);
    LastMidnight(startAt, from);
    FailsIff(logger, from);
    assert logger.times[0] in logger.times;
    var last := LastDate(logger, from);
    assert logger.zone.occurrence(last, 0).instant == Midnight(last);
    NextMidnight(from);
  }

  /** The midnight at or after an instant. */
  lemma NextMidnight(from: int)
    ensures Midnight(Utc().localDay(from)) <= from < Midnight(Utc().localDay(from) + 1)
    ensures Midnight(Utc().localDay(from)) == from <==> from % DAY == 0
  {
  }

  lemma MidnightIsDue(startAt: int, from: int)
    requires startAt != ZERO_TIME && startAt <= from
    ensures Accepts(Midnights(startAt))
    ensures exists at :: Occurs(Midnights(startAt), at) && from <= at < from + DAY
  {
    NextMidnight(from);
    var day := Utc().localDay(from);
    MidnightOccurs(startAt, if Midnight(day) == from then day else day + 1);
  }

  /** A run is due at every midnight, and yet the search fails exactly from just after the
      midnight that is seven days beyond the greatest number of days counted. */
  lemma MidnightsAreMissed(startAt: int, from: int)
    requires startAt != ZERO_TIME && startAt <= from
    ensures Accepts(Midnights(startAt))
    ensures var logger := Midnights(startAt);
            && (Answers(logger, from, Failed) <==> Midnight(StartDay(logger) + MAX_DAYS + 7) < from)
            && exists at :: Occurs(logger, at) && from <= at < from + DAY
  {
    MidnightIsDue(startAt, from);
    MidnightsFailIff(startAt, from);
  }
}
