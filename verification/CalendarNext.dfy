/** The next run of a calendar schedule: which one it is, and when there is none. */
module CalendarNext {
  import opened Ordering
  import opened Instants
  import opened Calendar
  import opened CalendarScheduler
  import I = IntervalScheduler

  datatype NextRun = Scheduled(at: int) | Nothing | Failed

  ghost predicate Accepts(logger: Logger) {
    Define(logger).Accepted? && logger.zone.Valid()
  }

  function Horizon(logger: Logger): int
    requires Step(logger) > 0
  {
    I.Horizon(logger.startAt, Step(logger))
  }

  /** The arithmetic of minute and hour schedules reaches this instant. */
  predicate Reached(logger: Logger, from: int)
    requires Step(logger) > 0
  {
    logger.unit in {Days, Weeks} || from <= Horizon(logger)
  }

  /** The end itself still belongs to the schedule. */
  predicate PastEnd(logger: Logger, at: int) {
    logger.endAt.Until? && logger.endAt.instant < at
  }

  /** What the next run is: within the schedule, and the least occurrence from the
      threshold exactly when the arithmetic reaches the threshold. There is none when the
      least one is past the end or the zero time, and a date search may fail. */
  ghost predicate Answers(logger: Logger, threshold: int, run: NextRun)
    requires Accepts(logger)
  {
    var from := Max(logger.startAt, threshold);
    match run
    case Scheduled(at) =>
      && Occurs(logger, at) && at != ZERO_TIME && (logger.endAt.Until? ==> at <= logger.endAt.instant)
      && (IsNext(logger, from, at) <==> Reached(logger, from))
      && (!Reached(logger, from) ==> at == Horizon(logger))
      && !SearchFails(logger, from)
    case Nothing =>
      && !SearchFails(logger, from)
      && if Reached(logger, from)
         then exists at :: IsNext(logger, from, at) && (at == ZERO_TIME || PastEnd(logger, at))
         else Horizon(logger) == ZERO_TIME || PastEnd(logger, Horizon(logger))
    case Failed => SearchFails(logger, from)
  }

  /** A date search gives up exactly when none of eight cycles has a run. */
  ghost predicate SearchFails(logger: Logger, from: int)
    requires Every(logger) > 0
  {
    logger.unit in {Days, Weeks} && NoneBefore(logger, from, SearchLimit(logger, from))
  }

  function SearchLimit(logger: Logger, from: int): int
    requires Every(logger) > 0
  {
    if logger.unit == Days then StartDay(logger) + FirstDailyCycle(logger, from) + 8 * Every(logger)
    else StartWeek(logger) + 7 * (FirstWeeklyCycle(logger, from) + 8 * Every(logger))
  }

  lemma DefinitionIsSearchable(logger: Logger)
    requires Accepts(logger)
    ensures logger.unit == Days ==> Searchable(logger, Define(logger).times) && Define(logger).times != []
    ensures logger.unit == Weeks ==> WeeklySearchable(logger, Define(logger).times, Define(logger).weekdays)
  {
    var d := Define(logger);
    if logger.unit in {Days, Weeks} {
      assert logger.times[0] in d.times;
    }
    if logger.unit == Weeks {
      assert logger.weekdays[0] in d.weekdays;
    }
  }

  /** Past the horizon the grid's next run stays at the horizon. */
  lemma PastHorizon(logger: Logger, from: int)
    requires Accepts(logger) && logger.unit in {Minutes, Hours} && logger.startAt <= from
    ensures var at := I.NextIntervalRun(logger.startAt, Step(logger), from);
            && Occurs(logger, at)
            && (IsNext(logger, from, at) <==> from <= Horizon(logger))
            && (from > Horizon(logger) ==> at == Horizon(logger))
  {
    var at := I.NextIntervalRun(logger.startAt, Step(logger), from);
    I.RunsAreOnGrid(logger.startAt, Step(logger), from);
    I.NextRunIsLeast(logger.startAt, Step(logger), from);
    if from > Horizon(logger) {
      I.StepsTaken(logger.startAt, Step(logger), from);
      I.MulMonotone(MAX_DURATION / Step(logger), 0, Step(logger));
    } else {
      GridIsNext(logger, from, at);
    }
  }

  lemma GridIsNext(logger: Logger, from: int, at: int)
    requires Accepts(logger) && logger.unit in {Minutes, Hours}
    requires I.IsLeastFrom(logger.startAt, Step(logger), from, at)
    ensures IsNext(logger, from, at)
  {
    forall q | Occurs(logger, q) && from <= q ensures at <= q {
      var k: nat :| q == logger.startAt + k * Step(logger);
    }
  }

  /** What the search for each unit finds, before the end of the schedule is looked at. */
  ghost predicate Found(logger: Logger, from: int, next: Occurrence)
    requires Accepts(logger)
  {
    match next
    case At(at) =>
      && Occurs(logger, at)
      && (IsNext(logger, from, at) <==> Reached(logger, from))
      && (!Reached(logger, from) ==> at == Horizon(logger))
      && !SearchFails(logger, from)
    case Absent => SearchFails(logger, from)
  }

  /** A run on a date before the limit means that the search has not failed. */
  lemma RunBeforeLimit(logger: Logger, from: int, at: int)
    requires Accepts(logger) && logger.unit in {Days, Weeks} && IsNext(logger, from, at)
    requires logger.zone.localDay(at) < SearchLimit(logger, from)
    ensures !SearchFails(logger, from)
  {
    var time :| time in logger.times && OccursAt(logger, at, time);
    assert logger.zone.occurrence(logger.zone.localDay(at), time).instant >= from;
  }

  lemma DailyFound(logger: Logger, from: int, next: Occurrence)
    requires Accepts(logger) && logger.unit == Days && logger.startAt <= from
    requires DailySearched(logger, from, next)
    ensures Found(logger, from, next)
  {
    if next.At? {
      RunBeforeLimit(logger, from, next.instant);
    }
  }

  lemma WeeklyFound(logger: Logger, from: int, next: Occurrence)
    requires Accepts(logger) && logger.unit == Weeks && logger.startAt <= from
    requires WeeklySearched(logger, from, next)
    ensures Found(logger, from, next)
  {
    if next.At? {
      RunBeforeLimit(logger, from, next.instant);
    }
  }

  /** The last step: the end of the schedule, and the zero time that means none. */
  method WithinSchedule(logger: Logger, threshold: int, next: Occurrence) returns (run: NextRun)
    requires Accepts(logger) && Found(logger, Max(logger.startAt, threshold), next)
    ensures Answers(logger, threshold, run)
  {
    if next.Absent? {
      return Failed;
    }
    if next.instant == ZERO_TIME || logger.endAt.Before(next.instant) {
      return Nothing;
    }
    return Scheduled(next.instant);
  }

  method FindNext(logger: Logger, definition: Definition, from: int) returns (next: Occurrence)
    requires Accepts(logger) && definition == Define(logger) && logger.startAt <= from
    ensures Found(logger, from, next)
  {
    if logger.unit in {Minutes, Hours} {
      PastHorizon(logger, from);
      return At(I.NextIntervalRun(logger.startAt, Step(logger), from));
    }
    DefinitionIsSearchable(logger);
    if logger.unit == Days {
      next := NextDailyRun(logger, definition.times, from);
      DailyFound(logger, from, next);
    } else {
      next := NextWeeklyRun(logger, definition.times, definition.weekdays, from);
      WeeklyFound(logger, from, next);
    }
  }

  method NextCalendarRun(logger: Logger, threshold: int) returns (run: NextRun)
    requires logger.zone.Valid()
    ensures Accepts(logger) ==> Answers(logger, threshold, run)
    ensures !Accepts(logger) ==> run.Failed?
  {
    var definition := Define(logger);
    if !definition.Accepted? {
      return Failed;
    }
    var next := FindNext(logger, definition, Max(logger.startAt, threshold));
    run := WithinSchedule(logger, threshold, next);
  }

  /** The answer is determined by the logger and the threshold. */
  lemma AnswersAreUnique(logger: Logger, threshold: int, run: NextRun, other: NextRun)
    requires Accepts(logger) && Answers(logger, threshold, run) && Answers(logger, threshold, other)
    ensures run == other
  {
  }
}
