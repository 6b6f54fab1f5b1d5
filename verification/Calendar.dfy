/** Calendar schedules: loggers, time zones and the active occurrences of a schedule. */
module Calendar {
  import opened Ordering
  import opened Instants
  import I = IntervalScheduler

  /** Local times are minutes of the day. */
  datatype Occurrence = Absent | At(instant: int)

  /** A time zone: the local date of each instant, and the first instant, if any, at which
      a local date shows a local time. Dates are counted in days, day 0 being a Thursday. */
  datatype Zone = Zone(localDay: int -> int, occurrence: (int, int) -> Occurrence) {
    /** Local dates follow each other in time, and so do the times of one date. */
    ghost predicate Valid() {
      && (forall i, j :: i <= j ==> localDay(i) <= localDay(j))
      && (forall day, time :: occurrence(day, time).At? ==> localDay(occurrence(day, time).instant) == day)
      && (forall day, t, u :: t < u && occurrence(day, t).At? && occurrence(day, u).At? ==>
           occurrence(day, t).instant < occurrence(day, u).instant)
    }

    /** Every date shows every one of these times. */
    ghost predicate GapFree(times: seq<int>) {
      forall day, time :: time in times ==> occurrence(day, time).At?
    }
  }

  datatype Unit = Minutes | Hours | Days | Weeks

  datatype Logger = Logger(
    enabled: bool,
    startAt: int,
    endAt: EndAt,
    unit: Unit,
    every: int,
    times: seq<int>,
    weekdays: seq<int>,
    zone: Zone
  )

  const MAX_SCHEDULE_EVERY: int := MAX_DURATION / SECOND / 3600

  function Every(logger: Logger): int {
    if logger.every == 0 then 1 else logger.every
  }

  /** The length of a minute or hour interval. */
  function Step(logger: Logger): int {
    Every(logger) * (if logger.unit == Minutes then MINUTE else HOUR)
  }

  predicate HasDuplicates<T(==)>(s: seq<T>) {
    exists i, j :: 0 <= i < j < |s| && s[i] == s[j]
  }

  predicate ValidConfig(logger: Logger) {
    && 1 <= Every(logger) <= MAX_SCHEDULE_EVERY
    && (forall t :: t in logger.times ==> 0 <= t < 1440) && !HasDuplicates(logger.times)
    && (forall w :: w in logger.weekdays ==> 1 <= w <= 7) && !HasDuplicates(logger.weekdays)
    && match logger.unit
       case Minutes => logger.times == [] && logger.weekdays == []
       case Hours => logger.times == [] && logger.weekdays == []
       case Days => logger.times != [] && logger.weekdays == []
       case Weeks => logger.times != [] && logger.weekdays != []
  }

  datatype Definition = Accepted(times: seq<int>, weekdays: seq<int>) | Disabled | Invalid

  /** The checked definition, its times and weekdays sorted. */
  function Define(logger: Logger): (d: Definition)
    ensures d.Accepted? ==>
              && ValidConfig(logger) && Step(logger) > 0
              && StrictlyIncreasing(d.times) && StrictlyIncreasing(d.weekdays)
              && (forall t :: t in d.times <==> t in logger.times)
              && (forall w :: w in d.weekdays <==> w in logger.weekdays)
  {
    if logger.startAt == ZERO_TIME then Invalid
    else if !logger.enabled then Disabled
    else if logger.endAt.Until? && logger.endAt.instant <= logger.startAt then Invalid
    else if !ValidConfig(logger) then Invalid
    else
      InOrderIsIncreasing(logger.times);
      InOrderKeepsElements(logger.times);
      InOrderIsIncreasing(logger.weekdays);
      InOrderKeepsElements(logger.weekdays);
      Accepted(InOrder(logger.times), InOrder(logger.weekdays))
  }

  /** Exactly which definitions are accepted, field by field. */
  lemma DefinitionIsAccepted(logger: Logger)
    ensures Define(logger).Disabled? <==> logger.startAt != ZERO_TIME && !logger.enabled
    ensures Define(logger).Accepted? <==>
              && logger.enabled && logger.startAt != ZERO_TIME
              && (logger.endAt.Until? ==> logger.startAt < logger.endAt.instant)
              && 0 <= logger.every <= MAX_SCHEDULE_EVERY
              && (forall i :: 0 <= i < |logger.times| ==> 0 <= logger.times[i] <= 1439)
              && (forall i, j :: 0 <= i < j < |logger.times| ==> logger.times[i] != logger.times[j])
              && (forall i :: 0 <= i < |logger.weekdays| ==> 1 <= logger.weekdays[i] <= 7)
              && (forall i, j :: 0 <= i < j < |logger.weekdays| ==> logger.weekdays[i] != logger.weekdays[j])
              && (logger.times == [] <==> logger.unit in {Minutes, Hours})
              && (logger.weekdays != [] <==> logger.unit == Weeks)
  {
    assert forall i :: 0 <= i < |logger.times| ==> logger.times[i] in logger.times;
    assert forall i :: 0 <= i < |logger.weekdays| ==> logger.weekdays[i] in logger.weekdays;
    assert MAX_SCHEDULE_EVERY >= 1;
  }

  // ---------------------------------------------------------------- active occurrences

  /** The ISO weekday, Monday being 1. */
  function Weekday(day: int): (w: int)
    ensures 1 <= w <= 7
  {
    (day + 3) % 7 + 1
  }

  function Monday(day: int): int {
    day - (Weekday(day) - 1)
  }

  function StartDay(logger: Logger): int {
    logger.zone.localDay(logger.startAt)
  }

  function StartWeek(logger: Logger): int {
    Monday(StartDay(logger))
  }

  /** Every so many days from the start date, or the chosen weekdays of every so many ISO
      weeks from the week of the start date. */
  predicate ActiveDay(logger: Logger, day: int)
    requires Every(logger) > 0
  {
    if logger.unit == Days then
      day >= StartDay(logger) && (day - StartDay(logger)) % Every(logger) == 0
    else
      && Weekday(day) in logger.weekdays
      && Monday(day) >= StartWeek(logger)
      && (Monday(day) - StartWeek(logger)) / 7 % Every(logger) == 0
  }

  ghost predicate Occurs(logger: Logger, instant: int)
    requires Every(logger) > 0
  {
    if logger.unit in {Minutes, Hours} then I.OnGrid(logger.startAt, Step(logger), instant)
    else
      && logger.startAt <= instant
      && exists time :: time in logger.times && OccursAt(logger, instant, time)
  }

  /** Minute and hour schedules run whole numbers of minutes or hours after the start, every
      one of them if no number is given. */
  lemma GridRuns(logger: Logger, instant: int)
    requires Every(logger) > 0 && logger.unit in {Minutes, Hours}
    ensures var every := if logger.every == 0 then 1 else logger.every;
            var length := if logger.unit == Minutes then 60_000_000_000 else 3_600_000_000_000;
            Occurs(logger, instant) <==> exists k: nat :: RunsAfter(logger.startAt, every, length, k, instant)
  {
    var every := if logger.every == 0 then 1 else logger.every;
    var length := if logger.unit == Minutes then 60_000_000_000 else 3_600_000_000_000;
    assert Step(logger) == every * length;
    if k: nat :| instant == logger.startAt + k * Step(logger) {
      assert RunsAfter(logger.startAt, every, length, k, instant);
    }
  }

  predicate RunsAfter(startAt: int, every: int, length: int, k: nat, instant: int) {
    instant == startAt + k * (every * length)
  }

  ghost predicate OccursAt(logger: Logger, instant: int, time: int)
    requires Every(logger) > 0
  {
    var day := logger.zone.localDay(instant);
    ActiveDay(logger, day) && logger.zone.occurrence(day, time) == At(instant)
  }

  /** The least active occurrence not before the given instant. */
  ghost predicate IsNext(logger: Logger, from: int, instant: int)
    requires Every(logger) > 0
  {
    && Occurs(logger, instant) && from <= instant
    && forall q :: Occurs(logger, q) && from <= q ==> instant <= q
  }
}
