/** What the calendar loop does on given clock readings, and exactly when its captures
    strictly increase for all of them. */
module CalendarTrace {
  import opened Ordering
  import opened Instants
  import opened Calendar
  import opened CalendarNext
  import I = IntervalScheduler
  import opened ClockTrace

  ghost function AnswersOf(logger: Logger): Answering {
    (threshold, run) => Accepts(logger) && Answers(logger, threshold, run)
  }

  lemma AnswersHere(logger: Logger, threshold: int, run: NextRun)
    requires Accepts(logger)
    ensures AnswersOf(logger)(threshold, run) <==> Answers(logger, threshold, run)
  {
  }

  /** From a threshold, on these readings of the clock, the loop captures these instants. */
  ghost predicate Traces(logger: Logger, threshold: int, readings: seq<int>, captured: seq<int>, outcome: Outcome)
    requires Accepts(logger)
  {
    Captures(AnswersOf(logger), threshold, readings, captured, outcome)
  }

  /** The clock determines the captures. */
  lemma TracesAreUnique(logger: Logger, threshold: int, readings: seq<int>, captured: seq<int>, outcome: Outcome,
                        other: seq<int>, end: Outcome)
    requires Accepts(logger)
    requires Traces(logger, threshold, readings, captured, outcome) && Traces(logger, threshold, readings, other, end)
    ensures captured == other && outcome == end
  {
    var answers := AnswersOf(logger);
    forall from, run, same | answers(from, run) && answers(from, same) ensures run == same {
      AnswersAreUnique(logger, from, run, same);
    }
    CapturesAreUnique(answers, threshold, readings, captured, outcome, other, end);
  }

  // ---------------------------------------------------------------- the order of captures

  predicate IsGrid(logger: Logger) {
    logger.unit in {Minutes, Hours}
  }

  /** The first grid run for a clock up to a bound. */
  function FirstRun(logger: Logger, bound: int): int
    requires Step(logger) > 0
  {
    I.NextIntervalRun(logger.startAt, Step(logger), Max(logger.startAt, bound))
  }

  /** The zero time lies among the grid runs still to come, and ends the schedule there. */
  ghost predicate ZeroAhead(logger: Logger, bound: int)
    requires Step(logger) > 0
  {
    FirstRun(logger, bound) <= ZERO_TIME < Horizon(logger) && I.OnGrid(logger.startAt, Step(logger), ZERO_TIME)
  }

  /** Loggers whose schedule never reaches the horizon, or ends there. */
  predicate EndsInTime(logger: Logger)
    requires Step(logger) > 0
  {
    !IsGrid(logger) || logger.endAt.Before(Horizon(logger)) || Horizon(logger) == ZERO_TIME
  }

  /** With a clock up to the bound and this many readings, no grid run but the last can be
      the horizon. */
  ghost predicate HasRoom(logger: Logger, bound: int, count: nat)
    requires Step(logger) > 0
  {
    || EndsInTime(logger)
    || ZeroAhead(logger, bound)
    || FirstRun(logger, bound) + (count - 2) * Step(logger) < Horizon(logger)
  }

  /** With room, and a clock that starts within the reach of the arithmetic, the next run is
      the least occurrence whenever a reading is left. */
  ghost predicate Calm(logger: Logger, bound: int, count: nat)
    requires Step(logger) > 0
  {
    HasRoom(logger, bound, count) && (EndsInTime(logger) || Max(logger.startAt, bound) <= Horizon(logger))
  }

  /** How far the threshold can have come after some readings. */
  ghost predicate Within(logger: Logger, bound: int, threshold: int, position: nat)
    requires Step(logger) > 0
  {
    EndsInTime(logger) ||
    (&& Max(logger.startAt, threshold) <= FirstRun(logger, bound) + position * Step(logger)
     && (ZeroAhead(logger, bound) ==> Max(logger.startAt, threshold) <= ZERO_TIME))
  }

  ghost predicate Trusted(logger: Logger, threshold: int)
    requires Accepts(logger)
  {
    EndsInTime(logger) || Reached(logger, Max(logger.startAt, threshold))
  }

  /** A trusted next run is the least occurrence from the threshold. */
  lemma TrustedIsNext(logger: Logger, threshold: int, run: NextRun)
    requires Accepts(logger) && Trusted(logger, threshold) && Answers(logger, threshold, run)
    ensures run.Scheduled? ==> IsNext(logger, Max(logger.startAt, threshold), run.at)
  {
  }

  lemma FirstRunOnGrid(logger: Logger, bound: int)
    requires Accepts(logger) && IsGrid(logger)
    ensures var first := FirstRun(logger, bound);
            && logger.startAt <= first <= Horizon(logger) && Occurs(logger, first)
            && (Max(logger.startAt, bound) <= Horizon(logger) ==> Max(logger.startAt, bound) <= first)
            && (Max(logger.startAt, bound) >= Horizon(logger) ==> first == Horizon(logger))
  {
    var from := Max(logger.startAt, bound);
    I.RunsAreOnGrid(logger.startAt, Step(logger), from);
    PastHorizon(logger, from);
  }

  lemma OccursFromStart(logger: Logger, q: int)
    requires Accepts(logger) && Occurs(logger, q)
    ensures logger.startAt <= q
  {
    if logger.unit in {Minutes, Hours} {
      var k: nat :| q == logger.startAt + k * Step(logger);
      I.MulMonotone(0, k, Step(logger));
    }
  }

  lemma StepsOccur(logger: Logger, at: int, k: nat)
    requires Accepts(logger) && IsGrid(logger) && Occurs(logger, at)
    ensures Occurs(logger, at + k * Step(logger))
  {
    var i: nat :| at == logger.startAt + i * Step(logger);
    assert at + k * Step(logger) == logger.startAt + (i + k) * Step(logger);
  }

  lemma HorizonOccurs(logger: Logger)
    requires Accepts(logger) && IsGrid(logger)
    ensures Occurs(logger, Horizon(logger)) && logger.startAt < Horizon(logger)
  {
    I.MulMonotone(1, MAX_DURATION / Step(logger) + 1, Step(logger));
    var k: nat := MAX_DURATION / Step(logger) + 1;
    assert Horizon(logger) == logger.startAt + k * Step(logger);
  }

  /** Two grid points differ by whole steps. */
  lemma GridGap(logger: Logger, a: int, b: int)
    requires Accepts(logger) && IsGrid(logger) && Occurs(logger, a) && Occurs(logger, b) && a < b
    ensures a + Step(logger) <= b
  {
    var i: nat :| a == logger.startAt + i * Step(logger);
    var k: nat :| b == logger.startAt + k * Step(logger);
    I.MulMonotone(i + 1, k, Step(logger));
    I.MulMonotone(k, i, Step(logger));
  }

  /** While a reading is left, a calm clock keeps the threshold within reach. */
  lemma WithinIsTrusted(logger: Logger, bound: int, count: nat, threshold: int, position: nat)
    requires Accepts(logger) && Calm(logger, bound, count) && Within(logger, bound, threshold, position)
    requires position < count
    ensures Trusted(logger, threshold)
  {
    if !EndsInTime(logger) && !ZeroAhead(logger, bound) {
      var first, step := FirstRun(logger, bound), Step(logger);
      FirstRunOnGrid(logger, bound);
      HorizonOccurs(logger);
      if count >= 2 {
        StepsOccur(logger, first, count - 2);
        GridGap(logger, first + (count - 2) * step, Horizon(logger));
        I.MulMonotone(count - 2, count - 2, step);
      }
      I.MulMonotone(position, count - 1, step);
    }
  }

  lemma CaptureStaysWithin(logger: Logger, bound: int, count: nat, threshold: int, position: nat, at: int)
    requires Accepts(logger) && Calm(logger, bound, count) && Within(logger, bound, threshold, position)
    requires IsNext(logger, Max(logger.startAt, threshold), at) && at != ZERO_TIME
    ensures Within(logger, bound, at + 1, position + 1)
  {
    if !EndsInTime(logger) {
      var first, last := FirstRun(logger, bound), FirstRun(logger, bound) + position * Step(logger);
      FirstRunOnGrid(logger, bound);
      StepsOccur(logger, first, position);
      assert at <= last;
      NextStep(first, position, Step(logger));
      assert ZeroAhead(logger, bound) ==> Occurs(logger, ZERO_TIME);
    }
  }

  lemma NextStep(first: int, position: nat, step: int)
    requires step > 0
    ensures first <= first + position * step
    ensures first + position * step + 1 <= first + (position + 1) * step
  {
    I.MulMonotone(position, position, step);
    I.MulMonotone(0, position, step);
  }

  lemma ReadingStaysWithin(logger: Logger, bound: int, count: nat, now: int, position: nat)
    requires Accepts(logger) && Calm(logger, bound, count) && now <= bound
    ensures Within(logger, bound, now, position)
  {
    if !EndsInTime(logger) {
      FirstRunOnGrid(logger, bound);
      I.MulMonotone(0, position, Step(logger));
    }
  }

  lemma ReadingCaptureStaysWithin(logger: Logger, bound: int, count: nat, position: nat, now: int)
    requires Accepts(logger) && Calm(logger, bound, count) && now <= bound && now != ZERO_TIME
    ensures Within(logger, bound, now + 1, position + 1)
  {
    if !EndsInTime(logger) {
      FirstRunOnGrid(logger, bound);
      NextStep(FirstRun(logger, bound), position, Step(logger));
    }
  }

  /** Thresholds within reach, as the loop's answers advance them. */
  ghost function ReachOf(logger: Logger, bound: int): Reach {
    (threshold: int, position: nat) => Accepts(logger) && Within(logger, bound, threshold, position)
  }

  lemma CalmAdvances(logger: Logger, bound: int, count: nat)
    requires Accepts(logger) && Calm(logger, bound, count)
    ensures Advances(AnswersOf(logger), ReachOf(logger, bound), bound, count)
  {
    var answers, reach := AnswersOf(logger), ReachOf(logger, bound);
    forall threshold, position: nat, run |
      reach(threshold, position) && position < count && answers(threshold, run) && run.Scheduled?
      ensures threshold <= run.at && reach(run.at + 1, position + 1)
    {
      CalmStep(logger, bound, count, threshold, position, run);
    }
    forall now, position: nat | now <= bound ensures reach(now, position) {
      ReadingStaysWithin(logger, bound, count, now, position);
    }
  }

  lemma CalmStep(logger: Logger, bound: int, count: nat, threshold: int, position: nat, run: NextRun)
    requires Accepts(logger) && Calm(logger, bound, count) && Within(logger, bound, threshold, position)
    requires position < count && Answers(logger, threshold, run) && run.Scheduled?
    ensures threshold <= run.at && Within(logger, bound, run.at + 1, position + 1)
  {
    WithinIsTrusted(logger, bound, count, threshold, position);
    TrustedIsNext(logger, threshold, run);
    CaptureStaysWithin(logger, bound, count, threshold, position, run.at);
  }

  /** On a calm clock captures strictly increase, from the threshold on. */
  lemma CalmIncreases(logger: Logger, bound: int, count: nat, position: nat, threshold: int,
                      readings: seq<int>, captured: seq<int>, outcome: Outcome)
    requires Accepts(logger) && Calm(logger, bound, count) && Within(logger, bound, threshold, position)
    requires position + |readings| == count && UpTo(readings, bound)
    requires Traces(logger, threshold, readings, captured, outcome)
    ensures Rising(captured, threshold)
  {
    CalmAdvances(logger, bound, count);
    AdvancingRises(AnswersOf(logger), ReachOf(logger, bound), bound, count, position, threshold, readings, captured,
                   outcome);
  }

  // ---------------------------------------------------------------- the exact condition

  /** Whatever the clock does up to the bound, this many readings give increasing captures. */
  ghost predicate AlwaysIncreases(logger: Logger, bound: int, count: nat)
    requires Accepts(logger)
  {
    forall first, readings, captured, outcome ::
      (first <= bound && |readings| == count && UpTo(readings, bound)
       && Traces(logger, first, readings, captured, outcome)) ==> StrictlyIncreasing(captured)
  }

  lemma RoomIncreases(logger: Logger, bound: int, count: nat)
    requires Accepts(logger) && HasRoom(logger, bound, count)
    ensures AlwaysIncreases(logger, bound, count)
  {
    forall first, readings, captured, outcome |
      first <= bound && |readings| == count && UpTo(readings, bound)
      && Traces(logger, first, readings, captured, outcome)
      ensures StrictlyIncreasing(captured)
    {
      CapturesAreFew(AnswersOf(logger), first, readings, captured, outcome);
      if count >= 2 {
        RoomIsCalm(logger, bound, count);
        ReadingStaysWithin(logger, bound, count, first, 0);
        CalmIncreases(logger, bound, count, 0, first, readings, captured, outcome);
      }
    }
  }

  lemma RoomIsCalm(logger: Logger, bound: int, count: nat)
    requires Accepts(logger) && HasRoom(logger, bound, count) && count >= 2
    ensures Calm(logger, bound, count)
  {
    if !EndsInTime(logger) {
      FirstRunOnGrid(logger, bound);
      I.MulMonotone(0, count - 2, Step(logger));
    }
  }

  /** The captures of a clock that stands still: one grid point after the other, up to the
      horizon and there again and again. */
  function Climb(at: int, step: int, horizon: int, count: nat): (s: seq<int>)
    ensures |s| == count
    decreases count
  {
    if count == 0 then []
    else [at] + Climb(if at + step <= horizon then at + step else horizon, step, horizon, count - 1)
  }

  lemma {:induction false} ClimbReaches(at: int, step: int, horizon: int, count: nat, i: nat)
    requires step > 0 && at <= horizon && i < count && horizon <= at + i * step
    ensures Climb(at, step, horizon, count)[i] == horizon
    decreases i
  {
    var next := if at + step <= horizon then at + step else horizon;
    if i > 0 {
      I.MulMonotone(i - 1, i - 1, step);
      I.MulMonotone(0, i - 1, step);
      ClimbReaches(next, step, horizon, count - 1, i - 1);
    }
  }

  function Still(now: int, count: nat): (s: seq<int>)
    ensures |s| == count && UpTo(s, now)
  {
    if count == 0 then [] else [now] + Still(now, count - 1)
  }

  /** A grid point from the first run on is neither the end nor the zero time. */
  ghost predicate Open(logger: Logger, at: int)
    requires Accepts(logger)
  {
    && IsGrid(logger) && Occurs(logger, at) && at <= Horizon(logger)
    && !logger.endAt.Before(Horizon(logger)) && Horizon(logger) != ZERO_TIME
    && (Occurs(logger, ZERO_TIME) && ZERO_TIME < Horizon(logger) ==> ZERO_TIME < at)
  }

  lemma OpenAnswers(logger: Logger, threshold: int, at: int)
    requires Accepts(logger) && Open(logger, at)
    requires var from := Max(logger.startAt, threshold);
             if from <= Horizon(logger) then IsNext(logger, from, at) else at == Horizon(logger)
    ensures Answers(logger, threshold, Scheduled(at))
  {
  }

  lemma OpenNext(logger: Logger, at: int)
    requires Accepts(logger) && Open(logger, at)
    ensures var next := if at + Step(logger) <= Horizon(logger) then at + Step(logger) else Horizon(logger);
            Open(logger, next) && Answers(logger, at + 1, Scheduled(next))
  {
    HorizonOccurs(logger);
    OccursFromStart(logger, at);
    if at < Horizon(logger) {
      GridGap(logger, at, Horizon(logger));
      StepsOccur(logger, at, 1);
      var next := at + Step(logger);
      forall q | Occurs(logger, q) && at + 1 <= q ensures next <= q {
        GridGap(logger, at, q);
      }
      assert IsNext(logger, at + 1, next);
    }
    OpenAnswers(logger, at + 1, if at + Step(logger) <= Horizon(logger) then at + Step(logger) else Horizon(logger));
  }

  lemma {:induction false} StillClockClimbs(logger: Logger, threshold: int, now: int, at: int, count: nat)
    requires Accepts(logger) && Open(logger, at) && now <= at && Answers(logger, threshold, Scheduled(at))
    ensures Traces(logger, threshold, Still(now, count), Climb(at, Step(logger), Horizon(logger), count), Cancelled)
    decreases count
  {
    var readings, captured := Still(now, count), Climb(at, Step(logger), Horizon(logger), count);
    if count > 0 {
      var next := if at + Step(logger) <= Horizon(logger) then at + Step(logger) else Horizon(logger);
      OpenNext(logger, at);
      StillClockClimbs(logger, at + 1, now, next, count - 1);
      assert readings[1..] == Still(now, count - 1);
      assert captured[1..] == Climb(next, Step(logger), Horizon(logger), count - 1);
    }
    assert Waits(AnswersOf(logger), Scheduled(at), readings, captured, Cancelled);
  }

  /** Without room a clock that stands still has the horizon captured twice. */
  lemma NoRoomRepeats(logger: Logger, bound: int, count: nat) returns (now: int)
    requires Accepts(logger) && !HasRoom(logger, bound, count)
    ensures count >= 2 && now <= bound
    ensures var captured := Climb(FirstRun(logger, bound), Step(logger), Horizon(logger), count);
            && Traces(logger, now, Still(now, count), captured, Cancelled)
            && captured[count - 2] == captured[count - 1] == Horizon(logger)
  {
    var first, step, horizon := FirstRun(logger, bound), Step(logger), Horizon(logger);
    FirstRunOnGrid(logger, bound);
    I.MulMonotone(count - 2, -1, step);
    HorizonOccurs(logger);
    now := if bound <= horizon then bound else horizon;
    var from := Max(logger.startAt, now);
    PastHorizon(logger, from);
    FirstRunOnGrid(logger, now);
    assert FirstRun(logger, now) == first;
    OpenAnswers(logger, now, first);
    StillClockClimbs(logger, now, now, first, count);
    I.MulMonotone(count - 2, count - 1, step);
    ClimbReaches(first, step, horizon, count, count - 2);
    ClimbReaches(first, step, horizon, count, count - 1);
  }

  /** A logger without an end in time, on a clock that stands at the horizon: the horizon is
      captured at each of two readings. */
  lemma HorizonCapturedTwice(logger: Logger)
    requires Accepts(logger) && !EndsInTime(logger)
    ensures var horizon := Horizon(logger);
            Traces(logger, horizon, [horizon, horizon], [horizon, horizon], Cancelled)
  {
    var horizon, step := Horizon(logger), Step(logger);
    HorizonOccurs(logger);
    PastHorizon(logger, horizon);
    FirstRunOnGrid(logger, horizon);
    OpenAnswers(logger, horizon, horizon);
    StillClockClimbs(logger, horizon, horizon, horizon, 2);
    assert Still(horizon, 2) == [horizon] + Still(horizon, 1) == [horizon, horizon];
    assert Climb(horizon, step, horizon, 2) == [horizon] + Climb(horizon, step, horizon, 1) == [horizon, horizon];
  }

  /** For every bound on the clock and every number of readings, the captures strictly
      increase on all such clocks exactly when there is room before the horizon. */
  lemma IncreasingIff(logger: Logger, bound: int, count: nat)
    requires Accepts(logger)
    ensures AlwaysIncreases(logger, bound, count) <==> HasRoom(logger, bound, count)
  {
    if HasRoom(logger, bound, count) {
      RoomIncreases(logger, bound, count);
    } else {
      var now := NoRoomRepeats(logger, bound, count);
      var captured := Climb(FirstRun(logger, bound), Step(logger), Horizon(logger), count);
      assert captured[count - 2] == captured[count - 1];
    }
  }

  /** They do so on every clock exactly for date schedules and for schedules that end before
      the horizon, or at it because it is the zero time. */
  lemma IncreasingOnEveryClockIff(logger: Logger)
    requires Accepts(logger)
    ensures (forall bound, count :: AlwaysIncreases(logger, bound, count)) <==> EndsInTime(logger)
  {
    if EndsInTime(logger) {
      forall bound, count ensures AlwaysIncreases(logger, bound, count) {
        IncreasingIff(logger, bound, count);
      }
    } else {
      FirstRunOnGrid(logger, Horizon(logger));
      HorizonOccurs(logger);
      IncreasingIff(logger, Horizon(logger), 2);
    }
  }
}
