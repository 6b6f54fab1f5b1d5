/** The run loop of the calendar scheduler, over the readings of a clock. */
module CalendarRun {
  import opened Ordering
  import opened Instants
  import opened Calendar
  import opened CalendarNext
  import opened CalendarTrace
  import opened ClockTrace

  function Highest(first: int, readings: seq<int>): (bound: int)
    ensures first <= bound && UpTo(readings, bound)
    ensures bound == first || bound in readings
  {
    if readings == [] then first
    else
      var front, last := readings[..|readings| - 1], readings[|readings| - 1];
      Max(Highest(first, front), last)
  }

  /** The clock stays far enough below the horizon for this many readings; so it always does
      for date schedules and for schedules that end in time. */
  ghost predicate Steady(logger: Logger, first: int, readings: seq<int>)
    requires Accepts(logger)
  {
    Calm(logger, Highest(first, readings), |readings|)
  }

  /** Every occurrence in [a, b) was already past at one of the readings in [lo, hi). */
  ghost predicate Passed(logger: Logger, readings: seq<int>, lo: nat, hi: nat, a: int, b: int)
    requires Accepts(logger) && hi <= |readings|
  {
    forall q :: Occurs(logger, q) && a <= q < b ==> exists k :: lo <= k < hi && q < readings[k]
  }

  /** The captured instants, each with the number of the reading it was made at. */
  datatype Log = Log(captured: seq<int>, used: seq<nat>) {
    predicate Valid() {
      |captured| == |used|
    }

    /** The first instant of interest after the last capture. */
    function Lower(logger: Logger, first: int): int {
      if captured == [] then Max(logger.startAt, first) else captured[|captured| - 1] + 1
    }

    function NextReading(): nat {
      if used == [] then 0 else used[|used| - 1] + 1
    }

    function Upto(i: nat): (log: Log)
      requires Valid() && i <= |used|
      ensures log.Valid()
    {
      Log(captured[..i], used[..i])
    }

    function Capture(at: int, reading: nat): (log: Log)
      requires Valid()
      ensures log.Valid()
    {
      Log(captured + [at], used + [reading])
    }
  }

  /** Captures are occurrences within the schedule, each at its own reading and at most a
      second late. */
  ghost predicate InTime(logger: Logger, readings: seq<int>, log: Log)
    requires Accepts(logger) && log.Valid()
  {
    && (forall i, j :: 0 <= i < j < |log.used| ==> log.used[i] < log.used[j])
    && forall i :: 0 <= i < |log.used| ==> OneInTime(logger, readings, log.captured[i], log.used[i])
  }

  ghost predicate OneInTime(logger: Logger, readings: seq<int>, at: int, used: nat)
    requires Accepts(logger)
  {
    && used < |readings| && readings[used] - at <= SECOND
    && Occurs(logger, at) && (logger.endAt.Until? ==> at <= logger.endAt.instant)
  }

  /** An occurrence between two captures is only left out when it was past at a reading
      between them. */
  ghost predicate NoneForgotten(logger: Logger, first: int, readings: seq<int>, log: Log)
    requires Accepts(logger) && log.Valid() && InTime(logger, readings, log)
  {
    forall i :: 0 <= i < |log.used| ==>
      PassedBetween(logger, first, readings, log.Upto(i), log.captured[i], log.used[i])
  }

  /** Every occurrence after the last capture and before `at` was past at a reading after
      that capture's and up to the given one. */
  ghost predicate PassedBetween(logger: Logger, first: int, readings: seq<int>, log: Log, at: int, reading: nat)
    requires Accepts(logger) && log.Valid() && reading < |readings|
  {
    Passed(logger, readings, log.NextReading(), reading + 1, log.Lower(logger, first), at)
  }

  /** `c` came due after the loop's reading or capture before reading number `k`. */
  ghost predicate Since(first: int, readings: seq<int>, log: Log, k: nat, c: int)
    requires log.Valid() && k <= |readings|
  {
    && (k == 0 ==> first <= c)
    && (k > 0 && k - 1 !in log.used ==> readings[k - 1] <= c)
    && forall i :: 0 <= i < |log.used| && log.used[i] == k - 1 ==> log.captured[i] < c
  }

  ghost predicate AllSince(first: int, readings: seq<int>, log: Log, k: nat, bound: int)
    requires log.Valid() && k <= |readings|
  {
    forall c :: bound <= c ==> Since(first, readings, log, k, c)
  }

  /** A reading without a capture came more than a second after an occurrence that had come
      due since the reading before. */
  ghost predicate Answered(logger: Logger, first: int, readings: seq<int>, log: Log, position: nat)
    requires Accepts(logger) && log.Valid() && position <= |readings|
  {
    forall k :: 0 <= k < position ==> k in log.used || TooLate(logger, first, readings, log, k)
  }

  ghost predicate TooLate(logger: Logger, first: int, readings: seq<int>, log: Log, k: nat)
    requires Accepts(logger) && log.Valid() && k < |readings|
  {
    exists c :: Occurs(logger, c) && c + SECOND < readings[k] && Since(first, readings, log, k, c)
  }

  ghost predicate Kept(logger: Logger, first: int, readings: seq<int>, log: Log)
    requires Accepts(logger) && log.Valid() && InTime(logger, readings, log)
  {
    Steady(logger, first, readings) ==>
      NoneForgotten(logger, first, readings, log)
  }

  /** Where the loop stands before it waits for the next run. */
  ghost predicate Progress(logger: Logger, first: int, readings: seq<int>, log: Log, threshold: int, position: nat)
    requires Accepts(logger)
  {
    && log.Valid() && log.NextReading() <= position <= |readings|
    && InTime(logger, readings, log) && Kept(logger, first, readings, log)
    && (Steady(logger, first, readings) ==> SteadyProgress(logger, first, readings, log, threshold, position))
  }

  ghost predicate SteadyProgress(logger: Logger, first: int, readings: seq<int>, log: Log, threshold: int,
                                 position: nat)
    requires Accepts(logger) && log.Valid() && position <= |readings|
  {
    && Answered(logger, first, readings, log, position)
    && AllSince(first, readings, log, position, Max(logger.startAt, threshold))
    && Within(logger, Highest(first, readings), threshold, position)
    && log.Lower(logger, first) <= Max(logger.startAt, threshold)
    && Passed(logger, readings, log.NextReading(), position, log.Lower(logger, first), Max(logger.startAt, threshold))
  }

  lemma NothingPassedYet(logger: Logger, first: int, readings: seq<int>)
    requires Accepts(logger)
    ensures Progress(logger, first, readings, Log([], []), first, 0)
  {
    if Steady(logger, first, readings) {
      ReadingStaysWithin(logger, Highest(first, readings), |readings|, first, 0);
    }
  }

  /** Without a next run no occurrence is left up to the end. */
  lemma NothingIsLeft(logger: Logger, threshold: int)
    requires Accepts(logger) && Answers(logger, threshold, Nothing) && logger.startAt > ZERO_TIME
    ensures forall q :: Occurs(logger, q) && Max(logger.startAt, threshold) <= q ==> logger.endAt.Before(q)
  {
    if IsGrid(logger) {
      HorizonOccurs(logger);
    }
    forall at | Occurs(logger, at) ensures logger.startAt <= at {
      OccursFromStart(logger, at);
    }
  }

  /** On a steady clock the next run is the least occurrence while a reading is left. */
  lemma SteadyIsTrusted(logger: Logger, first: int, readings: seq<int>, log: Log, threshold: int, position: nat)
    requires Accepts(logger) && log.Valid() && position < |readings| && Steady(logger, first, readings)
    requires SteadyProgress(logger, first, readings, log, threshold, position)
    ensures Trusted(logger, threshold)
  {
    WithinIsTrusted(logger, Highest(first, readings), |readings|, threshold, position);
  }

  /** A reading too late for the run moves the threshold to that reading. */
  lemma LateProgress(logger: Logger, first: int, readings: seq<int>, log: Log, threshold: int, position: nat, due: int)
    requires Accepts(logger) && Progress(logger, first, readings, log, threshold, position) && position < |readings|
    requires Answers(logger, threshold, Scheduled(due)) && due + SECOND < readings[position]
    ensures Progress(logger, first, readings, log, readings[position], position + 1)
  {
    if Steady(logger, first, readings) {
      LateSteady(logger, first, readings, log, threshold, position, due);
    }
  }

  lemma LateSteady(logger: Logger, first: int, readings: seq<int>, log: Log, threshold: int, position: nat, due: int)
    requires Accepts(logger) && log.Valid() && log.NextReading() <= position < |readings|
    requires InTime(logger, readings, log)
    requires Steady(logger, first, readings) && SteadyProgress(logger, first, readings, log, threshold, position)
    requires Answers(logger, threshold, Scheduled(due)) && due + SECOND < readings[position]
    ensures SteadyProgress(logger, first, readings, log, readings[position], position + 1)
  {
    SteadyIsTrusted(logger, first, readings, log, threshold, position);
    TrustedIsNext(logger, threshold, Scheduled(due));
    LatePassed(logger, first, readings, log, position, readings[position]);
    LateAnswered(logger, first, readings, log, threshold, position, due);
    ReadingStaysWithin(logger, Highest(first, readings), |readings|, readings[position], position + 1);
    OccursFromStart(logger, due);
  }

  lemma LatePassed(logger: Logger, first: int, readings: seq<int>, log: Log, position: nat, now: int)
    requires Accepts(logger) && log.Valid() && log.NextReading() <= position < |readings| && now == readings[position]
    ensures Passed(logger, readings, log.NextReading(), position + 1, log.Lower(logger, first), now)
  {
    forall q | Occurs(logger, q) && log.Lower(logger, first) <= q < now
      ensures exists k :: log.NextReading() <= k < position + 1 && q < readings[k]
    {
      assert log.NextReading() <= position < position + 1 && q < readings[position];
    }
  }

  lemma LateAnswered(logger: Logger, first: int, readings: seq<int>, log: Log, threshold: int, position: nat, due: int)
    requires Accepts(logger) && log.Valid() && log.NextReading() <= position < |readings|
    requires InTime(logger, readings, log) && Answered(logger, first, readings, log, position)
    requires AllSince(first, readings, log, position, Max(logger.startAt, threshold))
    requires Occurs(logger, due) && Max(logger.startAt, threshold) <= due && due + SECOND < readings[position]
    ensures Answered(logger, first, readings, log, position + 1)
    ensures AllSince(first, readings, log, position + 1, Max(logger.startAt, readings[position]))
  {
    assert TooLate(logger, first, readings, log, position);
    UsedBefore(log, position);
  }

  lemma UsedBefore(log: Log, position: nat)
    requires log.Valid() && log.NextReading() <= position
    requires forall i, j :: 0 <= i < j < |log.used| ==> log.used[i] < log.used[j]
    ensures forall i :: 0 <= i < |log.used| ==> log.used[i] < position
  {
  }

  /** `at` may be captured at the present reading: an occurrence in time, and none between
      the threshold and it that was not past by then. */
  ghost predicate MayCapture(logger: Logger, readings: seq<int>, threshold: int, position: nat, at: int)
    requires Accepts(logger) && position < |readings|
  {
    && Occurs(logger, at) && !logger.endAt.Before(at) && readings[position] - at <= SECOND
    && (Trusted(logger, threshold) ==>
          && Max(logger.startAt, threshold) <= at
          && forall q :: Occurs(logger, q) && Max(logger.startAt, threshold) <= q < at ==> q < readings[position])
  }

  lemma CaptureProgress(logger: Logger, first: int, readings: seq<int>, log: Log, threshold: int, position: nat,
                        at: int)
    requires Accepts(logger) && Progress(logger, first, readings, log, threshold, position) && position < |readings|
    requires MayCapture(logger, readings, threshold, position, at)
    requires Steady(logger, first, readings) ==> Within(logger, Highest(first, readings), at + 1, position + 1)
    ensures Progress(logger, first, readings, log.Capture(at, position), at + 1, position + 1)
  {
    CaptureInTime(logger, readings, log, position, at);
    if Steady(logger, first, readings) {
      SteadyIsTrusted(logger, first, readings, log, threshold, position);
      CaptureForgetsNone(logger, first, readings, log, threshold, position, at);
      OccursFromStart(logger, at);
      CaptureAnswered(logger, first, readings, log, threshold, at, position);
      CaptureSteady(logger, first, readings, log, position, at);
    }
  }

  lemma CaptureSteady(logger: Logger, first: int, readings: seq<int>, log: Log, position: nat, at: int)
    requires Accepts(logger) && log.Valid() && position < |readings|
    requires logger.startAt <= at && Within(logger, Highest(first, readings), at + 1, position + 1)
    requires Answered(logger, first, readings, log.Capture(at, position), position + 1)
    requires AllSince(first, readings, log.Capture(at, position), position + 1, at + 1)
    ensures SteadyProgress(logger, first, readings, log.Capture(at, position), at + 1, position + 1)
  {
    assert log.Capture(at, position).Lower(logger, first) == Max(logger.startAt, at + 1);
  }

  lemma CaptureInTime(logger: Logger, readings: seq<int>, log: Log, position: nat, at: int)
    requires Accepts(logger) && log.Valid() && InTime(logger, readings, log)
    requires log.NextReading() <= position < |readings|
    requires Occurs(logger, at) && !logger.endAt.Before(at) && readings[position] - at <= SECOND
    ensures InTime(logger, readings, log.Capture(at, position))
  {
    UsedBefore(log, position);
    var after := log.Capture(at, position);
    forall i | 0 <= i < |after.used| ensures OneInTime(logger, readings, after.captured[i], after.used[i]) {
      UptoCapture(log, at, position, i);
    }
    forall i, j | 0 <= i < j < |after.used| ensures after.used[i] < after.used[j] {
      assert after.used[i] == log.used[i];
    }
  }

  lemma CaptureAnswered(logger: Logger, first: int, readings: seq<int>, log: Log, threshold: int, at: int,
                        position: nat)
    requires Accepts(logger) && log.Valid() && log.NextReading() <= position < |readings|
    requires InTime(logger, readings, log) && SteadyProgress(logger, first, readings, log, threshold, position)
    ensures Answered(logger, first, readings, log.Capture(at, position), position + 1)
    ensures AllSince(first, readings, log.Capture(at, position), position + 1, at + 1)
  {
    var after := log.Capture(at, position);
    UsedBefore(log, position);
    assert after.used[|log.used|] == position;
    forall k | 0 <= k < position + 1 && k !in after.used ensures TooLate(logger, first, readings, after, k) {
      assert k !in log.used && TooLate(logger, first, readings, log, k);
      var c :| Occurs(logger, c) && c + SECOND < readings[k] && Since(first, readings, log, k, c);
      SinceStays(first, readings, log, at, position, k, c);
    }
  }

  lemma SinceStays(first: int, readings: seq<int>, log: Log, at: int, position: nat, k: nat, c: int)
    requires log.Valid() && k <= position < |readings| && Since(first, readings, log, k, c)
    ensures Since(first, readings, log.Capture(at, position), k, c)
  {
    assert k > 0 ==> (k - 1 in log.Capture(at, position).used <==> k - 1 in log.used);
  }

  lemma CaptureForgetsNone(logger: Logger, first: int, readings: seq<int>, log: Log, threshold: int, position: nat,
                           at: int)
    requires Accepts(logger) && Progress(logger, first, readings, log, threshold, position) && position < |readings|
    requires Steady(logger, first, readings) && Trusted(logger, threshold)
    requires MayCapture(logger, readings, threshold, position, at)
    requires InTime(logger, readings, log.Capture(at, position))
    ensures NoneForgotten(logger, first, readings, log.Capture(at, position))
  {
    PassedByNow(logger, first, readings, log, threshold, position, at);
    NoneForgottenStep(logger, first, readings, log, position, at);
  }

  lemma PassedByNow(logger: Logger, first: int, readings: seq<int>, log: Log, threshold: int, position: nat, at: int)
    requires Accepts(logger) && log.Valid() && log.NextReading() <= position < |readings|
    requires Trusted(logger, threshold) && MayCapture(logger, readings, threshold, position, at)
    requires var from := Max(logger.startAt, threshold);
             Passed(logger, readings, log.NextReading(), position, log.Lower(logger, first), from)
    ensures PassedBetween(logger, first, readings, log, at, position)
  {
    forall q | Occurs(logger, q) && log.Lower(logger, first) <= q < at
      ensures exists k :: log.NextReading() <= k < position + 1 && q < readings[k]
    {
      if q < Max(logger.startAt, threshold) {
        var k :| log.NextReading() <= k < position && q < readings[k];
      } else {
        assert log.NextReading() <= position < position + 1 && q < readings[position];
      }
    }
  }

  lemma NoneForgottenStep(logger: Logger, first: int, readings: seq<int>, log: Log, position: nat, at: int)
    requires Accepts(logger) && log.Valid() && position < |readings| && InTime(logger, readings, log)
    requires NoneForgotten(logger, first, readings, log)
    requires PassedBetween(logger, first, readings, log, at, position)
    requires InTime(logger, readings, log.Capture(at, position))
    ensures NoneForgotten(logger, first, readings, log.Capture(at, position))
  {
    var after := log.Capture(at, position);
    forall i | 0 <= i < |after.used|
      ensures PassedBetween(logger, first, readings, after.Upto(i), after.captured[i], after.used[i])
    {
      UptoCapture(log, at, position, i);
      assert i < |log.used| ==> PassedBetween(logger, first, readings, log.Upto(i), log.captured[i], log.used[i]);
    }
  }

  lemma UptoCapture(log: Log, at: int, position: nat, i: nat)
    requires log.Valid() && i <= |log.used|
    ensures var after := log.Capture(at, position);
            && after.Upto(i) == log.Upto(i)
            && (i < |log.used| ==> after.captured[i] == log.captured[i] && after.used[i] == log.used[i])
            && (i == |log.used| ==> after.Upto(i) == log && after.captured[i] == at && after.used[i] == position)
  {
    assert (log.captured + [at])[..i] == log.captured[..i];
    assert (log.used + [position])[..i] == log.used[..i];
  }

  /** What the loop has done when it returns. It has traced the clock's readings. Captures are
      occurrences within the schedule, at most a second late, and they strictly increase
      where there is room before the horizon. On a steady clock they leave out only
      occurrences that were past at a reading made before the next capture, and every
      reading is answered; a finished loop has left out no other one up to the end. */
  ghost predicate Ran(logger: Logger, first: int, readings: seq<int>, log: Log, outcome: Outcome)
    requires Accepts(logger)
  {
    && Traces(logger, first, readings, log.captured, outcome)
    && (HasRoom(logger, Highest(first, readings), |readings|) ==> StrictlyIncreasing(log.captured))
    && Recorded(logger, first, readings, log, outcome)
  }

  ghost predicate Recorded(logger: Logger, first: int, readings: seq<int>, log: Log, outcome: Outcome)
    requires Accepts(logger)
  {
    && log.Valid() && InTime(logger, readings, log) && Kept(logger, first, readings, log)
    && match outcome
       case Cancelled =>
         Steady(logger, first, readings) ==> Answered(logger, first, readings, log, |readings|)
       case Failing => exists threshold :: SearchFails(logger, Max(logger.startAt, threshold))
       case Finished =>
         Steady(logger, first, readings) && logger.startAt > ZERO_TIME ==>
           forall q :: Occurs(logger, q) && log.Lower(logger, first) <= q && !logger.endAt.Before(q) ==>
             exists k :: log.NextReading() <= k < |readings| && q < readings[k]
  }

  lemma EndsFinished(logger: Logger, first: int, readings: seq<int>, log: Log, threshold: int, position: nat)
    requires Accepts(logger) && Progress(logger, first, readings, log, threshold, position)
    requires Answers(logger, threshold, Nothing)
    ensures Recorded(logger, first, readings, log, Finished)
  {
    if Steady(logger, first, readings) && logger.startAt > ZERO_TIME {
      NothingIsLeft(logger, threshold);
      forall q | Occurs(logger, q) && log.Lower(logger, first) <= q && !logger.endAt.Before(q)
        ensures exists k :: log.NextReading() <= k < |readings| && q < readings[k]
      {
        assert q < Max(logger.startAt, threshold);
        var k :| log.NextReading() <= k < position && q < readings[k];
      }
    }
  }

  lemma MayCaptureInTime(logger: Logger, readings: seq<int>, threshold: int, position: nat, at: int)
    requires Accepts(logger) && Answers(logger, threshold, Scheduled(at))
    requires position < |readings| && readings[position] - at <= SECOND
    ensures MayCapture(logger, readings, threshold, position, at)
  {
    if Trusted(logger, threshold) {
      TrustedIsNext(logger, threshold, Scheduled(at));
    }
  }

  lemma MayCaptureNow(logger: Logger, readings: seq<int>, threshold: int, position: nat, due: int, now: int)
    requires Accepts(logger) && Answers(logger, threshold, Scheduled(due))
    requires position < |readings| && readings[position] == now && due < now
    requires Answers(logger, now, Scheduled(now))
    ensures MayCapture(logger, readings, threshold, position, now)
  {
    if Trusted(logger, threshold) {
      TrustedIsNext(logger, threshold, Scheduled(due));
    }
  }

  /** After a wait: capture at an instant, wait again, or end. */
  datatype Choice = CaptureAt(at: int) | Skip | End | Break

  ghost predicate Chosen(logger: Logger, due: int, now: int, choice: Choice)
    requires Accepts(logger)
  {
    match choice
    case CaptureAt(at) =>
      (at == due && now - at <= SECOND) || (at == now && due + SECOND < now && Answers(logger, now, Scheduled(now)))
    case Skip => due + SECOND < now && exists at :: at != now && Answers(logger, now, Scheduled(at))
    case End => due + SECOND < now && Answers(logger, now, Nothing)
    case Break => due + SECOND < now && Answers(logger, now, Failed)
  }

  /** Within the tolerance the run is captured; later, only a run due at this very instant. */
  method Choose(logger: Logger, due: int, now: int) returns (choice: Choice)
    requires Accepts(logger)
    ensures Chosen(logger, due, now, choice)
    ensures now - due <= SECOND <==> choice == CaptureAt(due)
  {
    if Elapsed(due, now) <= SECOND {
      return CaptureAt(due);
    }
    var current := NextCalendarRun(logger, now);
    match current
    case Failed => return Break;
    case Nothing => return End;
    case Scheduled(at) => return if at == now then CaptureAt(now) else Skip;
  }

  lemma CaptureChoice(logger: Logger, first: int, readings: seq<int>, log: Log, threshold: int, position: nat,
                      due: int, at: int)
    requires Accepts(logger) && Progress(logger, first, readings, log, threshold, position) && position < |readings|
    requires Answers(logger, threshold, Scheduled(due)) && Chosen(logger, due, readings[position], CaptureAt(at))
    ensures Progress(logger, first, readings, log.Capture(at, position), at + 1, position + 1)
  {
    var bound := Highest(first, readings);
    if at == due && readings[position] - due <= SECOND {
      MayCaptureInTime(logger, readings, threshold, position, due);
      if Steady(logger, first, readings) {
        SteadyIsTrusted(logger, first, readings, log, threshold, position);
        TrustedIsNext(logger, threshold, Scheduled(due));
        CaptureStaysWithin(logger, bound, |readings|, threshold, position, at);
      }
    } else {
      MayCaptureNow(logger, readings, threshold, position, due, at);
      if Steady(logger, first, readings) {
        ReadingCaptureStaysWithin(logger, bound, |readings|, position, at);
      }
    }
    CaptureProgress(logger, first, readings, log, threshold, position, at);
  }

  lemma EndsFailing(logger: Logger, first: int, readings: seq<int>, log: Log, threshold: int, position: nat, now: int)
    requires Accepts(logger) && Progress(logger, first, readings, log, threshold, position)
    requires Answers(logger, now, Failed)
    ensures Recorded(logger, first, readings, log, Failing)
  {
  }

  lemma EndsEarly(logger: Logger, first: int, readings: seq<int>, log: Log, threshold: int, position: nat, run: NextRun)
    requires Accepts(logger) && Progress(logger, first, readings, log, threshold, position)
    requires Answers(logger, threshold, run)
    ensures run.Nothing? ==> Recorded(logger, first, readings, log, Finished)
    ensures run.Failed? ==> Recorded(logger, first, readings, log, Failing)
    ensures position == |readings| ==> Recorded(logger, first, readings, log, Cancelled)
  {
    if run.Nothing? {
      EndsFinished(logger, first, readings, log, threshold, position);
    } else if run.Failed? {
      EndsFailing(logger, first, readings, log, threshold, position, threshold);
    }
  }

  // ---------------------------------------------------------------- the trace

  /** What the loop still does from here completes what it has done. */
  ghost predicate Continues(logger: Logger, first: int, readings: seq<int>, captured: seq<int>, threshold: int,
                            position: nat)
    requires Accepts(logger) && position <= |readings|
  {
    LeadsOn(AnswersOf(logger), first, readings, captured, threshold, position)
  }

  lemma CaptureContinues(logger: Logger, first: int, readings: seq<int>, captured: seq<int>, threshold: int,
                         position: nat, due: int, at: int)
    requires Accepts(logger) && position < |readings| && Answers(logger, threshold, Scheduled(due))
    requires Chosen(logger, due, readings[position], CaptureAt(at))
    requires Continues(logger, first, readings, captured, threshold, position)
    ensures Continues(logger, first, readings, captured + [at], at + 1, position + 1)
  {
    AnswersHere(logger, threshold, Scheduled(due));
    AnswersHere(logger, at, Scheduled(at));
    CaptureLeadsOn(AnswersOf(logger), first, readings, captured, threshold, position, due, at);
  }

  lemma SkipContinues(logger: Logger, first: int, readings: seq<int>, captured: seq<int>, threshold: int,
                      position: nat, due: int)
    requires Accepts(logger) && position < |readings| && Answers(logger, threshold, Scheduled(due))
    requires Chosen(logger, due, readings[position], Skip)
    requires Continues(logger, first, readings, captured, threshold, position)
    ensures Continues(logger, first, readings, captured, readings[position], position + 1)
  {
    var at :| at != readings[position] && Answers(logger, readings[position], Scheduled(at));
    AnswersHere(logger, threshold, Scheduled(due));
    AnswersHere(logger, readings[position], Scheduled(at));
    SkipLeadsOn(AnswersOf(logger), first, readings, captured, threshold, position, due, Scheduled(at));
  }

  /** A loop that ends here has traced its readings. */
  lemma Completes(logger: Logger, first: int, readings: seq<int>, log: Log, threshold: int, position: nat,
                  outcome: Outcome)
    requires Accepts(logger) && position <= |readings| && Recorded(logger, first, readings, log, outcome)
    requires Continues(logger, first, readings, log.captured, threshold, position)
    requires Traces(logger, threshold, readings[position..], [], outcome)
    ensures Ran(logger, first, readings, log, outcome)
  {
    LeadsToEnd(AnswersOf(logger), first, readings, log.captured, threshold, position, outcome);
    TracedIncreases(logger, first, readings, log.captured, outcome);
  }

  lemma TracedIncreases(logger: Logger, first: int, readings: seq<int>, captured: seq<int>, outcome: Outcome)
    requires Accepts(logger) && Traces(logger, first, readings, captured, outcome)
    ensures HasRoom(logger, Highest(first, readings), |readings|) ==> StrictlyIncreasing(captured)
  {
    if HasRoom(logger, Highest(first, readings), |readings|) {
      RoomIncreases(logger, Highest(first, readings), |readings|);
    }
  }

  lemma CompletesEarly(logger: Logger, first: int, readings: seq<int>, log: Log, threshold: int, position: nat,
                       run: NextRun)
    requires Accepts(logger) && Progress(logger, first, readings, log, threshold, position)
    requires Continues(logger, first, readings, log.captured, threshold, position) && Answers(logger, threshold, run)
    ensures run.Nothing? ==> Ran(logger, first, readings, log, Finished)
    ensures run.Failed? ==> Ran(logger, first, readings, log, Failing)
    ensures run.Scheduled? && position == |readings| ==> Ran(logger, first, readings, log, Cancelled)
  {
    EndsEarly(logger, first, readings, log, threshold, position, run);
    var left := readings[position..];
    if run.Nothing? {
      assert Waits(AnswersOf(logger), run, left, [], Finished);
      Completes(logger, first, readings, log, threshold, position, Finished);
    } else if run.Failed? {
      assert Waits(AnswersOf(logger), run, left, [], Failing);
      Completes(logger, first, readings, log, threshold, position, Failing);
    } else if position == |readings| {
      assert Waits(AnswersOf(logger), run, left, [], Cancelled);
      Completes(logger, first, readings, log, threshold, position, Cancelled);
    }
  }

  lemma CompletesLate(logger: Logger, first: int, readings: seq<int>, log: Log, threshold: int, position: nat, due: int,
                      choice: Choice)
    requires Accepts(logger) && Progress(logger, first, readings, log, threshold, position) && position < |readings|
    requires Continues(logger, first, readings, log.captured, threshold, position)
    requires Answers(logger, threshold, Scheduled(due)) && Chosen(logger, due, readings[position], choice)
    ensures choice.End? ==> Ran(logger, first, readings, log, Finished)
    ensures choice.Break? ==> Ran(logger, first, readings, log, Failing)
  {
    if choice.End? {
      LateProgress(logger, first, readings, log, threshold, position, due);
      EndsFinished(logger, first, readings, log, readings[position], position + 1);
      LateTraces(AnswersOf(logger), threshold, readings, position, due, Nothing, [], Finished);
      Completes(logger, first, readings, log, threshold, position, Finished);
    } else if choice.Break? {
      EndsFailing(logger, first, readings, log, threshold, position, readings[position]);
      LateTraces(AnswersOf(logger), threshold, readings, position, due, Failed, [], Failing);
      Completes(logger, first, readings, log, threshold, position, Failing);
    }
  }

  // ---------------------------------------------------------------- the loop

  /** One turn of the loop: find the next run, wait, and capture it, wait again or stop. */
  method TakeTurn(logger: Logger, ghost first: int, readings: seq<int>, log: Log, threshold: int, position: nat)
    returns (stop: bool, outcome: Outcome, after: Log, next: int)
    requires Accepts(logger) && Progress(logger, first, readings, log, threshold, position)
    requires Continues(logger, first, readings, log.captured, threshold, position)
    ensures stop ==> after == log && Ran(logger, first, readings, after, outcome)
    ensures !stop ==> position < |readings| && Progress(logger, first, readings, after, next, position + 1)
    ensures !stop ==> Continues(logger, first, readings, after.captured, next, position + 1)
  {
    var scheduled := NextCalendarRun(logger, threshold);
    CompletesEarly(logger, first, readings, log, threshold, position, scheduled);
    if scheduled.Failed? {
      return true, Failing, log, threshold;
    }
    if scheduled.Nothing? {
      return true, Finished, log, threshold;
    }
    if position == |readings| {
      return true, Cancelled, log, threshold;
    }
    var choice := Choose(logger, scheduled.at, readings[position]);
    if choice.End? || choice.Break? {
      CompletesLate(logger, first, readings, log, threshold, position, scheduled.at, choice);
      return true, if choice.End? then Finished else Failing, log, threshold;
    }
    stop, outcome := false, Cancelled;
    after, next := Follow(logger, first, readings, log, threshold, position, scheduled.at, choice);
  }

  /** `first` is the clock when the loop starts and `readings` the clock after each wait;
      the loop is cancelled in the wait after the last one. */
  method RunAccepted(logger: Logger, first: int, readings: seq<int>) returns (log: Log, outcome: Outcome)
    requires Accepts(logger)
    ensures Ran(logger, first, readings, log, outcome)
  {
    log := Log([], []);
    var threshold, position, stop := first, 0, false;
    NothingTracedYet(logger, first, readings);
    while true
      invariant Progress(logger, first, readings, log, threshold, position)
      invariant Continues(logger, first, readings, log.captured, threshold, position)
      decreases |readings| - position
    {
      stop, outcome, log, threshold := TakeTurn(logger, first, readings, log, threshold, position);
      if stop {
        return;
      }
      position := position + 1;
    }
  }

  lemma NothingTracedYet(logger: Logger, first: int, readings: seq<int>)
    requires Accepts(logger)
    ensures Progress(logger, first, readings, Log([], []), first, 0)
    ensures Continues(logger, first, readings, [], first, 0)
  {
    NothingPassedYet(logger, first, readings);
    assert readings[0..] == readings;
    assert forall rest: seq<int> :: [] + rest == rest;
  }

  lemma CaptureFollows(logger: Logger, first: int, readings: seq<int>, log: Log, threshold: int, position: nat,
                       due: int,
                       at: int)
    requires Accepts(logger) && Progress(logger, first, readings, log, threshold, position) && position < |readings|
    requires Continues(logger, first, readings, log.captured, threshold, position)
    requires Answers(logger, threshold, Scheduled(due)) && Chosen(logger, due, readings[position], CaptureAt(at))
    ensures Progress(logger, first, readings, log.Capture(at, position), at + 1, position + 1)
    ensures Continues(logger, first, readings, log.Capture(at, position).captured, at + 1, position + 1)
  {
    CaptureChoice(logger, first, readings, log, threshold, position, due, at);
    CaptureContinues(logger, first, readings, log.captured, threshold, position, due, at);
  }

  lemma SkipFollows(logger: Logger, first: int, readings: seq<int>, log: Log, threshold: int, position: nat, due: int)
    requires Accepts(logger) && Progress(logger, first, readings, log, threshold, position) && position < |readings|
    requires Continues(logger, first, readings, log.captured, threshold, position)
    requires Answers(logger, threshold, Scheduled(due)) && Chosen(logger, due, readings[position], Skip)
    ensures Progress(logger, first, readings, log, readings[position], position + 1)
    ensures Continues(logger, first, readings, log.captured, readings[position], position + 1)
  {
    LateProgress(logger, first, readings, log, threshold, position, due);
    SkipContinues(logger, first, readings, log.captured, threshold, position, due);
  }

  method Follow(logger: Logger, ghost first: int, readings: seq<int>, log: Log, ghost before: int, position: nat,
                ghost due: int, choice: Choice)
    returns (after: Log, threshold: int)
    requires Accepts(logger) && Progress(logger, first, readings, log, before, position) && position < |readings|
    requires Continues(logger, first, readings, log.captured, before, position)
    requires Answers(logger, before, Scheduled(due)) && Chosen(logger, due, readings[position], choice)
    requires choice.CaptureAt? || choice.Skip?
    ensures Progress(logger, first, readings, after, threshold, position + 1)
    ensures Continues(logger, first, readings, after.captured, threshold, position + 1)
    ensures choice.CaptureAt? ==> after == log.Capture(choice.at, position)
    ensures choice.Skip? ==> after == log
  {
    if choice.CaptureAt? {
      CaptureFollows(logger, first, readings, log, before, position, due, choice.at);
      after, threshold := log.Capture(choice.at, position), choice.at + 1;
    } else {
      SkipFollows(logger, first, readings, log, before, position, due);
      after, threshold := log, readings[position];
    }
  }

  method Run(logger: Logger, first: int, readings: seq<int>) returns (log: Log, outcome: Outcome)
    requires logger.zone.Valid()
    ensures if Accepts(logger) then Ran(logger, first, readings, log, outcome)
            else log == Log([], []) && outcome == Failing
  {
    if Define(logger).Accepted? {
      log, outcome := RunAccepted(logger, first, readings);
    } else {
      log, outcome := Log([], []), Failing;
    }
  }
}
