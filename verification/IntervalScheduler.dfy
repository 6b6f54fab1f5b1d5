/** The interval scheduler: the grid of a start instant and an interval, and the run loop
    over the readings of a clock. */
module IntervalScheduler {
  import opened Ordering
  import opened Instants

  ghost predicate OnGrid(startAt: int, interval: int, instant: int)
    requires interval > 0
  {
    exists k: nat :: instant == startAt + k * interval
  }

  /** The instant after which the saturated distance from the start no longer leads to
      the next grid point. */
  function Horizon(startAt: int, interval: int): int
    requires interval > 0
  {
    startAt + (MAX_DURATION / interval + 1) * interval
  }

  function NextIntervalRun(startAt: int, interval: int, now: int): (candidate: int)
    requires interval > 0
  {
    if now <= startAt then startAt
    else
      var elapsed := Elapsed(startAt, now);
      var steps := Quotient(elapsed, interval);
      var candidate := startAt + steps * interval;
      if candidate < now then candidate + interval else candidate
  }

  function LatestIntervalRun(startAt: int, interval: int, now: int): (candidate: int)
    requires interval > 0
  {
    if now <= startAt then startAt
    else startAt + Quotient(Elapsed(startAt, now), interval) * interval
  }

  ghost predicate IsLeastFrom(startAt: int, interval: int, now: int, run: int)
    requires interval > 0
  {
    && OnGrid(startAt, interval, run) && now <= run
    && forall k: nat :: now <= startAt + k * interval ==> run <= startAt + k * interval
  }

  ghost predicate IsGreatestTo(startAt: int, interval: int, now: int, run: int)
    requires interval > 0
  {
    && OnGrid(startAt, interval, run) && run <= now
    && forall k: nat :: startAt + k * interval <= now ==> startAt + k * interval <= run
  }

  lemma MulMonotone(a: int, b: int, interval: int)
    requires interval > 0
    ensures a <= b <==> a * interval <= b * interval
    ensures (a + 1) * interval == a * interval + interval
  {
    if a <= b {
      assert (b - a) * interval >= 0;
    } else {
      assert (a - b) * interval > 0;
    }
  }

  /** Between two neighbouring grid points only the later one can be the next. */
  lemma BetweenGridPoints(startAt: int, interval: int, steps: nat, now: int)
    requires interval > 0
    requires startAt + steps * interval <= now < startAt + (steps + 1) * interval
    ensures IsGreatestTo(startAt, interval, now, startAt + steps * interval)
    ensures IsLeastFrom(startAt, interval, now,
                        if now == startAt + steps * interval then now else startAt + (steps + 1) * interval)
  {
    assert OnGrid(startAt, interval, startAt + steps * interval);
    assert OnGrid(startAt, interval, startAt + (steps + 1) * interval);
    forall k: nat
      ensures startAt + k * interval <= now ==> k <= steps
      ensures startAt + k * interval <= now ==> startAt + k * interval <= startAt + steps * interval
      ensures now <= startAt + k * interval ==>
                startAt + steps * interval <= startAt + k * interval
      ensures now < startAt + k * interval ==>
                startAt + (steps + 1) * interval <= startAt + k * interval
      ensures startAt + steps * interval < now <= startAt + k * interval ==>
                startAt + (steps + 1) * interval <= startAt + k * interval
    {
      MulMonotone(k, steps, interval);
      MulMonotone(steps, k, interval);
      MulMonotone(steps + 1, k, interval);
    }
  }

  /** Both runs are grid points; the next run is not past the horizon. */
  lemma RunsAreOnGrid(startAt: int, interval: int, now: int)
    requires interval > 0
    ensures OnGrid(startAt, interval, NextIntervalRun(startAt, interval, now))
    ensures OnGrid(startAt, interval, LatestIntervalRun(startAt, interval, now))
    ensures startAt <= LatestIntervalRun(startAt, interval, now) <= Max(startAt, now)
    ensures startAt <= NextIntervalRun(startAt, interval, now) <= Horizon(startAt, interval)
  {
    assert startAt == startAt + 0 * interval;
    if now > startAt {
      var steps := Quotient(Elapsed(startAt, now), interval);
      MulMonotone(0, steps, interval);
      MulMonotone(-1, steps, interval);
      QuotientMonotone(Elapsed(startAt, now), MAX_DURATION, interval);
      MulMonotone(steps, MAX_DURATION / interval, interval);
      assert startAt + steps * interval + interval == startAt + (steps + 1) * interval;
    } else {
      MulMonotone(0, MAX_DURATION / interval + 1, interval);
    }
  }

  lemma QuotientMonotone(a: int, b: int, interval: int)
    requires interval > 0 && 0 <= a <= b
    ensures 0 <= Quotient(a, interval) <= b / interval
  {
    var q, r := a / interval, b / interval;
    if q > r {
      MulMonotone(r + 1, q, interval);
    }
    if q < 0 {
      MulMonotone(q + 1, 0, interval);
    }
  }

  /** Up to the horizon the whole intervals since the start come from the true distance;
      from there on they stay at their greatest number. */
  lemma StepsTaken(startAt: int, interval: int, now: int)
    requires interval > 0 && startAt < now
    ensures var steps := Quotient(Elapsed(startAt, now), interval);
            && 0 <= steps <= MAX_DURATION / interval
            && (now < Horizon(startAt, interval) ==>
                  startAt + steps * interval <= now < startAt + (steps + 1) * interval)
            && (now >= Horizon(startAt, interval) ==> steps == MAX_DURATION / interval)
  {
    var most := MAX_DURATION / interval;
    QuotientMonotone(Elapsed(startAt, now), MAX_DURATION, interval);
    if now - startAt > MAX_DURATION {
      assert most * interval <= MAX_DURATION;
    } else {
      assert MAX_DURATION < (most + 1) * interval;
    }
  }

  lemma NextRunWithin(startAt: int, interval: int, now: int)
    requires interval > 0 && now <= Horizon(startAt, interval)
    ensures IsLeastFrom(startAt, interval, now, NextIntervalRun(startAt, interval, now))
  {
    if now <= startAt {
      RunsAreOnGrid(startAt, interval, now);
      forall k: nat ensures startAt <= startAt + k * interval {
        MulMonotone(0, k, interval);
      }
    } else {
      StepsTaken(startAt, interval, now);
      var steps := Quotient(Elapsed(startAt, now), interval);
      MulMonotone(steps, steps, interval);
      if now < Horizon(startAt, interval) {
        BetweenGridPoints(startAt, interval, steps, now);
      } else {
        BetweenGridPoints(startAt, interval, steps + 1, now);
      }
    }
  }

  /** The next run is the least grid point not before `now` for every `now` up to the
      horizon, and for no later one. */
  lemma NextRunIsLeast(startAt: int, interval: int, now: int)
    requires interval > 0
    ensures IsLeastFrom(startAt, interval, now, NextIntervalRun(startAt, interval, now))
            <==> now <= Horizon(startAt, interval)
    ensures now > Horizon(startAt, interval) ==> NextIntervalRun(startAt, interval, now) < now
  {
    RunsAreOnGrid(startAt, interval, now);
    if now <= Horizon(startAt, interval) {
      NextRunWithin(startAt, interval, now);
    }
  }

  lemma LatestRunWithin(startAt: int, interval: int, now: int)
    requires interval > 0 && startAt <= now < Horizon(startAt, interval)
    ensures IsGreatestTo(startAt, interval, now, LatestIntervalRun(startAt, interval, now))
  {
    if now == startAt {
      assert startAt == startAt + 0 * interval;
      BetweenGridPoints(startAt, interval, 0, now);
    } else {
      StepsTaken(startAt, interval, now);
      BetweenGridPoints(startAt, interval, Quotient(Elapsed(startAt, now), interval), now);
    }
  }

  /** The latest run is the greatest grid point not after `now` for every `now` from the
      start to just before the horizon, and for no other. */
  lemma LatestRunIsGreatest(startAt: int, interval: int, now: int)
    requires interval > 0
    ensures IsGreatestTo(startAt, interval, now, LatestIntervalRun(startAt, interval, now))
            <==> startAt <= now < Horizon(startAt, interval)
  {
    RunsAreOnGrid(startAt, interval, now);
    if startAt <= now < Horizon(startAt, interval) {
      LatestRunWithin(startAt, interval, now);
    } else if now >= Horizon(startAt, interval) {
      var most: nat := MAX_DURATION / interval;
      MulMonotone(0, most + 1, interval);
      StepsTaken(startAt, interval, now);
      MulMonotone(most, most, interval);
      var k: nat := most + 1;
      assert startAt + k * interval <= now;
      assert LatestIntervalRun(startAt, interval, now) == startAt + most * interval;
    }
  }

  // ---------------------------------------------------------------- the run loop


  /** The latest run as a function of the clock. */
  function LatestOf(startAt: int, interval: int): int -> int
    requires interval > 0
  {
    now => LatestIntervalRun(startAt, interval, now)
  }

  /** The scheduler's loop. `first` is the clock when the loop starts and `readings` the
      clock after each wait; the loop is cancelled in the wait after the last one.
      `captured` are the instants a capture is made for. */
  method Run(startAt: int, interval: int, endAt: EndAt, first: int, readings: seq<int>)
    returns (captured: seq<int>, ended: bool)
    requires interval > 0
    ensures StrictlyIncreasing(captured)
    ensures forall c :: c in captured ==>
              startAt <= c && (endAt.Until? ==> c <= endAt.instant) && OnGrid(startAt, interval, c)
    ensures var next, latest := NextIntervalRun(startAt, interval, first), LatestOf(startAt, interval);
            && CatchesUp(next, interval, latest, readings, captured)
            && if ended then NothingLeft(next, interval, latest, endAt, readings, captured)
               else |captured| == |readings|
  {
    forall now
      ensures startAt <= LatestOf(startAt, interval)(now) && OnGrid(startAt, interval, LatestOf(startAt, interval)(now))
      ensures LatestOf(startAt, interval)(now) <= Max(startAt, now)
    {
      RunsAreOnGrid(startAt, interval, now);
    }
    forall t | OnGrid(startAt, interval, t) ensures OnGrid(startAt, interval, t + interval) {
      GridStep(startAt, interval, t);
    }
    RunsAreOnGrid(startAt, interval, first);
    captured, ended := Follow(NextIntervalRun(startAt, interval, first), interval, LatestOf(startAt, interval),
                              t => startAt <= t && OnGrid(startAt, interval, t), endAt, readings);
  }

  /** The loop itself, on any grid closed under the interval. */
  method Follow(next: int, interval: int, latest: int -> int, ghost grid: int -> bool, endAt: EndAt, readings: seq<int>)
    returns (captured: seq<int>, ended: bool)
    requires interval > 0 && grid(next)
    requires forall now :: grid(latest(now)) && (latest(now) <= now || latest(now) <= next)
    requires forall t :: grid(t) ==> grid(t + interval)
    ensures StrictlyIncreasing(captured)
    ensures forall c :: c in captured ==> grid(c) && !endAt.Before(c)
    ensures CatchesUp(next, interval, latest, readings, captured)
    ensures if ended then NothingLeft(next, interval, latest, endAt, readings, captured) else |captured| == |readings|
  {
    captured := [];
    var scheduledAt := next;
    while true
      invariant StrictlyIncreasing(captured) && StrictlyIncreasing(captured + [scheduledAt])
      invariant next <= scheduledAt == Due(next, interval, captured) && grid(scheduledAt)
      invariant forall c :: c in captured ==> grid(c) && !endAt.Before(c)
      invariant CatchesUp(next, interval, latest, readings, captured)
      decreases |readings| - |captured|
    {
      if endAt.Before(scheduledAt) {
        return captured, true;
      }
      if |captured| == |readings| {
        return captured, false;
      }
      ghost var due := scheduledAt;
      var now := readings[|captured|];
      if now > scheduledAt && latest(now) > scheduledAt {
        scheduledAt := latest(now);
      }
      assert scheduledAt == Max(due, latest(now));
      if endAt.Before(scheduledAt) {
        return captured, true;
      }
      IncreasingStep(captured, due, scheduledAt, interval);
      CatchesUpOnce(next, interval, latest, readings, captured, scheduledAt);
      captured := captured + [scheduledAt];
      scheduledAt := scheduledAt + interval;
    }
  }

  /** The end comes before the instant waited for, or before the one to catch up with. */
  ghost predicate NothingLeft(next: int, interval: int, latest: int -> int, endAt: EndAt, readings: seq<int>,
                              captured: seq<int>) {
    || endAt.Before(Due(next, interval, captured))
    || (|captured| < |readings| && endAt.Before(latest(readings[|captured|])))
  }

  /** The instant the loop waits for once it has captured `captured`. */
  function Due(next: int, interval: int, captured: seq<int>): int {
    if captured == [] then next else captured[|captured| - 1] + interval
  }

  lemma IncreasingStep(captured: seq<int>, due: int, scheduledAt: int, interval: int)
    requires interval > 0 && StrictlyIncreasing(captured + [due]) && due <= scheduledAt
    ensures StrictlyIncreasing(captured + [scheduledAt])
    ensures StrictlyIncreasing(captured + [scheduledAt] + [scheduledAt + interval])
  {
    forall i | 0 <= i < |captured| ensures captured[i] < scheduledAt {
      assert (captured + [due])[i] < (captured + [due])[|captured|];
    }
    assert forall i, j :: 0 <= i < j < |captured| ==>
        captured[i] == (captured + [due])[i] && captured[j] == (captured + [due])[j];
  }

  lemma GridStep(startAt: int, interval: int, instant: int)
    requires interval > 0 && OnGrid(startAt, interval, instant)
    ensures OnGrid(startAt, interval, instant + interval)
  {
    var k: nat :| instant == startAt + k * interval;
    assert instant + interval == startAt + (k + 1) * interval;
  }

  /** Each captured instant is the one waited for or, if later, the latest run of the
      reading after the wait. */
  ghost predicate CatchesUp(next: int, interval: int, latest: int -> int, readings: seq<int>, captured: seq<int>) {
    && |captured| <= |readings|
    && forall i :: 0 <= i < |captured| ==>
         captured[i] == Max(Due(next, interval, captured[..i]), latest(readings[i]))
  }

  lemma CatchesUpOnce(next: int, interval: int, latest: int -> int, readings: seq<int>, captured: seq<int>,
                      capture: int)
    requires |captured| < |readings| && CatchesUp(next, interval, latest, readings, captured)
    requires capture == Max(Due(next, interval, captured), latest(readings[|captured|]))
    ensures CatchesUp(next, interval, latest, readings, captured + [capture])
  {
    var after := captured + [capture];
    forall i | 0 <= i < |after|
      ensures after[i] == Max(Due(next, interval, after[..i]), latest(readings[i]))
    {
      assert after[..i] == captured[..i];
      assert captured[..|captured|] == captured;
    }
  }

  /** A backlog collapses: up to the horizon, a capture leaves no later grid point that the
      clock had passed, and jumps over none that the clock had not. */
  lemma BacklogCollapses(startAt: int, interval: int, due: int, now: int, capture: int)
    requires interval > 0 && OnGrid(startAt, interval, due)
    requires capture == Max(due, LatestIntervalRun(startAt, interval, now))
    requires now < Horizon(startAt, interval)
    ensures forall k: nat :: capture < startAt + k * interval ==> now < startAt + k * interval
    ensures forall k: nat :: due < startAt + k * interval <= capture ==> startAt + k * interval <= now
    ensures capture == due || (due < capture <= now)
  {
    RunsAreOnGrid(startAt, interval, now);
    LatestRunIsGreatest(startAt, interval, now);
    forall k: nat ensures startAt <= startAt + k * interval {
      MulMonotone(0, k, interval);
    }
  }
}
