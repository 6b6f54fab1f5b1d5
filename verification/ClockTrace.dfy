/** What a loop does that waits for answers: captures on given clock readings, whatever the
    next run after each threshold is. */
module ClockTrace {
  import opened Ordering
  import opened Instants
  import opened CalendarNext

  /** The next run that a threshold has. */
  type Answering = (int, NextRun) -> bool

  datatype Outcome = Cancelled | Finished | Failing

  /** From a threshold, on these readings of the clock, the loop captures these instants.
      Without a reading left it is cancelled in its wait. */
  ghost predicate Captures(answers: Answering, threshold: int, readings: seq<int>, captured: seq<int>, outcome: Outcome)
    decreases |readings|, 3
  {
    exists run :: answers(threshold, run) && Waits(answers, run, readings, captured, outcome)
  }

  /** A run up to a second late is captured. */
  ghost predicate Waits(answers: Answering, run: NextRun, readings: seq<int>, captured: seq<int>, outcome: Outcome)
    decreases |readings|, 2
  {
    match run
    case Failed => captured == [] && outcome == Failing
    case Nothing => captured == [] && outcome == Finished
    case Scheduled(at) =>
      if readings == [] then captured == [] && outcome == Cancelled
      else if readings[0] - at <= SECOND then
        captured != [] && captured[0] == at && Captures(answers, at + 1, readings[1..], captured[1..], outcome)
      else
        exists now :: answers(readings[0], now) && Recovers(answers, now, readings, captured, outcome)
  }

  /** Later than that, only a run due at this very reading is. */
  ghost predicate Recovers(answers: Answering, run: NextRun, readings: seq<int>, captured: seq<int>, outcome: Outcome)
    requires readings != []
    decreases |readings|, 1
  {
    match run
    case Failed => captured == [] && outcome == Failing
    case Nothing => captured == [] && outcome == Finished
    case Scheduled(at) =>
      if at == readings[0] then
        captured != [] && captured[0] == at && Captures(answers, at + 1, readings[1..], captured[1..], outcome)
      else
        Captures(answers, readings[0], readings[1..], captured, outcome)
  }

  ghost predicate Unique(answers: Answering) {
    forall threshold, run, other :: answers(threshold, run) && answers(threshold, other) ==> run == other
  }

  /** The clock determines the captures. */
  lemma {:induction false} CapturesAreUnique(answers: Answering, threshold: int, readings: seq<int>, captured: seq<int>,
                                           outcome: Outcome, other: seq<int>, end: Outcome)
    requires Unique(answers)
    requires Captures(answers, threshold, readings, captured, outcome)
    requires Captures(answers, threshold, readings, other, end)
    ensures captured == other && outcome == end
    decreases |readings|, 3
  {
    var run :| answers(threshold, run) && Waits(answers, run, readings, captured, outcome);
    var same :| answers(threshold, same) && Waits(answers, same, readings, other, end);
    WaitIsUnique(answers, run, readings, captured, outcome, other, end);
  }

  lemma {:induction false} WaitIsUnique(answers: Answering, run: NextRun, readings: seq<int>, captured: seq<int>,
                                        outcome: Outcome, other: seq<int>, end: Outcome)
    requires Unique(answers)
    requires Waits(answers, run, readings, captured, outcome) && Waits(answers, run, readings, other, end)
    ensures captured == other && outcome == end
    decreases |readings|, 2
  {
    if run.Scheduled? && readings != [] {
      if readings[0] - run.at <= SECOND {
        CapturesAreUnique(answers, run.at + 1, readings[1..], captured[1..], outcome, other[1..], end);
        SameHeadSameTail(captured, other);
      } else {
        var now :| answers(readings[0], now) && Recovers(answers, now, readings, captured, outcome);
        var again :| answers(readings[0], again) && Recovers(answers, again, readings, other, end);
        RecoveryIsUnique(answers, now, readings, captured, outcome, other, end);
      }
    }
  }

  lemma {:induction false} RecoveryIsUnique(answers: Answering, now: NextRun, readings: seq<int>, captured: seq<int>,
                                            outcome: Outcome, other: seq<int>, end: Outcome)
    requires readings != [] && Unique(answers)
    requires Recovers(answers, now, readings, captured, outcome) && Recovers(answers, now, readings, other, end)
    ensures captured == other && outcome == end
    decreases |readings|, 1
  {
    if now.Scheduled? {
      if now.at == readings[0] {
        CapturesAreUnique(answers, now.at + 1, readings[1..], captured[1..], outcome, other[1..], end);
        SameHeadSameTail(captured, other);
      } else {
        CapturesAreUnique(answers, readings[0], readings[1..], captured, outcome, other, end);
      }
    }
  }

  lemma SameHeadSameTail(s: seq<int>, t: seq<int>)
    requires s != [] && t != [] && s[0] == t[0] && s[1..] == t[1..]
    ensures s == t
  {
    assert s == [s[0]] + s[1..] && t == [t[0]] + t[1..];
  }

  lemma {:induction false} CapturesAreFew(answers: Answering, threshold: int, readings: seq<int>, captured: seq<int>,
                                          outcome: Outcome)
    requires Captures(answers, threshold, readings, captured, outcome)
    ensures |captured| <= |readings|
    decreases |readings|, 1
  {
    var run :| answers(threshold, run) && Waits(answers, run, readings, captured, outcome);
    if run.Scheduled? && readings != [] {
      if readings[0] - run.at <= SECOND {
        CapturesAreFew(answers, run.at + 1, readings[1..], captured[1..], outcome);
      } else {
        var now :| answers(readings[0], now) && Recovers(answers, now, readings, captured, outcome);
        RecoveriesAreFew(answers, now, readings, captured, outcome);
      }
    }
  }

  lemma {:induction false} RecoveriesAreFew(answers: Answering, now: NextRun, readings: seq<int>, captured: seq<int>,
                                            outcome: Outcome)
    requires readings != [] && Recovers(answers, now, readings, captured, outcome)
    ensures |captured| <= |readings|
    decreases |readings|, 0
  {
    if now.Scheduled? {
      if now.at == readings[0] {
        CapturesAreFew(answers, now.at + 1, readings[1..], captured[1..], outcome);
      } else {
        CapturesAreFew(answers, readings[0], readings[1..], captured, outcome);
      }
    }
  }

  // ---------------------------------------------------------------- in order

  predicate UpTo(readings: seq<int>, bound: int) {
    forall i :: 0 <= i < |readings| ==> readings[i] <= bound
  }

  ghost predicate Rising(captured: seq<int>, from: int) {
    StrictlyIncreasing(captured) && (captured != [] ==> from <= captured[0])
  }

  /** Which thresholds are within reach after some number of readings. */
  type Reach = (int, nat) -> bool

  /** Readings up to the bound are within reach, and from within reach, with a reading left,
      an answer is not before its threshold and leads to one within reach. */
  ghost predicate Advances(answers: Answering, reach: Reach, bound: int, count: nat) {
    && (forall threshold, position: nat, run ::
          reach(threshold, position) && position < count && answers(threshold, run) && run.Scheduled? ==>
            threshold <= run.at && reach(run.at + 1, position + 1))
    && (forall now, position: nat :: now <= bound ==> reach(now, position))
  }

  /** Answers that advance give increasing captures, from the threshold on. */
  lemma {:induction false} AdvancingRises(answers: Answering, reach: Reach, bound: int, count: nat, position: nat,
                                          threshold: int, readings: seq<int>, captured: seq<int>, outcome: Outcome)
    requires Advances(answers, reach, bound, count) && reach(threshold, position)
    requires position + |readings| == count && UpTo(readings, bound)
    requires Captures(answers, threshold, readings, captured, outcome)
    ensures Rising(captured, threshold)
    decreases |readings|, 3
  {
    var run :| answers(threshold, run) && Waits(answers, run, readings, captured, outcome);
    if run.Scheduled? && readings != [] {
      if readings[0] - run.at <= SECOND {
        RestRises(answers, reach, bound, count, position, run.at, readings, captured, outcome);
      } else {
        var now :| answers(readings[0], now) && Recovers(answers, now, readings, captured, outcome);
        RecoveryRises(answers, reach, bound, count, position, now, readings, captured, outcome);
      }
    }
  }

  /** A capture and what follows it. */
  lemma {:induction false} RestRises(answers: Answering, reach: Reach, bound: int, count: nat, position: nat, at: int,
                                     readings: seq<int>, captured: seq<int>, outcome: Outcome)
    requires Advances(answers, reach, bound, count) && reach(at + 1, position + 1)
    requires readings != [] && position + |readings| == count && UpTo(readings, bound)
    requires captured != [] && captured[0] == at && Captures(answers, at + 1, readings[1..], captured[1..], outcome)
    ensures Rising(captured, at)
    decreases |readings|, 1
  {
    AdvancingRises(answers, reach, bound, count, position + 1, at + 1, readings[1..], captured[1..], outcome);
    HeadBeforeTail(captured);
  }

  lemma {:induction false} RecoveryRises(answers: Answering, reach: Reach, bound: int, count: nat, position: nat,
                                         now: NextRun, readings: seq<int>, captured: seq<int>, outcome: Outcome)
    requires Advances(answers, reach, bound, count) && readings != []
    requires position + |readings| == count && UpTo(readings, bound)
    requires answers(readings[0], now) && Recovers(answers, now, readings, captured, outcome)
    ensures Rising(captured, readings[0])
    decreases |readings|, 2
  {
    assert readings[0] <= bound && reach(readings[0], position) && reach(readings[0], position + 1);
    if now.Scheduled? {
      if now.at == readings[0] {
        RestRises(answers, reach, bound, count, position, now.at, readings, captured, outcome);
      } else {
        AdvancingRises(answers, reach, bound, count, position + 1, readings[0], readings[1..], captured, outcome);
      }
    }
  }

  lemma HeadBeforeTail(s: seq<int>)
    requires s != [] && StrictlyIncreasing(s[1..]) && (s[1..] != [] ==> s[0] < s[1..][0])
    ensures StrictlyIncreasing(s)
  {
    var t := s[1..];
    forall i, j | 0 <= i < j < |s| ensures s[i] < s[j] {
      assert s[j] == t[j - 1];
      assert j > 1 ==> t[0] < t[j - 1];
      assert i > 0 ==> s[i] == t[i - 1];
    }
  }

  // ---------------------------------------------------------------- step by step

  /** What the loop still does from here completes what it has done. */
  ghost predicate LeadsOn(answers: Answering, first: int, readings: seq<int>, captured: seq<int>, threshold: int,
                            position: nat)
    requires position <= |readings|
  {
    forall rest, outcome :: LeadsBy(answers, first, readings, captured, threshold, readings[position..], rest, outcome)
  }

  ghost predicate LeadsBy(answers: Answering, first: int, readings: seq<int>, captured: seq<int>, threshold: int,
                          left: seq<int>, rest: seq<int>, outcome: Outcome) {
    Captures(answers, threshold, left, rest, outcome) ==> Captures(answers, first, readings, captured + rest, outcome)
  }

  lemma LeftAt(readings: seq<int>, position: nat)
    requires position < |readings|
    ensures var left := readings[position..];
            left != [] && left[0] == readings[position] && left[1..] == readings[position + 1..]
  {
  }

  lemma RecoveryWaits(answers: Answering, threshold: int, due: int, run: NextRun, left: seq<int>, captured: seq<int>,
                      outcome: Outcome)
    requires answers(threshold, Scheduled(due)) && left != [] && left[0] - due > SECOND
    requires answers(left[0], run) && Recovers(answers, run, left, captured, outcome)
    ensures Captures(answers, threshold, left, captured, outcome)
  {
    assert Waits(answers, Scheduled(due), left, captured, outcome);
  }

  lemma WaitTraces(answers: Answering, threshold: int, left: seq<int>, due: int, captured: seq<int>, outcome: Outcome)
    requires answers(threshold, Scheduled(due)) && left != [] && left[0] - due <= SECOND
    requires captured != [] && captured[0] == due && Captures(answers, due + 1, left[1..], captured[1..], outcome)
    ensures Captures(answers, threshold, left, captured, outcome)
  {
    assert Waits(answers, Scheduled(due), left, captured, outcome);
  }

  lemma RecoveryTraces(answers: Answering, threshold: int, left: seq<int>, due: int, captured: seq<int>,
                       outcome: Outcome)
    requires answers(threshold, Scheduled(due))
    requires left != [] && left[0] - due > SECOND && answers(left[0], Scheduled(left[0]))
    requires captured != [] && captured[0] == left[0]
    requires Captures(answers, left[0] + 1, left[1..], captured[1..], outcome)
    ensures Captures(answers, threshold, left, captured, outcome)
  {
    assert Recovers(answers, Scheduled(left[0]), left, captured, outcome);
    RecoveryWaits(answers, threshold, due, Scheduled(left[0]), left, captured, outcome);
  }

  lemma TimelyLeadsOn(answers: Answering, first: int, readings: seq<int>, captured: seq<int>, threshold: int,
                        position: nat, due: int)
    requires position < |readings| && answers(threshold, Scheduled(due))
    requires readings[position] - due <= SECOND
    requires LeadsOn(answers, first, readings, captured, threshold, position)
    ensures LeadsOn(answers, first, readings, captured + [due], due + 1, position + 1)
  {
    var left, next := readings[position..], readings[position + 1..];
    LeftAt(readings, position);
    var longer, from := captured + [due], due + 1;
    forall rest, outcome ensures LeadsBy(answers, first, readings, longer, from, next, rest, outcome) {
      if Captures(answers, from, next, rest, outcome) {
        HeadThenRest(captured, due, rest);
        WaitTraces(answers, threshold, left, due, [due] + rest, outcome);
        assert LeadsBy(answers, first, readings, captured, threshold, left, [due] + rest, outcome);
      }
    }
  }

  lemma RecoveryLeadsOn(answers: Answering, first: int, readings: seq<int>, captured: seq<int>, threshold: int,
                          position: nat, due: int)
    requires position < |readings| && answers(threshold, Scheduled(due))
    requires var now := readings[position]; now - due > SECOND && answers(now, Scheduled(now))
    requires LeadsOn(answers, first, readings, captured, threshold, position)
    ensures LeadsOn(answers, first, readings, captured + [readings[position]], readings[position] + 1, position + 1)
  {
    var now := readings[position];
    var left, next := readings[position..], readings[position + 1..];
    LeftAt(readings, position);
    var longer, from := captured + [now], now + 1;
    forall rest, outcome ensures LeadsBy(answers, first, readings, longer, from, next, rest, outcome) {
      if Captures(answers, from, next, rest, outcome) {
        HeadThenRest(captured, now, rest);
        RecoveryTraces(answers, threshold, left, due, [now] + rest, outcome);
        assert LeadsBy(answers, first, readings, captured, threshold, left, [now] + rest, outcome);
      }
    }
  }

  /** A capture in time, or at the very reading later. */
  lemma CaptureLeadsOn(answers: Answering, first: int, readings: seq<int>, captured: seq<int>, threshold: int,
                       position: nat, due: int, at: int)
    requires position < |readings| && answers(threshold, Scheduled(due))
    requires LeadsOn(answers, first, readings, captured, threshold, position)
    requires var now := readings[position];
             || (at == due && now - due <= SECOND)
             || (at == now && now - due > SECOND && answers(now, Scheduled(now)))
    ensures LeadsOn(answers, first, readings, captured + [at], at + 1, position + 1)
  {
    if readings[position] - due <= SECOND {
      TimelyLeadsOn(answers, first, readings, captured, threshold, position, due);
    } else {
      RecoveryLeadsOn(answers, first, readings, captured, threshold, position, due);
    }
  }

  lemma HeadThenRest(captured: seq<int>, at: int, rest: seq<int>)
    ensures ([at] + rest)[0] == at && ([at] + rest)[1..] == rest
    ensures captured + ([at] + rest) == captured + [at] + rest
  {
  }

  /** So does waiting again, or an end, more than a second late. */
  lemma LateTraces(answers: Answering, threshold: int, readings: seq<int>, position: nat, due: int, run: NextRun,
                   rest: seq<int>, outcome: Outcome)
    requires position < |readings| && answers(threshold, Scheduled(due))
    requires due + SECOND < readings[position] && answers(readings[position], run)
    requires match run
             case Scheduled(at) =>
               && at != readings[position]
               && Captures(answers, readings[position], readings[position + 1..], rest, outcome)
             case Nothing => rest == [] && outcome == Finished
             case Failed => rest == [] && outcome == Failing
    ensures Captures(answers, threshold, readings[position..], rest, outcome)
  {
    var left := readings[position..];
    assert left[0] == readings[position] && left[1..] == readings[position + 1..];
    assert Recovers(answers, run, left, rest, outcome);
    RecoveryWaits(answers, threshold, due, run, left, rest, outcome);
  }

  lemma SkipLeadsOn(answers: Answering, first: int, readings: seq<int>, captured: seq<int>, threshold: int,
                      position: nat, due: int, run: NextRun)
    requires position < |readings| && answers(threshold, Scheduled(due)) && due + SECOND < readings[position]
    requires run.Scheduled? && run.at != readings[position] && answers(readings[position], run)
    requires LeadsOn(answers, first, readings, captured, threshold, position)
    ensures LeadsOn(answers, first, readings, captured, readings[position], position + 1)
  {
    var left, next := readings[position..], readings[position + 1..];
    forall rest, outcome ensures LeadsBy(answers, first, readings, captured, readings[position], next, rest, outcome) {
      if Captures(answers, readings[position], next, rest, outcome) {
        LateTraces(answers, threshold, readings, position, due, run, rest, outcome);
        assert LeadsBy(answers, first, readings, captured, threshold, left, rest, outcome);
      }
    }
  }

  lemma LeadsToEnd(answers: Answering, first: int, readings: seq<int>, captured: seq<int>, threshold: int,
                   position: nat, outcome: Outcome)
    requires position <= |readings| && LeadsOn(answers, first, readings, captured, threshold, position)
    requires Captures(answers, threshold, readings[position..], [], outcome)
    ensures Captures(answers, first, readings, captured, outcome)
  {
    assert captured + [] == captured;
    assert LeadsBy(answers, first, readings, captured, threshold, readings[position..], [], outcome);
  }
}
