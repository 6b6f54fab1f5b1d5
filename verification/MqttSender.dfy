/** The MQTT sender: publishers, the sender loop, the connection and the two wake-up
    channels as interleaved atomic steps. Messages are numbered by accepted push. */
module MqttSender {
  import opened MqttQueue
  import opened Ordering
  import opened Runs

  /** Where the sender loop stands: at its top, about to pop after it found a connection,
      asleep for want of a connection or of a message, waiting for an acknowledgement, or
      ended, possibly with a message it no longer waits for. */
  datatype Phase =
    | Checking
    | Popping
    | Offline
    | AwaitingMessage
    | AwaitingAck(message: nat)
    | Ended(unfinished: seq<nat>)

  /** Closing marks the transport closed, clears the connection and closes the stop
      channel, in this order and once. */
  datatype Shutdown = Open | Closed | Cleared | Stopped

  /** `passed` counts publishers, and `marking` connections, that found the transport open
      and have yet to push, or to mark it connected, be it closed by then; `signals`
      counts pushes that have yet to signal, and `readying` connections that have yet to;
      `notify` and `ready` are the one-place channels. `acknowledged`, `dropped` and
      `attempts` are history variables. */
  datatype State = State(
    capacity: nat,
    queue: seq<nat>,
    phase: Phase,
    connected: bool,
    shutdown: Shutdown,
    passed: nat,
    marking: nat,
    notify: bool,
    signals: nat,
    ready: bool,
    readying: nat,
    accepted: nat,
    acknowledged: seq<nat>,
    dropped: seq<nat>,
    attempts: seq<nat>
  ) {
    function InFlight(): seq<nat> {
      if phase.AwaitingAck? then [phase.message]
      else if phase.Ended? then phase.unfinished
      else []
    }
  }

  function Initial(capacity: nat): State {
    State(capacity, [], Checking, false, Open, 0, 0, false, 0, false, 0, 0, [], [], [])
  }

  datatype Step =
    | CheckOpen
    | Abandon
    | Publish
    | Signal
    | CheckMark
    | Connect
    | SignalReady
    | Disconnect
    | FindOffline
    | FindOnline
    | FindEmpty
    | Send
    | Acknowledge
    | FailPublish
    | WakeByMessage
    | WakeByReady
    | Close
    | ClearConnection
    | CloseStop
    | EndLoop

  predicate Enabled(s: State, step: Step) {
    match step
    case CheckOpen => s.shutdown == Open
    case Abandon => s.passed > 0
    case Publish => s.passed > 0
    case Signal => s.signals > 0
    case CheckMark => s.shutdown == Open
    case Connect => s.marking > 0
    case SignalReady => s.readying > 0
    case Disconnect => true
    case FindOffline => s.phase == Checking && !s.connected
    case FindOnline => s.phase == Checking && s.connected
    case FindEmpty => s.phase == Popping && s.queue == []
    case Send => s.phase == Popping && s.queue != []
    case Acknowledge => s.phase.AwaitingAck?
    case FailPublish => s.phase.AwaitingAck?
    case WakeByMessage => s.phase == AwaitingMessage && s.notify
    case WakeByReady => s.phase in {AwaitingMessage, Offline} && s.ready
    case Close => s.shutdown == Open
    case ClearConnection => s.shutdown == Closed
    case CloseStop => s.shutdown == Cleared
    case EndLoop => s.shutdown == Stopped && (s.phase in {Offline, AwaitingMessage} || s.phase.AwaitingAck?)
  }

  /** What a full queue gives up for a message at its back, or at its front. */
  function Oldest(queue: seq<nat>, capacity: nat): seq<nat>
    requires capacity > 0
  {
    if |queue| == capacity then [queue[0]] else []
  }

  function Newest(queue: seq<nat>, capacity: nat): seq<nat>
    requires capacity > 0
  {
    if |queue| == capacity then [queue[|queue| - 1]] else []
  }

  function Perform(s: State, step: Step): State
    requires s.capacity > 0 && Enabled(s, step)
  {
    match step
    case CheckOpen => s.(passed := s.passed + 1)
    case Abandon => s.(passed := s.passed - 1)
    case Publish =>
      s.(passed := s.passed - 1, queue := Pushed(s.queue, s.capacity, s.accepted),
         accepted := s.accepted + 1, signals := s.signals + 1,
         dropped := s.dropped + Oldest(s.queue, s.capacity))
    case Signal => s.(signals := s.signals - 1, notify := true)
    case CheckMark => s.(marking := s.marking + 1)
    case Connect => s.(marking := s.marking - 1, connected := true, readying := s.readying + 1)
    case SignalReady => s.(readying := s.readying - 1, ready := true)
    case Disconnect => s.(connected := false)
    case FindOffline => s.(phase := Offline)
    case FindOnline => s.(phase := Popping)
    case FindEmpty => s.(phase := AwaitingMessage)
    case Send => s.(phase := AwaitingAck(s.queue[0]), queue := s.queue[1..], attempts := s.attempts + [s.queue[0]])
    case Acknowledge => s.(phase := Checking, acknowledged := s.acknowledged + [s.phase.message])
    case FailPublish =>
      s.(phase := Checking, queue := PushedFront(s.queue, s.capacity, s.phase.message), notify := true,
         dropped := s.dropped + Newest(s.queue, s.capacity))
    case WakeByMessage => s.(phase := Checking, notify := false)
    case WakeByReady => s.(phase := Checking, ready := false)
    case Close => s.(shutdown := Closed)
    case ClearConnection => s.(shutdown := Cleared, connected := false)
    case CloseStop => s.(shutdown := Stopped)
    case EndLoop => s.(phase := Ended(s.InFlight()))
  }

  // ---------------------------------------------------------------- invariant

  ghost predicate PushOrder(numbers: seq<nat>, bound: nat) {
    StrictlyIncreasing(numbers) && forall n :: n in numbers ==> n < bound
  }

  /** Acknowledged, in flight and queued, in this order, are in push order. */
  ghost predicate InOrder(s: State) {
    PushOrder(s.acknowledged + s.InFlight() + s.queue, s.accepted)
  }

  /** Each of the first n numbers is in exactly one place. */
  ghost predicate Balanced(acknowledged: seq<nat>, dropped: seq<nat>, queue: seq<nat>, inFlight: seq<nat>, n: nat) {
    && n == |acknowledged| + |dropped| + |queue| + |inFlight|
    && multiset(acknowledged) + multiset(dropped) + multiset(queue) + multiset(inFlight) == Numbers(n)
  }

  /** No message is in two places, and the numbers add up. */
  ghost predicate Conserved(s: State) {
    |s.queue| <= s.capacity && Balanced(s.acknowledged, s.dropped, s.queue, s.InFlight(), s.accepted)
  }

  function Numbers(n: nat): multiset<nat> {
    if n == 0 then multiset{} else Numbers(n - 1) + multiset{n - 1}
  }

  /** Attempts are made in push order; a message may be attempted again before the next. */
  ghost predicate AttemptsInOrder(s: State) {
    && (forall i, j :: 0 <= i < j < |s.attempts| ==> s.attempts[i] <= s.attempts[j])
    && (forall a, n :: a in s.attempts && n in s.InFlight() + s.queue ==> a <= n)
    && (forall n :: n in s.acknowledged ==> n in s.attempts)
    && (forall a :: a in s.attempts ==> a < s.accepted)
    && (forall n :: n in s.InFlight() ==> n in s.attempts)
  }

  /** A sender asleep has either nothing to do or a wake-up on its way. */
  ghost predicate NoLostWakeUp(s: State) {
    && (s.phase == AwaitingMessage && s.queue != [] ==> s.notify || s.signals > 0)
    && (s.phase == Offline && s.connected ==> s.ready || s.readying > 0)
  }

  ghost predicate Invariant(s: State) {
    s.capacity > 0 && InOrder(s) && Conserved(s) && AttemptsInOrder(s) && NoLostWakeUp(s)
  }

  // ---------------------------------------------------------------- every step keeps it

  /** A new number may follow what is left of the queue. */
  lemma PushKeepsOrder(before: seq<nat>, queue: seq<nat>, capacity: nat, n: nat)
    requires capacity > 0 && StrictlyIncreasing(before + queue)
    requires forall x :: x in before + queue ==> x < n
    ensures StrictlyIncreasing(before + Pushed(queue, capacity, n))
    ensures forall x :: x in before + Pushed(queue, capacity, n) ==> x <= n
  {
    if |queue| == capacity {
      TailKeepsOrder(before, queue, n);
      AppendKeepsOrder(before, queue[1..], n);
    } else {
      AppendKeepsOrder(before, queue, n);
    }
  }

  lemma TailKeepsOrder(before: seq<nat>, queue: seq<nat>, n: nat)
    requires queue != [] && StrictlyIncreasing(before + queue) && forall x :: x in before + queue ==> x < n
    ensures StrictlyIncreasing(before + queue[1..]) && forall x :: x in before + queue[1..] ==> x < n
  {
    AscendingSplit(before, queue);
    forall i, j | 0 <= i < j < |queue[1..]| ensures queue[1..][i] < queue[1..][j] {
      assert queue[i + 1] < queue[j + 1];
    }
    assert forall x :: x in queue[1..] ==> x in queue;
    AscendingSplit(before, queue[1..]);
    forall x | x in before + queue[1..] ensures x < n {
      assert x in before + queue;
    }
  }

  lemma AppendKeepsOrder(before: seq<nat>, queue: seq<nat>, n: nat)
    requires StrictlyIncreasing(before + queue) && forall x :: x in before + queue ==> x < n
    ensures StrictlyIncreasing(before + (queue + [n]))
    ensures forall x :: x in before + (queue + [n]) ==> x <= n
  {
    AscendingSplit(before + queue, [n]);
    assert before + (queue + [n]) == before + queue + [n];
  }

  lemma PutBackKeepsOrder(before: seq<nat>, m: nat, queue: seq<nat>, capacity: nat)
    requires capacity > 0 && StrictlyIncreasing(before + [m] + queue)
    ensures StrictlyIncreasing(before + [] + PushedFront(queue, capacity, m))
    ensures forall x :: x in before + [] + PushedFront(queue, capacity, m) ==> x in before + [m] + queue
  {
    var kept := if |queue| == capacity then queue[..|queue| - 1] else queue;
    assert before + [] + PushedFront(queue, capacity, m) == (before + [m]) + kept;
    AscendingSplit(before + [m], queue);
    assert forall x :: x in kept ==> x in queue;
    AscendingSplit(before + [m], kept);
  }

  /** A step that neither accepts nor puts back a message leaves the whole sequence. */
  lemma SameOrder(s: State, step: Step)
    requires s.capacity > 0 && Enabled(s, step) && !step.Publish? && !step.FailPublish?
    ensures var t := Perform(s, step);
            && t.acknowledged + t.InFlight() + t.queue == s.acknowledged + s.InFlight() + s.queue
            && t.accepted == s.accepted
  {
    if step.Send? {
      assert s.queue == [s.queue[0]] + s.queue[1..];
      Regroup(s.acknowledged, [s.queue[0]], s.queue[1..]);
    } else if step.Acknowledge? {
      assert s.InFlight() == [s.phase.message];
      assert s.acknowledged + [s.phase.message] + [] == s.acknowledged + [s.phase.message];
    }
  }

  lemma Regroup(a: seq<nat>, b: seq<nat>, c: seq<nat>)
    ensures a + b + c == a + [] + (b + c)
  {
  }

  lemma PublishKeepsOrder(s: State)
    requires s.capacity > 0 && InOrder(s) && Enabled(s, Publish)
    ensures InOrder(Perform(s, Publish))
  {
    PushKeepsOrder(s.acknowledged + s.InFlight(), s.queue, s.capacity, s.accepted);
    assert Perform(s, Publish).InFlight() == s.InFlight();
  }

  lemma FailKeepsOrder(s: State)
    requires s.capacity > 0 && InOrder(s) && Enabled(s, FailPublish)
    ensures InOrder(Perform(s, FailPublish))
  {
    PutBackKeepsOrder(s.acknowledged, s.phase.message, s.queue, s.capacity);
  }

  lemma StepKeepsOrder(s: State, step: Step)
    requires s.capacity > 0 && InOrder(s) && Enabled(s, step)
    ensures InOrder(Perform(s, step))
  {
    match step
    case Publish => PublishKeepsOrder(s);
    case FailPublish => FailKeepsOrder(s);
    case _ => SameOrder(s, step);
  }

  lemma PushMovesOne(queue: seq<nat>, capacity: nat, n: nat)
    requires 0 < capacity && |queue| <= capacity
    ensures var gone := Oldest(queue, capacity);
            && multiset(Pushed(queue, capacity, n)) + multiset(gone) == multiset(queue) + multiset{n}
            && |Pushed(queue, capacity, n)| + |gone| == |queue| + 1
            && |Pushed(queue, capacity, n)| <= capacity
  {
    if |queue| == capacity {
      assert queue == [queue[0]] + queue[1..];
    }
  }

  lemma PutBackMovesOne(queue: seq<nat>, capacity: nat, m: nat)
    requires 0 < capacity && |queue| <= capacity
    ensures var gone := Newest(queue, capacity);
            && multiset(PushedFront(queue, capacity, m)) + multiset(gone) == multiset(queue) + multiset{m}
            && |PushedFront(queue, capacity, m)| + |gone| == |queue| + 1
            && |PushedFront(queue, capacity, m)| <= capacity
  {
    if |queue| == capacity {
      assert queue == queue[..|queue| - 1] + [queue[|queue| - 1]];
    }
  }

  lemma Rebalance(a: multiset<nat>, d: multiset<nat>, q: multiset<nat>, g: multiset<nat>, m: multiset<nat>,
                  r: multiset<nat>, f: multiset<nat>)
    requires r + g == q + m
    ensures a + (d + g) + r + f == a + d + q + f + m
  {
    assert a + (d + g) + r + f == a + d + (r + g) + f;
  }

  lemma PushBalances(acknowledged: seq<nat>, dropped: seq<nat>, queue: seq<nat>, inFlight: seq<nat>,
                     capacity: nat, n: nat)
    requires 0 < capacity && |queue| <= capacity && Balanced(acknowledged, dropped, queue, inFlight, n)
    ensures |Pushed(queue, capacity, n)| <= capacity
    ensures Balanced(acknowledged, dropped + Oldest(queue, capacity), Pushed(queue, capacity, n), inFlight, n + 1)
  {
    var gone, after := Oldest(queue, capacity), Pushed(queue, capacity, n);
    PushMovesOne(queue, capacity, n);
    Rebalance(multiset(acknowledged), multiset(dropped), multiset(queue), multiset(gone),
              multiset{n}, multiset(after), multiset(inFlight));
  }

  lemma PutBackBalances(acknowledged: seq<nat>, dropped: seq<nat>, queue: seq<nat>, m: nat, capacity: nat, n: nat)
    requires 0 < capacity && |queue| <= capacity && Balanced(acknowledged, dropped, queue, [m], n)
    ensures |PushedFront(queue, capacity, m)| <= capacity
    ensures Balanced(acknowledged, dropped + Newest(queue, capacity), PushedFront(queue, capacity, m), [], n)
  {
    var gone, after := Newest(queue, capacity), PushedFront(queue, capacity, m);
    PutBackMovesOne(queue, capacity, m);
    Rebalance(multiset(acknowledged), multiset(dropped), multiset(queue), multiset(gone),
              multiset{m}, multiset(after), multiset{});
  }

  lemma TakeBalances(acknowledged: seq<nat>, dropped: seq<nat>, queue: seq<nat>, n: nat)
    requires queue != [] && Balanced(acknowledged, dropped, queue, [], n)
    ensures Balanced(acknowledged, dropped, queue[1..], [queue[0]], n)
  {
    assert queue == [queue[0]] + queue[1..];
    assert multiset(queue) == multiset(queue[1..]) + multiset([queue[0]]);
  }

  lemma AcknowledgeBalances(acknowledged: seq<nat>, dropped: seq<nat>, queue: seq<nat>, m: nat, n: nat)
    requires Balanced(acknowledged, dropped, queue, [m], n)
    ensures Balanced(acknowledged + [m], dropped, queue, [], n)
  {
    assert multiset(acknowledged + [m]) == multiset(acknowledged) + multiset([m]);
  }

  lemma PublishedConserves(s: State, t: State)
    requires s.capacity > 0 && Conserved(s) && t.capacity == s.capacity && t.accepted == s.accepted + 1
    requires t.acknowledged == s.acknowledged && t.dropped == s.dropped + Oldest(s.queue, s.capacity)
    requires t.queue == Pushed(s.queue, s.capacity, s.accepted) && t.InFlight() == s.InFlight()
    ensures Conserved(t)
  {
    PushBalances(s.acknowledged, s.dropped, s.queue, s.InFlight(), s.capacity, s.accepted);
  }

  lemma PublishConserves(s: State)
    requires s.capacity > 0 && Conserved(s) && Enabled(s, Publish)
    ensures Conserved(Perform(s, Publish))
  {
    PublishedConserves(s, Perform(s, Publish));
  }

  lemma FailConserves(s: State)
    requires s.capacity > 0 && Conserved(s) && Enabled(s, FailPublish)
    ensures Conserved(Perform(s, FailPublish))
  {
    PutBackBalances(s.acknowledged, s.dropped, s.queue, s.phase.message, s.capacity, s.accepted);
  }

  lemma SendConserves(s: State)
    requires s.capacity > 0 && Conserved(s) && Enabled(s, Send)
    ensures Conserved(Perform(s, Send))
  {
    TakeBalances(s.acknowledged, s.dropped, s.queue, s.accepted);
  }

  lemma AcknowledgeConserves(s: State)
    requires s.capacity > 0 && Conserved(s) && Enabled(s, Acknowledge)
    ensures Conserved(Perform(s, Acknowledge))
  {
    AcknowledgeBalances(s.acknowledged, s.dropped, s.queue, s.phase.message, s.accepted);
  }

  /** A message is dropped only for want of room, the oldest for a new one and the newest for
      one that is put back, and acknowledged only when it was in flight. */
  lemma StepDropsForRoom(s: State, step: Step)
    requires s.capacity > 0 && Enabled(s, step)
    ensures var t := Perform(s, step);
            && (t.dropped == s.dropped
                || (&& |s.queue| == s.capacity && (step.Publish? || step.FailPublish?)
                    && t.dropped == s.dropped + [if step.Publish? then s.queue[0] else s.queue[|s.queue| - 1]]))
            && (t.acknowledged == s.acknowledged
                || (step.Acknowledge? && t.acknowledged == s.acknowledged + s.InFlight()))
  {
    if !MovesMessage(step) {
      RestMovesNothing(s, step);
    }
  }

  /** Only a failed message moves back into the queue, as its first; a new one is its last. */
  lemma StepMovesInTurn(s: State, step: Step)
    requires s.capacity > 0 && Enabled(s, step)
    ensures var t := Perform(s, step);
            && (step.Publish? ==> t.queue != [] && t.queue[|t.queue| - 1] == s.accepted)
            && (step.FailPublish? ==> t.queue != [] && [t.queue[0]] == s.InFlight() && t.InFlight() == [])
            && (step.Send? ==> t.InFlight() == [s.queue[0]] && t.queue == s.queue[1..])
            && (!MovesMessage(step) ==> t.queue == s.queue && t.InFlight() == s.InFlight())
  {
    if !MovesMessage(step) {
      RestMovesNothing(s, step);
    }
  }

  predicate MovesMessage(step: Step) {
    step.Publish? || step.FailPublish? || step.Send? || step.Acknowledge?
  }

  lemma RestMovesNothing(s: State, step: Step)
    requires s.capacity > 0 && Enabled(s, step) && !MovesMessage(step)
    ensures var t := Perform(s, step);
            && t.capacity == s.capacity && t.accepted == s.accepted && t.queue == s.queue
            && t.acknowledged == s.acknowledged && t.dropped == s.dropped && t.InFlight() == s.InFlight()
            && t.attempts == s.attempts
  {
  }

  lemma StepConserves(s: State, step: Step)
    requires s.capacity > 0 && Conserved(s) && Enabled(s, step)
    ensures Conserved(Perform(s, step))
  {
    match step
    case Publish => PublishConserves(s);
    case FailPublish => FailConserves(s);
    case Send => SendConserves(s);
    case Acknowledge => AcknowledgeConserves(s);
    case _ => RestMovesNothing(s, step);
  }

  /** What heads an ordered queue comes after every attempt and before the rest of the queue. */
  lemma HeadIsNext(s: State)
    requires InOrder(s) && AttemptsInOrder(s) && s.queue != []
    ensures forall a :: a in s.attempts ==> a <= s.queue[0]
    ensures forall n :: n in s.queue ==> s.queue[0] <= n
    ensures s.queue[0] < s.accepted
  {
    var head := s.queue[0];
    assert s.queue == [head] + s.queue[1..];
    assert head in s.queue && head in s.InFlight() + s.queue;
    AscendingSplit(s.acknowledged + s.InFlight(), s.queue);
    AscendingSplit([head], s.queue[1..]);
    assert head in s.acknowledged + s.InFlight() + s.queue;
  }

  lemma SendKeepsAttempts(s: State)
    requires s.capacity > 0 && InOrder(s) && AttemptsInOrder(s) && Enabled(s, Send)
    ensures AttemptsInOrder(Perform(s, Send))
  {
    var t, head := Perform(s, Send), s.queue[0];
    HeadIsNext(s);
    forall i, j | 0 <= i < j < |t.attempts| ensures t.attempts[i] <= t.attempts[j] {
      assert t.attempts[i] in s.attempts;
    }
    forall a, n | a in t.attempts && n in t.InFlight() + t.queue ensures a <= n {
      assert n == head || n in s.queue;
    }
  }

  lemma FailKeepsAttempts(s: State)
    requires s.capacity > 0 && InOrder(s) && AttemptsInOrder(s) && Enabled(s, FailPublish)
    ensures AttemptsInOrder(Perform(s, FailPublish))
  {
    var t := Perform(s, FailPublish);
    forall n | n in t.InFlight() + t.queue ensures n in s.InFlight() + s.queue {
    }
  }

  lemma PublishKeepsAttempts(s: State)
    requires s.capacity > 0 && AttemptsInOrder(s) && Enabled(s, Publish)
    ensures AttemptsInOrder(Perform(s, Publish))
  {
    var t := Perform(s, Publish);
    assert t.InFlight() == s.InFlight();
    forall n | n in t.InFlight() + t.queue ensures n in s.InFlight() + s.queue || n == s.accepted {
    }
  }

  /** The message in flight may be forgotten once it has been acknowledged. */
  lemma RestKeepsAttempts(s: State, t: State)
    requires AttemptsInOrder(s)
    requires t.attempts == s.attempts && t.accepted == s.accepted && t.queue == s.queue
    requires t.InFlight() == s.InFlight() || t.InFlight() == []
    requires t.acknowledged == s.acknowledged || t.acknowledged == s.acknowledged + s.InFlight()
    ensures AttemptsInOrder(t)
  {
    forall a, n | a in t.attempts && n in t.InFlight() + t.queue ensures a <= n {
      assert n in s.InFlight() + s.queue;
    }
  }

  lemma AcknowledgeKeepsAttempts(s: State)
    requires s.capacity > 0 && AttemptsInOrder(s) && Enabled(s, Acknowledge)
    ensures AttemptsInOrder(Perform(s, Acknowledge))
  {
    RestKeepsAttempts(s, Perform(s, Acknowledge));
  }

  lemma StepKeepsAttempts(s: State, step: Step)
    requires s.capacity > 0 && InOrder(s) && AttemptsInOrder(s) && Enabled(s, step)
    ensures AttemptsInOrder(Perform(s, step))
  {
    match step
    case Publish => PublishKeepsAttempts(s);
    case Send => SendKeepsAttempts(s);
    case FailPublish => FailKeepsAttempts(s);
    case Acknowledge => AcknowledgeKeepsAttempts(s);
    case _ =>
      RestMovesNothing(s, step);
      RestKeepsAttempts(s, Perform(s, step));
  }

  lemma StepKeepsWakeUp(s: State, step: Step)
    requires s.capacity > 0 && NoLostWakeUp(s) && Enabled(s, step)
    ensures NoLostWakeUp(Perform(s, step)) && Perform(s, step).capacity == s.capacity
  {
  }

  lemma StepKeepsInvariant(s: State, step: Step)
    requires Invariant(s) && Enabled(s, step)
    ensures Invariant(Perform(s, step)) && Perform(s, step).capacity == s.capacity
  {
    StepKeepsOrder(s, step);
    StepConserves(s, step);
    StepKeepsAttempts(s, step);
    StepKeepsWakeUp(s, step);
  }

  // ---------------------------------------------------------------- promises

  ghost predicate Next(s: State, t: State) {
    s.capacity > 0 && exists step :: Enabled(s, step) && t == Perform(s, step)
  }

  ghost predicate IsRun(run: seq<State>, capacity: nat) {
    capacity > 0 && Run(run, Next) && run[0] == Initial(capacity)
  }

  /** The invariant, with a capacity that no step changes. */
  ghost predicate InvariantWith(s: State, capacity: nat) {
    Invariant(s) && s.capacity == capacity
  }

  lemma NextKeepsInvariant(s: State, t: State, capacity: nat)
    requires InvariantWith(s, capacity) && Next(s, t)
    ensures InvariantWith(t, capacity)
  {
    var step :| Enabled(s, step) && t == Perform(s, step);
    StepKeepsInvariant(s, step);
  }

  lemma InitialIsInvariant(capacity: nat)
    requires capacity > 0
    ensures Invariant(Initial(capacity))
  {
  }

  lemma ReachableIsInvariant(run: seq<State>, capacity: nat, n: nat)
    requires IsRun(run, capacity) && n < |run|
    ensures InvariantWith(run[n], capacity)
  {
    var kept := (s: State) => InvariantWith(s, capacity);
    InitialIsInvariant(capacity);
    forall s, t | kept(s) && Next(s, t) ensures kept(t) {
      NextKeepsInvariant(s, t, capacity);
    }
    Preserved(run, Next, kept, n);
  }

  /** Over every run: the depth stays within the capacity; every accepted message is
      acknowledged, dropped, queued or in flight, and in one of these places only;
      acknowledged messages are in push order and before the one in flight, which is
      before all queued ones; attempts are made in push order; and a sleeping sender with
      work to do has a wake-up on its way. */
  lemma SenderIsSafe(run: seq<State>, capacity: nat, n: nat)
    requires IsRun(run, capacity) && n < |run|
    ensures var s := run[n];
            && |s.queue| <= capacity
            && s.accepted == |s.acknowledged| + |s.dropped| + |s.queue| + |s.InFlight()|
            && multiset(s.acknowledged) + multiset(s.dropped) + multiset(s.queue) + multiset(s.InFlight())
               == Numbers(s.accepted)
            && StrictlyIncreasing(s.acknowledged + s.InFlight() + s.queue)
            && (forall i, j :: 0 <= i < j < |s.attempts| ==> s.attempts[i] <= s.attempts[j])
            && NoLostWakeUp(s)
  {
    ReachableIsInvariant(run, capacity, n);
  }

  /** Accepted numbers occur once each, so no message is delivered and dropped, or queued
      twice. */
  lemma {:induction false} NumbersOnce(n: nat, k: nat)
    ensures Numbers(n)[k] == if k < n then 1 else 0
  {
    if n > 0 {
      NumbersOnce(n - 1, k);
    }
  }

  // ---------------------------------------------------------------- deliveries are possible

  lemma TakeStep(run: seq<State>, step: Step) returns (longer: seq<State>)
    requires Run(run, Next) && run[|run| - 1].capacity > 0 && Enabled(run[|run| - 1], step)
    ensures Run(longer, Next) && longer[0] == run[0] && longer[|longer| - 1] == Perform(run[|run| - 1], step)
  {
    assert Next(run[|run| - 1], Perform(run[|run| - 1], step));
    Extended(run, Next, Perform(run[|run| - 1], step));
    longer := run + [Perform(run[|run| - 1], step)];
  }

  /** What waits for a wake-up on its way can be woken. */
  lemma CanWake(s: State) returns (run: seq<State>)
    requires s.capacity > 0 && NoLostWakeUp(s) && s.connected && s.queue != []
    requires s.phase in {Offline, AwaitingMessage}
    ensures Run(run, Next) && run[0] == s
    ensures var t := run[|run| - 1];
            t.phase == Checking && t.connected && t.queue == s.queue && t.capacity == s.capacity
  {
    run := [s];
    if s.phase == Offline {
      if !s.ready {
        run := TakeStep(run, SignalReady);
      }
      run := TakeStep(run, WakeByReady);
    } else {
      if !s.notify {
        run := TakeStep(run, Signal);
      }
      run := TakeStep(run, WakeByMessage);
    }
  }

  /** From every state that keeps the invariant, a connected sender that has not ended can
      come to pop the head of the queue. */
  lemma CanPop(s: State) returns (run: seq<State>)
    requires Invariant(s) && s.connected && s.queue != [] && !s.phase.Ended?
    ensures Run(run, Next) && run[0] == s
    ensures var t := run[|run| - 1]; t.phase == Popping && t.queue == s.queue && t.capacity == s.capacity
  {
    run := [s];
    if s.phase == Popping {
      return;
    }
    if s.phase.AwaitingAck? {
      run := TakeStep(run, Acknowledge);
    } else if s.phase != Checking {
      run := CanWake(s);
    }
    run := TakeStep(run, FindOnline);
  }

  /** And then the head of the queue can be delivered: nothing queued is stuck. */
  lemma HeadCanBeDelivered(s: State) returns (run: seq<State>)
    requires Invariant(s) && s.connected && s.queue != [] && !s.phase.Ended?
    ensures Run(run, Next) && run[0] == s && s.queue[0] in run[|run| - 1].acknowledged
  {
    run := CanPop(s);
    run := TakeStep(run, Send);
    run := TakeStep(run, Acknowledge);
  }
}
