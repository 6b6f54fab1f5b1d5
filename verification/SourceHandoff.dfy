/** The handoff from stored values to live ones: stores, the broker's channels and the
    subscription as interleaved steps. Every upstream is opened before it is read, so that
    whatever the reading misses is on its way through the channel. The tag store, which
    stores and sends, and opens and reads, in one step each, is the case in which these
    steps follow each other immediately. */
module SourceHandoff {
  import opened Identifiers
  import opened SourceFeed
  import opened Runs

  datatype Upstream = Tags | Instance(instance: Uuid)

  function UpstreamOf(r: Reference): Upstream {
    match r
    case TagSource(_) => Tags
    case PluginOutput(instance, _) => Instance(instance)
  }

  /** Tags share their store, and outputs their plugin instance; nothing else is shared. */
  lemma SharedUpstream(a: Reference, b: Reference)
    ensures UpstreamOf(a) == UpstreamOf(b) <==>
              || (a.TagSource? && b.TagSource?)
              || (a.PluginOutput? && b.PluginOutput? && a.instance == b.instance)
  {
  }

  /** A stored batch: a tag value, or the complete outputs of a plugin instance. */
  datatype Batch = Batch(upstream: Upstream, sequence: nat, references: set<Reference>)

  datatype Channel = Channel(queue: seq<Batch>, open: bool)

  datatype Phase = Preparing | Publishing(todo: seq<Sample>) | Streaming

  /** `latest` are the stored sequences, `unsent` the batches stored and not yet sent,
      `read` what the subscription has read from each upstream, and `working` the samples
      of the batch an upstream's reader has in hand. */
  datatype State = State(
    selected: seq<Reference>,
    bufferSize: nat,
    latest: map<Reference, nat>,
    unsent: set<Batch>,
    channels: map<Upstream, Channel>,
    read: map<Upstream, map<Reference, nat>>,
    phase: Phase,
    working: map<Upstream, seq<Sample>>,
    feed: Feed
  )

  datatype Step =
    | Store(batch: Batch)
    | Send(batch: Batch)
    | Open(upstream: Upstream)
    | Read(upstream: Upstream)
    | Start
    | PublishInitial
    | Deliver(upstream: Upstream)
    | PublishNext(upstream: Upstream)
    | FindClosed(upstream: Upstream)
    | Consume
    | CloseUpstreams

  function Initial(selected: seq<Reference>, bufferSize: nat, eventBuffer: nat, latest: map<Reference, nat>,
                   unsent: set<Batch>): State {
    State(selected, bufferSize, latest, unsent, map[], map[], Preparing, map[], EmptyFeed(eventBuffer + |selected|))
  }

  function Needed(s: State): set<Upstream> {
    set r | r in s.selected :: UpstreamOf(r)
  }

  predicate Enabled(s: State, step: Step) {
    match step
    case Store(batch) =>
      && (forall r :: r in batch.references ==> UpstreamOf(r) == batch.upstream)
      && (forall r :: r in batch.references && r in s.latest ==> s.latest[r] < batch.sequence)
    case Send(batch) => batch in s.unsent
    case Open(upstream) => s.phase == Preparing && upstream in Needed(s) && upstream !in s.channels
    case Read(upstream) => s.phase == Preparing && upstream in s.channels && upstream !in s.read
    case Start => s.phase == Preparing && Needed(s) <= s.read.Keys
    case PublishInitial => s.phase.Publishing?
    case Deliver(upstream) =>
      s.phase == Streaming && upstream in s.channels && s.channels[upstream].queue != [] && InHand(s, upstream) == []
    case PublishNext(upstream) => s.phase == Streaming && InHand(s, upstream) != []
    case FindClosed(upstream) =>
      && s.phase == Streaming && upstream in s.channels && !s.channels[upstream].open
      && s.channels[upstream].queue == [] && InHand(s, upstream) == []
    case Consume => s.feed.events != []
    case CloseUpstreams => true
  }

  function InHand(s: State, upstream: Upstream): seq<Sample> {
    if upstream in s.working then s.working[upstream] else []
  }

  /** A channel that is open and wanted takes the batch, or closes if it has no room. */
  function Sent(s: State, batch: Batch): map<Upstream, Channel> {
    if batch.upstream !in s.channels || !s.channels[batch.upstream].open then s.channels
    else if batch.upstream == Tags && !exists r :: r in s.selected && r in batch.references then s.channels
    else
      var channel := s.channels[batch.upstream];
      s.channels[batch.upstream :=
        if |channel.queue| < s.bufferSize then Channel(channel.queue + [batch], true)
        else Channel(channel.queue, false)]
  }

  function InitialSample(s: State, r: Reference): Sample
    requires UpstreamOf(r) in s.read
  {
    var read := s.read[UpstreamOf(r)];
    if r in read then Sample(r, true, read[r]) else Sample(r, false, 0)
  }

  /** The batch's samples for the selected sources. */
  function SamplesOf(selected: seq<Reference>, batch: Batch): seq<Sample> {
    if selected == [] then []
    else
      (if selected[0] in batch.references then [Sample(selected[0], true, batch.sequence)] else [])
      + SamplesOf(selected[1..], batch)
  }

  function Perform(s: State, step: Step): State
    requires Enabled(s, step)
  {
    match step
    case Store(batch) =>
      s.(latest := s.latest + (map r | r in batch.references :: batch.sequence), unsent := s.unsent + {batch})
    case Send(batch) => s.(unsent := s.unsent - {batch}, channels := Sent(s, batch))
    case Open(upstream) => s.(channels := s.channels[upstream := Channel([], true)])
    case Read(upstream) => s.(read := s.read[upstream := s.latest])
    case Start =>
      s.(phase := Publishing(
           seq(|s.selected|, i requires 0 <= i < |s.selected| && UpstreamOf(s.selected[i]) in s.read =>
             InitialSample(s, s.selected[i]))))
    case PublishInitial =>
      if s.phase.todo == [] then s.(phase := Streaming)
      else s.(feed := Published(s.feed, s.phase.todo[0]), phase := Publishing(s.phase.todo[1..]))
    case Deliver(upstream) =>
      var channel := s.channels[upstream];
      s.(channels := s.channels[upstream := Channel(channel.queue[1..], channel.open)],
         working := s.working[upstream := SamplesOf(s.selected, channel.queue[0])])
    case PublishNext(upstream) =>
      s.(feed := Published(s.feed, InHand(s, upstream)[0]), working := s.working[upstream := InHand(s, upstream)[1..]])
    case FindClosed(_) => s.(feed := s.feed.(failed := true))
    case Consume => s.(feed := s.feed.(events := s.feed.events[1..]))
    case CloseUpstreams => s.(channels := map u | u in s.channels :: Channel(s.channels[u].queue, false))
  }

  // ---------------------------------------------------------------- invariant

  /** Where a source's sequence `n` may be on its way. */
  ghost predicate OnItsWay(s: State, r: Reference, n: nat) {
    || InUnsent(s, r, n)
    || InQueue(s, r, n)
    || Sample(r, true, n) in InHand(s, UpstreamOf(r))
    || (s.phase.Publishing? && Sample(r, true, n) in s.phase.todo)
    || (s.phase.Preparing? && UpstreamOf(r) in s.read && r in s.read[UpstreamOf(r)] && s.read[UpstreamOf(r)][r] == n)
  }

  ghost predicate InUnsent(s: State, r: Reference, n: nat) {
    exists batch :: batch in s.unsent && r in batch.references && batch.sequence == n
  }

  ghost predicate InQueue(s: State, r: Reference, n: nat) {
    UpstreamOf(r) in s.channels
    && exists batch :: batch in s.channels[UpstreamOf(r)].queue && r in batch.references && batch.sequence == n
  }

  predicate Arrived(s: State, r: Reference, n: nat) {
    r in s.feed.seen && s.feed.seen[r] == Cursor(true, n)
  }

  /** Nothing is ahead of the store. */
  ghost predicate Bounded(s: State) {
    && (forall r, n: nat :: OnItsWay(s, r, n) ==> r in s.latest && n <= s.latest[r])
    && (forall r :: r in s.feed.seen && s.feed.seen[r].available ==>
         r in s.latest && s.feed.seen[r].sequence <= s.latest[r])
  }

  /** Once an upstream has been read, and while its channel is open, the stored sequence of
      each selected source has arrived or is on its way. */
  ghost predicate NothingLost(s: State) {
    !s.feed.failed ==>
      forall r :: r in s.selected && r in s.latest && Followed(s, UpstreamOf(r)) ==>
        Arrived(s, r, s.latest[r]) || OnItsWay(s, r, s.latest[r])
  }

  ghost predicate Followed(s: State, upstream: Upstream) {
    upstream in s.read && upstream in s.channels && s.channels[upstream].open
  }

  /** Unavailable samples wait only among the initial ones, one for each source not yet
      published; batches and hands belong to their upstream. */
  ghost predicate Orderly(s: State) {
    && Distinct(s.selected) && Valid(s.feed) && s.read.Keys <= s.channels.Keys
    && (s.phase.Preparing? ==> s.feed.seen == map[])
    && (s.phase.Publishing? ==>
          && (forall i, j :: 0 <= i < j < |s.phase.todo| ==> s.phase.todo[i].reference != s.phase.todo[j].reference)
          && forall sample :: sample in s.phase.todo ==> sample.reference !in s.feed.seen)
    && (forall u :: u in s.working ==> s.phase.Streaming? && forall sample :: sample in s.working[u] ==> Own(u, sample))
    && (forall batch :: batch in s.unsent ==> Homogeneous(batch))
    && (forall u :: u in s.channels ==>
         forall batch :: batch in s.channels[u].queue ==> batch.upstream == u && Homogeneous(batch))
  }

  ghost predicate Own(u: Upstream, sample: Sample) {
    sample.available && UpstreamOf(sample.reference) == u
  }

  ghost predicate Homogeneous(batch: Batch) {
    forall r :: r in batch.references ==> UpstreamOf(r) == batch.upstream
  }

  ghost predicate Invariant(s: State) {
    Orderly(s) && Bounded(s) && NothingLost(s)
  }

  // ---------------------------------------------------------------- every step keeps it

  lemma SamplesOfBatch(selected: seq<Reference>, batch: Batch)
    ensures forall sample :: sample in SamplesOf(selected, batch) <==>
              sample.reference in selected && sample.reference in batch.references
              && sample == Sample(sample.reference, true, batch.sequence)
  {
  }

  lemma SameBatches(s: State, t: State)
    requires t.unsent == s.unsent
    requires forall u :: u in t.channels && t.channels[u].queue != [] ==>
               u in s.channels && t.channels[u].queue == s.channels[u].queue
    requires forall u :: u in s.channels && s.channels[u].queue != [] ==>
               u in t.channels && t.channels[u].queue == s.channels[u].queue
    ensures forall r, n: nat :: InUnsent(t, r, n) == InUnsent(s, r, n)
    ensures forall r, n: nat :: InQueue(t, r, n) == InQueue(s, r, n)
  {
    forall r, n: nat ensures InUnsent(t, r, n) == InUnsent(s, r, n) && InQueue(t, r, n) == InQueue(s, r, n) {
    }
  }

  lemma StillBounded(s: State, t: State)
    requires Bounded(s) && forall r :: r in s.latest ==> r in t.latest && s.latest[r] <= t.latest[r]
    requires forall r, n: nat :: OnItsWay(t, r, n) ==> OnItsWay(s, r, n) || (r in t.latest && n <= t.latest[r])
    requires forall r :: r in t.feed.seen && t.feed.seen[r].available ==>
               r in t.latest && t.feed.seen[r].sequence <= t.latest[r]
    ensures Bounded(t)
  {
    forall r, n: nat | OnItsWay(t, r, n) ensures r in t.latest && n <= t.latest[r] {
      assert OnItsWay(s, r, n) || (r in t.latest && n <= t.latest[r]);
    }
  }

  /** Where the feed has seen the same, what stays on its way is not lost. */
  lemma StillNotLost(s: State, t: State)
    requires NothingLost(s) && t.latest == s.latest && t.selected == s.selected && t.feed.seen == s.feed.seen
    requires s.feed.failed ==> t.feed.failed
    requires forall u :: Followed(t, u) ==> Followed(s, u)
    requires forall r, n: nat ::
               OnItsWay(s, r, n) && r in s.selected && Followed(t, UpstreamOf(r)) ==> OnItsWay(t, r, n)
    ensures NothingLost(t)
  {
  }

  lemma StoreKeepsBounds(s: State, batch: Batch)
    requires Bounded(s) && Enabled(s, Store(batch))
    ensures Bounded(Perform(s, Store(batch)))
  {
    var t := Perform(s, Store(batch));
    forall r, n: nat | OnItsWay(t, r, n) ensures OnItsWay(s, r, n) || (r in t.latest && n <= t.latest[r]) {
      assert InQueue(t, r, n) == InQueue(s, r, n);
      assert InUnsent(t, r, n) ==> InUnsent(s, r, n) || (r in batch.references && n == batch.sequence);
    }
    StillBounded(s, t);
  }

  lemma StoreLosesNothing(s: State, batch: Batch)
    requires NothingLost(s) && Enabled(s, Store(batch))
    ensures NothingLost(Perform(s, Store(batch)))
  {
    var t := Perform(s, Store(batch));
    assert batch in t.unsent;
    forall r | r in t.latest && r !in batch.references && OnItsWay(s, r, t.latest[r])
      ensures OnItsWay(t, r, t.latest[r])
    {
      assert InQueue(t, r, t.latest[r]) == InQueue(s, r, t.latest[r]);
      assert InUnsent(s, r, t.latest[r]) ==> InUnsent(t, r, t.latest[r]);
    }
    forall r | r in batch.references ensures OnItsWay(t, r, t.latest[r]) {
      assert InUnsent(t, r, t.latest[r]);
    }
  }

  lemma StoreKeeps(s: State, batch: Batch)
    requires Invariant(s) && Enabled(s, Store(batch))
    ensures Invariant(Perform(s, Store(batch)))
  {
    StoreKeepsBounds(s, batch);
    StoreLosesNothing(s, batch);
  }

  /** A sent batch is no longer unsent, and is in its channel if that is followed. */
  lemma SentMoves(s: State, batch: Batch, r: Reference, n: nat)
    requires Orderly(s) && Enabled(s, Send(batch))
    ensures var t := Perform(s, Send(batch));
            && (InQueue(t, r, n) ==> InQueue(s, r, n) || InUnsent(s, r, n))
            && (InQueue(s, r, n) ==> InQueue(t, r, n))
            && (InUnsent(t, r, n) ==> InUnsent(s, r, n))
            && (InUnsent(s, r, n) && r in s.selected && Followed(t, UpstreamOf(r)) ==>
                  InUnsent(t, r, n) || InQueue(t, r, n))
  {
    var t := Perform(s, Send(batch));
    if InUnsent(s, r, n) && r in s.selected && Followed(t, UpstreamOf(r)) {
      var b :| b in s.unsent && r in b.references && b.sequence == n;
      if b == batch {
        var queue := t.channels[batch.upstream].queue;
        assert queue[|queue| - 1] == batch;
      }
    }
  }

  /** Channels close and errors are recorded only for want of room or because a channel was
      closed: an open channel stays open over every other step, and takes what it is sent. */
  lemma StepClosesForRoom(s: State, step: Step, upstream: Upstream)
    requires Enabled(s, step) && upstream in s.channels && s.channels[upstream].open
    requires step != CloseUpstreams && step != Open(upstream)
    ensures var t := Perform(s, step);
            && upstream in t.channels
            && (!t.channels[upstream].open ==>
                  step.Send? && step.batch.upstream == upstream && |s.channels[upstream].queue| >= s.bufferSize)
            && (step.Send? && step.batch.upstream == upstream && t.channels[upstream].open
                && (upstream != Tags || exists r :: r in s.selected && r in step.batch.references) ==>
                  t.channels[upstream].queue == s.channels[upstream].queue + [step.batch])
  {
  }

  lemma StepFailsForRoom(s: State, step: Step)
    requires Enabled(s, step) && !s.feed.failed && Perform(s, step).feed.failed
    ensures |s.feed.events| >= s.feed.capacity
            || exists upstream :: upstream in s.channels && !s.channels[upstream].open
  {
  }

  lemma SendOrderly(s: State, batch: Batch)
    requires Orderly(s) && Enabled(s, Send(batch))
    ensures Orderly(Perform(s, Send(batch)))
  {
  }

  lemma SendKeeps(s: State, batch: Batch)
    requires Invariant(s) && Enabled(s, Send(batch))
    ensures Invariant(Perform(s, Send(batch)))
  {
    var t := Perform(s, Send(batch));
    SendOrderly(s, batch);
    forall r, n: nat
      ensures OnItsWay(t, r, n) ==> OnItsWay(s, r, n)
      ensures OnItsWay(s, r, n) && r in s.selected && Followed(t, UpstreamOf(r)) ==> OnItsWay(t, r, n)
    {
      SentMoves(s, batch, r, n);
    }
    StillBounded(s, t);
    StillNotLost(s, t);
  }

  lemma OpenKeeps(s: State, upstream: Upstream)
    requires Invariant(s) && Enabled(s, Open(upstream))
    ensures Invariant(Perform(s, Open(upstream)))
  {
    var t := Perform(s, Open(upstream));
    SameBatches(s, t);
    forall r, n: nat | OnItsWay(t, r, n) ensures OnItsWay(s, r, n) {
    }
    StillBounded(s, t);
  }

  lemma ReadKeeps(s: State, upstream: Upstream)
    requires Invariant(s) && Enabled(s, Read(upstream))
    ensures Invariant(Perform(s, Read(upstream)))
  {
    var t := Perform(s, Read(upstream));
    SameBatches(s, t);
    forall r, n: nat | OnItsWay(t, r, n) ensures OnItsWay(s, r, n) || (r in t.latest && n <= t.latest[r]) {
    }
    StillBounded(s, t);
  }

  lemma StartOrderly(s: State)
    requires Orderly(s) && Enabled(s, Start)
    ensures Orderly(Perform(s, Start))
  {
    var t := Perform(s, Start);
    forall i | 0 <= i < |t.phase.todo| ensures t.phase.todo[i].reference == s.selected[i] {
      assert t.phase.todo[i] == InitialSample(s, s.selected[i]);
    }
  }

  /** What was read is what is left to publish. */
  lemma ReadIsTodo(s: State, r: Reference, n: nat)
    requires Enabled(s, Start)
    ensures Sample(r, true, n) in Perform(s, Start).phase.todo
       <==> r in s.selected && r in s.read[UpstreamOf(r)] && s.read[UpstreamOf(r)][r] == n
  {
    var todo := Perform(s, Start).phase.todo;
    if Sample(r, true, n) in todo {
      var i :| 0 <= i < |todo| && todo[i] == Sample(r, true, n);
      assert todo[i] == InitialSample(s, s.selected[i]);
    }
    if r in s.selected {
      var i :| 0 <= i < |s.selected| && s.selected[i] == r;
      assert todo[i] == InitialSample(s, r);
    }
  }

  lemma StartKeeps(s: State)
    requires Invariant(s) && Enabled(s, Start)
    ensures Invariant(Perform(s, Start))
  {
    var t := Perform(s, Start);
    SameBatches(s, t);
    StartOrderly(s);
    forall r, n: nat
      ensures OnItsWay(t, r, n) ==> OnItsWay(s, r, n)
      ensures OnItsWay(s, r, n) && r in s.selected ==> OnItsWay(t, r, n)
    {
      ReadIsTodo(s, r, n);
    }
    StillBounded(s, t);
    StillNotLost(s, t);
  }

  /** A published sample that the store has not overtaken arrives; what had arrived stays. */
  lemma PublishArrives(s: State, feed: Feed, sample: Sample)
    requires Bounded(s) && feed == Published(s.feed, sample)
    requires sample.available ==> sample.reference in s.latest && sample.sequence <= s.latest[sample.reference]
    requires sample.available || sample.reference !in s.feed.seen
    ensures forall r :: r in feed.seen && feed.seen[r].available ==>
              r in s.latest && feed.seen[r].sequence <= s.latest[r]
    ensures !feed.failed && sample.available && sample.sequence == s.latest[sample.reference] ==>
              sample.reference in feed.seen && feed.seen[sample.reference] == Cursor(true, sample.sequence)
    ensures forall r :: r in s.latest && Arrived(s, r, s.latest[r]) ==>
              r in feed.seen && feed.seen[r] == Cursor(true, s.latest[r])
  {
  }

  lemma PublishInitialOrderly(s: State)
    requires Orderly(s) && Enabled(s, PublishInitial) && s.phase.todo != []
    ensures Orderly(Perform(s, PublishInitial))
  {
    var t, head, rest := Perform(s, PublishInitial), s.phase.todo[0], s.phase.todo[1..];
    PublishKeepsValid(s.feed, head);
    assert forall i :: 0 <= i < |rest| ==> rest[i] == s.phase.todo[i + 1];
    forall sample | sample in rest ensures sample.reference !in t.feed.seen {
      assert sample in s.phase.todo;
    }
  }

  lemma PublishInitialKeeps(s: State)
    requires Invariant(s) && Enabled(s, PublishInitial) && s.phase.todo != []
    ensures Invariant(Perform(s, PublishInitial))
  {
    var t, head := Perform(s, PublishInitial), s.phase.todo[0];
    SameBatches(s, t);
    PublishInitialOrderly(s);
    assert s.phase.todo == [head] + s.phase.todo[1..];
    assert head.available && head == Sample(head.reference, true, head.sequence) ==>
        OnItsWay(s, head.reference, head.sequence);
    PublishArrives(s, t.feed, head);
    InitialLosesNothing(s);
    forall r, n: nat | OnItsWay(t, r, n) ensures OnItsWay(s, r, n) {
    }
    StillBounded(s, t);
  }

  lemma InitialLosesNothing(s: State)
    requires Orderly(s) && Bounded(s) && NothingLost(s) && Enabled(s, PublishInitial) && s.phase.todo != []
    requires var head := s.phase.todo[0];
             head.available ==> head.reference in s.latest && head.sequence <= s.latest[head.reference]
    ensures NothingLost(Perform(s, PublishInitial))
  {
    var t, head := Perform(s, PublishInitial), s.phase.todo[0];
    SameBatches(s, t);
    assert s.phase.todo == [head] + s.phase.todo[1..];
    PublishArrives(s, t.feed, head);
    forall r, n: nat | OnItsWay(s, r, n) ensures OnItsWay(t, r, n) || head == Sample(r, true, n) {
    }
  }

  lemma BeginStreamingKeeps(s: State)
    requires Invariant(s) && Enabled(s, PublishInitial) && s.phase.todo == []
    ensures Invariant(Perform(s, PublishInitial))
  {
    var t := Perform(s, PublishInitial);
    SameBatches(s, t);
    forall r, n: nat | OnItsWay(t, r, n) ensures OnItsWay(s, r, n) {
    }
    StillBounded(s, t);
  }

  lemma DeliverOrderly(s: State, upstream: Upstream)
    requires Orderly(s) && Enabled(s, Deliver(upstream))
    ensures Orderly(Perform(s, Deliver(upstream)))
  {
    var t, batch := Perform(s, Deliver(upstream)), s.channels[upstream].queue[0];
    SamplesOfBatch(s.selected, batch);
    assert forall b :: b in t.channels[upstream].queue ==> b in s.channels[upstream].queue;
    assert batch in s.channels[upstream].queue;
  }

  /** The first batch of a channel becomes the samples in hand. */
  lemma DeliveredMoves(s: State, upstream: Upstream, r: Reference, n: nat)
    requires Orderly(s) && Enabled(s, Deliver(upstream))
    ensures var t := Perform(s, Deliver(upstream));
            && InUnsent(t, r, n) == InUnsent(s, r, n)
            && (InQueue(t, r, n) ==> InQueue(s, r, n))
            && (Sample(r, true, n) in InHand(t, UpstreamOf(r)) ==>
                  InQueue(s, r, n) || Sample(r, true, n) in InHand(s, UpstreamOf(r)))
            && (InQueue(s, r, n) && r in s.selected ==>
                  InQueue(t, r, n) || Sample(r, true, n) in InHand(t, UpstreamOf(r)))
            && (Sample(r, true, n) in InHand(s, UpstreamOf(r)) ==> Sample(r, true, n) in InHand(t, UpstreamOf(r)))
  {
    var t, batch := Perform(s, Deliver(upstream)), s.channels[upstream].queue[0];
    assert s.channels[upstream].queue == [batch] + t.channels[upstream].queue;
    SamplesOfBatch(s.selected, batch);
    assert batch in s.channels[upstream].queue && batch.upstream == upstream && Homogeneous(batch);
    if InQueue(s, r, n) {
      var b :| b in s.channels[UpstreamOf(r)].queue && r in b.references && b.sequence == n;
      assert b == batch || b in t.channels[UpstreamOf(r)].queue;
    }
  }

  lemma DeliverKeeps(s: State, upstream: Upstream)
    requires Invariant(s) && Enabled(s, Deliver(upstream))
    ensures Invariant(Perform(s, Deliver(upstream)))
  {
    var t := Perform(s, Deliver(upstream));
    DeliverOrderly(s, upstream);
    forall r, n: nat
      ensures OnItsWay(t, r, n) ==> OnItsWay(s, r, n)
      ensures OnItsWay(s, r, n) && r in s.selected ==> OnItsWay(t, r, n)
    {
      DeliveredMoves(s, upstream, r, n);
    }
    StillBounded(s, t);
    StillNotLost(s, t);
  }

  lemma NextLosesNothing(s: State, upstream: Upstream)
    requires Bounded(s) && NothingLost(s) && Enabled(s, PublishNext(upstream))
    requires var sample := InHand(s, upstream)[0];
             && Own(upstream, sample)
             && sample.reference in s.latest && sample.sequence <= s.latest[sample.reference]
    ensures NothingLost(Perform(s, PublishNext(upstream)))
  {
    var t, hand := Perform(s, PublishNext(upstream)), InHand(s, upstream);
    SameBatches(s, t);
    assert hand == [hand[0]] + hand[1..];
    PublishArrives(s, t.feed, hand[0]);
    forall r | r in s.selected && r in s.latest && Sample(r, true, s.latest[r]) in InHand(s, UpstreamOf(r))
      ensures Sample(r, true, s.latest[r]) in InHand(t, UpstreamOf(r)) || Sample(r, true, s.latest[r]) == hand[0] {
    }
  }

  lemma PublishNextKeeps(s: State, upstream: Upstream)
    requires Invariant(s) && Enabled(s, PublishNext(upstream))
    ensures Invariant(Perform(s, PublishNext(upstream)))
  {
    var t := Perform(s, PublishNext(upstream));
    var hand := InHand(s, upstream);
    assert hand == [hand[0]] + hand[1..];
    assert Own(upstream, hand[0]);
    assert hand[0] == Sample(hand[0].reference, true, hand[0].sequence);
    assert OnItsWay(s, hand[0].reference, hand[0].sequence);
    SameBatches(s, t);
    PublishKeepsValid(s.feed, hand[0]);
    PublishArrives(s, t.feed, hand[0]);
    NextLosesNothing(s, upstream);
    forall r, n: nat | OnItsWay(t, r, n) ensures OnItsWay(s, r, n) {
    }
    StillBounded(s, t);
  }

  lemma CloseKeeps(s: State)
    requires Invariant(s)
    ensures Invariant(Perform(s, CloseUpstreams))
  {
    var t := Perform(s, CloseUpstreams);
    SameBatches(s, t);
    forall r, n: nat | OnItsWay(t, r, n) ensures OnItsWay(s, r, n) {
    }
    StillBounded(s, t);
  }

  lemma FeedStepOrderly(s: State, step: Step)
    requires Orderly(s) && Enabled(s, step) && (step.FindClosed? || step.Consume?)
    ensures Orderly(Perform(s, step)) && Perform(s, step).feed.seen == s.feed.seen
  {
  }

  lemma FeedStepKeeps(s: State, step: Step)
    requires Invariant(s) && Enabled(s, step) && (step.FindClosed? || step.Consume?)
    ensures Invariant(Perform(s, step))
  {
    var t := Perform(s, step);
    SameBatches(s, t);
    FeedStepOrderly(s, step);
    forall r, n: nat ensures OnItsWay(t, r, n) == OnItsWay(s, r, n) {
    }
    StillBounded(s, t);
    StillNotLost(s, t);
  }

  lemma StepKeepsInvariant(s: State, step: Step)
    requires Invariant(s) && Enabled(s, step)
    ensures Invariant(Perform(s, step))
  {
    match step
    case Store(batch) => StoreKeeps(s, batch);
    case Send(batch) => SendKeeps(s, batch);
    case Open(upstream) => OpenKeeps(s, upstream);
    case Read(upstream) => ReadKeeps(s, upstream);
    case Start => StartKeeps(s);
    case PublishInitial =>
      if s.phase.todo == [] { BeginStreamingKeeps(s); } else { PublishInitialKeeps(s); }
    case Deliver(upstream) => DeliverKeeps(s, upstream);
    case PublishNext(upstream) => PublishNextKeeps(s, upstream);
    case CloseUpstreams => CloseKeeps(s);
    case _ => FeedStepKeeps(s, step);
  }

  // ---------------------------------------------------------------- promises

  ghost predicate Next(s: State, t: State) {
    exists step :: Enabled(s, step) && t == Perform(s, step)
  }

  /** A distinct selection and any stored values, of which some may still have to be sent. */
  ghost predicate Starts(s: State) {
    && s.feed.capacity >= |s.selected|
    && s == Initial(s.selected, s.bufferSize, s.feed.capacity - |s.selected|, s.latest, s.unsent)
    && Distinct(s.selected)
    && forall batch :: batch in s.unsent ==>
         && Homogeneous(batch)
         && forall r :: r in batch.references ==> r in s.latest && batch.sequence <= s.latest[r]
  }

  ghost predicate IsRun(run: seq<State>) {
    Run(run, Next) && Starts(run[0])
  }

  lemma StartIsInvariant(s: State)
    requires Starts(s)
    ensures Invariant(s)
  {
    assert forall r :: Of([], r) == [];
  }

  lemma NextKeepsInvariant(s: State, t: State)
    requires Invariant(s) && Next(s, t)
    ensures Invariant(t)
  {
    var step :| Enabled(s, step) && t == Perform(s, step);
    StepKeepsInvariant(s, step);
  }

  lemma ReachableIsInvariant(run: seq<State>, n: nat)
    requires IsRun(run) && n < |run|
    ensures Invariant(run[n])
  {
    StartIsInvariant(run[0]);
    forall s, t | Invariant(s) && Next(s, t) ensures Invariant(t) {
      NextKeepsInvariant(s, t);
    }
    Preserved(run, Next, Invariant, n);
  }

  /** In a streaming subscription whatever is on its way can be moved on: it can be sent, or
      its channel delivers, or the samples in hand are published. */
  lemma OnItsWayMoves(s: State, r: Reference, n: nat)
    requires Orderly(s) && s.phase == Streaming && OnItsWay(s, r, n)
    ensures (exists batch :: Enabled(s, Send(batch)) && r in batch.references && batch.sequence == n)
            || Enabled(s, Deliver(UpstreamOf(r))) || Enabled(s, PublishNext(UpstreamOf(r)))
  {
    if InUnsent(s, r, n) {
      var batch :| batch in s.unsent && r in batch.references && batch.sequence == n;
      assert Enabled(s, Send(batch));
    }
  }

  /** Over every run each source's samples are properly ordered, and until an error is
      recorded every sample that reached the subscription was emitted or is no newer than
      an emitted one. */
  lemma EmittedInOrder(run: seq<State>, n: nat, r: Reference)
    requires IsRun(run) && n < |run|
    ensures Proper(Of(run[n].feed.emitted, r))
    ensures !run[n].feed.failed ==>
              forall sample :: sample in run[n].feed.offered && sample.reference == r ==>
                var emitted := Of(run[n].feed.emitted, r);
                && emitted != []
                && (sample.available ==>
                      var last := emitted[|emitted| - 1];
                      last.available && sample.sequence <= last.sequence)
  {
    ReachableIsInvariant(run, n);
  }

  /** Nothing is lost in the handoff: in a streaming subscription without error, a selected
      source whose channel is open and drained, with nothing left to send, has its stored
      value as its last emitted sample. */
  lemma QuietSourceIsCurrent(run: seq<State>, n: nat, r: Reference)
    requires IsRun(run) && n < |run|
    requires var s := run[n];
             && s.phase == Streaming && !s.feed.failed && r in s.selected && r in s.latest
             && Followed(s, UpstreamOf(r))
             && s.channels[UpstreamOf(r)].queue == [] && InHand(s, UpstreamOf(r)) == []
             && forall batch :: batch in s.unsent ==> r !in batch.references
    ensures var emitted := Of(run[n].feed.emitted, r);
            emitted != [] && emitted[|emitted| - 1].available && emitted[|emitted| - 1].sequence == run[n].latest[r]
  {
    ReachableIsInvariant(run, n);
  }
}
