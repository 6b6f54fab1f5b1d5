/** The unified source subscription: one stream of samples with a cursor for each source. */
module SourceFeed {
  import opened Identifiers

  datatype Reference = TagSource(tag: Uuid) | PluginOutput(instance: Uuid, key: string)

  datatype Sample = Sample(reference: Reference, available: bool, sequence: nat)

  datatype Cursor = Cursor(available: bool, sequence: nat)

  /** `events` is the bounded channel to the consumer; `emitted` and `offered` are history:
      all samples ever sent into it, and all given to `Published`. */
  datatype Feed = Feed(
    capacity: nat,
    events: seq<Sample>,
    seen: map<Reference, Cursor>,
    failed: bool,
    emitted: seq<Sample>,
    offered: set<Sample>
  )

  function EmptyFeed(capacity: nat): Feed {
    Feed(capacity, [], map[], false, [], {})
  }

  predicate Repeats(seen: map<Reference, Cursor>, sample: Sample) {
    && sample.reference in seen
    && var cursor := seen[sample.reference];
       || (!sample.available && !cursor.available)
       || (sample.available && cursor.available && sample.sequence <= cursor.sequence)
  }

  /** A repeated sample is skipped; another one is sent, or fails a full channel. */
  function Published(feed: Feed, sample: Sample): Feed {
    var feed := feed.(offered := feed.offered + {sample});
    if Repeats(feed.seen, sample) then feed
    else if |feed.events| < feed.capacity then
      feed.(events := feed.events + [sample], emitted := feed.emitted + [sample],
            seen := feed.seen[sample.reference := Cursor(sample.available, sample.sequence)])
    else feed.(failed := true)
  }

  class SourceSubscription {
    const capacity: nat
    var events: seq<Sample>
    var seen: map<Reference, Cursor>
    var failed: bool
    var closed: bool
    ghost var emitted: seq<Sample>
    ghost var offered: set<Sample>

    ghost function View(): Feed
      reads this
    {
      Feed(capacity, events, seen, failed, emitted, offered)
    }

    constructor (capacity: nat)
      ensures View() == EmptyFeed(capacity) && !closed
    {
      this.capacity := capacity;
      events, seen, failed, closed := [], map[], false, false;
      emitted, offered := [], {};
    }

    method Publish(sample: Sample)
      modifies this
      ensures View() == Published(old(View()), sample)
      ensures closed == (old(closed) || (!Repeats(old(seen), sample) && old(|events|) >= capacity))
    {
      offered := offered + {sample};
      if sample.reference in seen {
        var cursor := seen[sample.reference];
        if (!sample.available && !cursor.available) ||
           (sample.available && cursor.available && sample.sequence <= cursor.sequence) {
          return;
        }
      }
      if |events| < capacity {
        events := events + [sample];
        emitted := emitted + [sample];
        seen := seen[sample.reference := Cursor(sample.available, sample.sequence)];
      } else {
        failed, closed := true, true;
      }
    }
  }

  // ---------------------------------------------------------------- order of one source

  /** The samples of one source, in order. */
  function Of(samples: seq<Sample>, reference: Reference): seq<Sample> {
    if samples == [] then []
    else
      var before, last := Of(samples[..|samples| - 1], reference), samples[|samples| - 1];
      if last.reference == reference then before + [last] else before
  }

  /** At most one unavailable sample, first, and after it available ones with strictly
      increasing sequence. */
  ghost predicate Proper(samples: seq<Sample>) {
    && (forall i :: 0 < i < |samples| ==> samples[i].available)
    && forall i, j :: 0 <= i < j < |samples| && samples[i].available ==> samples[i].sequence < samples[j].sequence
  }

  /** The cursor of a source is its last emitted sample. */
  ghost predicate LastSeen(seen: map<Reference, Cursor>, samples: seq<Sample>, r: Reference) {
    && (r in seen <==> samples != [])
    && (r in seen ==> var last := samples[|samples| - 1]; seen[r] == Cursor(last.available, last.sequence))
  }

  /** Cursors are the last emitted samples, and an open feed has emitted each offered sample
      or one at least as new. */
  ghost predicate Valid(feed: Feed) {
    && (forall r :: LastSeen(feed.seen, Of(feed.emitted, r), r))
    && (forall r :: Proper(Of(feed.emitted, r)))
    && (!feed.failed ==> forall sample :: sample in feed.offered ==> Covered(feed.seen, sample))
  }

  predicate Covered(seen: map<Reference, Cursor>, sample: Sample) {
    && sample.reference in seen
    && (sample.available ==> seen[sample.reference].available && sample.sequence <= seen[sample.reference].sequence)
  }

  lemma {:induction false} OfAppend(samples: seq<Sample>, sample: Sample, r: Reference)
    ensures Of(samples + [sample], r) ==
              if sample.reference == r then Of(samples, r) + [sample] else Of(samples, r)
  {
    assert (samples + [sample])[..|samples|] == samples;
  }

  /** Publishing keeps the feed valid as long as a source's unavailable sample comes first. */
  lemma PublishKeepsValid(feed: Feed, sample: Sample)
    requires Valid(feed) && (sample.available || sample.reference !in feed.seen)
    ensures Valid(Published(feed, sample))
  {
    if !Repeats(feed.seen, sample) && |feed.events| < feed.capacity {
      var after := Published(feed, sample);
      forall r ensures LastSeen(after.seen, Of(after.emitted, r), r) {
        PublishKeepsSeen(feed, sample, r);
      }
      PublishKeepsCovered(feed, sample);
      PublishKeepsProper(feed, sample);
    } else {
      var after := Published(feed, sample);
      assert after.emitted == feed.emitted && after.seen == feed.seen;
    }
  }

  lemma PublishKeepsProper(feed: Feed, sample: Sample)
    requires Valid(feed) && |feed.events| < feed.capacity && !Repeats(feed.seen, sample)
    requires sample.available || sample.reference !in feed.seen
    ensures forall r :: Proper(Of(Published(feed, sample).emitted, r))
  {
    forall r ensures Proper(Of(feed.emitted + [sample], r)) {
      OfAppend(feed.emitted, sample, r);
      if r == sample.reference {
        AppendKeepsProper(Of(feed.emitted, r), sample);
      }
    }
  }

  lemma AppendKeepsProper(samples: seq<Sample>, sample: Sample)
    requires Proper(samples) && (samples == [] || sample.available)
    requires samples != [] && samples[|samples| - 1].available ==> samples[|samples| - 1].sequence < sample.sequence
    ensures Proper(samples + [sample])
  {
    var n := |samples|;
    assert forall i :: 0 <= i < n && samples[i].available ==> samples[i].sequence <= samples[n - 1].sequence;
  }

  lemma PublishKeepsCovered(feed: Feed, sample: Sample)
    requires Valid(feed) && |feed.events| < feed.capacity && !Repeats(feed.seen, sample)
    requires sample.available || sample.reference !in feed.seen
    ensures var after := Published(feed, sample);
            !after.failed ==> forall s :: s in after.offered ==> Covered(after.seen, s)
  {
  }

  lemma AppendKeepsSeen(seen: map<Reference, Cursor>, samples: seq<Sample>, sample: Sample, r: Reference)
    requires LastSeen(seen, samples, r)
    ensures LastSeen(seen[sample.reference := Cursor(sample.available, sample.sequence)],
                     if sample.reference == r then samples + [sample] else samples, r)
  {
  }

  lemma PublishKeepsSeen(feed: Feed, sample: Sample, r: Reference)
    requires Valid(feed) && |feed.events| < feed.capacity && !Repeats(feed.seen, sample)
    ensures var after := Published(feed, sample); LastSeen(after.seen, Of(after.emitted, r), r)
  {
    OfAppend(feed.emitted, sample, r);
    AppendKeepsSeen(feed.seen, Of(feed.emitted, r), sample, r);
  }

  /** The order of a source survives a publication exactly when the sample is not an
      unavailable one after an available one: such a sample is sent, not skipped. */
  lemma OrderNeedsAvailability(feed: Feed, sample: Sample)
    requires Valid(feed) && |feed.events| < feed.capacity
    ensures Proper(Of(Published(feed, sample).emitted, sample.reference)) <==>
              sample.available || sample.reference !in feed.seen || !feed.seen[sample.reference].available
  {
    if sample.available || sample.reference !in feed.seen {
      PublishKeepsValid(feed, sample);
    } else if feed.seen[sample.reference].available {
      OfAppend(feed.emitted, sample, sample.reference);
      var after := Of(Published(feed, sample).emitted, sample.reference);
      assert after[|after| - 1] == sample;
    }
  }
}
