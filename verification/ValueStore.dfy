/** The in-memory value store: latest values, bounded histories and live subscriptions.
    States and steps are values; every run of steps is an arbitrary interleaving of the
    calls, each of which the store performs under one lock. */
module ValueStore {
  import opened Identifiers
  import opened TagValues

  const HISTORY_LIMIT: nat := 10
  const EVENT_BUFFER: nat := 64

  type Latest = map<Uuid, TagValue>

  /** A subscription with its bounded stream. `sent` is a history variable: everything
      ever placed on the stream, of which `buffer` is what the client has yet to take. */
  datatype Subscriber = Subscriber(
    filter: set<Uuid>,
    capacity: nat,
    disconnectOnLag: bool,
    buffer: seq<TagValue>,
    sent: seq<TagValue>
  ) {
    predicate Matches(id: Uuid) {
      filter == {} || id in filter
    }

    /** The stream after a value was offered; None when the subscription is closed for lag. */
    function Offer(value: TagValue): Option<Subscriber> {
      if |buffer| < capacity then Some(this.(buffer := buffer + [value], sent := sent + [value]))
      else if disconnectOnLag then None
      else if |buffer| == 0 then Some(this)
      else Some(this.(buffer := buffer[1..] + [value], sent := sent + [value]))
    }
  }

  datatype Store = Store(
    sequence: nat,
    latest: Latest,
    history: map<Uuid, seq<TagValue>>,
    subscribers: map<nat, Subscriber>,
    nextSubscriber: nat
  )

  const EMPTY := Store(0, map[], map[], map[], 0)

  function LastTen(s: seq<TagValue>): (r: seq<TagValue>)
    ensures |r| <= HISTORY_LIMIT && (|s| > 0 ==> |r| > 0 && r[|r| - 1] == s[|s| - 1])
  {
    if |s| > HISTORY_LIMIT then s[|s| - HISTORY_LIMIT..] else s
  }

  function HistoryOf(s: Store, id: Uuid): seq<TagValue> {
    if id in s.history then s.history[id] else []
  }

  // ---------------------------------------------------------------- steps

  /** A normalised value as it will be stored: numbered and stamped. */
  function Stamped(s: Store, value: TagValue, now: nat): TagValue {
    value.(sequence := s.sequence + 1, storedAt := now)
  }

  /** Whether a subscription stays open when the value is offered to those it matches. */
  predicate StaysOpen(subscriber: Subscriber, value: TagValue) {
    !subscriber.Matches(value.tagId) || subscriber.Offer(value).Some?
  }

  function AfterOffer(subscriber: Subscriber, value: TagValue): Subscriber
    requires StaysOpen(subscriber, value)
  {
    if subscriber.Matches(value.tagId) then subscriber.Offer(value).value else subscriber
  }

  function Put(s: Store, value: TagValue, now: nat): Store {
    match Normalize(value)
    case None => s
    case Some(normalized) =>
      var stored := Stamped(s, normalized, now);
      s.(sequence := stored.sequence,
         latest := s.latest[stored.tagId := stored],
         history := s.history[stored.tagId := LastTen(HistoryOf(s, stored.tagId) + [stored])],
         subscribers := map k | k in s.subscribers && StaysOpen(s.subscribers[k], stored) ::
           AfterOffer(s.subscribers[k], stored))
  }

  function FilterOf(ids: seq<Uuid>): set<Uuid> {
    set id | id in ids && id != NIL
  }

  /** A subscription that is disconnected when it lags. */
  function SubscribeValues(s: Store, ids: seq<Uuid>): Store {
    var k := s.nextSubscriber + 1;
    s.(nextSubscriber := k,
       subscribers := s.subscribers[k := Subscriber(FilterOf(ids), EVENT_BUFFER, true, [], [])])
  }

  /** Offers the latest values of the listed tags, oldest offers giving way. */
  function OfferAll(subscriber: Subscriber, latest: Latest, ids: seq<Uuid>): Subscriber {
    if ids == [] then subscriber
    else
      var before, id := OfferAll(subscriber, latest, ids[..|ids| - 1]), ids[|ids| - 1];
      if id !in latest || before.Offer(latest[id]).None? then before else before.Offer(latest[id]).value
  }

  /** A subscription that drops its oldest value when it lags; `order` is the order in
      which the filter's latest values were offered. */
  function SubscribeLatest(s: Store, ids: seq<Uuid>, order: seq<Uuid>): Store {
    var k := s.nextSubscriber + 1;
    var subscriber := Subscriber(FilterOf(ids), HISTORY_LIMIT + 1, false, [], []);
    s.(nextSubscriber := k, subscribers := s.subscribers[k := OfferAll(subscriber, s.latest, order)])
  }

  function Unsubscribe(s: Store, k: nat): Store {
    s.(subscribers := s.subscribers - {k})
  }

  function Receive(s: Store, k: nat): Store {
    if k in s.subscribers && |s.subscribers[k].buffer| > 0 then
      s.(subscribers := s.subscribers[k := s.subscribers[k].(buffer := s.subscribers[k].buffer[1..])])
    else s
  }

  datatype Step =
    | PutStep(value: TagValue, now: nat)
    | SubscribeValuesStep(ids: seq<Uuid>)
    | SubscribeLatestStep(ids: seq<Uuid>, order: seq<Uuid>)
    | UnsubscribeStep(subscriber: nat)
    | ReceiveStep(subscriber: nat)

  function Perform(s: Store, step: Step): Store {
    match step
    case PutStep(value, now) => Put(s, value, now)
    case SubscribeValuesStep(ids) => SubscribeValues(s, ids)
    case SubscribeLatestStep(ids, order) => SubscribeLatest(s, ids, order)
    case UnsubscribeStep(k) => Unsubscribe(s, k)
    case ReceiveStep(k) => Receive(s, k)
  }

  function Run(s: Store, steps: seq<Step>): Store {
    if steps == [] then s
    else Perform(Run(s, steps[..|steps| - 1]), steps[|steps| - 1])
  }

  /** What one step stores. */
  function StoredByStep(s: Store, step: Step): seq<TagValue> {
    if step.PutStep? && Normalize(step.value).Some?
    then [Stamped(s, Normalize(step.value).value, step.now)] else []
  }

  /** Everything a run stores, oldest first. */
  function StoredBy(s: Store, steps: seq<Step>): seq<TagValue> {
    if steps == [] then []
    else
      var front := steps[..|steps| - 1];
      StoredBy(s, front) + StoredByStep(Run(s, front), steps[|steps| - 1])
  }

  // ---------------------------------------------------------------- invariants

  ghost predicate Increasing(s: seq<TagValue>) {
    forall i, j :: 0 <= i < j < |s| ==> s[i].sequence < s[j].sequence
  }

  /** Latest values are filed under their tag and numbered without repetition. */
  ghost predicate Numbered(s: Store) {
    && (forall id :: id in s.latest ==> s.latest[id].tagId == id && s.latest[id].sequence <= s.sequence)
    && (forall a, b :: a in s.latest && b in s.latest && a != b ==> s.latest[a].sequence != s.latest[b].sequence)
    && (forall k :: k in s.subscribers ==> k <= s.nextSubscriber)
  }

  lemma StepKeepsNumbering(s: Store, step: Step)
    requires Numbered(s)
    ensures Numbered(Perform(s, step)) && Perform(s, step).sequence >= s.sequence
  {
  }

  lemma {:induction false} RunKeepsNumbering(s: Store, steps: seq<Step>)
    requires Numbered(s)
    ensures Numbered(Run(s, steps)) && Run(s, steps).sequence >= s.sequence
  {
    if steps != [] {
      RunKeepsNumbering(s, steps[..|steps| - 1]);
      StepKeepsNumbering(Run(s, steps[..|steps| - 1]), steps[|steps| - 1]);
    }
  }

  /** A history of one tag in increasing order, within its limit and up to the given value. */
  ghost predicate EndsWith(history: seq<TagValue>, value: TagValue) {
    && 0 < |history| <= HISTORY_LIMIT && Increasing(history)
    && (forall v :: v in history ==> v.tagId == value.tagId)
    && history[|history| - 1] == value
  }

  /** Exactly the tags with a latest value have a history, which ends with that value. */
  ghost predicate HistoriesRecord(s: Store) {
    s.history.Keys == s.latest.Keys && forall id :: id in s.history ==> EndsWith(s.history[id], s.latest[id])
  }

  lemma AppendEndsWith(history: seq<TagValue>, value: TagValue, stored: TagValue)
    requires EndsWith(history, value) && stored.tagId == value.tagId && value.sequence < stored.sequence
    ensures EndsWith(LastTen(history + [stored]), stored)
  {
    var all, r := history + [stored], LastTen(history + [stored]);
    assert Increasing(all) by {
      forall i, j | 0 <= i < j < |all| ensures all[i].sequence < all[j].sequence {
        assert all[i] == history[i];
      }
    }
    assert forall v :: v in r ==> v in all;
  }

  lemma StampedEndsHistory(s: Store, stored: TagValue)
    requires Numbered(s) && HistoriesRecord(s) && stored.sequence > s.sequence
    ensures EndsWith(LastTen(HistoryOf(s, stored.tagId) + [stored]), stored)
  {
    if stored.tagId in s.latest {
      AppendEndsWith(s.history[stored.tagId], s.latest[stored.tagId], stored);
    } else {
      assert [] + [stored] == [stored];
    }
  }

  lemma UpdateKeepsHistories(s: Store, t: Store, stored: TagValue, history: seq<TagValue>)
    requires HistoriesRecord(s) && EndsWith(history, stored)
    requires t.latest == s.latest[stored.tagId := stored] && t.history == s.history[stored.tagId := history]
    ensures HistoriesRecord(t)
  {
  }

  lemma PutKeepsHistories(s: Store, value: TagValue, now: nat)
    requires Numbered(s) && HistoriesRecord(s)
    ensures HistoriesRecord(Put(s, value, now))
  {
    if Normalize(value).Some? {
      var stored := Stamped(s, Normalize(value).value, now);
      StampedEndsHistory(s, stored);
      UpdateKeepsHistories(s, Put(s, value, now), stored, LastTen(HistoryOf(s, stored.tagId) + [stored]));
    }
  }

  lemma StepKeepsHistories(s: Store, step: Step)
    requires Numbered(s) && HistoriesRecord(s)
    ensures HistoriesRecord(Perform(s, step))
  {
    if step.PutStep? {
      PutKeepsHistories(s, step.value, step.now);
    }
  }

  /** Over every run, each tag's history increases up to its latest value. */
  lemma {:induction false} RunKeepsHistories(s: Store, steps: seq<Step>)
    requires Numbered(s) && HistoriesRecord(s)
    ensures HistoriesRecord(Run(s, steps))
  {
    if steps != [] {
      var front := steps[..|steps| - 1];
      RunKeepsHistories(s, front);
      RunKeepsNumbering(s, front);
      StepKeepsHistories(Run(s, front), steps[|steps| - 1]);
    }
  }

  /** The history of a tag is the last ten of everything stored for it. */
  function ForTag(values: seq<TagValue>, id: Uuid): seq<TagValue> {
    if values == [] then []
    else
      var last := values[|values| - 1];
      ForTag(values[..|values| - 1], id) + if last.tagId == id then [last] else []
  }

  lemma {:induction false} ForTagConcat(values: seq<TagValue>, more: seq<TagValue>, id: Uuid)
    ensures ForTag(values + more, id) == ForTag(values, id) + ForTag(more, id)
  {
    if more == [] {
      assert values + more == values;
    } else {
      ForTagConcat(values, more[..|more| - 1], id);
      assert (values + more)[..|values + more| - 1] == values + more[..|more| - 1];
    }
  }

  lemma LastTenOfSuffix(s: seq<TagValue>, k: nat)
    requires k <= |s| && (k == 0 || |s| - k >= HISTORY_LIMIT)
    ensures LastTen(s[k..]) == LastTen(s)
  {
  }

  lemma LastTenAgain(w: seq<TagValue>, b: seq<TagValue>)
    ensures LastTen(LastTen(w) + b) == LastTen(w + b)
  {
    if |w| > HISTORY_LIMIT {
      var k := |w| - HISTORY_LIMIT;
      assert LastTen(w) + b == (w + b)[k..];
      LastTenOfSuffix(w + b, k);
    }
  }

  lemma PutHistory(s: Store, value: TagValue, now: nat, id: Uuid)
    requires |HistoryOf(s, id)| <= HISTORY_LIMIT
    ensures HistoryOf(Put(s, value, now), id)
         == LastTen(HistoryOf(s, id) + ForTag(StoredByStep(s, PutStep(value, now)), id))
  {
    assert HistoryOf(s, id) + [] == HistoryOf(s, id);
    assert ForTag([], id) == [];
    if Normalize(value).Some? {
      var stored := Stamped(s, Normalize(value).value, now);
      assert [stored][..0] == [];
      assert ForTag([stored], id) == if stored.tagId == id then [stored] else [];
    }
  }

  lemma HistoryStep(s: Store, step: Step, id: Uuid)
    requires |HistoryOf(s, id)| <= HISTORY_LIMIT
    ensures HistoryOf(Perform(s, step), id) == LastTen(HistoryOf(s, id) + ForTag(StoredByStep(s, step), id))
  {
    if step.PutStep? {
      PutHistory(s, step.value, step.now, id);
    } else {
      assert HistoryOf(s, id) + ForTag([], id) == HistoryOf(s, id);
    }
  }

  lemma LastTenChain(h: seq<TagValue>, a: seq<TagValue>, b: seq<TagValue>)
    ensures LastTen(LastTen(h + a) + b) == LastTen(h + (a + b))
  {
    LastTenAgain(h + a, b);
    assert h + a + b == h + (a + b);
  }

  lemma NothingYet(h: seq<TagValue>)
    requires |h| <= HISTORY_LIMIT
    ensures h == LastTen(h + [])
  {
    assert h + [] == h;
  }

  /** Over every run, the history of a tag is the last ten of what it had and of everything
      stored for it since. */
  lemma {:induction false} HistoryIsLastTen(s: Store, steps: seq<Step>, id: Uuid)
    requires |HistoryOf(s, id)| <= HISTORY_LIMIT
    ensures HistoryOf(Run(s, steps), id) == LastTen(HistoryOf(s, id) + ForTag(StoredBy(s, steps), id))
    ensures var all, kept := HistoryOf(s, id) + ForTag(StoredBy(s, steps), id), HistoryOf(Run(s, steps), id);
            |kept| == (if |all| < 10 then |all| else 10) && kept == all[|all| - |kept|..]
    decreases |steps|, 1
  {
    if steps == [] {
      NothingYet(HistoryOf(s, id));
    } else {
      HistoryAfterLast(s, steps, id);
    }
  }

  lemma {:induction false} HistoryAfterLast(s: Store, steps: seq<Step>, id: Uuid)
    requires |HistoryOf(s, id)| <= HISTORY_LIMIT && steps != []
    ensures HistoryOf(Run(s, steps), id) == LastTen(HistoryOf(s, id) + ForTag(StoredBy(s, steps), id))
    decreases |steps|, 0
  {
    var front, step := steps[..|steps| - 1], steps[|steps| - 1];
    var before, stored := StoredBy(s, front), StoredByStep(Run(s, front), step);
    HistoryIsLastTen(s, front, id);
    HistoryStep(Run(s, front), step, id);
    ForTagConcat(before, stored, id);
    LastTenChain(HistoryOf(s, id), ForTag(before, id), ForTag(stored, id));
  }

  // ---------------------------------------------------------------- replay and stream

  /** The client's picture of the store: a map updated by every value it receives. */
  function ApplyAll(view: Latest, values: seq<TagValue>): Latest {
    if values == [] then view
    else
      var last := values[|values| - 1];
      ApplyAll(view, values[..|values| - 1])[last.tagId := last]
  }

  /** Which tags a list of identifiers asks for: those named, or all when none is. */
  ghost predicate Asked(ids: seq<Uuid>, id: Uuid) {
    (forall x :: x in ids ==> x == NIL) || (id in ids && id != NIL)
  }

  /** The subscription is about exactly the tags asked for. */
  ghost predicate Serves(subscriber: Subscriber, ids: seq<Uuid>) {
    forall id :: subscriber.Matches(id) <==> Asked(ids, id)
  }

  lemma FilterServes(subscriber: Subscriber, ids: seq<Uuid>)
    requires subscriber.filter == FilterOf(ids)
    ensures Serves(subscriber, ids)
  {
    assert subscriber.filter == {} <==> forall x :: x in ids ==> x == NIL by {
      forall x | x in ids && x != NIL ensures x in subscriber.filter {
      }
    }
  }

  /** The part of the latest values that was asked for. */
  ghost function Matching(latest: Latest, ids: seq<Uuid>): Latest {
    map id | id in latest && Asked(ids, id) :: latest[id]
  }

  /** The replay of SubscribeValues: the matching latest values newer than the client's
      last sequence, by sequence. */
  ghost predicate IsReplay(replay: seq<TagValue>, latest: Latest, ids: seq<Uuid>, after: nat) {
    && Increasing(replay)
    && forall v :: v in replay <==>
         v.tagId in latest && latest[v.tagId] == v && Asked(ids, v.tagId) && v.sequence > after
  }

  /** The view is right for every tag asked for and not updated after `after`. */
  ghost predicate CurrentAsOf(view: Latest, latest: Latest, ids: seq<Uuid>, after: nat) {
    && (forall id :: id in view ==> id in latest && Asked(ids, id))
    && (forall id :: id in latest && Asked(ids, id) && latest[id].sequence <= after ==>
          id in view && view[id] == latest[id])
  }

  /** What a later map of latest values may hold for a tag, seen from an earlier one. */
  ghost predicate Evolved(before: Latest, sequence: nat, after: Latest, id: Uuid) {
    && (id in before ==> id in after && (after[id] == before[id] || after[id].sequence > sequence))
    && (id in after && after[id].sequence <= sequence ==> id in before && before[id] == after[id])
  }

  lemma StepEvolves(before: Latest, sequence: nat, s: Store, step: Step, id: Uuid)
    requires Evolved(before, sequence, s.latest, id) && sequence <= s.sequence
    ensures Evolved(before, sequence, Perform(s, step).latest, id)
  {
  }

  /** Later states keep every latest value that was not replaced by a newer one. */
  lemma {:induction false} LatestEvolves(s: Store, steps: seq<Step>, id: Uuid)
    requires Numbered(s)
    ensures Evolved(s.latest, s.sequence, Run(s, steps).latest, id)
  {
    if steps != [] {
      var front := steps[..|steps| - 1];
      LatestEvolves(s, front, id);
      RunKeepsNumbering(s, front);
      StepEvolves(s.latest, s.sequence, Run(s, front), steps[|steps| - 1], id);
    }
  }

  /** A view that was right when the store stood at `after` is still right as of then. */
  lemma EarlierViewIsCurrent(s: Store, steps: seq<Step>, ids: seq<Uuid>)
    requires Numbered(s)
    ensures CurrentAsOf(Matching(s.latest, ids), Run(s, steps).latest, ids, s.sequence)
  {
    var after := Run(s, steps).latest;
    forall id
      ensures id in s.latest ==> id in after
      ensures id in after && after[id].sequence <= s.sequence ==> id in s.latest && s.latest[id] == after[id]
    {
      LatestEvolves(s, steps, id);
    }
  }

  lemma {:induction false} ApplyOthers(view: Latest, values: seq<TagValue>, id: Uuid)
    requires forall i :: 0 <= i < |values| ==> values[i].tagId != id
    ensures id in ApplyAll(view, values) <==> id in view
    ensures id in view ==> ApplyAll(view, values)[id] == view[id]
  {
    if values != [] {
      ApplyOthers(view, values[..|values| - 1], id);
    }
  }

  lemma {:induction false} ApplyLast(view: Latest, values: seq<TagValue>, k: nat)
    requires k < |values| && forall i :: k < i < |values| ==> values[i].tagId != values[k].tagId
    ensures values[k].tagId in ApplyAll(view, values)
    ensures ApplyAll(view, values)[values[k].tagId] == values[k]
  {
    if k < |values| - 1 {
      ApplyLast(view, values[..|values| - 1], k);
    }
  }

  /** The replay brings the client's view up to date. */
  lemma ReplayCatchesUp(view: Latest, replay: seq<TagValue>, latest: Latest, ids: seq<Uuid>, after: nat)
    requires CurrentAsOf(view, latest, ids, after) && IsReplay(replay, latest, ids, after)
    requires forall id :: id in latest ==> latest[id].tagId == id
    ensures ApplyAll(view, replay) == Matching(latest, ids)
  {
    forall id
      ensures id in ApplyAll(view, replay) <==> id in Matching(latest, ids)
      ensures id in Matching(latest, ids) ==> ApplyAll(view, replay)[id] == latest[id]
    {
      forall i | 0 <= i < |replay|
        ensures replay[i].tagId in latest && latest[replay[i].tagId] == replay[i] {
        assert replay[i] in replay;
      }
      if id in latest && Asked(ids, id) && latest[id].sequence > after {
        assert latest[id] in replay;
        var k :| 0 <= k < |replay| && replay[k] == latest[id];
        ApplyLast(view, replay, k);
      } else {
        forall i | 0 <= i < |replay| ensures replay[i].tagId != id {
          assert replay[i] in replay;
        }
        ApplyOthers(view, replay, id);
      }
    }
  }

  lemma {:induction false} ApplyConcat(view: Latest, a: seq<TagValue>, b: seq<TagValue>)
    ensures ApplyAll(view, a + b) == ApplyAll(ApplyAll(view, a), b)
  {
    if b == [] {
      assert a + b == a;
    } else {
      ApplyConcat(view, a, b[..|b| - 1]);
      assert (a + b)[..|a + b| - 1] == a + b[..|b| - 1];
    }
  }

  /** The values of a list whose tags are asked for. */
  ghost function Select(values: seq<TagValue>, ids: seq<Uuid>): seq<TagValue> {
    if values == [] then []
    else
      var last := values[|values| - 1];
      Select(values[..|values| - 1], ids) + if Asked(ids, last.tagId) then [last] else []
  }

  lemma {:induction false} SelectConcat(a: seq<TagValue>, b: seq<TagValue>, ids: seq<Uuid>)
    ensures Select(a + b, ids) == Select(a, ids) + Select(b, ids)
  {
    if b == [] {
      assert a + b == a;
    } else {
      SelectConcat(a, b[..|b| - 1], ids);
      assert (a + b)[..|a + b| - 1] == a + b[..|b| - 1];
    }
  }

  /** What an open stream has carried since the subscription: every stored value asked for, in
      order, of which the newest are still in its buffer. */
  ghost predicate Carries(subscriber: Subscriber, original: Subscriber, ids: seq<Uuid>, stored: seq<TagValue>) {
    && Serves(subscriber, ids) && 0 < subscriber.capacity == original.capacity
    && subscriber.disconnectOnLag == original.disconnectOnLag
    && subscriber.sent == original.sent + Select(stored, ids)
    && IsTail(subscriber.buffer, subscriber.sent) && |subscriber.buffer| <= subscriber.capacity
  }

  ghost predicate IsTail(buffer: seq<TagValue>, sent: seq<TagValue>) {
    |buffer| <= |sent| && buffer == sent[|sent| - |buffer|..]
  }

  lemma SelectOne(value: TagValue, ids: seq<Uuid>)
    ensures Select([value], ids) == if Asked(ids, value.tagId) then [value] else []
  {
    assert [value][..0] == [];
  }

  lemma SelectAppend(stored: seq<TagValue>, value: TagValue, ids: seq<Uuid>)
    ensures Select(stored + [value], ids) ==
              if Asked(ids, value.tagId) then Select(stored, ids) + [value]
              else Select(stored, ids)
  {
    SelectConcat(stored, [value], ids);
    SelectOne(value, ids);
    assert Select(stored, ids) + [] == Select(stored, ids);
  }

  lemma OfferKeepsCarrying(subscriber: Subscriber, original: Subscriber, ids: seq<Uuid>, stored: seq<TagValue>,
                           value: TagValue)
    requires Carries(subscriber, original, ids, stored) && StaysOpen(subscriber, value)
    ensures Carries(AfterOffer(subscriber, value), original, ids, stored + [value])
  {
    SelectAppend(stored, value, ids);
    assert subscriber.Matches(value.tagId) <==> Asked(ids, value.tagId);
    if subscriber.Matches(value.tagId) {
      AppendToBoth(original.sent, Select(stored, ids), value);
      OfferAppends(subscriber, value);
      SameFilterServes(subscriber, subscriber.Offer(value).value, ids);
    } else {
      assert AfterOffer(subscriber, value) == subscriber;
    }
  }

  /** An offered value is sent; with no room left it takes the place of the oldest one in the
      buffer. */
  lemma OfferAppends(subscriber: Subscriber, value: TagValue)
    requires IsTail(subscriber.buffer, subscriber.sent) && |subscriber.buffer| <= subscriber.capacity
    requires subscriber.capacity > 0
    ensures subscriber.Offer(value).None? <==>
              subscriber.disconnectOnLag && |subscriber.buffer| == subscriber.capacity
    ensures subscriber.Offer(value).Some? ==>
              var after := subscriber.Offer(value).value;
              && after == subscriber.(buffer := after.buffer, sent := subscriber.sent + [value])
              && IsTail(after.buffer, after.sent)
              && |after.buffer| == if |subscriber.buffer| < subscriber.capacity then |subscriber.buffer| + 1
                                   else subscriber.capacity
  {
    AppendToTail(subscriber.buffer, subscriber.sent, value);
    if |subscriber.buffer| == subscriber.capacity {
      TakeFromTail(subscriber.buffer + [value], subscriber.sent + [value]);
      assert (subscriber.buffer + [value])[1..] == subscriber.buffer[1..] + [value];
    }
  }

  lemma SameFilterServes(subscriber: Subscriber, after: Subscriber, ids: seq<Uuid>)
    requires Serves(subscriber, ids) && after.filter == subscriber.filter
    ensures Serves(after, ids)
  {
    forall id ensures after.Matches(id) <==> Asked(ids, id) {
      assert subscriber.Matches(id) <==> Asked(ids, id);
    }
  }

  lemma AppendToTail(buffer: seq<TagValue>, sent: seq<TagValue>, value: TagValue)
    requires IsTail(buffer, sent)
    ensures IsTail(buffer + [value], sent + [value])
  {
  }

  lemma TakeFromTail(buffer: seq<TagValue>, sent: seq<TagValue>)
    requires IsTail(buffer, sent) && buffer != []
    ensures IsTail(buffer[1..], sent)
  {
  }

  lemma AppendToBoth(a: seq<TagValue>, b: seq<TagValue>, value: TagValue)
    ensures a + b + [value] == a + (b + [value])
  {
  }

  lemma StepKeepsCarrying(s: Store, step: Step, k: nat, original: Subscriber, ids: seq<Uuid>, stored: seq<TagValue>)
    requires Numbered(s) && k in s.subscribers && k in Perform(s, step).subscribers
    requires Carries(s.subscribers[k], original, ids, stored)
    ensures Carries(Perform(s, step).subscribers[k], original, ids, stored + StoredByStep(s, step))
  {
    if step.PutStep? && Normalize(step.value).Some? {
      OfferKeepsCarrying(s.subscribers[k], original, ids, stored,
                         Stamped(s, Normalize(step.value).value, step.now));
    } else {
      assert stored + [] == stored;
      StillCarries(s.subscribers[k], Perform(s, step).subscribers[k], original, ids, stored);
    }
  }

  /** The client may have taken a value; nothing else has changed. */
  lemma StillCarries(subscriber: Subscriber, after: Subscriber, original: Subscriber, ids: seq<Uuid>,
                     stored: seq<TagValue>)
    requires Carries(subscriber, original, ids, stored)
    requires after == subscriber
             || (subscriber.buffer != [] && after == subscriber.(buffer := subscriber.buffer[1..]))
    ensures Carries(after, original, ids, stored)
  {
    if after != subscriber {
      TakeFromTail(subscriber.buffer, subscriber.sent);
      SameFilterServes(subscriber, after, ids);
    }
  }

  /** Once closed, a subscription number is never open again. */
  lemma StepReopensNothing(s: Store, step: Step, k: nat)
    requires k <= s.nextSubscriber && k in Perform(s, step).subscribers
    ensures k in s.subscribers
  {
  }

  /** A subscription is closed only by its own end, or for lag: when a value asked for finds
      no room in its buffer. */
  lemma StepClosesForLag(s: Store, step: Step, k: nat, ids: seq<Uuid>)
    requires k in s.subscribers && k <= s.nextSubscriber && Serves(s.subscribers[k], ids)
    ensures k !in Perform(s, step).subscribers <==>
              || step == UnsubscribeStep(k)
              || (&& s.subscribers[k].disconnectOnLag && |s.subscribers[k].buffer| >= s.subscribers[k].capacity
                  && exists v :: v in StoredByStep(s, step) && Asked(ids, v.tagId))
  {
    if step.PutStep? && Normalize(step.value).Some? {
      var stored := Stamped(s, Normalize(step.value).value, step.now);
      assert StoredByStep(s, step) == [stored];
      assert s.subscribers[k].Matches(stored.tagId) <==> Asked(ids, stored.tagId);
      assert stored in StoredByStep(s, step);
    } else {
      assert StoredByStep(s, step) == [];
    }
  }

  lemma {:induction false} RunCarries(s: Store, steps: seq<Step>, k: nat, ids: seq<Uuid>)
    requires Numbered(s) && k in s.subscribers && k in Run(s, steps).subscribers
    requires Carries(s.subscribers[k], s.subscribers[k], ids, [])
    ensures Carries(Run(s, steps).subscribers[k], s.subscribers[k], ids, StoredBy(s, steps))
  {
    if steps != [] {
      var front, step := steps[..|steps| - 1], steps[|steps| - 1];
      NumbersGrow(s, front);
      RunKeepsNumbering(s, front);
      StepReopensNothing(Run(s, front), step, k);
      RunCarries(s, front, k, ids);
      StepKeepsCarrying(Run(s, front), step, k, s.subscribers[k], ids, StoredBy(s, front));
    }
  }

  lemma {:induction false} NumbersGrow(s: Store, steps: seq<Step>)
    ensures s.nextSubscriber <= Run(s, steps).nextSubscriber
  {
    if steps != [] {
      NumbersGrow(s, steps[..|steps| - 1]);
    }
  }

  lemma StepLatest(s: Store, step: Step)
    ensures Perform(s, step).latest == ApplyAll(s.latest, StoredByStep(s, step))
  {
    var stored := StoredByStep(s, step);
    if stored != [] {
      assert stored[..0] == [];
    }
  }

  /** The latest values after a run are those before it, updated by everything stored. */
  lemma {:induction false} LatestIsApplied(s: Store, steps: seq<Step>)
    ensures Run(s, steps).latest == ApplyAll(s.latest, StoredBy(s, steps))
  {
    if steps != [] {
      var front, step := steps[..|steps| - 1], steps[|steps| - 1];
      var before, stored := StoredBy(s, front), StoredByStep(Run(s, front), step);
      LatestIsApplied(s, front);
      StepLatest(Run(s, front), step);
      ApplyConcat(s.latest, before, stored);
    }
  }

  lemma {:induction false} MatchingIsApplied(latest: Latest, values: seq<TagValue>, ids: seq<Uuid>)
    ensures Matching(ApplyAll(latest, values), ids)
         == ApplyAll(Matching(latest, ids), Select(values, ids))
  {
    if values != [] {
      var front, last := values[..|values| - 1], values[|values| - 1];
      MatchingIsApplied(latest, front, ids);
      MatchingUpdate(ApplyAll(latest, front), last, ids);
      if Asked(ids, last.tagId) {
        ApplyConcat(Matching(latest, ids), Select(front, ids), [last]);
        ApplyOne(Matching(ApplyAll(latest, front), ids), last);
      } else {
        assert Select(values, ids) == Select(front, ids);
      }
    }
  }

  lemma ApplyOne(view: Latest, value: TagValue)
    ensures ApplyAll(view, [value]) == view[value.tagId := value]
  {
    assert [value][..0] == [];
  }

  lemma MatchingUpdate(latest: Latest, value: TagValue, ids: seq<Uuid>)
    ensures Matching(latest[value.tagId := value], ids) ==
              if Asked(ids, value.tagId) then Matching(latest, ids)[value.tagId := value]
              else Matching(latest, ids)
  {
  }

  lemma IncreasingAppend(a: seq<TagValue>, b: seq<TagValue>, bound: nat)
    requires Increasing(a) && Increasing(b)
    requires (forall v :: v in a ==> v.sequence <= bound) && (forall v :: v in b ==> v.sequence > bound)
    ensures Increasing(a + b)
  {
    forall i, j | 0 <= i < j < |a + b| ensures (a + b)[i].sequence < (a + b)[j].sequence {
      if i < |a| <= j {
        assert a[i] in a && b[j - |a|] in b;
      }
    }
  }

  /** Stored values are numbered in order, above everything stored before. */
  lemma {:induction false} StoredIncreases(s: Store, steps: seq<Step>)
    requires Numbered(s)
    ensures Increasing(StoredBy(s, steps))
    ensures forall v :: v in StoredBy(s, steps) ==> s.sequence < v.sequence <= Run(s, steps).sequence
  {
    if steps != [] {
      var front, step := steps[..|steps| - 1], steps[|steps| - 1];
      StoredIncreases(s, front);
      RunKeepsNumbering(s, front);
      StepKeepsNumbering(Run(s, front), step);
      IncreasingAppend(StoredBy(s, front), StoredByStep(Run(s, front), step), Run(s, front).sequence);
    }
  }

  lemma {:induction false} SelectIncreases(values: seq<TagValue>, ids: seq<Uuid>)
    requires Increasing(values)
    ensures Increasing(Select(values, ids))
    ensures forall v :: v in Select(values, ids) ==> v in values
  {
    if values != [] {
      var front, last := values[..|values| - 1], values[|values| - 1];
      SelectIncreases(front, ids);
      assert forall v :: v in front ==> v.sequence < last.sequence;
    }
  }

  /** The latest values of the listed tags that have one, in the order of the list. */
  function LatestIn(latest: Latest, order: seq<Uuid>): seq<TagValue> {
    if order == [] then []
    else
      var id := order[|order| - 1];
      LatestIn(latest, order[..|order| - 1]) + if id in latest then [latest[id]] else []
  }

  /** Exactly the latest values of the listed tags, one for each. */
  lemma {:induction false} LatestInIs(latest: Latest, order: seq<Uuid>)
    requires forall id :: id in latest ==> latest[id].tagId == id
    ensures forall v :: v in LatestIn(latest, order) <==>
              v.tagId in order && v.tagId in latest && latest[v.tagId] == v
  {
    if order != [] {
      var front, last := order[..|order| - 1], order[|order| - 1];
      LatestInIs(latest, front);
      assert order == front + [last];
    }
  }

  lemma {:induction false} OfferAllSends(subscriber: Subscriber, latest: Latest, order: seq<Uuid>)
    requires subscriber.capacity > 0 && !subscriber.disconnectOnLag && subscriber.buffer == subscriber.sent == []
    ensures var after := OfferAll(subscriber, latest, order);
            && after == subscriber.(buffer := after.buffer, sent := LatestIn(latest, order))
            && IsTail(after.buffer, after.sent) && |after.buffer| <= after.capacity
  {
    if order != [] {
      var front, id := order[..|order| - 1], order[|order| - 1];
      OfferAllSends(subscriber, latest, front);
      if id in latest {
        OfferAppends(OfferAll(subscriber, latest, front), latest[id]);
      } else {
        assert LatestIn(latest, front) + [] == LatestIn(latest, front);
      }
    }
  }

  /** A run without the end of a subscription. */
  predicate Keeps(steps: seq<Step>, k: nat) {
    forall i :: 0 <= i < |steps| ==> steps[i] != UnsubscribeStep(k)
  }

  lemma {:induction false} StaysWithoutLag(s: Store, steps: seq<Step>, k: nat, ids: seq<Uuid>)
    requires Numbered(s) && k in s.subscribers && !s.subscribers[k].disconnectOnLag && Keeps(steps, k)
    requires Carries(s.subscribers[k], s.subscribers[k], ids, [])
    ensures k in Run(s, steps).subscribers
    ensures Carries(Run(s, steps).subscribers[k], s.subscribers[k], ids, StoredBy(s, steps))
  {
    if steps != [] {
      var front, step := steps[..|steps| - 1], steps[|steps| - 1];
      assert forall i :: 0 <= i < |front| ==> front[i] == steps[i];
      StaysWithoutLag(s, front, k, ids);
      NumbersGrow(s, front);
      RunKeepsNumbering(s, front);
      StepClosesForLag(Run(s, front), step, k, ids);
      StepKeepsCarrying(Run(s, front), step, k, s.subscribers[k], ids, StoredBy(s, front));
    }
  }

  lemma LatestSubscriptionServes(s: Store, ids: seq<Uuid>, order: seq<Uuid>)
    ensures var t := SubscribeLatest(s, ids, order);
            var subscriber := t.subscribers[t.nextSubscriber];
            && Carries(subscriber, subscriber, ids, []) && subscriber.sent == LatestIn(s.latest, order)
            && !subscriber.disconnectOnLag && subscriber.capacity == 11
  {
    var t := SubscribeLatest(s, ids, order);
    OfferAllSends(Subscriber(FilterOf(ids), HISTORY_LIMIT + 1, false, [], []), s.latest, order);
    FilterServes(t.subscribers[t.nextSubscriber], ids);
    assert t.subscribers[t.nextSubscriber].sent + [] == t.subscribers[t.nextSubscriber].sent;
  }

  /** The other kind of subscription is never closed for lag. It is sent the latest values of
      the tags it names, in some order, and then every stored value asked for; what it has not
      taken of the newest ones, up to eleven, is in its buffer. */
  lemma LatestThenStream(s: Store, ids: seq<Uuid>, order: seq<Uuid>, steps: seq<Step>)
    requires Numbered(s) && Keeps(steps, s.nextSubscriber + 1)
    requires Distinct(order) && forall id :: id in order <==> id in ids && id != NIL
    ensures forall v :: v in LatestIn(s.latest, order) <==>
              v.tagId in ids && v.tagId != NIL && v.tagId in s.latest && s.latest[v.tagId] == v
    ensures var t := SubscribeLatest(s, ids, order);
            var k, end := t.nextSubscriber, Run(t, steps);
            && k in end.subscribers
            && end.subscribers[k].sent == LatestIn(s.latest, order) + Select(StoredBy(t, steps), ids)
            && IsTail(end.subscribers[k].buffer, end.subscribers[k].sent)
            && |end.subscribers[k].buffer| <= 11
  {
    LatestInIs(s.latest, order);
    LatestIsCarried(s, ids, order, steps);
  }

  lemma LatestIsCarried(s: Store, ids: seq<Uuid>, order: seq<Uuid>, steps: seq<Step>)
    requires Numbered(s) && Keeps(steps, s.nextSubscriber + 1)
    ensures var t := SubscribeLatest(s, ids, order);
            var k, end := t.nextSubscriber, Run(t, steps);
            && k in end.subscribers
            && end.subscribers[k].sent == LatestIn(s.latest, order) + Select(StoredBy(t, steps), ids)
            && IsTail(end.subscribers[k].buffer, end.subscribers[k].sent)
            && |end.subscribers[k].buffer| <= 11
  {
    StepKeepsNumbering(s, SubscribeLatestStep(ids, order));
    LatestSubscriptionServes(s, ids, order);
    var t := SubscribeLatest(s, ids, order);
    StaysWithoutLag(t, steps, t.nextSubscriber, ids);
  }

  lemma NewSubscriptionServes(s: Store, ids: seq<Uuid>)
    requires Numbered(s)
    ensures var t := SubscribeValues(s, ids);
            && Serves(t.subscribers[t.nextSubscriber], ids)
            && Carries(t.subscribers[t.nextSubscriber], t.subscribers[t.nextSubscriber], ids, [])
            && t.subscribers[t.nextSubscriber].sent == []
  {
    var t := SubscribeValues(s, ids);
    FilterServes(t.subscribers[t.nextSubscriber], ids);
  }

  /** The central promise of replay and stream. A client whose view of the tags it asks for is
      right as of `after` subscribes with that sequence in state s. While its stream stays
      open, through any run of calls, the replay followed by everything sent gives exactly the
      latest values asked for, and the sequences it sees strictly increase above `after`;
      what is sent is exactly what is stored of the tags asked for, in order. */
  lemma ReplayThenStream(s: Store, ids: seq<Uuid>, after: nat, view: Latest, replay: seq<TagValue>, steps: seq<Step>)
    requires Numbered(s) && after <= s.sequence
    requires CurrentAsOf(view, s.latest, ids, after) && IsReplay(replay, s.latest, ids, after)
    requires var t := SubscribeValues(s, ids); t.nextSubscriber in Run(t, steps).subscribers
    ensures var t := SubscribeValues(s, ids);
            var k, end := t.nextSubscriber, Run(t, steps);
            && ApplyAll(view, replay + end.subscribers[k].sent) == Matching(end.latest, ids)
            && Increasing(replay + end.subscribers[k].sent)
            && (forall v :: v in replay + end.subscribers[k].sent ==> v.sequence > after)
            && end.subscribers[k].sent == Select(StoredBy(t, steps), ids)
  {
    var t := SubscribeValues(s, ids);
    var k, stored := t.nextSubscriber, StoredBy(t, steps);
    StepKeepsNumbering(s, SubscribeValuesStep(ids));
    NewSubscriptionServes(s, ids);
    RunCarries(t, steps, k, ids);
    var sent := Run(t, steps).subscribers[k].sent;
    assert sent == [] + Select(stored, ids) == Select(stored, ids);
    assert ApplyAll(view, replay + sent) == Matching(Run(t, steps).latest, ids) by {
      ReplayCatchesUp(view, replay, s.latest, ids, after);
      LatestIsApplied(t, steps);
      MatchingIsApplied(t.latest, stored, ids);
      ApplyConcat(view, replay, sent);
    }
    StoredIncreases(t, steps);
    SelectIncreases(stored, ids);
    IncreasingAppend(replay, sent, s.sequence);
  }
}
