/** The value store as it runs: an object whose maps every call updates in place, each
    method proved to take the corresponding step of the state machine in ValueStore. */
module MemoryValueStore {
  import opened Identifiers
  import opened TagValues
  import V = ValueStore

  datatype PutResult = Stored(value: TagValue) | Invalid

  datatype RestoreResult = Restored | InvalidRestore | StoreInUse

  predicate Restorable(v: TagValue) {
    Normalize(v).Some? && v.sequence != 0 && v.storedAt != 0
  }

  function TagIds(values: seq<TagValue>): (r: seq<Uuid>)
    ensures |r| == |values| && forall i :: 0 <= i < |r| ==> r[i] == values[i].tagId
  {
    seq(|values|, i requires 0 <= i < |values| => values[i].tagId)
  }

  ghost predicate AllRestorable(values: seq<TagValue>) {
    (forall v :: v in values ==> Restorable(v)) && Distinct(TagIds(values))
  }

  /** Exactly valid, numbered and stamped values of different tags can be restored. */
  lemma RestorableInFull(values: seq<TagValue>)
    ensures AllRestorable(values) <==>
              && (forall i :: 0 <= i < |values| ==>
                    values[i].sequence > 0 && values[i].storedAt != 0 && Normalize(values[i]).Some?)
              && (forall i, j :: 0 <= i < j < |values| ==> values[i].tagId != values[j].tagId)
  {
    assert forall i :: 0 <= i < |values| ==> values[i] in values;
    assert forall i, j :: 0 <= i < j < |values| ==>
        (TagIds(values)[i] != TagIds(values)[j] <==> values[i].tagId != values[j].tagId);
  }

  function FileValue(s: V.Store, value: TagValue): V.Store {
    s.(latest := s.latest[value.tagId := value],
       history := s.history[value.tagId := [value]],
       sequence := if value.sequence > s.sequence then value.sequence else s.sequence)
  }

  /** A fresh store into which the normalised values were filed one after the other. */
  function Restoration(values: seq<TagValue>): V.Store
    requires forall v :: v in values ==> Restorable(v)
  {
    if values == [] then V.EMPTY
    else
      var last := values[|values| - 1];
      assert Restorable(last);
      FileValue(Restoration(values[..|values| - 1]), Normalize(last).value)
  }

  ghost predicate Listed(values: seq<TagValue>, id: Uuid, sequence: nat) {
    exists i :: 0 <= i < |values| && values[i].tagId == id && values[i].sequence == sequence
  }

  ghost predicate Files(s: V.Store, value: TagValue) {
    value.tagId in s.latest && Normalize(value) == Some(s.latest[value.tagId])
  }

  /** Each value is the latest and the only one in the history of its tag, and there are no others. */
  ghost predicate FilesAll(s: V.Store, values: seq<TagValue>) {
    && s.history.Keys == s.latest.Keys && (forall id :: id in s.history ==> s.history[id] == [s.latest[id]])
    && (forall i :: 0 <= i < |values| ==> Files(s, values[i]))
    && (forall id :: id in s.latest ==> Listed(values, id, s.latest[id].sequence))
  }

  lemma ListedAmongMore(values: seq<TagValue>, last: TagValue, id: Uuid, sequence: nat)
    requires Listed(values, id, sequence) || (last.tagId == id && last.sequence == sequence)
    ensures Listed(values + [last], id, sequence)
  {
    var all := values + [last];
    if Listed(values, id, sequence) {
      var i :| 0 <= i < |values| && values[i].tagId == id && values[i].sequence == sequence;
      assert all[i] == values[i];
    } else {
      assert all[|values|] == last;
    }
  }

  lemma FileKeepsAll(s: V.Store, values: seq<TagValue>, last: TagValue)
    requires FilesAll(s, values) && Restorable(last)
    requires forall i :: 0 <= i < |values| ==> values[i].tagId != last.tagId
    ensures FilesAll(FileValue(s, Normalize(last).value), values + [last])
  {
    var t, all := FileValue(s, Normalize(last).value), values + [last];
    forall id | id in t.latest ensures Listed(all, id, t.latest[id].sequence) {
      ListedAmongMore(values, last, id, t.latest[id].sequence);
    }
    forall i | 0 <= i < |all| ensures Files(t, all[i]) {
      assert i < |values| ==> all[i] == values[i] && Files(s, values[i]);
    }
  }

  ghost predicate DistinctSequences(values: seq<TagValue>) {
    forall i, j :: 0 <= i < j < |values| ==> values[i].sequence != values[j].sequence
  }

  lemma FileKeepsNumbering(s: V.Store, values: seq<TagValue>, value: TagValue)
    requires V.Numbered(s) && FilesAll(s, values) && value.tagId !in s.latest
    requires forall i :: 0 <= i < |values| ==> values[i].sequence != value.sequence
    ensures V.Numbered(FileValue(s, value))
  {
    forall id | id in s.latest ensures s.latest[id].sequence != value.sequence {
      assert Listed(values, id, s.latest[id].sequence);
    }
    FileApart(s, value);
  }

  lemma NotYetFiled(s: V.Store, values: seq<TagValue>, id: Uuid)
    requires FilesAll(s, values) && forall i :: 0 <= i < |values| ==> values[i].tagId != id
    ensures id !in s.latest
  {
    assert id in s.latest ==> Listed(values, id, s.latest[id].sequence);
  }

  lemma FileApart(s: V.Store, value: TagValue)
    requires V.Numbered(s) && value.tagId !in s.latest
    requires forall id :: id in s.latest ==> s.latest[id].sequence != value.sequence
    ensures V.Numbered(FileValue(s, value))
  {
  }

  lemma ApartFromFront(front: seq<TagValue>, last: TagValue)
    requires AllRestorable(front + [last]) && DistinctSequences(front + [last])
    ensures AllRestorable(front) && DistinctSequences(front) && Restorable(last)
    ensures forall i :: 0 <= i < |front| ==> front[i].tagId != last.tagId && front[i].sequence != last.sequence
  {
    var values := front + [last];
    assert forall i :: 0 <= i < |front| ==> values[i] == front[i] && TagIds(values)[i] == TagIds(front)[i];
    assert values[|front|] == last && TagIds(values)[|front|] == last.tagId;
    assert last in values;
    assert forall v :: v in front ==> v in values;
    assert TagIds(values) == TagIds(front) + [last.tagId];
    DistinctFront(TagIds(front), last.tagId);
  }

  lemma DistinctFront(front: seq<Uuid>, last: Uuid)
    requires Distinct(front + [last])
    ensures Distinct(front) && forall i :: 0 <= i < |front| ==> front[i] != last
  {
    var all := front + [last];
    assert forall i :: 0 <= i < |front| ==> all[i] == front[i];
    assert all[|front|] == last;
  }

  lemma FilingRecords(s: V.Store, values: seq<TagValue>)
    requires FilesAll(s, values)
    ensures V.HistoriesRecord(s)
  {
  }

  /** Filing makes every value latest value and history of its tag and starts the
      numbering at the highest sequence; with distinct sequences what the later promises
      of the store rest on holds from the start. */
  lemma RestorationIsNumbered(values: seq<TagValue>)
    requires AllRestorable(values)
    requires DistinctSequences(values)
    ensures V.Numbered(Restoration(values)) && Restoration(values).subscribers == map[]
    ensures FilesAll(Restoration(values), values) && V.HistoriesRecord(Restoration(values))
  {
    FiledInTurn(values);
    FilingRecords(Restoration(values), values);
  }

  lemma {:induction false} FiledInTurn(values: seq<TagValue>)
    requires AllRestorable(values)
    requires DistinctSequences(values)
    ensures V.Numbered(Restoration(values)) && Restoration(values).subscribers == map[]
    ensures FilesAll(Restoration(values), values)
  {
    if values != [] {
      var front, last := values[..|values| - 1], values[|values| - 1];
      assert values == front + [last];
      ApartFromFront(front, last);
      FiledInTurn(front);
      FileKeepsAll(Restoration(front), front, last);
      NotYetFiled(Restoration(front), front, last.tagId);
      FileKeepsNumbering(Restoration(front), front, Normalize(last).value);
    }
  }

  lemma RefusedAt(values: seq<TagValue>, i: nat, k: nat)
    requires k <= i < |values| && (!Restorable(values[i]) || (k < i && values[k].tagId == values[i].tagId))
    ensures !AllRestorable(values)
  {
    assert values[i] in values;
    assert TagIds(values)[k] == values[k].tagId && TagIds(values)[i] == values[i].tagId;
  }

  /** The checks of RestoreLatest, value by value. */
  method CheckRestorable(values: seq<TagValue>) returns (valid: bool)
    ensures valid <==> AllRestorable(values)
  {
    var seen: set<Uuid> := {};
    for i := 0 to |values|
      invariant forall k :: 0 <= k < i ==> Restorable(values[k]) && values[k].tagId in seen
      invariant forall id :: id in seen ==> exists k :: 0 <= k < i && values[k].tagId == id
      invariant forall j, k :: 0 <= j < k < i ==> values[j].tagId != values[k].tagId
    {
      if !Restorable(values[i]) {
        RefusedAt(values, i, i);
        return false;
      }
      var id := values[i].tagId;
      if id in seen {
        ghost var k :| 0 <= k < i && values[k].tagId == id;
        RefusedAt(values, i, k);
        return false;
      }
      seen := seen + {id};
    }
    return true;
  }

  type Subscribers = map<nat, V.Subscriber>

  /** The subscriptions once a value was offered to all of them but those in `todo`. */
  ghost predicate OfferedExcept(before: Subscribers, now: Subscribers, todo: set<nat>, stored: TagValue) {
    && todo <= now.Keys <= before.Keys
    && (forall k :: k in todo ==> now[k] == before[k])
    && (forall k :: k in before && k !in todo ==> (k in now <==> V.StaysOpen(before[k], stored)))
    && (forall k :: k in now && k !in todo ==>
          V.StaysOpen(before[k], stored) && now[k] == V.AfterOffer(before[k], stored))
  }

  lemma OfferNext(before: Subscribers, now: Subscribers, todo: set<nat>, k: nat, stored: TagValue)
    requires OfferedExcept(before, now, todo, stored) && k in todo
    ensures var next := if !V.StaysOpen(now[k], stored) then now - {k}
                        else if now[k].Matches(stored.tagId) then now[k := V.AfterOffer(now[k], stored)]
                        else now;
            OfferedExcept(before, next, todo - {k}, stored)
  {
  }

  lemma OfferedToAll(before: Subscribers, now: Subscribers, stored: TagValue)
    requires OfferedExcept(before, now, {}, stored)
    ensures now == map k | k in before && V.StaysOpen(before[k], stored) :: V.AfterOffer(before[k], stored)
  {
  }

  class Store {
    var sequence: nat
    var latest: map<Uuid, TagValue>
    var history: map<Uuid, seq<TagValue>>
    var subscribers: map<nat, V.Subscriber>
    var nextSubscriber: nat

    function State(): V.Store
      reads this
    {
      V.Store(sequence, latest, history, subscribers, nextSubscriber)
    }

    constructor ()
      ensures State() == V.EMPTY
    {
      sequence, latest, history := 0, map[], map[];
      subscribers, nextSubscriber := map[], 0;
    }

    /** Subscriptions are visited in an arbitrary order. */
    method Put(value: TagValue, now: nat) returns (result: PutResult)
      modifies this
      ensures State() == V.Put(old(State()), value, now)
      ensures result == (match Normalize(value)
                         case None => Invalid
                         case Some(n) => Stored(V.Stamped(old(State()), n, now)))
      ensures result == Invalid ==> State() == old(State())
      ensures result.Stored? ==>
                && sequence == old(sequence) + 1 && result.value.sequence == sequence
                && result.value.storedAt == now && result.value.tagId == value.tagId
                && latest == old(latest)[value.tagId := result.value]
    {
      var normalized := Normalize(value);
      if normalized.None? {
        return Invalid;
      }
      sequence := sequence + 1;
      var stored := normalized.value.(sequence := sequence, storedAt := now);
      var before := V.HistoryOf(State(), stored.tagId);
      latest := latest[stored.tagId := stored];
      history := history[stored.tagId := V.LastTen(before + [stored])];
      OfferToSubscribers(stored);
      return Stored(stored);
    }

    method OfferToSubscribers(stored: TagValue)
      modifies this`subscribers
      ensures subscribers ==
                map k | k in old(subscribers) && V.StaysOpen(old(subscribers)[k], stored) ::
                  V.AfterOffer(old(subscribers)[k], stored)
    {
      var todo := subscribers.Keys;
      while todo != {}
        invariant OfferedExcept(old(subscribers), subscribers, todo, stored)
        decreases todo
      {
        var k :| k in todo;
        OfferNext(old(subscribers), subscribers, todo, k, stored);
        todo := todo - {k};
        var subscriber := subscribers[k];
        if subscriber.Matches(stored.tagId) {
          var offered := subscriber.Offer(stored);
          if offered.None? {
            subscribers := subscribers - {k};
          } else {
            subscribers := subscribers[k := offered.value];
          }
        }
      }
      OfferedToAll(old(subscribers), subscribers, stored);
    }

    /** Restoring needs valid, numbered values of distinct tags and an unused store; any
        other call changes nothing. */
    method RestoreLatest(values: seq<TagValue>) returns (result: RestoreResult)
      modifies this
      ensures result == InvalidRestore <==> !AllRestorable(values)
      ensures result == Restored ==>
                && (forall i :: 0 <= i < |values| ==>
                      values[i].sequence > 0 && values[i].storedAt != 0 && Normalize(values[i]).Some?)
                && (forall i, j :: 0 <= i < j < |values| ==> values[i].tagId != values[j].tagId)
      ensures result == StoreInUse ==>
                old(sequence) != 0 || old(latest) != map[] || old(history) != map[]
      ensures result != Restored ==> State() == old(State())
      ensures result == Restored ==>
                && old(sequence) == 0 && old(latest) == map[] && old(history) == map[]
                && State() == Restoration(values).(subscribers := old(subscribers),
                                                   nextSubscriber := old(nextSubscriber))
    {
      var valid := CheckRestorable(values);
      if !valid {
        return InvalidRestore;
      }
      if sequence != 0 || latest != map[] || history != map[] {
        return StoreInUse;
      }
      assert forall i :: 0 <= i < |values| ==> values[i] in values;
      for i := 0 to |values|
        invariant State() == Restoration(values[..i]).(subscribers := old(subscribers),
                                                       nextSubscriber := old(nextSubscriber))
      {
        assert values[..i + 1][..i] == values[..i];
        assert Restorable(values[i]);
        var value := Normalize(values[i]).value;
        latest := latest[value.tagId := value];
        history := history[value.tagId := [value]];
        if value.sequence > sequence {
          sequence := value.sequence;
        }
      }
      assert values[..|values|] == values;
      RestorableInFull(values);
      return Restored;
    }

    /** A subscription disconnected on lag, with the replay sorted by sequence. */
    method SubscribeValues(ids: seq<Uuid>, after: nat) returns (k: nat, replay: seq<TagValue>)
      requires V.Numbered(State())
      modifies this
      ensures State() == V.SubscribeValues(old(State()), ids) && k == nextSubscriber
      ensures V.IsReplay(replay, latest, ids, after)
    {
      nextSubscriber := nextSubscriber + 1;
      k := nextSubscriber;
      var subscriber := V.Subscriber(V.FilterOf(ids), V.EVENT_BUFFER, true, [], []);
      subscribers := subscribers[k := subscriber];
      replay := [];
      var todo := latest.Keys;
      while todo != {}
        invariant State() == V.SubscribeValues(old(State()), ids)
        invariant todo <= latest.Keys && V.Increasing(replay)
        invariant forall v :: v in replay <==>
                    v.tagId in latest && latest[v.tagId] == v && subscriber.Matches(v.tagId)
                    && v.sequence > after && v.tagId !in todo
        decreases todo
      {
        var id :| id in todo;
        todo := todo - {id};
        if latest[id].sequence > after && subscriber.Matches(id) {
          replay := InsertBySequence(replay, latest[id]);
        }
      }
      V.FilterServes(subscriber, ids);
      forall v ensures v in replay <==>
                         v.tagId in latest && latest[v.tagId] == v && V.Asked(ids, v.tagId) && v.sequence > after {
        assert subscriber.Matches(v.tagId) <==> V.Asked(ids, v.tagId);
      }
    }

    method Unsubscribe(k: nat)
      modifies this`subscribers
      ensures State() == V.Unsubscribe(old(State()), k)
    {
      subscribers := subscribers - {k};
    }

    method Latest(id: Uuid) returns (value: Option<TagValue>)
      ensures value == if id in latest then Some(latest[id]) else None
    {
      if id in latest {
        return Some(latest[id]);
      }
      return None;
    }

    /** The newest values of a tag, at most the given number when that is in range. */
    method History(id: Uuid, limit: int) returns (values: seq<TagValue>)
      requires |V.HistoryOf(State(), id)| <= V.HISTORY_LIMIT
      ensures var stored := V.HistoryOf(State(), id);
              && |values| == (if 0 < limit <= V.HISTORY_LIMIT && limit < |stored| then limit else |stored|)
              && values == stored[|stored| - |values|..]
    {
      var most := if limit <= 0 || limit > V.HISTORY_LIMIT then V.HISTORY_LIMIT else limit;
      values := V.HistoryOf(State(), id);
      if |values| > most {
        values := values[|values| - most..];
      }
    }
  }

  lemma InsertedIncreases(a: seq<TagValue>, value: TagValue, b: seq<TagValue>)
    requires V.Increasing(a + b)
    requires forall v :: v in a ==> v.sequence < value.sequence
    requires forall v :: v in b ==> value.sequence < v.sequence
    ensures V.Increasing(a + [value] + b)
  {
    var s, r := a + b, a + [value] + b;
    forall i, j | 0 <= i < j < |r| ensures r[i].sequence < r[j].sequence {
      var x, y := if i > |a| then i - 1 else i, if j > |a| then j - 1 else j;
      assert i != |a| ==> r[i] == s[x];
      assert j != |a| ==> r[j] == s[y];
      if i == |a| {
        assert r[j] in b;
      } else if j == |a| {
        assert r[i] in a;
      }
    }
  }

  lemma InsertPosition(values: seq<TagValue>, value: TagValue, k: nat)
    requires V.Increasing(values) && k <= |values|
    requires k > 0 ==> values[k - 1].sequence < value.sequence
    requires forall i :: k <= i < |values| ==> value.sequence < values[i].sequence
    ensures V.Increasing(values[..k] + [value] + values[k..])
    ensures forall v :: v in values[..k] + [value] + values[k..] <==> v in values || v == value
  {
    assert values == values[..k] + values[k..];
    InsertedIncreases(values[..k], value, values[k..]);
  }

  /** A value placed among others by its sequence. */
  method InsertBySequence(values: seq<TagValue>, value: TagValue) returns (r: seq<TagValue>)
    requires V.Increasing(values) && forall v :: v in values ==> v.sequence != value.sequence
    ensures V.Increasing(r) && forall v :: v in r <==> v in values || v == value
  {
    var k := |values|;
    while k > 0 && values[k - 1].sequence > value.sequence
      invariant 0 <= k <= |values|
      invariant forall i :: k <= i < |values| ==> value.sequence < values[i].sequence
    {
      k := k - 1;
    }
    assert k > 0 ==> values[k - 1] in values;
    InsertPosition(values, value, k);
    r := values[..k] + [value] + values[k..];
  }
}
