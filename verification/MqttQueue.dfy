/** The bounded outbound queue of the MQTT transport, kept in place in a buffer: the oldest
    message gives way to a new one, the newest to one that is put back. */
module MqttQueue {

  /** A push at the back; when full, the oldest message is dropped. */
  function Pushed<T>(queue: seq<T>, capacity: nat, message: T): seq<T>
    requires capacity > 0
  {
    if |queue| == capacity then queue[1..] + [message] else queue + [message]
  }

  /** A message put back at the front; when full, the newest message is dropped. */
  function PushedFront<T>(queue: seq<T>, capacity: nat, message: T): seq<T>
    requires capacity > 0
  {
    [message] + if |queue| == capacity then queue[..|queue| - 1] else queue
  }

  class MessageQueue<T(0)> {
    const items: array<T>
    var count: nat

    ghost predicate Valid()
      reads this
    {
      count <= items.Length
    }

    ghost function Contents(): seq<T>
      requires Valid()
      reads this, items
    {
      items[..count]
    }

    constructor (capacity: nat)
      ensures Valid() && Contents() == [] && items.Length == capacity && fresh(items)
    {
      items := new T[capacity];
      count := 0;
    }

    method Push(message: T) returns (dropped: bool)
      requires Valid() && items.Length > 0
      modifies this, items
      ensures Valid() && dropped == (|old(Contents())| == items.Length)
      ensures Contents() == Pushed(old(Contents()), items.Length, message)
    {
      dropped := count == items.Length;
      if dropped {
        ShiftLeft();
        items[count - 1] := message;
      } else {
        items[count] := message;
        count := count + 1;
      }
    }

    method PushFront(message: T) returns (dropped: bool)
      requires Valid() && items.Length > 0
      modifies this, items
      ensures Valid() && dropped == (|old(Contents())| == items.Length)
      ensures Contents() == PushedFront(old(Contents()), items.Length, message)
    {
      dropped := count == items.Length;
      if count == items.Length {
        count := count - 1;
      }
      count := count + 1;
      ShiftRight();
      items[0] := message;
      assert Contents() == [message] + old(items[..])[..count - 1];
    }

    method Pop() returns (message: T, found: bool)
      requires Valid()
      modifies this, items
      ensures Valid() && found == (old(Contents()) != [])
      ensures found ==> message == old(Contents())[0] && Contents() == old(Contents())[1..]
      ensures !found ==> Contents() == old(Contents())
    {
      if count == 0 {
        return *, false;
      }
      message := items[0];
      ShiftLeft();
      count := count - 1;
      found := true;
    }

    /** Every message but the first moves one place to the front. */
    method ShiftLeft()
      requires Valid() && count > 0
      modifies items
      ensures forall i :: 0 <= i < count - 1 ==> items[i] == old(items[i + 1])
      ensures forall i :: count - 1 <= i < items.Length ==> items[i] == old(items[i])
    {
      var i := 0;
      while i < count - 1
        invariant 0 <= i <= count - 1
        invariant forall k :: 0 <= k < i ==> items[k] == old(items[k + 1])
        invariant forall k :: i <= k < items.Length ==> items[k] == old(items[k])
      {
        items[i] := items[i + 1];
        i := i + 1;
      }
    }

    /** Every message but the last moves one place to the back. */
    method ShiftRight()
      requires Valid() && count > 0
      modifies items
      ensures forall i :: 1 <= i < count ==> items[i] == old(items[i - 1])
    {
      var i := count - 1;
      while i > 0
        invariant 0 <= i <= count - 1
        invariant forall k :: i < k < count ==> items[k] == old(items[k - 1])
        invariant forall k :: 0 <= k <= i ==> items[k] == old(items[k])
      {
        items[i] := items[i - 1];
        i := i - 1;
      }
    }
  }

  // ---------------------------------------------------------------- topic filters

  /** Topic matching by levels: `+` stands for one level, `#` for any number of them. */
  predicate Matches(filter: seq<string>, topic: seq<string>) {
    if filter == [] then topic == []
    else if filter[0] == "#" then true
    else topic != [] && (filter[0] == "+" || filter[0] == topic[0]) && Matches(filter[1..], topic[1..])
  }

  method TopicMatches(filter: seq<string>, topic: seq<string>) returns (matches: bool)
    ensures matches == Matches(filter, topic)
  {
    for i := 0 to |filter|
      invariant i <= |topic| && Matches(filter, topic) == Matches(filter[i..], topic[i..])
    {
      if filter[i] == "#" {
        return true;
      }
      if i >= |topic| || (filter[i] != "+" && filter[i] != topic[i]) {
        return false;
      }
    }
    return |filter| == |topic|;
  }

  /** Without wildcards a filter matches exactly itself, and with `#` only at its end it
      matches exactly the topics that extend a topic matched by the levels before it. */
  lemma {:induction false} MultiLevelMatch(filter: seq<string>, topic: seq<string>)
    requires "#" !in filter
    ensures Matches(filter, topic) <==>
              |filter| == |topic| && forall i :: 0 <= i < |filter| ==> filter[i] == "+" || filter[i] == topic[i]
    ensures Matches(filter + ["#"], topic) <==>
              |filter| <= |topic| && Matches(filter, topic[..|filter|])
  {
    if filter != [] && topic != [] {
      MultiLevelMatch(filter[1..], topic[1..]);
      assert (filter + ["#"])[1..] == filter[1..] + ["#"];
      if |filter| <= |topic| {
        assert topic[..|filter|][1..] == topic[1..][..|filter| - 1];
      }
      assert forall i :: 1 <= i < |filter| && i < |topic| ==>
          filter[i] == filter[1..][i - 1] && topic[i] == topic[1..][i - 1];
      assert forall i :: 0 <= i < |filter[1..]| && i < |topic[1..]| ==>
          filter[1..][i] == filter[i + 1] && topic[1..][i] == topic[i + 1];
    } else if filter == [] {
      assert topic[..0] == [];
    }
  }
}
