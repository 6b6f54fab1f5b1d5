/** The broker of plugin output batches: bounded subscriptions that are closed, with an
    error, as soon as they cannot take the next batch. */
module OutputBroker {
  import opened Identifiers

  datatype Batch = Batch(instance: Uuid, sequence: nat)

  /** One subscription. `received` is what the consumer has taken from the channel, and
      `published` what the broker has published for the instance while the subscription
      was open. */
  class OutputSubscription {
    const instance: Uuid
    const capacity: nat
    var events: seq<Batch>
    var lagged: bool
    var closed: bool
    ghost var received: seq<Batch>
    ghost var published: seq<Batch>

    /** What was delivered is an unbroken prefix of what was published, and all of it until
        the subscription is closed; lag is always about the one batch after it. */
    ghost predicate Valid()
      reads this
    {
      && |events| <= capacity
      && received + events <= published
      && (!lagged ==> received + events == published)
      && (lagged ==> closed && |published| == |received + events| + 1)
      && forall b :: b in published ==> b.instance == instance
    }

    constructor (instance: Uuid, capacity: nat)
      ensures Valid() && !closed && !lagged && events == [] && received == [] && published == []
      ensures this.instance == instance && this.capacity == capacity
    {
      this.instance, this.capacity := instance, capacity;
      events, lagged, closed := [], false, false;
      received, published := [], [];
    }

    /** A batch of the instance is sent, or closes a subscription that has no room. */
    method Offer(batch: Batch)
      requires Valid() && !closed && batch.instance == instance
      modifies this
      ensures Valid() && published == old(published) + [batch] && received == old(received)
      ensures closed == lagged == (|old(events)| == capacity)
      ensures events == if closed then old(events) else old(events) + [batch]
    {
      published := published + [batch];
      if |events| < capacity {
        events := events + [batch];
      } else {
        lagged, closed := true, true;
      }
    }

    /** The channel hands over what it holds, in order, even after it was closed. */
    method Receive() returns (batch: Batch, open: bool)
      requires Valid() && (events != [] || closed)
      modifies this
      ensures Valid() && open == (old(events) != []) && closed == old(closed) && lagged == old(lagged)
      ensures published == old(published)
      ensures open ==> received == old(received) + [batch] && events == old(events)[1..]
      ensures open ==> old(|received|) < |published| && batch == published[old(|received|)]
      ensures !open ==> received == old(received) && events == []
    {
      open := events != [];
      if open {
        batch := events[0];
        assert events == [batch] + events[1..];
        received := received + [batch];
        events := events[1..];
        assert received + events == old(received + events);
      } else {
        batch := *;
      }
    }
  }

  class OutputBroker {
    const bufferSize: nat
    var subscribers: set<OutputSubscription>

    /** Exactly open subscriptions are kept. */
    ghost predicate Valid()
      reads this, subscribers
    {
      forall s :: s in subscribers ==> s.Valid() && !s.closed
    }

    constructor (bufferSize: nat)
      ensures Valid() && subscribers == {} && this.bufferSize == bufferSize
    {
      this.bufferSize := bufferSize;
      subscribers := {};
    }

    method Subscribe(instance: Uuid) returns (subscription: OutputSubscription?)
      requires Valid()
      modifies this
      ensures Valid()
      ensures subscription == null <==> instance == NIL
      ensures instance == NIL ==> subscribers == old(subscribers)
      ensures subscription != null ==>
                && fresh(subscription) && subscribers == old(subscribers) + {subscription}
                && subscription.instance == instance && subscription.published == []
    {
      if instance == NIL {
        return null;
      }
      subscription := new OutputSubscription(instance, bufferSize);
      subscribers := subscribers + {subscription};
    }

    method Close(subscription: OutputSubscription)
      requires Valid() && subscription.Valid() && (subscription.closed || subscription in subscribers)
      modifies this, subscription
      ensures Valid() && subscription.Valid() && subscription.closed
      ensures subscribers == old(subscribers) - {subscription}
      ensures subscription.lagged == old(subscription.lagged)
      ensures subscription.received + subscription.events == old(subscription.received + subscription.events)
    {
      if subscription.closed {
        assert subscription !in subscribers;
        return;
      }
      subscribers := subscribers - {subscription};
      subscription.closed := true;
    }

    /** The batch is offered to one subscription, which is forgotten if that closes it. */
    method OfferTo(subscription: OutputSubscription, batch: Batch)
      requires subscription in subscribers && subscription.Valid() && !subscription.closed
      requires subscription.instance == batch.instance
      modifies this, subscription
      ensures subscription.Valid() && subscription.received == old(subscription.received)
      ensures subscription.published == old(subscription.published) + [batch]
      ensures subscription.closed <==> |old(subscription.events)| == subscription.capacity
      ensures subscribers == if subscription.closed then old(subscribers) - {subscription} else old(subscribers)
    {
      subscription.Offer(batch);
      if subscription.closed {
        subscribers := subscribers - {subscription};
      }
    }

    /** A batch reaches every open subscription of its instance, in any order, and no other;
        a subscription without room is closed and forgotten. `valid` tells whether the batch
        passes its own checks. */
    method PublishOutputBatch(batch: Batch, valid: bool)
      requires Valid()
      modifies this, subscribers
      ensures Valid()
      ensures subscribers == set s | s in old(subscribers) && !s.closed
      ensures forall s :: s in old(subscribers) ==> s.Valid() && s.received == old(s.received)
      ensures forall s :: s in old(subscribers) ==>
                if valid && s.instance == batch.instance
                then s.published == old(s.published) + [batch] && (s.closed <==> |old(s.events)| == s.capacity)
                else s.published == old(s.published) && s.events == old(s.events) && !s.closed
    {
      if !valid {
        return;
      }
      ghost var before := subscribers;
      var todo := subscribers;
      while todo != {}
        invariant todo <= before
        invariant subscribers == set s | s in before && !s.closed
        invariant forall s :: s in before ==> s.Valid() && s.received == old(s.received)
        invariant forall s :: s in todo ==>
                    !s.closed && s.published == old(s.published) && s.events == old(s.events)
        invariant forall s :: s in before - todo ==>
                    if s.instance == batch.instance
                    then s.published == old(s.published) + [batch] && (s.closed <==> |old(s.events)| == s.capacity)
                    else s.published == old(s.published) && s.events == old(s.events) && !s.closed
        decreases todo
      {
        var subscription :| subscription in todo;
        todo := todo - {subscription};
        if subscription.instance == batch.instance {
          OfferTo(subscription, batch);
        }
      }
    }
  }
}
