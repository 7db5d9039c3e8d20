/**
 * The event bus object: one mutable field, the table of subscribers, updated
 * in place by subscribe and unsubscribe and traversed by publish. Each method
 * is proved to follow the value-level operation of module Registry.
 */
module Observer {
  import opened Registry

  class PubSub {
    /** For each event, the callbacks subscribed to it, in subscription order. */
    var subscribers: Table

    /** A new bus has no event keys at all. */
    constructor ()
      ensures subscribers == map[]
    {
      subscribers := map[];
    }

    /**
     * Creates the list of `event` if it has none, appends `callback` to it and
     * returns the handle that undoes the subscription.
     */
    method Subscribe(event: EventName, callback: CallbackId) returns (handle: Unsubscriber)
      modifies this
      ensures subscribers == Subscribed(old(subscribers), event, callback)
      // The next three follow from the contract of Subscribed; they are spelled out for the reader.
      ensures subscribers[event] == ListOf(old(subscribers), event) + [callback]
      ensures subscribers.Keys == old(subscribers).Keys + {event}
      ensures forall e :: e in old(subscribers) && e != event ==> subscribers[e] == old(subscribers)[e]
      ensures handle == Unsubscriber(this, event, callback)
    {
      if event !in subscribers {
        subscribers := subscribers[event := []];
      }
      subscribers := subscribers[event := subscribers[event] + [callback]];
      handle := Unsubscriber(this, event, callback);
    }

    /**
     * Does nothing for an event without an entry; otherwise replaces the list
     * of `event` by a copy without any entry equal to `callback`.
     */
    method Unsubscribe(event: EventName, callback: CallbackId)
      modifies this
      ensures subscribers == Unsubscribed(old(subscribers), event, callback)
      // The next four follow from the contract of Unsubscribed; they are spelled out for the reader.
      ensures event !in old(subscribers) ==> subscribers == old(subscribers)
      ensures subscribers.Keys == old(subscribers).Keys
      ensures event in subscribers ==> subscribers[event] == Without(old(subscribers)[event], callback)
      ensures forall e :: e in old(subscribers) && e != event ==> subscribers[e] == old(subscribers)[e]
    {
      if event !in subscribers {
        return;
      }
      subscribers := subscribers[event := Without(subscribers[event], callback)];
    }

    /**
     * Calls every callback of `event`, in list order, with `data`; the calls
     * are returned in the order they are made. Without a `modifies` clause the
     * table is unchanged.
     */
    method Publish<D>(event: EventName, data: D) returns (deliveries: seq<Delivery<D>>)
      ensures deliveries == Published(subscribers, event, data)
    {
      deliveries := [];
      if event !in subscribers {
        return;
      }
      var callbacks := subscribers[event];
      var i := 0;
      while i < |callbacks|
        invariant 0 <= i <= |callbacks|
        invariant deliveries == Deliveries(callbacks[..i], data)
      {
        deliveries := deliveries + [Delivery(callbacks[i], data)];
        i := i + 1;
      }
      assert callbacks[..i] == callbacks;
    }
  }

  /**
   * The closure `subscribe` returns: it remembers its bus, the event and the
   * callback, and calling it unsubscribes that event/callback pair.
   */
  datatype Unsubscriber = Unsubscriber(bus: PubSub, event: EventName, callback: CallbackId)
  {
    /** Same effect as `bus.Unsubscribe(event, callback)`: every copy of the callback goes. */
    method Call()
      modifies bus
      ensures bus.subscribers == Unsubscribed(old(bus.subscribers), event, callback)
      ensures event in bus.subscribers ==> callback !in bus.subscribers[event]
    {
      bus.Unsubscribe(event, callback);
    }
  }

  /** The payload of the example: a product announcement. */
  datatype Product = Product(name: string, price: int)

  /**
   * The usage scenario: A and B subscribe to "iphone13", A to "iphone15";
   * both events are published, then A's "iphone13" handle is called and
   * "iphone13" is published again.
   */
  method Scenario() returns (first13: seq<Delivery<Product>>, first15: seq<Delivery<Product>>,
                             second13: seq<Delivery<Product>>)
    ensures first13 == [Delivery(CallbackId(0), Product("iphone13", 1000)),
                        Delivery(CallbackId(1), Product("iphone13", 1000))]
    ensures first15 == [Delivery(CallbackId(2), Product("iphone15", 1500))]
    ensures second13 == [Delivery(CallbackId(1), Product("iphone13", 1000))]
  {
    var bus := new PubSub();
    var unsub13A := bus.Subscribe("iphone13", CallbackId(0));
    var unsub13B := bus.Subscribe("iphone13", CallbackId(1));
    var unsub15A := bus.Subscribe("iphone15", CallbackId(2));
    assert bus.subscribers["iphone13"] == [CallbackId(0), CallbackId(1)];
    first13 := bus.Publish("iphone13", Product("iphone13", 1000));
    assert bus.subscribers["iphone15"] == [CallbackId(2)];
    first15 := bus.Publish("iphone15", Product("iphone15", 1500));
    unsub13A.Call();
    assert bus.subscribers["iphone13"] == [CallbackId(1)] by {
      assert [CallbackId(0), CallbackId(1)][1..] == [CallbackId(1)];
      assert [CallbackId(1)][1..] == [];
    }
    second13 := bus.Publish("iphone13", Product("iphone13", 1000));
  }
}
