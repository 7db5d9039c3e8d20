# PubSub: a verified model of an in-process event bus

This project models the `PubSub` class of `Observer-pattern/pub.js`.
It is a synchronous publish/subscribe registry. The bus keeps one table that
maps an event name to the ordered list of callbacks subscribed to it:

- `subscribe(event, callback)` creates the list for `event` when it has none,
  appends `callback`, and returns a closure that unsubscribes that pair.
- `unsubscribe(event, callback)` does nothing for an event with no list.
  Otherwise it replaces the list with a copy that keeps every entry not
  identical to `callback`.
- `publish(event, data)` does nothing for an event with no list. Otherwise it
  calls each callback of the list, in order, with `data`.

The model has two modules:

- `Registry` (registry.dfy) holds the table as a value, `map<string, seq<CallbackId>>`.
  It defines the three operations as functions on it and proves their properties.
- `Observer` (pubsub.dfy) holds the class `PubSub`. Its one field,
  `subscribers`, is the table. Its methods update that field in place, and
  each is proved to leave exactly the state the matching `Registry` function
  describes. `Publish` is a loop over the list that returns, in order, the
  calls it makes. The closure returned by `subscribe` is the value
  `Unsubscriber(bus, event, callback)`; its method `Call` is
  `bus.Unsubscribe(event, callback)`.

Callbacks are opaque identifiers (`CallbackId`). Their equality stands in for
JavaScript reference identity: two separately written arrow functions are two
different identifiers, even if their code is the same. The payload is a type
parameter of `Publish` and is passed on untouched.

The model keeps one quirk of the code as written. The comment at `pub.js:7`
says the returned method "unsubscribes the client from the event". Because
the filter at `pub.js:59` compares by value, calling one handle removes every
copy of that callback under that event, including copies added by other
`subscribe` calls (`HandleRemovesEveryCopy`).

## Model

| member | source | states |
|---|---|---|
| Registry.Without | Observer-pattern/pub.js:59 | the filtered list never contains the removed callback, contains every other value of the old list and nothing else, and is no longer than it |
| Registry.WithoutAppend | Observer-pattern/pub.js:59 | filtering a concatenation is the concatenation of the filtered parts, so survivors keep their relative order |
| Registry.WithoutMultiset | Observer-pattern/pub.js:59 | every other callback survives as many times as it occurred; the removed callback occurs zero times |
| Registry.WithoutIsSubsequence | Observer-pattern/pub.js:59 | the filtered list is a subsequence of the old list: survivors in their original order |
| Registry.WithoutUnchangedIff | Observer-pattern/pub.js:59 | filtering leaves a list unchanged if and only if the callback is not in it |
| Registry.WithoutIdempotent | Observer-pattern/pub.js:59 | filtering twice gives the same list as filtering once |
| Registry.Subscribed | Observer-pattern/pub.js:40-45 | the keys become the old keys plus the event; the event's list is its old list (empty if absent) with the callback appended; every other list is unchanged |
| Registry.Unsubscribed | Observer-pattern/pub.js:52-60 | an unknown event leaves the table unchanged; the key set never changes (no key is created or deleted); the event's list becomes the filtered list, free of the callback; other lists are unchanged |
| Registry.Published | Observer-pattern/pub.js:69-80 | publishing an event with no entry makes no calls |
| Registry.Deliveries | Observer-pattern/pub.js:76-78 | the calls made by the forEach: exactly one per list entry, the k-th going to the k-th callback of the list and carrying the published data |
| Registry.DeliveriesSnoc | Observer-pattern/pub.js:76-78 | a callback appended at the end of the list is called once more, after all the others |
| Registry.RecipientsOfDeliveries | Observer-pattern/pub.js:76-78 | the callbacks called, in call order, are exactly the list |
| Registry.PayloadFidelity | Observer-pattern/pub.js:76-78 | every call receives the published data unchanged |
| Registry.DeliveryCount | Observer-pattern/pub.js:76-78 | each callback is called once per entry it has in the list, duplicates included |
| Registry.PublishedCalls | Observer-pattern/pub.js:72-78 | publishing an event calls exactly its list (empty for an unknown event), in order, each with the published data |
| Registry.NoCrossTalk | Observer-pattern/pub.js:72-78 | a callback not in the event's list (for example one registered only under other events) receives no call |
| Registry.UnsubscribeIdempotent | Observer-pattern/pub.js:54-59 | unsubscribing twice leaves the same table as unsubscribing once |
| Registry.SubscribeThenUnsubscribe | Observer-pattern/pub.js:40-59 | subscribe followed by unsubscribe of the same pair leaves the event's old list without the callback; the key stays, even when it was new and its list is now empty |
| Registry.HandleRemovesEveryCopy | Observer-pattern/pub.js:45-59 | after subscribing a callback twice, one unsubscribe removes both entries and leaves the earlier list filtered |
| Registry.SubscribeTwiceKeepsBoth | Observer-pattern/pub.js:40-45 | subscribing the same callback twice appends two entries, in order; there is no de-duplication |
| Observer.PubSub.constructor | Observer-pattern/pub.js:26-30 | a new bus starts with an empty table |
| Observer.PubSub.Subscribe | Observer-pattern/pub.js:38-50 | the new table is `Subscribed` of the old: the callback is appended to the event's (possibly new) list, other lists and keys are unchanged, and the returned handle names this bus, event and callback |
| Observer.PubSub.Unsubscribe | Observer-pattern/pub.js:52-61 | the new table is `Unsubscribed` of the old: no change for an unknown event, the same keys, the event's list filtered, other lists unchanged |
| Observer.PubSub.Publish | Observer-pattern/pub.js:69-80 | the forEach loop's calls, in order, equal `Published` of the current table; the method has no modifies clause, so the table is unchanged |
| Observer.Unsubscriber.Call | Observer-pattern/pub.js:48 | calling the handle has the same effect as `unsubscribe(event, callback)`: the callback no longer occurs in the event's list |
| Observer.Scenario | Observer-pattern/pub.js:83-108 | the usage example: A and B receive the iphone13 payload in that order, only A's second callback receives iphone15, and after A's handle is called only B receives iphone13 |

## Left out

- Callbacks' own behaviour: a callback is foreign code. The model records each call as a `Delivery(callback, data)` instead of running it, and the demo's `console.log` output is not modelled.
- Table changes made by a callback during dispatch: callbacks are not run, so the model does not capture the changes a callback makes through `subscribe` or `unsubscribe` while `publish` is calling. Which entries one publish calls is unaffected by such changes. `forEach` fixes its range before the first call (`pub.js:76`), `push` appends past that range (`pub.js:45`), and `unsubscribe` assigns a new filtered array instead of editing the one being walked (`pub.js:59`). This is why `Publish` loops over the list as it was when publishing began.
- Exceptions thrown by a callback: in the source they end the `forEach` early and propagate to the publisher. The model's `Publish` always delivers to the whole list.
- JavaScript object-key behaviour: event names are coerced to strings, and inherited keys such as `"toString"` look present on a plain object. The model uses a finite map keyed by string, so only subscribed events have keys. An empty list still counts as present, as `[]` is truthy in JavaScript.
- Closures and `this` capture: the returned arrow function is the explicit value `Unsubscriber(bus, event, callback)`.
