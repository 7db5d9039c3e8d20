/**
 * The subscriber registry of the event bus, as a value: a finite map from
 * event names to the ordered list of callbacks subscribed to each event.
 * The three operations of the bus are defined here as functions on that
 * value; the class in module Observer is proved to follow them.
 */
module Registry {

  /** Event names are plain strings, compared by value. */
  type EventName = string

  /** A callback, identified the way JavaScript compares functions: by reference. */
  datatype CallbackId = CallbackId(id: nat)

  /** One call `callback(data)` made while an event is published. */
  datatype Delivery<D> = Delivery(callback: CallbackId, data: D)

  type Table = map<EventName, seq<CallbackId>>

  /** The callbacks of `e`, or none when `e` has no entry. */
  function ListOf(r: Table, e: EventName): seq<CallbackId>
  {
    if e in r then r[e] else []
  }

  // ---------------------------------------------------------------------------
  // Removing a callback from a list: `list.filter(cb => cb !== callback)`
  // ---------------------------------------------------------------------------

  /** The entries of `s` that are not `cb`, in their original order. */
  function Without(s: seq<CallbackId>, cb: CallbackId): (t: seq<CallbackId>)
    ensures cb !in t
    ensures forall x :: x in t <==> x in s && x != cb
    ensures |t| <= |s|
  {
    if s == [] then []
    else if s[0] == cb then Without(s[1..], cb)
    else [s[0]] + Without(s[1..], cb)
  }

  /** `t` is `s` with some entries dropped, the rest kept in order. */
  ghost predicate Subsequence(t: seq<CallbackId>, s: seq<CallbackId>)
    decreases |s|
  {
    if t == [] then true
    else if s == [] then false
    else (t[0] == s[0] && Subsequence(t[1..], s[1..])) || Subsequence(t, s[1..])
  }

  /** Filtering a concatenation filters each part: survivors keep their relative order. */
  lemma {:induction false} WithoutAppend(a: seq<CallbackId>, b: seq<CallbackId>, cb: CallbackId)
    ensures Without(a + b, cb) == Without(a, cb) + Without(b, cb)
  {
    if a == [] {
      assert a + b == b;
    } else {
      assert (a + b)[0] == a[0];
      assert (a + b)[1..] == a[1..] + b;
      WithoutAppend(a[1..], b, cb);
    }
  }

  /** Every entry other than `cb` survives as often as it occurred; `cb` not at all. */
  lemma {:induction false} WithoutMultiset(s: seq<CallbackId>, cb: CallbackId)
    ensures multiset(Without(s, cb)) == multiset(s)[cb := 0]
  {
    if s != [] {
      WithoutMultiset(s[1..], cb);
      assert s == [s[0]] + s[1..];
    }
  }

  /** The survivors appear in `s` in the same relative order. */
  lemma {:induction false} WithoutIsSubsequence(s: seq<CallbackId>, cb: CallbackId)
    ensures Subsequence(Without(s, cb), s)
    decreases |s|
  {
    if s != [] {
      WithoutIsSubsequence(s[1..], cb);
      if s[0] != cb {
        var t := Without(s, cb);
        assert t[0] == s[0] && t[1..] == Without(s[1..], cb);
      } else if Without(s, cb) != [] {
        assert Without(s, cb) == Without(s[1..], cb);
      }
    }
  }

  /** Filtering leaves a list untouched exactly when `cb` is not in it. */
  lemma {:induction false} WithoutUnchangedIff(s: seq<CallbackId>, cb: CallbackId)
    ensures Without(s, cb) == s <==> cb !in s
  {
    if s != [] && s[0] != cb {
      WithoutUnchangedIff(s[1..], cb);
      assert s == [s[0]] + s[1..];
    }
  }

  /** Filtering twice is filtering once. */
  lemma WithoutIdempotent(s: seq<CallbackId>, cb: CallbackId)
    ensures Without(Without(s, cb), cb) == Without(s, cb)
  {
    WithoutUnchangedIff(Without(s, cb), cb);
  }

  // ---------------------------------------------------------------------------
  // The three operations on the table
  // ---------------------------------------------------------------------------

  /** subscribe: create the list of `e` if needed, then append `cb` to it. */
  function Subscribed(r: Table, e: EventName, cb: CallbackId): (r': Table)
    ensures r'.Keys == r.Keys + {e}
    ensures r'[e] == ListOf(r, e) + [cb]
    ensures forall e' :: e' in r && e' != e ==> r'[e'] == r[e']
  {
    var created := if e in r then r else r[e := []];
    created[e := created[e] + [cb]]
  }

  /** unsubscribe: nothing for an unknown event, else filter `cb` out of the list of `e`. */
  function Unsubscribed(r: Table, e: EventName, cb: CallbackId): (r': Table)
    ensures e !in r ==> r' == r
    ensures r'.Keys == r.Keys
    ensures e in r ==> r'[e] == Without(r[e], cb) && cb !in r'[e]
    ensures forall e' :: e' in r && e' != e ==> r'[e'] == r[e']
  {
    if e !in r then r
    else r[e := Without(r[e], cb)]
  }

  /** The calls made by the forEach over `s`: the k-th goes to the k-th entry, passing `d`. */
  function Deliveries<D>(s: seq<CallbackId>, d: D): (ds: seq<Delivery<D>>)
    ensures |ds| == |s|
    ensures forall k :: 0 <= k < |s| ==> ds[k] == Delivery(s[k], d)
  {
    if s == [] then [] else [Delivery(s[0], d)] + Deliveries(s[1..], d)
  }

  /** publish: no calls for an unknown event, else one call per entry of its list. */
  function Published<D>(r: Table, e: EventName, d: D): (ds: seq<Delivery<D>>)
    ensures e !in r ==> ds == []
  {
    if e !in r then [] else Deliveries(r[e], d)
  }

  // ---------------------------------------------------------------------------
  // Properties of dispatch
  // ---------------------------------------------------------------------------

  /** Dispatching a list extended at the end makes one more call, last. */
  lemma DeliveriesSnoc<D>(s: seq<CallbackId>, x: CallbackId, d: D)
    ensures Deliveries(s + [x], d) == Deliveries(s, d) + [Delivery(x, d)]
  {
  }

  /** The callbacks called, in call order, are exactly the list. */
  function Recipients<D>(ds: seq<Delivery<D>>): seq<CallbackId>
  {
    if ds == [] then [] else [ds[0].callback] + Recipients(ds[1..])
  }

  lemma {:induction false} RecipientsOfDeliveries<D>(s: seq<CallbackId>, d: D)
    ensures Recipients(Deliveries(s, d)) == s
  {
    if s != [] {
      RecipientsOfDeliveries(s[1..], d);
      assert s == [s[0]] + s[1..];
    }
  }

  /** Every call receives the published data, unchanged. */
  lemma PayloadFidelity<D>(s: seq<CallbackId>, d: D)
    ensures forall x :: x in Deliveries(s, d) ==> x.data == d
  {
  }

  /** Each callback is called once per entry it has in the list. */
  lemma {:induction false} DeliveryCount<D>(s: seq<CallbackId>, d: D, cb: CallbackId)
    ensures multiset(Deliveries(s, d))[Delivery(cb, d)] == multiset(s)[cb]
  {
    if s != [] {
      DeliveryCount(s[1..], d, cb);
      assert s == [s[0]] + s[1..];
    }
  }

  /** Publishing `e` calls exactly the list of `e`, in order, each with `d`. */
  lemma PublishedCalls<D>(r: Table, e: EventName, d: D)
    ensures Recipients(Published(r, e, d)) == ListOf(r, e)
    ensures forall x :: x in Published(r, e, d) ==> x.data == d
  {
    if e in r {
      RecipientsOfDeliveries(r[e], d);
      PayloadFidelity(r[e], d);
    }
  }

  /** No cross-talk: a callback not subscribed to `e` is not called by publishing `e`. */
  lemma NoCrossTalk<D>(r: Table, e: EventName, d: D, cb: CallbackId)
    requires cb !in ListOf(r, e)
    ensures forall x :: x in Published(r, e, d) ==> x.callback != cb
  {
  }

  // ---------------------------------------------------------------------------
  // Properties relating the operations
  // ---------------------------------------------------------------------------

  /** Unsubscribing twice is unsubscribing once. */
  lemma UnsubscribeIdempotent(r: Table, e: EventName, cb: CallbackId)
    ensures Unsubscribed(Unsubscribed(r, e, cb), e, cb) == Unsubscribed(r, e, cb)
  {
    if e in r {
      WithoutIdempotent(r[e], cb);
    }
  }

  /**
   * Unsubscribing right after subscribing leaves the old list of `e` minus every
   * copy of `cb`; the key `e` stays, even when `e` was new and its list is now empty.
   */
  lemma SubscribeThenUnsubscribe(r: Table, e: EventName, cb: CallbackId)
    ensures Unsubscribed(Subscribed(r, e, cb), e, cb) == r[e := Without(ListOf(r, e), cb)]
  {
    var s := Subscribed(r, e, cb);
    WithoutAppend(ListOf(r, e), [cb], cb);
    assert [cb][1..] == [];
    assert Without([cb], cb) == [];
    assert Without(s[e], cb) == Without(ListOf(r, e), cb);
    assert s[e := Without(ListOf(r, e), cb)] == r[e := Without(ListOf(r, e), cb)];
  }

  /**
   * When `cb` was subscribed to `e` twice, undoing one of the subscriptions
   * removes both entries: the filter is by value, not per subscription.
   */
  lemma HandleRemovesEveryCopy(r: Table, e: EventName, cb: CallbackId)
    ensures cb !in Unsubscribed(Subscribed(Subscribed(r, e, cb), e, cb), e, cb)[e]
    ensures Unsubscribed(Subscribed(Subscribed(r, e, cb), e, cb), e, cb)[e] == Without(ListOf(r, e), cb)
  {
    WithoutAppend(ListOf(r, e) + [cb], [cb], cb);
    WithoutAppend(ListOf(r, e), [cb], cb);
  }

  /** Subscribing the same callback twice keeps two entries, in order, at the end. */
  lemma SubscribeTwiceKeepsBoth(r: Table, e: EventName, cb: CallbackId)
    ensures Subscribed(Subscribed(r, e, cb), e, cb)[e] == ListOf(r, e) + [cb, cb]
    ensures multiset(Subscribed(Subscribed(r, e, cb), e, cb)[e])[cb] == multiset(ListOf(r, e))[cb] + 2
  {
    assert ListOf(r, e) + [cb] + [cb] == ListOf(r, e) + [cb, cb];
  }
}
