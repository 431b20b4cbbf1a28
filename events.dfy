/**
 * The synchronous publish/subscribe bus (engine/events/bus.py).
 *
 * An event's Python type is the key `T`; callbacks are opaque ids, and
 * `publish` returns the callbacks it invokes, in invocation order.
 */
module Events {

  type CallbackId = nat

  /** `_subs.get(t, [])`. */
  function Subscribers<T>(subs: map<T, seq<CallbackId>>, t: T): seq<CallbackId> {
    if t in subs then subs[t] else []
  }

  /** `_subs.setdefault(t, []).append(cb)` as a value. */
  function Subscribed<T(!new)>(subs: map<T, seq<CallbackId>>, t: T, cb: CallbackId): (r: map<T, seq<CallbackId>>)
    ensures Subscribers(r, t) == Subscribers(subs, t) + [cb]
    ensures forall u | u != t :: Subscribers(r, u) == Subscribers(subs, u)
  {
    subs[t := Subscribers(subs, t) + [cb]]
  }

  /** How often `cb` occurs in a list. */
  function Occurrences(s: seq<CallbackId>, cb: CallbackId): nat {
    if s == [] then 0 else (if s[0] == cb then 1 else 0) + Occurrences(s[1..], cb)
  }

  class EventBus<T(==,!new)> {
    var subs: map<T, seq<CallbackId>>

    constructor ()
      ensures subs == map[]
    {
      subs := map[];
    }

    method Subscribe(t: T, cb: CallbackId)
      modifies this
      ensures subs == Subscribed(old(subs), t, cb)
    {
      var existing := if t in subs then subs[t] else [];
      subs := subs[t := existing + [cb]];
    }

    /** Invokes exactly the subscribers of the event's own type, in subscription order. */
    method Publish(t: T) returns (invoked: seq<CallbackId>)
      ensures invoked == Subscribers(subs, t)
    {
      var callbacks := if t in subs then subs[t] else [];
      invoked := [];
      for i := 0 to |callbacks|
        invariant invoked == callbacks[..i]
      {
        invoked := invoked + [callbacks[i]];
      }
      assert callbacks[..|callbacks|] == callbacks;
    }
  }

  lemma {:induction false} OccurrencesSnoc(s: seq<CallbackId>, x: CallbackId, cb: CallbackId)
    ensures Occurrences(s + [x], cb) == Occurrences(s, cb) + (if x == cb then 1 else 0)
    decreases |s|
  {
    if s == [] {
      assert [] + [x] == [x];
    } else {
      assert (s + [x])[1..] == s[1..] + [x];
      OccurrencesSnoc(s[1..], x, cb);
    }
  }

  /**
   * Subscribing appends to the subscribed type's list only: a callback
   * subscribed twice is invoked twice more per publish, and publishing any
   * other type invokes the same callbacks as before.
   */
  lemma SubscribeTwice<T(!new)>(subs: map<T, seq<CallbackId>>, t: T, cb: CallbackId)
    ensures var after := Subscribed(Subscribed(subs, t, cb), t, cb);
            && Subscribers(after, t) == Subscribers(subs, t) + [cb, cb]
            && Occurrences(Subscribers(after, t), cb) == Occurrences(Subscribers(subs, t), cb) + 2
            && (forall u | u != t :: Subscribers(after, u) == Subscribers(subs, u))
  {
    var once := Subscribed(subs, t, cb);
    assert Subscribers(subs, t) + [cb] + [cb] == Subscribers(subs, t) + [cb, cb];
    OccurrencesSnoc(Subscribers(subs, t), cb, cb);
    OccurrencesSnoc(Subscribers(once, t), cb, cb);
  }

  /** Publishing a type nobody subscribed to invokes nothing; a fresh bus has no subscribers. */
  lemma NoSubscribers<T>(subs: map<T, seq<CallbackId>>, t: T)
    requires t !in subs
    ensures Subscribers(subs, t) == []
    ensures forall cb :: Occurrences(Subscribers(subs, t), cb) == 0
  {
  }
}
