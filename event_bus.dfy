/** The application-wide event bus: a record from event name to the ordered
    list of callbacks subscribed to it. Components use it so that ModelList
    can tell ModelInstaller that a model was deleted. */
module Events {
  import opened ArrayOps

  /** A subscribed callback's identity (JavaScript compares callbacks by reference). */
  type CallbackId = nat

  /** The closure `on` returns: calling it unsubscribes `callback` from `event`. */
  datatype Subscription = Subscription(event: string, callback: CallbackId)

  /** `list.filter((cb) => cb !== callback)` */
  function Without(list: seq<CallbackId>, callback: CallbackId): seq<CallbackId> {
    Filter(list, (cb: CallbackId) => cb != callback)
  }

  /** Removing a callback drops all of its occurrences and keeps every other
      callback with its multiplicity and in its original order. */
  lemma {:induction false} WithoutRemovesAll(list: seq<CallbackId>, callback: CallbackId)
    ensures multiset(Without(list, callback)) == multiset(list)[callback := 0]
    ensures IsSublist(Without(list, callback), list)
  {
    if list != [] {
      WithoutRemovesAll(list[1..], callback);
      assert list == [list[0]] + list[1..];
    }
  }

  /** Unsubscribing leaves a list without the callback unchanged. */
  lemma {:induction false} WithoutAbsent(list: seq<CallbackId>, callback: CallbackId)
    requires callback !in list
    ensures Without(list, callback) == list
  {
    FilterKeepsAll(list, (cb: CallbackId) => cb != callback);
  }

  /** Calling the same unsubscribe a second time changes nothing more. */
  lemma WithoutIdempotent(list: seq<CallbackId>, callback: CallbackId)
    ensures Without(Without(list, callback), callback) == Without(list, callback)
  {
    WithoutAbsent(Without(list, callback), callback);
  }

  class EventBus {
    var events: map<string, seq<CallbackId>>

    constructor ()
      ensures events == map[]
    {
      events := map[];
    }

    /** The callbacks currently subscribed to `event`, in subscription order. */
    function Subscribers(event: string): seq<CallbackId>
      reads this
    {
      if event in events then events[event] else []
    }

    /** `on(event, callback)`: create the list if absent, append the callback,
        and hand back the unsubscribe closure. */
    method On(event: string, callback: CallbackId) returns (unsubscribe: Subscription)
      modifies this
      ensures events == old(events)[event := old(Subscribers(event)) + [callback]]
      ensures unsubscribe == Subscription(event, callback)
    {
      if event !in events {
        events := events[event := []];
      }
      events := events[event := events[event] + [callback]];
      unsubscribe := Subscription(event, callback);
    }

    /** Calling the closure `on` returned: reassign the event's list to the
        list without the callback. No operation removes an event name, so a
        subscription `On` returned always names an event present here. */
    method Unsubscribe(s: Subscription)
      requires s.event in events
      modifies this
      ensures events == old(events)[s.event := Without(old(events)[s.event], s.callback)]
    {
      events := events[s.event := Without(events[s.event], s.callback)];
    }

    /** `emit(event)`: call the event's callbacks one after the other; the
        result is the sequence of callbacks called. */
    method Emit(event: string) returns (invoked: seq<CallbackId>)
      ensures invoked == Subscribers(event)
      ensures event !in events ==> invoked == []
    {
      invoked := [];
      if event in events {
        var list := events[event];
        for i := 0 to |list|
          invariant invoked == list[..i]
        {
          invoked := invoked + [list[i]];
        }
        assert list[..|list|] == list;
      }
    }
  }
}
