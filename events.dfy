/**
 * The client-side event plumbing: an `EventTarget` keeps listeners in the
 * order they were added and calls those of one type when it dispatches; a
 * `Timer` is an event target that is idle or has one pending timeout.
 */
module Events {
  import opened Wrappers

  /** The identity of a listener callback. */
  type Callback = nat

  /** One registered listener (the `Event` class). */
  datatype Listener = Listener(eventType: string, callback: Callback)

  /** The callbacks of the listeners of type `t`, in registration order, each once. */
  function Listeners(events: seq<Listener>, t: string): seq<Callback>
    decreases |events|
  {
    if events == [] then []
    else
      var last := events[|events| - 1];
      Listeners(events[..|events| - 1], t) + (if last.eventType == t then [last.callback] else [])
  }

  /** A listener added at the end is called last, and only for its own type. */
  lemma ListenersAppend(events: seq<Listener>, l: Listener, t: string)
    ensures Listeners(events + [l], t) == Listeners(events, t) + (if l.eventType == t then [l.callback] else [])
  {
    assert (events + [l])[..|events|] == events;
  }

  /** Every callback dispatched for `t` belongs to a listener of type `t`. */
  lemma {:induction false} ListenersOfType(events: seq<Listener>, t: string, c: Callback)
    ensures c in Listeners(events, t) <==> Listener(t, c) in events
    decreases |events|
  {
    if events != [] {
      var init := events[..|events| - 1];
      ListenersOfType(init, t, c);
      assert events == init + [events[|events| - 1]];
    }
  }

  /** Listeners of other types do not change what a dispatch of `t` calls. */
  lemma {:induction false} ListenersIgnoreOthers(events: seq<Listener>, others: seq<Listener>, t: string)
    requires forall k :: 0 <= k < |others| ==> others[k].eventType != t
    ensures Listeners(events + others, t) == Listeners(events, t)
    decreases |others|
  {
    if others == [] {
      assert events + others == events;
    } else {
      var init := others[..|others| - 1];
      assert events + others == (events + init) + [others[|others| - 1]];
      ListenersAppend(events + init, others[|others| - 1], t);
      ListenersIgnoreOthers(events, init, t);
    }
  }

  class EventTarget {
    var events: seq<Listener>

    constructor()
      ensures events == []
    {
      events := [];
    }

    /** `on`: one listener goes at the end; the others stay as they were. */
    method On(t: string, callback: Callback)
      modifies this
      ensures events == old(events) + [Listener(t, callback)]
    {
      events := events + [Listener(t, callback)];
    }

    /** `dispatch`: the listeners are visited in order and those of type `t` are called. */
    method Dispatch(t: string) returns (called: seq<Callback>)
      ensures called == Listeners(events, t)
    {
      called := [];
      var i := 0;
      while i < |events|
        invariant 0 <= i <= |events|
        invariant called == Listeners(events[..i], t)
      {
        assert events[..i + 1][..i] == events[..i];
        if events[i].eventType == t {
          called := called + [events[i].callback];
        }
        i := i + 1;
      }
      assert events[..i] == events;
    }
  }

  /** A timer: the listeners it dispatches to and the id of its pending timeout, if any. */
  class Timer {
    const target: EventTarget
    var id: Option<nat>

    constructor()
      ensures fresh(target) && target.events == [] && id == None
    {
      target := new EventTarget();
      id := None;
    }

    /** `stop`: nothing happens when idle; a pending timeout is cleared and `stopped` dispatched. */
    method Stop() returns (called: seq<Callback>)
      modifies this
      ensures id == None
      ensures called == if old(id).Some? then Listeners(target.events, "stopped") else []
    {
      if id == None {
        return [];
      }
      called := target.Dispatch("stopped");
      id := None;
    }

    /**
     * `start`: a pending timeout is stopped first, then `started` is
     * dispatched and the timeout `timeoutId` (the id `setTimeout` returns)
     * becomes the pending one.
     */
    method Start(timeoutId: nat) returns (called: seq<Callback>)
      modifies this
      ensures id == Some(timeoutId)
      ensures called ==
        (if old(id).Some? then Listeners(target.events, "stopped") else []) + Listeners(target.events, "started")
    {
      var stopped := Stop();
      var started := target.Dispatch("started");
      called := stopped + started;
      id := Some(timeoutId);
    }

    /** The pending timeout runs out: `ended` is dispatched and the timer is idle again. */
    method Expire() returns (called: seq<Callback>)
      requires id.Some?
      modifies this
      ensures id == None
      ensures called == Listeners(target.events, "ended")
    {
      called := target.Dispatch("ended");
      id := None;
    }
  }
}
