/**
 * Model of LifecycleRegistry: a lifecycle state machine that holds a current
 * state and the last event it received, and an insertion-ordered set of
 * observers that are told about every new event.
 *
 * The numeric `@State` and `@Event` constants become datatypes. Observers are
 * opaque ids, and a notification (`onStateChanged(provider, event)` on the
 * observer's adapter) is recorded in a trace instead of being a call.
 */
module Lifecycle {
  import opened Wrappers
  import opened Seqs

  datatype State = Initialized | Stopped | Started | Resumed | Destroyed

  datatype Event = OnCreate | OnStart | OnResume | OnPause | OnStop | OnDestroy | Any

  /** The last event received; `NoEvent` until the first call. */
  datatype LastEvent = NoEvent | Last(event: Event)

  type ObserverId = nat

  /** One call of an observer's `onStateChanged` with the event delivered. */
  datatype Notification = Notification(observer: ObserverId, event: Event)

  /**
   * The state an event leads to. ANY names no transition, and the source throws
   * for it; that is the `None` result.
   */
  function StateAfter(e: Event): (r: Option<State>)
    ensures r == None <==> e == Any
    ensures r == Some(Stopped) <==> e == OnCreate || e == OnStop
    ensures r == Some(Started) <==> e == OnStart || e == OnPause
    ensures r == Some(Resumed) <==> e == OnResume
    ensures r == Some(Destroyed) <==> e == OnDestroy
    ensures r != Some(Initialized)
  {
    match e
    case OnCreate => Some(Stopped)
    case OnStop => Some(Stopped)
    case OnStart => Some(Started)
    case OnPause => Some(Started)
    case OnResume => Some(Resumed)
    case OnDestroy => Some(Destroyed)
    case Any => None
  }

  /** The notifications one accepted event sends, observer by observer. */
  function Notifications(obs: seq<ObserverId>, e: Event): (r: seq<Notification>)
    ensures |r| == |obs|
    ensures forall i :: 0 <= i < |obs| ==> r[i] == Notification(obs[i], e)
  {
    if obs == [] then [] else [Notification(obs[0], e)] + Notifications(obs[1..], e)
  }

  /**
   * Over a set of distinct observers, an event notifies each registered
   * observer exactly once, nobody else, and with no other event.
   */
  lemma {:induction false} NotifiedExactlyOnce(obs: seq<ObserverId>, e: Event, o: ObserverId, f: Event)
    requires Distinct(obs)
    ensures multiset(Notifications(obs, e))[Notification(o, f)] ==
            if o in obs && f == e then 1 else 0
  {
    if obs != [] {
      var head, rest := Notification(obs[0], e), Notifications(obs[1..], e);
      assert Distinct(obs[1..]);
      NotifiedExactlyOnce(obs[1..], e, o, f);
      calc {
        multiset(Notifications(obs, e))[Notification(o, f)];
        multiset([head] + rest)[Notification(o, f)];
        (multiset([head]) + multiset(rest))[Notification(o, f)];
        (if head == Notification(o, f) then 1 else 0) + multiset(rest)[Notification(o, f)];
      }
      if o == obs[0] {
        assert obs[0] !in obs[1..];
      } else {
        assert o in obs <==> o in obs[1..];
      }
    }
  }

  class LifecycleRegistry {
    var state: State
    var lastEvent: LastEvent
    /** Observers in registration order (the iteration order of the map). */
    var observers: seq<ObserverId>
    /** Every notification sent so far, in the order sent. */
    var notified: seq<Notification>

    /**
     * Observers are held once each, and the current state is the one the last
     * event leads to (after ANY, which leads nowhere, it is left as it was).
     */
    ghost predicate Valid()
      reads this
    {
      && Distinct(observers)
      && (lastEvent.Last? && StateAfter(lastEvent.event).Some? ==>
            state == StateAfter(lastEvent.event).value)
    }

    /** A new registry is INITIALIZED, has seen no event and has no observers. */
    constructor ()
      ensures Valid()
      ensures state == Initialized && lastEvent == NoEvent
      ensures observers == [] && notified == []
    {
      state := Initialized;
      lastEvent := NoEvent;
      observers := [];
      notified := [];
    }

    /**
     * A repeat of the last event is ignored. Any other event becomes the last
     * event; then the new state is computed (ANY throws at this point, after
     * the last event was already recorded) and every observer is notified
     * once, in registration order.
     */
    method HandleLifecycleEvent(e: Event) returns (thrown: bool)
      requires Valid()
      modifies this
      ensures Valid() && observers == old(observers)
      ensures old(lastEvent) == Last(e) ==>
                !thrown && state == old(state) && lastEvent == old(lastEvent) &&
                notified == old(notified)
      ensures old(lastEvent) != Last(e) ==> lastEvent == Last(e)
      ensures old(lastEvent) != Last(e) && e == Any ==>
                thrown && state == old(state) && notified == old(notified)
      ensures old(lastEvent) != Last(e) && e != Any ==>
                !thrown && Some(state) == StateAfter(e) &&
                notified == old(notified) + Notifications(observers, e)
    {
      if lastEvent == Last(e) {
        return false;
      }
      lastEvent := Last(e);
      var next := StateAfter(e);
      if next.None? {
        return true;
      }
      state := next.value;
      NotifyObservers(e);
      thrown := false;
    }

    /** The notification loop: every observer, in registration order, is told `e`. */
    method NotifyObservers(e: Event)
      modifies this`notified
      ensures notified == old(notified) + Notifications(observers, e)
    {
      var i := 0;
      while i < |observers|
        invariant 0 <= i <= |observers|
        invariant notified == old(notified) + Notifications(observers[..i], e)
      {
        assert observers[..i + 1] == observers[..i] + [observers[i]];
        NotificationsAppend(observers[..i], observers[i], e);
        notified := notified + [Notification(observers[i], e)];
        i := i + 1;
      }
      assert observers[..i] == observers;
    }

    /** Put-if-absent: an observer already registered is not added again. */
    method AddObserver(o: ObserverId)
      requires Valid()
      modifies this
      ensures Valid()
      ensures observers == PutIfAbsent(old(observers), o)
      ensures state == old(state) && lastEvent == old(lastEvent) && notified == old(notified)
    {
      observers := PutIfAbsent(observers, o);
    }

    /** Removes one observer; an observer not registered is ignored. */
    method RemoveObserver(o: ObserverId)
      requires Valid()
      modifies this
      ensures Valid()
      ensures observers == Remove(old(observers), o)
      ensures state == old(state) && lastEvent == old(lastEvent) && notified == old(notified)
    {
      RemoveKeepsDistinct(observers, o);
      observers := Remove(observers, o);
    }

    /** The number of observers. */
    method Size() returns (n: nat)
      ensures n == |observers|
    {
      n := |observers|;
    }

    method GetCurrentState() returns (s: State)
      ensures s == state
    {
      s := state;
    }
  }

  lemma NotificationsAppend(obs: seq<ObserverId>, o: ObserverId, e: Event)
    ensures Notifications(obs + [o], e) == Notifications(obs, e) + [Notification(o, e)]
  {
  }
}
