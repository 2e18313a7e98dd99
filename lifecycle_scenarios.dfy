/**
 * The registry's documented behaviour, replayed on concrete observers: the
 * method returns what a caller observes and its postcondition is what the
 * class promises.
 */
module LifecycleScenarios {
  import Seqs
  import opened Lifecycle

  /**
   * Put-if-absent and remove: an observer added twice is held once, removing
   * it leaves the other, and removing it again changes nothing.
   */
  method ObserverSetScenario() returns (sizes: (nat, nat, nat), remaining: seq<ObserverId>)
    ensures sizes == (2, 1, 1) && remaining == [2]
  {
    var r, n1 := AddedTwice();
    r.RemoveObserver(1);
    assert r.observers == [2] by {
      assert Seqs.Remove([1, 2], 1) == Seqs.Remove([2], 1) == [2];
    }
    var n2 := r.Size();
    r.RemoveObserver(1);
    var n3 := r.Size();
    sizes, remaining := (n1, n2, n3), r.observers;
  }

  /** Observers 1, 2 and 1 again added to a new registry: 1 is held once. */
  method AddedTwice() returns (r: LifecycleRegistry, size: nat)
    ensures fresh(r) && r.Valid() && r.observers == [1, 2] && size == 2
  {
    r := new LifecycleRegistry();
    r.AddObserver(1);
    r.AddObserver(2);
    r.AddObserver(1);
    size := r.Size();
  }

  /** A new registry with observers 1 and 2, and its state before any event. */
  method WithTwo() returns (r: LifecycleRegistry, before: State)
    ensures fresh(r) && r.Valid() && r.observers == [1, 2]
    ensures r.lastEvent == NoEvent && r.notified == [] && before == Initialized
  {
    r := new LifecycleRegistry();
    before := r.GetCurrentState();
    r.AddObserver(1);
    r.AddObserver(2);
    assert r.observers == [1, 2];
  }

  /**
   * A new registry, observers 1 and 2, then ON_CREATE: the state before and
   * after, and both observers notified in order.
   */
  method CreatedWithTwo() returns (r: LifecycleRegistry, before: State, after: State, thrown: bool)
    ensures fresh(r) && r.Valid() && r.observers == [1, 2]
    ensures r.lastEvent == Last(OnCreate) && r.state == Stopped
    ensures r.notified == [Notification(1, OnCreate), Notification(2, OnCreate)]
    ensures before == Initialized && after == Stopped && !thrown
  {
    r, before := WithTwo();
    thrown := r.HandleLifecycleEvent(OnCreate);
    after := r.GetCurrentState();
  }

  /**
   * Events delivered to two observers: ON_CREATE notifies both in order, a
   * repeated ON_CREATE is ignored, ON_START notifies both again.
   */
  method EventScenario()
    returns (states: (State, State, State, State), trace: seq<Notification>, thrown: bool)
    ensures states == (Initialized, Stopped, Stopped, Started)
    ensures trace == [Notification(1, OnCreate), Notification(2, OnCreate),
                      Notification(1, OnStart), Notification(2, OnStart)]
    ensures !thrown
  {
    var r, s0, s1, t1 := CreatedWithTwo();
    ghost var created := r.notified;
    var t2 := r.HandleLifecycleEvent(OnCreate);  // a repeat: ignored
    var s2 := r.GetCurrentState();
    assert r.notified == created;
    var t3 := r.HandleLifecycleEvent(OnStart);
    var s3 := r.GetCurrentState();
    assert r.notified == created + [Notification(1, OnStart), Notification(2, OnStart)];
    states, trace, thrown := (s0, s1, s2, s3), r.notified, t1 || t2 || t3;
  }

  /**
   * ANY is recorded as the last event before the state lookup throws; a
   * second ANY is then a repeat and is ignored without throwing.
   */
  method AnyEventScenario() returns (first: bool, second: bool, state: State, last: LastEvent)
    ensures first && !second
    ensures state == Stopped && last == Last(Any)
  {
    var r := new LifecycleRegistry();
    r.AddObserver(7);
    var t := r.HandleLifecycleEvent(OnStop);
    first := r.HandleLifecycleEvent(Any);
    second := r.HandleLifecycleEvent(Any);
    state := r.GetCurrentState();
    last := r.lastEvent;
  }
}
