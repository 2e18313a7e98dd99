/**
 * Model of the back-press dispatcher as its tests pin it down: an ordered
 * stack of callbacks; a dispatch runs the handler of the most recently added
 * enabled callback; handlers may disable or remove themselves and dispatch
 * again; and a callback may be bound to an owner's lifecycle so that it is
 * registered only while the owner is started.
 *
 * Handler bodies are restricted to the three scripts the tests use: count;
 * count then remove self; count then disable self and dispatch again.
 */
module BackPress {
  import opened Wrappers
  import opened Seqs

  /** What a callback's handler does after incrementing its count. */
  datatype Behaviour = Counting | CountingThenRemove | CountingThenPassThrough

  /** The value of one callback: its enabled flag, its count, its script. */
  datatype Cb = Cb(enabled: bool, count: nat, behaviour: Behaviour)

  predicate HasEnabled(cbs: seq<Cb>)
  {
    exists i :: 0 <= i < |cbs| && cbs[i].enabled
  }

  function EnabledCount(cbs: seq<Cb>): nat
  {
    if cbs == [] then 0 else (if cbs[0].enabled then 1 else 0) + EnabledCount(cbs[1..])
  }

  /**
   * Replacing one callback's value changes the number of enabled callbacks
   * only by the change in that callback's flag.
   */
  lemma {:induction false} EnabledCountUpdate(cbs: seq<Cb>, k: nat, c: Cb)
    requires k < |cbs|
    ensures EnabledCount(cbs[k := c]) ==
            EnabledCount(cbs) - (if cbs[k].enabled then 1 else 0) + (if c.enabled then 1 else 0)
  {
    if k == 0 {
      assert cbs[k := c][1..] == cbs[1..];
    } else {
      EnabledCountUpdate(cbs[1..], k - 1, c);
      assert cbs[k := c][1..] == cbs[1..][k - 1 := c];
    }
  }

  /**
   * The callback a dispatch picks: the most recently added (highest index)
   * enabled one, or none when nothing is enabled.
   */
  function TopEnabled(cbs: seq<Cb>): (r: Option<nat>)
    ensures r.None? <==> !HasEnabled(cbs)
    ensures r.Some? ==> r.value < |cbs| && cbs[r.value].enabled
    ensures r.Some? ==> forall j :: r.value < j < |cbs| ==> !cbs[j].enabled
  {
    if cbs == [] then None
    else if cbs[|cbs| - 1].enabled then Some(|cbs| - 1)
    else
      var r := TopEnabled(cbs[..|cbs| - 1]);
      assert forall j :: 0 <= j < |cbs| - 1 ==> cbs[..|cbs| - 1][j] == cbs[j];
      r
  }

  /**
   * The effect of one dispatch on the callbacks registered when it starts:
   * their values afterwards (by position) and the position of the callback
   * that removed itself, if one did.
   */
  datatype Outcome = Outcome(after: seq<Cb>, removed: Option<nat>)

  /** The handler of callback `i` ran during the dispatch from `cbs` to `after`. */
  predicate Ran(cbs: seq<Cb>, after: seq<Cb>, i: int)
  {
    0 <= i < |cbs| && i < |after| && after[i].count == cbs[i].count + 1
  }

  /**
   * One dispatch, re-entrant dispatches included. It terminates because a
   * callback that dispatches again has first disabled itself.
   */
  function Dispatch(cbs: seq<Cb>): (r: Outcome)
    decreases EnabledCount(cbs)
    ensures |r.after| == |cbs|
  {
    match TopEnabled(cbs)
    case None => Outcome(cbs, None)
    case Some(k) =>
      var ran := cbs[k].(count := cbs[k].count + 1);
      match cbs[k].behaviour
      case Counting => Outcome(cbs[k := ran], None)
      case CountingThenRemove => Outcome(cbs[k := ran], Some(k))
      case CountingThenPassThrough =>
        EnabledCountUpdate(cbs, k, PassedOn(cbs, k)[k]);
        Dispatch(PassedOn(cbs, k))
  }

  /**
   * The callbacks a pass-through handler at `k` hands the dispatch on to: its
   * own entry counted once and disabled.
   */
  function PassedOn(cbs: seq<Cb>, k: nat): (mid: seq<Cb>)
    requires k < |cbs|
    ensures |mid| == |cbs| && !mid[k].enabled && mid[k].count == cbs[k].count + 1
    ensures forall i :: 0 <= i < |cbs| && i != k ==> mid[i] == cbs[i]
  {
    cbs[k := cbs[k].(count := cbs[k].count + 1, enabled := false)]
  }

  /** A pass-through dispatch is the dispatch from what it hands on, on fewer enabled callbacks. */
  lemma PassThroughStep(cbs: seq<Cb>, k: nat)
    requires TopEnabled(cbs) == Some(k) && cbs[k].behaviour == CountingThenPassThrough
    ensures Dispatch(cbs) == Dispatch(PassedOn(cbs, k))
    ensures EnabledCount(PassedOn(cbs, k)) < EnabledCount(cbs)
  {
    EnabledCountUpdate(cbs, k, PassedOn(cbs, k)[k]);
  }

  /** Every handler runs at most once, only an enabled one runs, and no behaviour changes. */
  lemma {:induction false} DispatchRunsOnce(cbs: seq<Cb>)
    decreases EnabledCount(cbs)
    ensures var r := Dispatch(cbs);
      && (forall i :: 0 <= i < |cbs| ==> r.after[i].behaviour == cbs[i].behaviour)
      && (forall i :: 0 <= i < |cbs| ==> r.after[i].count == cbs[i].count || Ran(cbs, r.after, i))
      && (forall i :: Ran(cbs, r.after, i) ==> cbs[i].enabled)
  {
    match TopEnabled(cbs)
    case None =>
    case Some(k) =>
      if cbs[k].behaviour == CountingThenPassThrough {
        var mid := PassedOn(cbs, k);
        PassThroughStep(cbs, k);
        DispatchRunsOnce(mid);
        assert !Ran(mid, Dispatch(mid).after, k);
      }
  }

  /** Some handler runs exactly when some callback is enabled, and the top one always does. */
  lemma {:induction false} DispatchReachesTop(cbs: seq<Cb>)
    ensures var r := Dispatch(cbs);
      && (HasEnabled(cbs) <==> exists i :: Ran(cbs, r.after, i))
      && (TopEnabled(cbs).Some? ==> Ran(cbs, r.after, TopEnabled(cbs).value))
  {
    match TopEnabled(cbs)
    case None =>
    case Some(k) =>
      if cbs[k].behaviour == CountingThenPassThrough {
        var mid := PassedOn(cbs, k);
        PassThroughStep(cbs, k);
        DispatchRunsOnce(mid);
        assert !Ran(mid, Dispatch(mid).after, k);
      }
      assert Ran(cbs, Dispatch(cbs).after, k);
  }

  /** An earlier callback runs only if every later enabled one ran and passed the dispatch on. */
  lemma {:induction false} DispatchPriority(cbs: seq<Cb>)
    decreases EnabledCount(cbs)
    ensures var r := Dispatch(cbs);
      forall i, j :: Ran(cbs, r.after, j) && j < i < |cbs| && cbs[i].enabled ==>
        Ran(cbs, r.after, i) && cbs[i].behaviour == CountingThenPassThrough
  {
    match TopEnabled(cbs)
    case None =>
    case Some(k) =>
      if cbs[k].behaviour == CountingThenPassThrough {
        var mid := PassedOn(cbs, k);
        PassThroughStep(cbs, k);
        DispatchPriority(mid);
        DispatchRunsOnce(mid);
        var r := Dispatch(mid);
        assert !Ran(mid, r.after, k);
        assert Ran(cbs, r.after, k);
        assert forall i :: 0 <= i < |cbs| && i != k ==> (Ran(cbs, r.after, i) <==> Ran(mid, r.after, i));
      }
  }

  /** Only a pass-through handler changes an enabled flag: its own, to false. */
  lemma {:induction false} DispatchFlags(cbs: seq<Cb>)
    decreases EnabledCount(cbs)
    ensures var r := Dispatch(cbs);
      forall i :: 0 <= i < |cbs| ==>
        r.after[i].enabled ==
        (cbs[i].enabled && !(Ran(cbs, r.after, i) && cbs[i].behaviour == CountingThenPassThrough))
  {
    match TopEnabled(cbs)
    case None =>
    case Some(k) =>
      if cbs[k].behaviour == CountingThenPassThrough {
        var mid := PassedOn(cbs, k);
        PassThroughStep(cbs, k);
        DispatchFlags(mid);
        DispatchRunsOnce(mid);
        var r := Dispatch(mid);
        assert !Ran(mid, r.after, k);
        assert Ran(cbs, r.after, k);
        assert forall i :: 0 <= i < |cbs| && i != k ==> (Ran(cbs, r.after, i) <==> Ran(mid, r.after, i));
      }
  }

  /** The callback reported removed is exactly the self-removing one that ran. */
  lemma {:induction false} DispatchRemoval(cbs: seq<Cb>)
    decreases EnabledCount(cbs)
    ensures var r := Dispatch(cbs);
      && (r.removed.Some? ==> Ran(cbs, r.after, r.removed.value) &&
                              cbs[r.removed.value].behaviour == CountingThenRemove)
      && (forall i :: Ran(cbs, r.after, i) && cbs[i].behaviour == CountingThenRemove ==>
            r.removed == Some(i))
  {
    match TopEnabled(cbs)
    case None =>
    case Some(k) =>
      if cbs[k].behaviour == CountingThenPassThrough {
        var mid := PassedOn(cbs, k);
        PassThroughStep(cbs, k);
        DispatchRemoval(mid);
        DispatchRunsOnce(mid);
        var r := Dispatch(mid);
        assert !Ran(mid, r.after, k);
        assert forall i :: 0 <= i < |cbs| && i != k ==> (Ran(cbs, r.after, i) <==> Ran(mid, r.after, i));
      }
  }

  /** What every dispatch guarantees, whatever the scripts of the callbacks. */
  lemma DispatchProperties(cbs: seq<Cb>)
    ensures var r := Dispatch(cbs);
      && (forall i :: 0 <= i < |cbs| ==> r.after[i].behaviour == cbs[i].behaviour)
      // every handler runs at most once, and only an enabled one runs
      && (forall i :: 0 <= i < |cbs| ==> r.after[i].count == cbs[i].count || Ran(cbs, r.after, i))
      && (forall i :: Ran(cbs, r.after, i) ==> cbs[i].enabled)
      // some handler runs exactly when some callback is enabled; the top one always does
      && (HasEnabled(cbs) <==> exists i :: Ran(cbs, r.after, i))
      && (TopEnabled(cbs).Some? ==> Ran(cbs, r.after, TopEnabled(cbs).value))
      // priority: an earlier callback runs only if every later enabled one ran and passed through
      && (forall i, j :: Ran(cbs, r.after, j) && j < i < |cbs| && cbs[i].enabled ==>
            Ran(cbs, r.after, i) && cbs[i].behaviour == CountingThenPassThrough)
      // only a pass-through handler changes an enabled flag: its own, to false
      && (forall i :: 0 <= i < |cbs| ==>
            r.after[i].enabled ==
            (cbs[i].enabled && !(Ran(cbs, r.after, i) && cbs[i].behaviour == CountingThenPassThrough)))
      // the callback removed is exactly the self-removing one that ran
      && (r.removed.Some? ==> Ran(cbs, r.after, r.removed.value) &&
                              cbs[r.removed.value].behaviour == CountingThenRemove)
      && (forall i :: Ran(cbs, r.after, i) && cbs[i].behaviour == CountingThenRemove ==>
            r.removed == Some(i))
  {
    DispatchRunsOnce(cbs);
    DispatchReachesTop(cbs);
    DispatchPriority(cbs);
    DispatchFlags(cbs);
    DispatchRemoval(cbs);
  }

  /**
   * Without pass-through handlers a dispatch runs exactly one handler, that of
   * the most recently added enabled callback, and leaves every other callback
   * as it was.
   */
  lemma {:induction false} MostRecentEnabledWins(cbs: seq<Cb>)
    requires forall i :: 0 <= i < |cbs| ==> cbs[i].behaviour != CountingThenPassThrough
    ensures forall i :: 0 <= i < |cbs| ==> (Ran(cbs, Dispatch(cbs).after, i) <==> TopEnabled(cbs) == Some(i))
    ensures forall i :: 0 <= i < |cbs| && TopEnabled(cbs) != Some(i) ==> Dispatch(cbs).after[i] == cbs[i]
  {
    DispatchProperties(cbs);
  }

  /**
   * A pass-through handler on top hands the dispatch to the next enabled
   * callback below it: both run once, the pass-through one ends disabled, and
   * nothing else changes.
   */
  lemma {:induction false} PassThroughFallsThrough(cbs: seq<Cb>, k: nat, j: nat)
    requires TopEnabled(cbs) == Some(k) && cbs[k].behaviour == CountingThenPassThrough
    requires j < k && cbs[j].enabled && cbs[j].behaviour == Counting
    requires forall i :: j < i < k ==> !cbs[i].enabled
    ensures Dispatch(cbs).removed == None
    ensures Dispatch(cbs).after[k] == cbs[k].(count := cbs[k].count + 1, enabled := false)
    ensures Dispatch(cbs).after[j] == cbs[j].(count := cbs[j].count + 1)
    ensures forall i :: 0 <= i < |cbs| && i != j && i != k ==> Dispatch(cbs).after[i] == cbs[i]
  {
    var mid := PassedOn(cbs, k);
    PassThroughStep(cbs, k);
    assert mid[j].enabled && HasEnabled(mid);
    assert forall i :: j < i < |mid| ==> !mid[i].enabled;
    assert TopEnabled(mid) == Some(j);
  }

  /** The stack after a dispatch: the self-removed callback spliced out. */
  function Without<T>(s: seq<T>, removed: Option<nat>): seq<T>
  {
    if removed.Some? && removed.value < |s| then s[..removed.value] + s[removed.value + 1..] else s
  }

  /**
   * The test's CountingOnBackPressedCallback: an enabled flag (true unless
   * stated), a count of handler runs, and a scripted handler.
   */
  class CountingCallback {
    var enabled: bool
    var count: nat
    const behaviour: Behaviour

    constructor (enabled: bool, behaviour: Behaviour)
      ensures this.enabled == enabled && count == 0 && this.behaviour == behaviour
    {
      this.enabled := enabled;
      count := 0;
      this.behaviour := behaviour;
    }

    /** `isEnabled = b`, allowed at any time, including inside the handler. */
    method SetEnabled(b: bool)
      modifies this
      ensures enabled == b && count == old(count)
    {
      enabled := b;
    }
  }

  /** The values of a sequence of callbacks. */
  ghost function Snap(s: seq<CountingCallback>): (r: seq<Cb>)
    reads s
    ensures |r| == |s|
    ensures forall i :: 0 <= i < |s| ==> r[i] == Cb(s[i].enabled, s[i].count, s[i].behaviour)
  {
    seq(|s|, i reads s requires 0 <= i < |s| => Cb(s[i].enabled, s[i].count, s[i].behaviour))
  }

  class Dispatcher {
    /** Registered callbacks, oldest first; dispatch scans from the end. */
    var stack: seq<CountingCallback>

    ghost predicate Valid()
      reads this
    {
      Distinct(stack)
    }

    constructor ()
      ensures Valid() && stack == []
    {
      stack := [];
    }

    /** Registers `c` at the most recent position. */
    method AddCallback(c: CountingCallback)
      requires Valid() && c !in stack
      modifies this
      ensures Valid() && stack == old(stack) + [c]
    {
      stack := stack + [c];
    }

    /** Deletes `c` from the stack; a callback not registered is ignored. */
    method RemoveCallback(c: CountingCallback)
      requires Valid()
      modifies this
      ensures Valid() && stack == Remove(old(stack), c)
    {
      RemoveKeepsDistinct(stack, c);
      stack := Remove(stack, c);
    }

    /** Whether any registered callback is currently enabled. */
    method HasEnabledCallbacks() returns (b: bool)
      ensures b == HasEnabled(Snap(stack))
    {
      var i := 0;
      b := false;
      while i < |stack|
        invariant 0 <= i <= |stack|
        invariant !b <==> forall j :: 0 <= j < i ==> !stack[j].enabled
      {
        if stack[i].enabled {
          b := true;
        }
        i := i + 1;
      }
    }

    /**
     * The scan of a dispatch: the position of the most recently added enabled
     * callback, if there is one.
     */
    method FindTopEnabled() returns (r: Option<nat>)
      ensures r == TopEnabled(Snap(stack))
    {
      var i := |stack|;
      while i > 0 && !stack[i - 1].enabled
        invariant 0 <= i <= |stack|
        invariant forall j :: i <= j < |stack| ==> !stack[j].enabled
      {
        i := i - 1;
      }
      r := if i == 0 then None else Some(i - 1);
      ghost var top := TopEnabled(Snap(stack));
      assert top.Some? ==> top.value < i;
      assert r.Some? ==> top.Some? && top.value >= i - 1;
    }

    /**
     * Runs the handler of the most recently added enabled callback, scanning
     * the live stack afresh.
     */
    method OnBackPressed()
      requires Valid()
      modifies this, stack
      decreases EnabledCount(Snap(stack)), 1
      ensures Valid()
      ensures Snap(old(stack)) == Dispatch(old(Snap(stack))).after
      ensures stack == Without(old(stack), Dispatch(old(Snap(stack))).removed)
    {
      var top := FindTopEnabled();
      if top.None? {
        assert !HasEnabled(Snap(stack));
        return;
      }
      var k := top.value;
      match stack[k].behaviour
      case Counting =>
        ghost var pre := Snap(stack);
        HandleCounting(k);
        assert Dispatch(pre) == Outcome(Snap(stack), None);
      case CountingThenRemove => HandleCountingThenRemove(k);
      case CountingThenPassThrough => HandleCountingThenPassThrough(k);
    }

    /**
     * The counting handler, `count++`, run on the callback at position `k`;
     * the other two scripts begin by calling it.
     */
    method HandleCounting(k: nat)
      requires Valid() && k < |stack|
      modifies stack[k]
      ensures stack == old(stack)
      ensures Snap(stack) == old(Snap(stack))[k := old(Snap(stack))[k].(count := old(Snap(stack))[k].count + 1)]
    {
      var c := stack[k];
      c.count := c.count + 1;
      assert forall j :: 0 <= j < |stack| && j != k ==> stack[j] != c;
    }

    /** A handler that counts and then removes its own callback. */
    method HandleCountingThenRemove(k: nat)
      requires Valid() && TopEnabled(Snap(stack)) == Some(k)
      requires stack[k].behaviour == CountingThenRemove
      modifies this, stack[k]
      ensures Valid()
      ensures Snap(old(stack)) == Dispatch(old(Snap(stack))).after
      ensures stack == Without(old(stack), Dispatch(old(Snap(stack))).removed)
    {
      ghost var pre := Snap(stack);
      HandleCounting(k);
      assert Dispatch(pre) == Outcome(Snap(stack), Some(k));
      RemoveSelf(k);
    }

    /** The handler's `remove()`: deletes the callback at position `k`. */
    method RemoveSelf(k: nat)
      requires Valid() && k < |stack|
      modifies this
      ensures Valid() && stack == Without(old(stack), Some(k))
    {
      RemoveAt(stack, k);
      RemoveCallback(stack[k]);
    }

    /**
     * The pass-through handler: counts, sets its own `isEnabled` to false and
     * dispatches again, so the next enabled callback below it runs.
     */
    method HandleCountingThenPassThrough(k: nat)
      requires Valid() && TopEnabled(Snap(stack)) == Some(k)
      requires stack[k].behaviour == CountingThenPassThrough
      modifies this, stack
      decreases EnabledCount(Snap(stack)), 0
      ensures Valid()
      ensures Snap(old(stack)) == Dispatch(old(Snap(stack))).after
      ensures stack == Without(old(stack), Dispatch(old(Snap(stack))).removed)
    {
      ghost var pre := Snap(stack);
      var c := stack[k];
      c.count := c.count + 1;
      c.SetEnabled(false);
      assert Snap(stack) == PassedOn(pre, k) by {
        assert forall j :: 0 <= j < |stack| && j != k ==> stack[j] != c;
      }
      PassThroughStep(pre, k);
      OnBackPressed();
    }
  }

  /** The abstract lifecycle state of a callback's owner. */
  datatype OwnerPhase = NotStarted | Started | Destroyed

  /**
   * Ties one callback's membership in a dispatcher to its owner's lifecycle:
   * present while the owner is started, removed when it stops, and detached
   * for good (`cancelled`) once the owner is destroyed.
   */
  class LifecycleBinding {
    const dispatcher: Dispatcher
    const callback: CountingCallback
    var cancelled: bool

    constructor (d: Dispatcher, c: CountingCallback, cancelled: bool)
      ensures dispatcher == d && callback == c && this.cancelled == cancelled
    {
      dispatcher := d;
      callback := c;
      this.cancelled := cancelled;
    }

    /** A cancelled binding keeps its callback out of the dispatcher. */
    ghost predicate Detached()
      reads this, dispatcher
    {
      cancelled ==> callback !in dispatcher.stack
    }

    /** The owner reports its new lifecycle state. */
    method OnOwnerChanged(phase: OwnerPhase)
      requires dispatcher.Valid()
      modifies this, dispatcher
      ensures dispatcher.Valid()
      ensures old(Detached()) ==> Detached()
      ensures old(cancelled) ==> cancelled && dispatcher.stack == old(dispatcher.stack)
      ensures !old(cancelled) && phase == Started ==>
                !cancelled && dispatcher.stack == PutIfAbsent(old(dispatcher.stack), callback)
      ensures !old(cancelled) && phase == NotStarted ==>
                !cancelled && dispatcher.stack == Remove(old(dispatcher.stack), callback)
      ensures !old(cancelled) && phase == Destroyed ==>
                cancelled && dispatcher.stack == Remove(old(dispatcher.stack), callback)
    {
      if cancelled {
        return;
      }
      match phase
      case Started =>
        if callback !in dispatcher.stack {
          dispatcher.AddCallback(callback);
        }
      case NotStarted =>
        dispatcher.RemoveCallback(callback);
      case Destroyed =>
        dispatcher.RemoveCallback(callback);
        cancelled := true;
    }

    /** The removal handle: removes the callback and cancels the binding. */
    method Cancel()
      requires dispatcher.Valid()
      modifies this, dispatcher
      ensures dispatcher.Valid() && Detached() && cancelled
      ensures dispatcher.stack == Remove(old(dispatcher.stack), callback)
    {
      dispatcher.RemoveCallback(callback);
      cancelled := true;
    }
  }

  /**
   * `addCallback(owner, callback)`: binds `c` to an owner in state `phase`. An
   * owner already destroyed gets a binding that is cancelled from the start; a
   * started owner has the callback registered at once.
   */
  method AddCallbackWithOwner(d: Dispatcher, phase: OwnerPhase, c: CountingCallback)
    returns (b: LifecycleBinding)
    requires d.Valid() && c !in d.stack
    modifies d
    ensures fresh(b) && b.dispatcher == d && b.callback == c
    ensures d.Valid() && b.Detached()
    ensures b.cancelled <==> phase == Destroyed
    ensures d.stack == if phase == Started then old(d.stack) + [c] else old(d.stack)
  {
    b := new LifecycleBinding(d, c, phase == Destroyed);
    if phase == Started {
      d.AddCallback(c);
    }
  }
}
