/**
 * The dispatcher tests, replayed against the model: each method builds the
 * test's callbacks, performs its calls, and returns what the test observes;
 * its postcondition is the test's expectations.
 */
module BackPressScenarios {
  import opened Wrappers
  import opened Seqs
  import opened BackPress

  /** A fresh dispatcher holding one enabled callback of the given behaviour. */
  method SingleCallback(behaviour: Behaviour) returns (d: Dispatcher, cb: CountingCallback)
    ensures fresh(d) && fresh(cb) && d.Valid() && d.stack == [cb]
    ensures cb.enabled && cb.count == 0 && cb.behaviour == behaviour
  {
    d := new Dispatcher();
    cb := new CountingCallback(true, behaviour);
    d.AddCallback(cb);
  }

  /** Adding one enabled callback makes the dispatcher report it, and a dispatch counts once. */
  method AddCallbackScenario() returns (hasEnabled: bool, count: nat)
    ensures hasEnabled && count == 1
  {
    var d, cb := SingleCallback(Counting);
    hasEnabled := d.HasEnabledCallbacks();
    DispatchProperties(Snap(d.stack));
    d.OnBackPressed();
    count := cb.count;
  }

  /** After `removeCallback()` nothing is enabled and further dispatches leave the count alone. */
  method RemoveCallbackScenario() returns (hasBefore: bool, countBefore: nat, hasAfter: bool, countAfter: nat)
    ensures hasBefore && countBefore == 1
    ensures !hasAfter && countAfter == 1
  {
    var d, cb := SingleCallback(Counting);
    hasBefore := d.HasEnabledCallbacks();
    DispatchProperties(Snap(d.stack));
    d.OnBackPressed();
    countBefore := cb.count;
    d.RemoveCallback(cb);
    hasAfter := d.HasEnabledCallbacks();
    d.OnBackPressed();
    countAfter := cb.count;
  }

  /** The same, with the removal done by the handler itself during the first dispatch. */
  method RemoveCallbackInCallbackScenario() returns (hasBefore: bool, countBefore: nat, hasAfter: bool, countAfter: nat)
    ensures hasBefore && countBefore == 1
    ensures !hasAfter && countAfter == 1
  {
    var d, cb := SingleCallback(CountingThenRemove);
    hasBefore := d.HasEnabledCallbacks();
    DispatchProperties(Snap(d.stack));
    d.OnBackPressed();
    countBefore := cb.count;
    hasAfter := d.HasEnabledCallbacks();
    d.OnBackPressed();
    countAfter := cb.count;
  }

  /** Every dispatch runs the handler once: two dispatches, count 2. */
  method MultipleCallsScenario() returns (hasEnabled: bool, count: nat)
    ensures hasEnabled && count == 2
  {
    var d, cb := SingleCallback(Counting);
    hasEnabled := d.HasEnabledCallbacks();
    DispatchProperties(Snap(d.stack));
    d.OnBackPressed();
    DispatchProperties(Snap(d.stack));
    d.OnBackPressed();
    count := cb.count;
  }

  /** A fresh dispatcher holding `lower`, then `upper` added after it. */
  method TwoCallbacks(lowerEnabled: bool, lowerBehaviour: Behaviour, upperEnabled: bool, upperBehaviour: Behaviour)
    returns (d: Dispatcher, lower: CountingCallback, upper: CountingCallback)
    ensures fresh(d) && fresh(lower) && fresh(upper) && d.Valid() && d.stack == [lower, upper]
    ensures lower.enabled == lowerEnabled && lower.count == 0 && lower.behaviour == lowerBehaviour
    ensures upper.enabled == upperEnabled && upper.count == 0 && upper.behaviour == upperBehaviour
  {
    d := new Dispatcher();
    lower := new CountingCallback(lowerEnabled, lowerBehaviour);
    upper := new CountingCallback(upperEnabled, upperBehaviour);
    d.AddCallback(lower);
    d.AddCallback(upper);
  }

  /** Of two enabled callbacks only the one added last runs. */
  method MostRecentGetsPriorityScenario() returns (earlierCount: nat, recentCount: nat)
    ensures recentCount == 1 && earlierCount == 0
  {
    var d, earlier, recent := TwoCallbacks(true, Counting, true, Counting);
    ghost var before := Snap(d.stack);
    assert TopEnabled(before) == Some(1);
    MostRecentEnabledWins(before);
    d.OnBackPressed();
    assert Snap([earlier, recent]) == Dispatch(before).after;
    assert Dispatch(before).after[0] == before[0];
    assert Snap([earlier, recent])[0].count == earlier.count;
    earlierCount, recentCount := earlier.count, recent.count;
  }

  /** A disabled callback on top is skipped and the earlier one runs. */
  method DisabledListenerScenario() returns (enabledCount: nat, disabledCount: nat)
    ensures disabledCount == 0 && enabledCount == 1
  {
    var d, enabled, disabled := TwoCallbacks(true, Counting, false, Counting);
    ghost var before := Snap(d.stack);
    assert before[0].enabled && !before[1].enabled;
    assert TopEnabled(before) == Some(0);
    MostRecentEnabledWins(before);
    d.OnBackPressed();
    enabledCount, disabledCount := enabled.count, disabled.count;
  }

  /** A pass-through handler runs once and hands the dispatch to the earlier callback, which runs once. */
  method PassThroughListenerScenario() returns (plainCount: nat, passThroughCount: nat)
    ensures passThroughCount == 1 && plainCount == 1
  {
    var d, plain, passThrough := TwoCallbacks(true, Counting, true, CountingThenPassThrough);
    PassThroughFallsThrough(Snap(d.stack), 1, 0);
    d.OnBackPressed();
    plainCount, passThroughCount := plain.count, passThrough.count;
  }

  /**
   * A dispatch over counting callbacks whose most recent one is enabled: that
   * one counts once and nothing else changes.
   */
  method DispatchToTop(d: Dispatcher)
    requires d.Valid() && |d.stack| > 0 && d.stack[|d.stack| - 1].enabled
    requires forall i :: 0 <= i < |d.stack| ==> d.stack[i].behaviour == Counting
    modifies d, d.stack
    ensures d.Valid() && d.stack == old(d.stack)
    ensures d.stack[|d.stack| - 1].count == old(d.stack[|d.stack| - 1].count) + 1
    ensures forall i :: 0 <= i < |d.stack| - 1 ==> d.stack[i].count == old(d.stack[i].count)
    ensures forall i :: 0 <= i < |d.stack| ==> d.stack[i].enabled == old(d.stack[i].enabled)
  {
    ghost var before := Snap(d.stack);
    assert TopEnabled(before) == Some(|before| - 1);
    MostRecentEnabledWins(before);
    DispatchProperties(before);
    d.OnBackPressed();
  }

  /** One dispatch to a dispatcher holding only `plain`. */
  method DispatchAlone(d: Dispatcher, plain: CountingCallback)
    requires d.Valid() && d.stack == [plain] && plain.enabled && plain.behaviour == Counting
    modifies d, plain
    ensures d.Valid() && d.stack == [plain] && plain.enabled
    ensures plain.count == old(plain.count) + 1
  {
    DispatchToTop(d);
  }

  /** One dispatch to a dispatcher holding `plain` below `bound`: only `bound` runs. */
  method DispatchAbove(d: Dispatcher, plain: CountingCallback, bound: CountingCallback)
    requires d.Valid() && d.stack == [plain, bound]
    requires plain.enabled && plain.behaviour == Counting
    requires bound.enabled && bound.behaviour == Counting
    modifies d, plain, bound
    ensures d.Valid() && d.stack == [plain, bound] && plain.enabled && bound.enabled
    ensures plain.count == old(plain.count) && bound.count == old(bound.count) + 1
  {
    DispatchToTop(d);
    assert d.stack[0] == plain;
  }

  /**
   * A plain callback, then a callback bound to an owner that is created but
   * not started; one dispatch reaches only the plain callback.
   */
  method BoundBeforeStart()
    returns (d: Dispatcher, plain: CountingCallback, bound: CountingCallback, binding: LifecycleBinding)
    ensures d.Valid() && d.stack == [plain] && plain != bound
    ensures plain.enabled && plain.behaviour == Counting && plain.count == 1
    ensures bound.enabled && bound.behaviour == Counting && bound.count == 0
    ensures binding.dispatcher == d && binding.callback == bound && !binding.cancelled
    ensures fresh(d) && fresh(plain) && fresh(bound) && fresh(binding)
  {
    d := new Dispatcher();
    plain := new CountingCallback(true, Counting);
    bound := new CountingCallback(true, Counting);
    d.AddCallback(plain);
    binding := AddCallbackWithOwner(d, NotStarted, bound);
    DispatchAlone(d, plain);
  }

  /**
   * A callback bound to an owner is skipped until the owner starts, takes
   * priority while it is started, and is skipped again once the owner stops
   * and once it is destroyed; the plain callback takes every other dispatch.
   * The i-th entry of each result is observed after the i-th dispatch.
   */
  method LifecycleCallbackScenario()
    returns (plainCounts: (nat, nat, nat, nat), boundCounts: (nat, nat, nat, nat))
    ensures plainCounts == (1, 1, 2, 3) && boundCounts == (0, 1, 1, 1)
  {
    var d, plain, bound, binding := BoundBeforeStart();
    var p1, b1 := plain.count, bound.count;

    binding.OnOwnerChanged(Started);     // ON_START
    assert d.stack == [plain, bound];
    DispatchAbove(d, plain, bound);
    var p2, b2 := plain.count, bound.count;
    assert p2 == 1 && b2 == 1;

    RemoveAt(d.stack, 1);
    binding.OnOwnerChanged(NotStarted);  // ON_STOP
    assert d.stack == [plain];
    DispatchAlone(d, plain);
    var p3, b3 := plain.count, bound.count;
    assert p3 == 2 && b3 == 1;

    binding.OnOwnerChanged(Destroyed);   // ON_DESTROY
    assert d.stack == [plain];
    DispatchAlone(d, plain);
    var p4, b4 := plain.count, bound.count;
    assert p4 == 3 && b4 == 1;
    plainCounts, boundCounts := (p1, p2, p3, p4), (b1, b2, b3, b4);
  }

  /**
   * A callback bound to a created (not started) owner is never reported as
   * enabled: not before, not after the owner is destroyed, and not when the
   * destroyed owner afterwards reports a start.
   */
  method LifecycleCallbackDestroyedScenario() returns (hasEnabled: seq<bool>)
    ensures hasEnabled == [false, false, false]
  {
    var d := new Dispatcher();
    var cb := new CountingCallback(true, Counting);
    var binding := AddCallbackWithOwner(d, NotStarted, cb);  // owner after ON_CREATE
    var h := d.HasEnabledCallbacks();
    hasEnabled := [h];
    binding.OnOwnerChanged(Destroyed);
    h := d.HasEnabledCallbacks();
    hasEnabled := hasEnabled + [h];
    binding.OnOwnerChanged(Started);
    h := d.HasEnabledCallbacks();
    hasEnabled := hasEnabled + [h];
  }

  /**
   * Binding to an owner that is already destroyed registers nothing, even if
   * the owner later reports a start.
   */
  method LifecycleCallbackWhenDestroyedScenario() returns (hasEnabled: seq<bool>)
    ensures hasEnabled == [false, false]
  {
    var d := new Dispatcher();
    var cb := new CountingCallback(true, Counting);
    var binding := AddCallbackWithOwner(d, Destroyed, cb);
    var h := d.HasEnabledCallbacks();
    hasEnabled := [h];
    binding.OnOwnerChanged(Started);
    h := d.HasEnabledCallbacks();
    hasEnabled := hasEnabled + [h];
  }

  /**
   * Removing a callback registered with a started owner through its handle:
   * it leaves the dispatcher, and a later start of the owner does not bring
   * it back.
   */
  method CancelBoundScenario() returns (hasEnabled: seq<bool>)
    ensures hasEnabled == [true, false, false]
  {
    var d := new Dispatcher();
    var cb := new CountingCallback(true, Counting);
    var binding := AddCallbackWithOwner(d, Started, cb);
    var h := d.HasEnabledCallbacks();
    hasEnabled := [h];
    binding.Cancel();
    assert d.stack == [];
    h := d.HasEnabledCallbacks();
    hasEnabled := hasEnabled + [h];
    binding.OnOwnerChanged(Started);
    h := d.HasEnabledCallbacks();
    hasEnabled := hasEnabled + [h];
  }
}
