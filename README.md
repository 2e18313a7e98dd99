# Back-press dispatching and lifecycle registry, modelled in Dafny

This project models two small, single-threaded components of the AndroidX code base.

**The back-press dispatcher.** It keeps an ordered stack of callbacks. Each callback has a mutable enabled flag, which is true unless stated. `onBackPressed()` runs the handler of the most recently added callback that is enabled. `hasEnabledCallbacks()` reports whether any registered callback is enabled. `removeCallback()` deletes a callback, even from inside that callback's own handler. A callback can also be bound to a lifecycle owner: it is then registered only while the owner is started, removed when the owner stops, and detached for good once the owner is destroyed. The dispatcher's own source is not part of this model. Its behaviour is taken from the assertions of `OnBackPressedDispatcherTest.kt`, and handler bodies are limited to the three scripts that test uses:
- count (`CountingOnBackPressedCallback`);
- count, then remove itself;
- count, then disable itself and dispatch again.

**`LifecycleRegistry`.** It holds a current state and the last event it received. It maps each event to a state. It keeps an insertion-ordered set of observers with put-if-absent and remove. On every new, non-repeated event it notifies each observer once.

Files:
- `wrappers.dfy`: the `Option` datatype.
- `seqs.dfy`: insertion-ordered collections of distinct keys. Both components use them: the registry's observer set and the dispatcher's stack.
- `lifecycle_registry.dfy`: the registry, as the class `Lifecycle.LifecycleRegistry` with the pure `StateAfter` switch beside it.
- `lifecycle_scenarios.dfy`: the registry's documented behaviour replayed on concrete observers.
- `back_press_dispatcher.dfy`: the dispatcher, in two layers.
  - A value-level specification: `Dispatch` over snapshots of the callbacks, and the lemmas about it.
  - The imperative model: the classes `CountingCallback`, `Dispatcher` and `LifecycleBinding`. `OnBackPressed` and the three scripted handlers are proved against `Dispatch`; `HasEnabledCallbacks` and `FindTopEnabled` are proved equal to `HasEnabled` and `TopEnabled` of a snapshot of the stack.
- `back_press_scenarios.dfy`: every dispatcher test, replayed. Each method's postcondition is that test's expectations.

Re-entrant dispatch terminates because a pass-through handler disables itself before it dispatches again. The number of enabled callbacks is the `decreases` measure.

## Model

| member | source | states |
|---|---|---|
| Seqs.PutIfAbsent | lifecycle/runtime/src/main/java/com/android/support/lifecycle/LifecycleRegistry.java:88-90 | A key already present leaves the collection unchanged, same size. A new key is appended after the old keys, which keep their order, and the size grows by one. Distinctness is preserved. |
| Seqs.Remove | lifecycle/runtime/src/main/java/com/android/support/lifecycle/LifecycleRegistry.java:93-95 | As a multiset, the result is the input with every copy of the key dropped and every other key kept with its multiplicity. The key is gone, and an absent key leaves the collection unchanged. |
| Seqs.RemoveKeepsDistinct | lifecycle/runtime/src/main/java/com/android/support/lifecycle/LifecycleRegistry.java:93-95 | Over distinct keys, removal keeps the keys distinct, and removing a present key shrinks the size by exactly one. |
| Seqs.RemoveAt | lifecycle/runtime/src/main/java/com/android/support/lifecycle/LifecycleRegistry.java:93-95 | Over distinct keys, removing the key at index k splices out exactly that position. The others keep their order. |
| Lifecycle.StateAfter | lifecycle/runtime/src/main/java/com/android/support/lifecycle/LifecycleRegistry.java:113-130 | Both directions: STOPPED exactly for ON_CREATE/ON_STOP, STARTED exactly for ON_START/ON_PAUSE, RESUMED exactly for ON_RESUME, DESTROYED exactly for ON_DESTROY. ANY has no state (the throw). No event yields INITIALIZED. |
| Lifecycle.Notifications | lifecycle/runtime/src/main/java/com/android/support/lifecycle/LifecycleRegistry.java:82-84 | One notification per observer. The i-th goes to the i-th registered observer and carries the event. |
| Lifecycle.NotifiedExactlyOnce | lifecycle/runtime/src/main/java/com/android/support/lifecycle/LifecycleRegistry.java:82-84 | Over distinct observers, each registered observer receives the event exactly once. Nobody else is notified, and no other event is delivered. |
| Lifecycle.LifecycleRegistry.constructor | lifecycle/runtime/src/main/java/com/android/support/lifecycle/LifecycleRegistry.java:62-65 | A new registry is INITIALIZED, has seen no event, and has no observers and no notifications. |
| Lifecycle.LifecycleRegistry.HandleLifecycleEvent | lifecycle/runtime/src/main/java/com/android/support/lifecycle/LifecycleRegistry.java:75-85 | A repeat of the last event changes nothing and notifies nobody. Any other event becomes the last event. ANY then throws, leaving the state unchanged and notifying nobody. Otherwise the state becomes `StateAfter(event)` and the trace grows by one notification per observer, in registration order. The observer set is unchanged. It keeps the registry invariant: observers are distinct, and the state is the one the last event leads to unless that event was ANY. |
| Lifecycle.LifecycleRegistry.NotifyObservers | lifecycle/runtime/src/main/java/com/android/support/lifecycle/LifecycleRegistry.java:82-84 | The notification loop: the trace grows by exactly one notification of the event per registered observer, in registration order, and nothing else changes. |
| Lifecycle.LifecycleRegistry.AddObserver | lifecycle/runtime/src/main/java/com/android/support/lifecycle/LifecycleRegistry.java:88-90 | The observer set becomes its put-if-absent update. State, last event and trace are unchanged. |
| Lifecycle.LifecycleRegistry.RemoveObserver | lifecycle/runtime/src/main/java/com/android/support/lifecycle/LifecycleRegistry.java:93-95 | The observer set loses only that observer, the others keep their order, and an absent observer is a no-op. State, last event and trace are unchanged. |
| Lifecycle.LifecycleRegistry.Size | lifecycle/runtime/src/main/java/com/android/support/lifecycle/LifecycleRegistry.java:102-104 | Returns the number of registered observers. |
| Lifecycle.LifecycleRegistry.GetCurrentState | lifecycle/runtime/src/main/java/com/android/support/lifecycle/LifecycleRegistry.java:108-110 | Returns the current state. |
| LifecycleScenarios.ObserverSetScenario | lifecycle/runtime/src/main/java/com/android/support/lifecycle/LifecycleRegistry.java:88-104 | Observers 1, 2, 1 added: size 2. After removing 1: size 1. After removing 1 again: still size 1, and only observer 2 remains. |
| LifecycleScenarios.EventScenario | lifecycle/runtime/src/main/java/com/android/support/lifecycle/LifecycleRegistry.java:62-85 | With observers 1 and 2, the states read INITIALIZED, then STOPPED after ON_CREATE, STOPPED after a repeated ON_CREATE, and STARTED after ON_START. The trace is exactly 1 and 2 notified of ON_CREATE, then 1 and 2 notified of ON_START. Nothing throws. |
| LifecycleScenarios.AnyEventScenario | lifecycle/runtime/src/main/java/com/android/support/lifecycle/LifecycleRegistry.java:75-130 | After ON_STOP, ANY throws but is recorded as the last event, and the state stays STOPPED. A second ANY is then a repeat and does not throw. |
| BackPress.EnabledCountUpdate | activity/src/androidTest/java/androidx/activity/OnBackPressedDispatcherTest.kt:168-173 | Replacing one callback changes the number of enabled callbacks only by the change in its flag. So a handler that disables itself before dispatching again lowers the measure. |
| BackPress.TopEnabled | activity/src/androidTest/java/androidx/activity/OnBackPressedDispatcherTest.kt:128-161 | None exactly when no callback is enabled. Otherwise the position of an enabled callback with no enabled callback added after it. |
| BackPress.Dispatch | activity/src/androidTest/java/androidx/activity/OnBackPressedDispatcherTest.kt:112-186 | The effect of one dispatch, nested dispatches included, on the callbacks registered when it starts: it covers every one of them. Its properties are in DispatchProperties and the lemmas it combines. |
| BackPress.PassedOn | activity/src/androidTest/java/androidx/activity/OnBackPressedDispatcherTest.kt:167-174 | What a pass-through handler hands on: its own entry counted once and disabled, and every other entry unchanged. |
| BackPress.PassThroughStep | activity/src/androidTest/java/androidx/activity/OnBackPressedDispatcherTest.kt:167-174 | A pass-through dispatch equals the dispatch from what it hands on, which has strictly fewer enabled callbacks. |
| BackPress.DispatchRunsOnce | activity/src/androidTest/java/androidx/activity/OnBackPressedDispatcherTest.kt:112-186 | In every dispatch each handler runs at most once, only an enabled one runs, and no callback's script changes. |
| BackPress.DispatchReachesTop | activity/src/androidTest/java/androidx/activity/OnBackPressedDispatcherTest.kt:128-161 | Some handler runs exactly when some callback is enabled, and the most recent enabled one always runs. |
| BackPress.DispatchPriority | activity/src/androidTest/java/androidx/activity/OnBackPressedDispatcherTest.kt:128-186 | An earlier callback runs only if every later enabled callback ran and passed the dispatch on. |
| BackPress.DispatchFlags | activity/src/androidTest/java/androidx/activity/OnBackPressedDispatcherTest.kt:145-186 | A callback's enabled flag after the dispatch is its flag before, cleared exactly when it ran a pass-through handler. |
| BackPress.DispatchRemoval | activity/src/androidTest/java/androidx/activity/OnBackPressedDispatcherTest.kt:82-110 | The callback reported removed ran and is self-removing, and any self-removing callback that ran is the one reported. |
| BackPress.DispatchProperties | activity/src/androidTest/java/androidx/activity/OnBackPressedDispatcherTest.kt:112-186 | In every dispatch, each handler runs at most once, and only an enabled one runs. Some handler runs exactly when some callback is enabled, and the most recent enabled one always runs. An earlier callback runs only if every later enabled one ran and passed through. Only a pass-through handler clears a flag, and only its own. The removed callback is exactly the self-removing one that ran. |
| BackPress.MostRecentEnabledWins | activity/src/androidTest/java/androidx/activity/OnBackPressedDispatcherTest.kt:128-161 | Without pass-through handlers, exactly the most recent enabled callback runs, and every other callback is left as it was. |
| BackPress.PassThroughFallsThrough | activity/src/androidTest/java/androidx/activity/OnBackPressedDispatcherTest.kt:163-186 | A pass-through handler on top runs once and ends disabled. The next enabled counting callback below it runs once. Nothing else changes and nothing is removed. |
| BackPress.CountingCallback.constructor | activity/src/androidTest/java/androidx/activity/OnBackPressedDispatcherTest.kt:304-307 | A new callback has the given enabled flag (true unless stated), count 0 and its script. |
| BackPress.CountingCallback.SetEnabled | activity/src/androidTest/java/androidx/activity/OnBackPressedDispatcherTest.kt:171 | `isEnabled = b` sets the flag and leaves the count unchanged. |
| BackPress.Dispatcher.constructor | activity/src/androidTest/java/androidx/activity/OnBackPressedDispatcherTest.kt:36-39 | A new dispatcher has no callbacks. |
| BackPress.Dispatcher.AddCallback | activity/src/androidTest/java/androidx/activity/OnBackPressedDispatcherTest.kt:46 | The callback is pushed at the most recent position, and the others keep their order. |
| BackPress.Dispatcher.RemoveCallback | activity/src/androidTest/java/androidx/activity/OnBackPressedDispatcherTest.kt:70 | Only that callback leaves the stack, the others keep their order, and removing an unregistered callback is a no-op. |
| BackPress.Dispatcher.HasEnabledCallbacks | activity/src/androidTest/java/androidx/activity/OnBackPressedDispatcherTest.kt:47-49 | Equals `HasEnabled` of the current callbacks: true exactly when some registered callback is enabled at the time of the call. |
| BackPress.Dispatcher.FindTopEnabled | activity/src/androidTest/java/androidx/activity/OnBackPressedDispatcherTest.kt:148-160 | The scan returns `TopEnabled` of the current callbacks: None exactly when nothing is enabled, otherwise the enabled position with nothing enabled after it, so disabled callbacks are skipped. |
| BackPress.Dispatcher.OnBackPressed | activity/src/androidTest/java/androidx/activity/OnBackPressedDispatcherTest.kt:50-53 | The callbacks registered at the call end as `Dispatch` of their snapshot. The stack loses exactly the callback that removed itself, if any. |
| BackPress.Dispatcher.HandleCounting | activity/src/androidTest/java/androidx/activity/OnBackPressedDispatcherTest.kt:309-311 | The counting step every scripted handler starts with: the picked callback's count rises by one, every other callback is unchanged, and the stack is unchanged. `OnBackPressed` shows that for a counting handler this is `Dispatch`. |
| BackPress.Dispatcher.HandleCountingThenRemove | activity/src/androidTest/java/androidx/activity/OnBackPressedDispatcherTest.kt:85-90 | Counting and then `removeCallback()` from inside the handler agrees with `Dispatch`: the callback counts and leaves the stack. |
| BackPress.Dispatcher.RemoveSelf | activity/src/androidTest/java/androidx/activity/OnBackPressedDispatcherTest.kt:85-90 | `removeCallback()` from inside a handler: the stack loses exactly the callback at the given position, and the others keep their order. |
| BackPress.Dispatcher.HandleCountingThenPassThrough | activity/src/androidTest/java/androidx/activity/OnBackPressedDispatcherTest.kt:167-174 | Counting, `isEnabled = false` and a nested `onBackPressed()` agree with `Dispatch`. |
| BackPress.LifecycleBinding.constructor | activity/src/androidTest/java/androidx/activity/OnBackPressedDispatcherTest.kt:200 | A binding records its dispatcher, its callback and whether it starts cancelled. |
| BackPress.LifecycleBinding.OnOwnerChanged | activity/src/androidTest/java/androidx/activity/OnBackPressedDispatcherTest.kt:210-240 | A cancelled binding ignores everything. Otherwise: a started owner registers the callback at the most recent position if it is absent. A stopped owner removes it. A destroyed owner removes it and cancels the binding for good. |
| BackPress.LifecycleBinding.Cancel | activity/src/androidTest/java/androidx/activity/OnBackPressedDispatcherTest.kt:200 | The removal handle of a callback registered with an owner: the callback leaves the stack and the binding is cancelled. |
| BackPress.AddCallbackWithOwner | activity/src/androidTest/java/androidx/activity/OnBackPressedDispatcherTest.kt:200 | Binding to a started owner registers the callback at once. Binding to a not-started owner registers nothing yet. Binding to a destroyed owner gives a binding cancelled from the start. |
| BackPressScenarios.AddCallbackScenario | activity/src/androidTest/java/androidx/activity/OnBackPressedDispatcherTest.kt:41-54 | After one add, `hasEnabledCallbacks()` is true, and one dispatch gives count 1. |
| BackPressScenarios.RemoveCallbackScenario | activity/src/androidTest/java/androidx/activity/OnBackPressedDispatcherTest.kt:56-80 | Count 1 after one dispatch. After `removeCallback()`, nothing is enabled, and a further dispatch leaves the count at 1. |
| BackPressScenarios.RemoveCallbackInCallbackScenario | activity/src/androidTest/java/androidx/activity/OnBackPressedDispatcherTest.kt:82-110 | The same as RemoveCallbackScenario, with the removal made by the handler itself during the first dispatch. |
| BackPressScenarios.MultipleCallsScenario | activity/src/androidTest/java/androidx/activity/OnBackPressedDispatcherTest.kt:112-126 | Two dispatches give count 2. |
| BackPressScenarios.MostRecentGetsPriorityScenario | activity/src/androidTest/java/androidx/activity/OnBackPressedDispatcherTest.kt:128-143 | The callback added last counts 1; the earlier one counts 0. |
| BackPressScenarios.DisabledListenerScenario | activity/src/androidTest/java/androidx/activity/OnBackPressedDispatcherTest.kt:145-161 | The disabled callback on top counts 0; the earlier enabled one counts 1. |
| BackPressScenarios.PassThroughListenerScenario | activity/src/androidTest/java/androidx/activity/OnBackPressedDispatcherTest.kt:163-186 | The pass-through callback and the earlier callback each count exactly 1. |
| BackPressScenarios.LifecycleCallbackScenario | activity/src/androidTest/java/androidx/activity/OnBackPressedDispatcherTest.kt:188-241 | Across the four dispatches (before ON_START, after ON_START, after ON_STOP, after ON_DESTROY), the plain callback counts 1, 1, 2, 3 and the bound one counts 0, 1, 1, 1. |
| BackPressScenarios.LifecycleCallbackDestroyedScenario | activity/src/androidTest/java/androidx/activity/OnBackPressedDispatcherTest.kt:243-273 | Bound to a created owner, the callback is never reported as enabled: not before, not after ON_DESTROY, and not after a later ON_START. |
| BackPressScenarios.LifecycleCallbackWhenDestroyedScenario | activity/src/androidTest/java/androidx/activity/OnBackPressedDispatcherTest.kt:275-301 | Bound to an already destroyed owner, the callback is never reported as enabled, even after a later ON_START. |
| BackPressScenarios.CancelBoundScenario | activity/src/androidTest/java/androidx/activity/OnBackPressedDispatcherTest.kt:200 | For a callback registered with a started owner as on this line, cancelling its handle makes `hasEnabledCallbacks()` false, and it stays false after a later start of the owner. No test removes a bound callback; this replays the handle's documented effect. |

## Left out

- `Lifecycling.getCallback` (LifecycleRegistry.java:89) is a reflection-based adapter factory. Observers are opaque ids, and each `onStateChanged` call is a trace entry rather than a call.
- The internals of `SafeIterableMap` are not part of this model, including how it behaves under mutation during traversal. It is an insertion-ordered sequence of distinct keys, and observers never call back into the registry while it notifies them.
- The `@State` and `@Event` constants become datatypes. Their numeric values are defined in the `Lifecycle` interface, which is not part of this model. An `int` event outside the named constants, which the switch would also reject, cannot be expressed.
- Lifecycle.LifecycleRegistry.constructor: `mLastEvent` starts at Java's default value 0, which the model calls `NoEvent`, distinct from every event. The model therefore assumes that no event constant equals 0, so the first event a registry receives is always accepted. If some constant were 0, that event would be swallowed as a repeat when it comes first.
- Synthesising intermediate events is only a TODO in the source. Each accepted event makes exactly one state change.
- The `LifecycleProvider` passed to the constructor and to `onStateChanged` is left out.
- The dispatcher's tests drive their owner through `androidx.lifecycle.LifecycleRegistry`, which is not the registry modelled here. The owner's lifecycle is fed to `LifecycleBinding.OnOwnerChanged` as an abstract phase: not started, started, or destroyed. The scenarios map ON_CREATE and ON_STOP to not started, ON_START to started, and ON_DESTROY to destroyed.
- Handler bodies are limited to the three scripts the tests use. Arbitrary caller-supplied handlers cannot be modelled.
- The test harness and the Activity/Window back-key plumbing are left out. The harness is the runner, the UI-thread annotation, `@Before` and the Truth assertions.
- BackPress.Dispatcher.AddCallback: requires that the callback is not already registered. The tests never register a callback twice, and the dispatcher's source, which would say what happens then, is not part of this model.
- BackPress.AddCallbackWithOwner: requires that the callback is not already registered, in every phase, although a not-started or destroyed owner registers nothing. The tests only bind fresh callbacks.
- BackPress.Dispatcher.RemoveSelf: a callback bound to an owner that calls `removeCallback()` from inside its own handler only leaves the stack; its `LifecycleBinding` is not cancelled, so a later start of the owner registers it again. The callback holds no link to its binding in this model, and no test removes a bound callback.
- `removeCallback()` on a callback removes it from the one dispatcher the tests use: `Dispatcher.RemoveCallback`, or `LifecycleBinding.Cancel` for a bound callback. A callback registered with several dispatchers at once is not modelled.
