# Vertical-navigation line: a verified model

`src/currentVerticalNavigationLine.js` keeps one piece of process-wide editor state: the
horizontal column `x` a caret should snap back to while the user moves up and down through
lines. A lock flag stops the document's `selectionchange` reaction from forgetting `x`
while a guarded operation (a function wrapped by `withLock`) is running; the lock is released
by an unlock task deferred with `setImmediate`, and each new guarded call cancels the pending
unlock and schedules a fresh one.

The project has two modules:

- `NavigationModel` (`navigation_model.dfy`) is the state as a value —
  `State(x, locked, pending, nextId)` — with one function per transition, synchronous
  `Action`s (`SetX`, `ResetX`, `SelectionChange`, and `Guarded(body)` for a wrapped call whose
  callback performs `body`), top-level `Event`s (an action, or the scheduler running the
  unlock with a given handle), and traces `Run`. The deferred-task scheduler is explicit:
  handles come from the counter `nextId`, and `FireUnlock(id)` only acts when `id` is still
  the pending handle. The properties of the lock discipline are proved here as lemmas.
- `NavigationLine` (`navigation_line.dfy`) is the object with the module's variables as
  mutable fields. Every method states its whole new state and is tied to the matching step
  of `NavigationModel`. A wrapped call is split into `BeginGuard` (the lock is taken) and
  `EndGuard` (the pending unlock is replaced), so a callback's own effects can run between
  them; `WithLock` covers a callback that does not touch the object.

## Model

| member | source | states |
|---|---|---|
| `NavigationModel.Init` | src/currentVerticalNavigationLine.js:3-5 | the initial state satisfies the handle invariant and holds the lock exactly when an unlock is pending (neither) |
| `NavigationModel.Apply` | src/currentVerticalNavigationLine.js:8-36 | no synchronous operation releases the lock, the handle counter only grows, and the pending handle is either unchanged or freshly issued |
| `NavigationModel.ApplyAll` | src/currentVerticalNavigationLine.js:8-16 | the same three facts for any sequence of synchronous operations, such as a callback body |
| `NavigationModel.BeginGuard` | src/currentVerticalNavigationLine.js:9 | the first step of a wrapped call takes the lock and changes nothing else |
| `NavigationModel.EndGuard` | src/currentVerticalNavigationLine.js:11-15 | the last step of a wrapped call makes a handle pending that was never issued before, so every earlier handle (including the one pending before) is cancelled; column and lock are unchanged |
| `NavigationModel.Fire` | src/currentVerticalNavigationLine.js:12-15 | the scheduled unlock, run with the pending handle, releases the lock and clears the handle; run with any other handle it changes nothing; the column and counter are never touched; both invariants are kept |
| `NavigationModel.OnSelectionChange` | src/currentVerticalNavigationLine.js:33-36 | the `selectionchange` handler: when locked the state is unchanged; when unlocked the column becomes absent; lock, pending unlock and counter are never touched |
| `NavigationModel.Step` | src/currentVerticalNavigationLine.js:8-36 | every top-level event (a synchronous operation, or the scheduler running an unlock) keeps the handle invariant, and keeps the lock held exactly when an unlock is pending |
| `NavigationModel.Run` | src/currentVerticalNavigationLine.js:11-15 | over any trace the handle counter only grows and the pending handle is always one already issued |
| `NavigationModel.SetXThenGet` | src/currentVerticalNavigationLine.js:24-26 | after `setX(v)` the column reads back `v`; lock, pending unlock and counter are unchanged |
| `NavigationModel.ResetXThenGet` | src/currentVerticalNavigationLine.js:27-29 | after `resetX()` the column is absent and nothing else changed |
| `NavigationModel.SelectionChangeEffect` | src/currentVerticalNavigationLine.js:33-36 | a selection change clears the column when unlocked and leaves the whole state unchanged when locked |
| `NavigationModel.FireEffect` | src/currentVerticalNavigationLine.js:12-15 | running the pending unlock releases the lock and clears the handle; running any other handle changes nothing; the column is never touched |
| `NavigationModel.GuardedCallEnds` | src/currentVerticalNavigationLine.js:8-16 | when a wrapped call returns, the lock is held, exactly one unlock is pending, its handle was never issued before, and every earlier handle (including the previously pending one) is cancelled |
| `NavigationModel.LockedQuietKeepsX` | src/currentVerticalNavigationLine.js:33-35 | while locked, an operation that does not call `setX`/`resetX` (selection changes, nested wrapped calls) leaves the column unchanged |
| `NavigationModel.LockedQuietAllKeepsX` | src/currentVerticalNavigationLine.js:33-35 | the same for a sequence of such operations |
| `NavigationModel.LockedWritesX` | src/currentVerticalNavigationLine.js:33-35 | while locked, after any operation the column is exactly what the callers' own `setX`/`resetX` calls leave (`LastX`): selection changes never forget it |
| `NavigationModel.LockedWritesAllX` | src/currentVerticalNavigationLine.js:33-35 | the same for any sequence of operations |
| `NavigationModel.GuardedSelectionKeepsX` | src/currentVerticalNavigationLine.js:9-10 | because the lock is taken before the callback runs, for every callback the column after a wrapped call is what the callback's own `setX`/`resetX` calls left (unchanged if it made none), so selection changes dispatched while the callback runs never forget the column, whatever the lock was before the call |
| `NavigationModel.HeldUntilPendingFires` | src/currentVerticalNavigationLine.js:11-15 | from a locked state, over any trace in which no step runs the handle pending at that moment, the lock stays held, no release happens, and the column is what the callers' own writes leave (`LastXTrace`): selection changes queued after a wrapped call keep the column if they run before the pending unlock |
| `NavigationModel.ReachableNeverStuck` | src/currentVerticalNavigationLine.js:11-15 | for callbacks that return normally, after any trace from a state where the lock is held exactly when an unlock is pending, a held lock has a pending unlock and running it releases the lock |
| `NavigationModel.CancelledNeverFires` | src/currentVerticalNavigationLine.js:11-12 | a cancelled handle stays cancelled after any trace, so running it never has an effect |
| `NavigationModel.FiresWhenIdle` | src/currentVerticalNavigationLine.js:12-15 | with nothing pending and the lock free, scheduler steps change nothing and release nothing |
| `NavigationModel.OnlyPendingHandleUnlocks` | src/currentVerticalNavigationLine.js:11-14 | with the lock held and handle `h` pending, scheduler steps release the lock exactly once if `h` runs and never otherwise, and leave the column |
| `NavigationModel.BurstUnlocksOnce` | src/currentVerticalNavigationLine.js:8-16 | a burst of operations ending in a wrapped call leaves only the last call's unlock pending, and afterwards the lock goes from held to released exactly once, when that unlock runs |
| `NavigationModel.SelectionTrace` | src/currentVerticalNavigationLine.js:24-36 | `setX(100)` then an unlocked selection change forgets the column; a selection change inside a wrapped call keeps 100 with the lock held; after the unlock runs a selection change forgets it again |
| `NavigationLine.CurrentVerticalNavigationLine.constructor` | src/currentVerticalNavigationLine.js:3-5 | the column is absent, the lock is free and no unlock is pending |
| `NavigationLine.CurrentVerticalNavigationLine.GetIsLocked` | src/currentVerticalNavigationLine.js:18-20 | returns the lock flag and changes nothing |
| `NavigationLine.CurrentVerticalNavigationLine.GetX` | src/currentVerticalNavigationLine.js:21-23 | returns the remembered column and changes nothing |
| `NavigationLine.CurrentVerticalNavigationLine.SetX` | src/currentVerticalNavigationLine.js:24-26 | the column becomes the given value; lock, pending unlock and counter are unchanged |
| `NavigationLine.CurrentVerticalNavigationLine.ResetX` | src/currentVerticalNavigationLine.js:27-29 | the column becomes absent; nothing else changes |
| `NavigationLine.CurrentVerticalNavigationLine.OnSelectionChange` | src/currentVerticalNavigationLine.js:33-36 | when locked nothing changes; when unlocked the column becomes absent and nothing else changes |
| `NavigationLine.CurrentVerticalNavigationLine.FireUnlock` | src/currentVerticalNavigationLine.js:12-15 | the pending handle releases the lock and clears itself; any other handle changes nothing; the column is untouched |
| `NavigationLine.CurrentVerticalNavigationLine.BeginGuard` | src/currentVerticalNavigationLine.js:9 | the lock is taken and nothing else changes |
| `NavigationLine.CurrentVerticalNavigationLine.EndGuard` | src/currentVerticalNavigationLine.js:11-15 | the previous pending handle is replaced by a newly issued one; column and lock are unchanged |
| `NavigationLine.CurrentVerticalNavigationLine.WithLock` | src/currentVerticalNavigationLine.js:8-17 | the callback gets the arguments unchanged and its result is returned unchanged; on return the lock is held and only the fresh unlock is pending |
| `NavigationLine.SelectionScenario` | src/currentVerticalNavigationLine.js:24-36 | the same sequence as `SelectionTrace`, run on the object with the callback's selection change between `BeginGuard` and `EndGuard`: cleared, kept with the lock held, cleared again after the unlock |

## Left out

- The `setImmediate`/`clearImmediate` polyfill and real event-loop timing (lines 1, 11-12): the scheduler is the explicit `FireUnlock(id)` step with handles from a counter; when the scheduler runs a deferred task, and in what order relative to other host tasks, is not modelled. Scheduler steps are assumed to happen only between synchronous turns.
- The `globalThis.document` probe and the `addEventListener` registration (lines 32-33): host plumbing; only the handler body is modelled, as `OnSelectionChange`.
- Exceptions thrown by the callback. In the code the callback runs (line 10) before the unlock is rescheduled (lines 11-12), so a throwing callback leaves the lock held with no new unlock scheduled; it is released only if an earlier pending unlock happens to run. For the lock to survive a throwing callback, the rescheduling would have to run in a `finally` block; the code has none, and the model follows the code by not modelling exceptions at all.
- Dynamic typing of `x` and variadic arguments: `setX` does no validation, so the column is an opaque `int`; the callback's argument list is one value of a generic type.
- NavigationModel.GuardedSelectionKeepsX: speaks only of selection changes dispatched while the callback runs; a host that queues its `selectionchange` event to run after the wrapped call returns is a top-level event, and such an event keeps the column only if it runs before the pending unlock (`HeldUntilPendingFires`); which of the two the host runs first is not modelled.
- NavigationLine.CurrentVerticalNavigationLine.WithLock: covers only a callback that does not touch the object, because a Dafny method cannot take a method as a callback; callbacks with effects are modelled by `BeginGuard`/`EndGuard` around the effects on the object, and by `Guarded(body)` in `NavigationModel`.
