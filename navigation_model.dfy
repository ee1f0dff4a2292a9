/**
 The remembered vertical-navigation column as a pure state machine.

 The module-level state of the navigation line is a remembered column `x`, a lock flag and
 the handle of the one pending deferred unlock. The host's deferred-task scheduler is made
 explicit: every scheduled unlock gets a fresh numeric handle from a counter, and the
 scheduler running that unlock is the event `FireUnlock(id)`, which only acts when `id` is
 still the pending handle (a cancelled handle never fires).

 Events split in two kinds. An `Action` is synchronous: a call of `setX`, `resetX`, a
 selection change, or a call of a `withLock`-wrapped function whose callback performs a
 sequence of actions. A `FireUnlock` happens only between synchronous turns, never inside a
 callback, so it is an `Event` and not an `Action`.
 */
module NavigationModel {

  datatype Option<+T> = None | Some(value: T)

  /** x: remembered column; locked: the guard flag; pending: handle of the scheduled unlock;
      nextId: the handle the scheduler will hand out next. */
  datatype State = State(x: Option<int>, locked: bool, pending: Option<nat>, nextId: nat)

  /** Synchronous operations. `Guarded(body)` is one call of a wrapped function whose
      callback performs `body`. */
  datatype Action =
    | SetX(v: int)
    | ResetX
    | SelectionChange
    | Guarded(body: seq<Action>)

  /** What can happen at the top level: a synchronous action, or the scheduler running the
      deferred unlock with handle `id`. */
  datatype Event = Do(action: Action) | FireUnlock(id: nat)

  /** The pending handle, if any, was issued by the scheduler already. */
  ghost predicate Inv(s: State) {
    s.pending.Some? ==> s.pending.value < s.nextId
  }

  /** Between top-level events the lock is held exactly when an unlock is pending. */
  ghost predicate Quiescent(s: State) {
    s.locked <==> s.pending.Some?
  }

  /** Handle `h` was issued and is no longer the pending one: it was cancelled or has fired. */
  ghost predicate Cancelled(s: State, h: nat) {
    Inv(s) && h < s.nextId && s.pending != Some(h)
  }

  /** The state at module load: no column, unlocked, nothing scheduled. */
  function Init(): (s: State)
    ensures Inv(s) && Quiescent(s)
  {
    State(None, false, None, 0)
  }

  /** First step of a wrapped call: the lock is taken before the callback runs. */
  function BeginGuard(s: State): (r: State)
    ensures r.locked
    ensures r.x == s.x && r.pending == s.pending && r.nextId == s.nextId
  {
    s.(locked := true)
  }

  /** Last step of a wrapped call: the pending unlock (if any) is cancelled and a new one is
      scheduled under a fresh handle. The lock flag itself is not touched here. */
  function EndGuard(s: State): (r: State)
    ensures Inv(r) && r.pending.Some? && r.pending.value >= s.nextId
    ensures forall h: nat :: h < s.nextId ==> Cancelled(r, h)
    ensures r.x == s.x && r.locked == s.locked
  {
    s.(pending := Some(s.nextId), nextId := s.nextId + 1)
  }

  /** The scheduler runs the unlock with handle `id`; only the pending one does anything. */
  function Fire(s: State, id: nat): (r: State)
    ensures s.pending == Some(id) ==> !r.locked && r.pending == None
    ensures s.pending != Some(id) ==> r == s
    ensures r.x == s.x && r.nextId == s.nextId
    ensures Inv(s) ==> Inv(r)
    ensures Quiescent(s) ==> Quiescent(r)
  {
    if s.pending == Some(id) then s.(locked := false, pending := None) else s
  }

  /** The `selectionchange` reaction: forget the column unless the lock is held. */
  function OnSelectionChange(s: State): (r: State)
    ensures s.locked ==> r == s
    ensures !s.locked ==> r.x == None
    ensures r.locked == s.locked && r.pending == s.pending && r.nextId == s.nextId
  {
    if s.locked then s else s.(x := None)
  }

  /** Effect of one synchronous action. No action releases the lock, and no action makes
      any handle pending other than a freshly issued one. */
  function Apply(s: State, a: Action): (r: State)
    decreases a
    ensures r.nextId >= s.nextId
    ensures s.locked ==> r.locked
    ensures r.pending == s.pending || (r.pending.Some? && s.nextId <= r.pending.value < r.nextId)
    ensures Inv(s) ==> Inv(r)
  {
    match a
    case SetX(v) => s.(x := Some(v))
    case ResetX => s.(x := None)
    case SelectionChange => OnSelectionChange(s)
    case Guarded(body) => EndGuard(ApplyAll(BeginGuard(s), body))
  }

  /** Effect of a sequence of synchronous actions, in order. */
  function ApplyAll(s: State, acts: seq<Action>): (r: State)
    decreases acts
    ensures r.nextId >= s.nextId
    ensures s.locked ==> r.locked
    ensures r.pending == s.pending || (r.pending.Some? && s.nextId <= r.pending.value < r.nextId)
    ensures Inv(s) ==> Inv(r)
  {
    if acts == [] then s else ApplyAll(Apply(s, acts[0]), acts[1..])
  }

  /** One top-level event. Every event keeps the handle discipline and, between events, the
      lock is held exactly when an unlock is pending. */
  function Step(s: State, e: Event): (r: State)
    ensures Inv(s) ==> Inv(r)
    ensures Inv(s) && Quiescent(s) ==> Quiescent(r)
  {
    match e
    case Do(a) => Apply(s, a)
    case FireUnlock(id) => Fire(s, id)
  }

  /** The state after a trace of top-level events. */
  function Run(s: State, es: seq<Event>): (r: State)
    decreases |es|
    ensures r.nextId >= s.nextId
    ensures Inv(s) ==> Inv(r)
  {
    if es == [] then s else Run(Step(s, es[0]), es[1..])
  }

  /** How many steps of the trace turn a held lock into a released one. */
  function Unlocks(s: State, es: seq<Event>): nat
    decreases |es|
  {
    if es == [] then 0
    else
      var t := Step(s, es[0]);
      (if s.locked && !t.locked then 1 else 0) + Unlocks(t, es[1..])
  }

  /** The action writes the column only through selection changes (no setX/resetX). */
  predicate Quiet(a: Action)
    decreases a
  {
    match a
    case SetX(_) => false
    case ResetX => false
    case SelectionChange => true
    case Guarded(body) => AllQuiet(body)
  }

  predicate AllQuiet(acts: seq<Action>)
    decreases acts
  {
    acts == [] || (Quiet(acts[0]) && AllQuiet(acts[1..]))
  }

  /** The column as callers leave it: the last `setX`/`resetX` wins, selection changes are
      ignored, and nested wrapped calls count with their bodies. */
  function LastX(x0: Option<int>, a: Action): Option<int>
    decreases a
  {
    match a
    case SetX(v) => Some(v)
    case ResetX => None
    case SelectionChange => x0
    case Guarded(body) => LastXAll(x0, body)
  }

  function LastXAll(x0: Option<int>, acts: seq<Action>): Option<int>
    decreases acts
  {
    if acts == [] then x0 else LastXAll(LastX(x0, acts[0]), acts[1..])
  }

  /** The column as callers leave it over a trace: `LastX` of every synchronous event in
      order; scheduler steps do not write it. */
  function LastXTrace(x0: Option<int>, es: seq<Event>): Option<int>
    decreases |es|
  {
    if es == [] then x0
    else
      var x1 := match es[0] case Do(a) => LastX(x0, a) case FireUnlock(_) => x0;
      LastXTrace(x1, es[1..])
  }

  /** No step of the trace runs the handle that is pending at that moment. */
  predicate NoPendingFire(s: State, es: seq<Event>)
    decreases |es|
  {
    es == []
    || (!(es[0].FireUnlock? && s.pending == Some(es[0].id)) && NoPendingFire(Step(s, es[0]), es[1..]))
  }

  predicate AllFires(es: seq<Event>) {
    forall i :: 0 <= i < |es| ==> es[i].FireUnlock?
  }

  // ---------------------------------------------------------------------------------------
  // Single operations
  // ---------------------------------------------------------------------------------------

  /** setX overwrites the column with any value and touches nothing else; a later getX
      reads it back. */
  lemma SetXThenGet(s: State, v: int)
    ensures Apply(s, SetX(v)).x == Some(v)
    ensures Apply(s, SetX(v)) == s.(x := Some(v))
  {
  }

  /** resetX makes the column absent and touches nothing else. */
  lemma ResetXThenGet(s: State)
    ensures Apply(s, ResetX).x == None
    ensures Apply(s, ResetX) == s.(x := None)
  {
  }

  /** A selection change clears the column when unlocked and is a no-op when locked. */
  lemma SelectionChangeEffect(s: State)
    ensures !s.locked ==> Apply(s, SelectionChange) == s.(x := None)
    ensures s.locked ==> Apply(s, SelectionChange) == s
  {
  }

  /** Firing the pending unlock releases the lock and clears the handle, leaving the column;
      firing any other handle changes nothing. */
  lemma FireEffect(s: State, id: nat)
    ensures s.pending == Some(id) ==> Fire(s, id) == s.(locked := false, pending := None)
    ensures s.pending != Some(id) ==> Fire(s, id) == s
    ensures Fire(s, id).x == s.x
  {
  }

  // ---------------------------------------------------------------------------------------
  // Guarded calls
  // ---------------------------------------------------------------------------------------

  /** When a wrapped call returns, the lock is held and exactly one unlock is pending, under
      a handle never issued before the call; every handle issued before the call (in
      particular the one pending when it started) is cancelled. */
  lemma GuardedCallEnds(s: State, body: seq<Action>)
    requires Inv(s)
    ensures var r := Apply(s, Guarded(body));
      && r.locked
      && r.pending == Some(r.nextId - 1)
      && r.nextId - 1 >= s.nextId
      && Inv(r) && Quiescent(r)
      && forall h: nat :: h < s.nextId ==> Cancelled(r, h)
  {
  }

  /** Inside a locked region, actions that do not write the column leave it as it was. */
  lemma {:induction false} LockedQuietKeepsX(s: State, a: Action)
    requires s.locked && Quiet(a)
    ensures Apply(s, a).x == s.x
    decreases a
  {
    match a
    case SelectionChange =>
    case Guarded(body) =>
      LockedQuietAllKeepsX(BeginGuard(s), body);
  }

  lemma {:induction false} LockedQuietAllKeepsX(s: State, acts: seq<Action>)
    requires s.locked && AllQuiet(acts)
    ensures ApplyAll(s, acts).x == s.x
    decreases acts
  {
    if acts != [] {
      LockedQuietKeepsX(s, acts[0]);
      LockedQuietAllKeepsX(Apply(s, acts[0]), acts[1..]);
    }
  }

  /** Inside a locked region the column is exactly what the callers' own writes leave:
      selection changes never forget it. */
  lemma {:induction false} LockedWritesX(s: State, a: Action)
    requires s.locked
    ensures Apply(s, a).x == LastX(s.x, a)
    decreases a
  {
    match a
    case SetX(_) =>
    case ResetX =>
    case SelectionChange =>
    case Guarded(body) =>
      LockedWritesAllX(BeginGuard(s), body);
  }

  lemma {:induction false} LockedWritesAllX(s: State, acts: seq<Action>)
    requires s.locked
    ensures ApplyAll(s, acts).x == LastXAll(s.x, acts)
    decreases acts
  {
    if acts != [] {
      LockedWritesX(s, acts[0]);
      LockedWritesAllX(Apply(s, acts[0]), acts[1..]);
    }
  }

  /** Because the lock is taken before the callback runs, selection changes dispatched while
      the callback runs (directly or through nested wrapped calls) never forget the column,
      whether or not the lock was held before the call: after the call the column is what
      the callback's own `setX`/`resetX` calls left, and unchanged if it made none.
      Selection changes queued by the host to run after the call are top-level events;
      `HeldUntilPendingFires` covers them. */
  lemma GuardedSelectionKeepsX(s: State, body: seq<Action>)
    ensures Apply(s, Guarded(body)).x == LastXAll(s.x, body)
    ensures AllQuiet(body) ==> Apply(s, Guarded(body)).x == s.x
  {
    LockedWritesAllX(BeginGuard(s), body);
    if AllQuiet(body) {
      LockedQuietAllKeepsX(BeginGuard(s), body);
    }
  }

  /** Splitting off the last action of a sequence. */
  lemma {:induction false} ApplyAllSnoc(s: State, acts: seq<Action>)
    requires acts != []
    ensures ApplyAll(s, acts) == Apply(ApplyAll(s, acts[..|acts| - 1]), acts[|acts| - 1])
    decreases |acts|
  {
    if |acts| > 1 {
      var t := Apply(s, acts[0]);
      ApplyAllSnoc(t, acts[1..]);
      assert acts[1..][..|acts| - 2] == acts[..|acts| - 1][1..];
    } else {
      assert acts[..0] == [];
    }
  }

  // ---------------------------------------------------------------------------------------
  // Traces
  // ---------------------------------------------------------------------------------------

  /** In every reachable state the lock is never stuck (for callbacks that return
      normally): if it is held, an unlock is pending, and the scheduler running that unlock
      releases it. */
  lemma {:induction false} ReachableNeverStuck(s: State, es: seq<Event>)
    requires Inv(s) && Quiescent(s)
    ensures var t := Run(s, es);
      && Inv(t) && Quiescent(t)
      && (t.locked ==> t.pending.Some? && !Fire(t, t.pending.value).locked)
    decreases |es|
  {
    if es != [] {
      ReachableNeverStuck(Step(s, es[0]), es[1..]);
    }
  }

  /** While the lock is held and no step runs the handle pending at that moment, the lock
      stays held, nothing releases it, and the column is exactly what the callers' own
      writes leave: a selection change queued after a wrapped call keeps the column if it
      runs before the pending unlock. */
  lemma {:induction false} HeldUntilPendingFires(s: State, es: seq<Event>)
    requires s.locked && NoPendingFire(s, es)
    ensures Run(s, es).locked && Unlocks(s, es) == 0
    ensures Run(s, es).x == LastXTrace(s.x, es)
    decreases |es|
  {
    if es != [] {
      match es[0] {
        case Do(a) => LockedWritesX(s, a);
        case FireUnlock(_) =>
      }
      HeldUntilPendingFires(Step(s, es[0]), es[1..]);
    }
  }

  /** Dropping the first event keeps a trace made only of scheduler steps. */
  lemma AllFiresTail(es: seq<Event>)
    requires es != [] && AllFires(es)
    ensures es[0].FireUnlock? && AllFires(es[1..])
  {
    forall i | 0 <= i < |es[1..]| ensures es[1..][i].FireUnlock? {
      assert es[1..][i] == es[i + 1];
    }
  }

  /** A cancelled handle stays cancelled whatever happens afterwards, so the scheduler
      running it never has any effect. */
  lemma {:induction false} CancelledNeverFires(s: State, es: seq<Event>, h: nat)
    requires Cancelled(s, h)
    ensures Cancelled(Run(s, es), h)
    ensures Step(Run(s, es), FireUnlock(h)) == Run(s, es)
    decreases |es|
  {
    if es != [] {
      CancelledNeverFires(Step(s, es[0]), es[1..], h);
    }
  }

  /** Scheduler steps on a state with nothing pending change nothing. */
  lemma {:induction false} FiresWhenIdle(s: State, es: seq<Event>)
    requires s.pending == None && !s.locked && AllFires(es)
    ensures Run(s, es) == s && Unlocks(s, es) == 0
    decreases |es|
  {
    if es != [] {
      AllFiresTail(es);
      FiresWhenIdle(s, es[1..]);
    }
  }

  /** With the lock held and handle `h` pending, a run of scheduler steps releases the lock
      exactly once if `h` is among them and never otherwise; the column is untouched. */
  lemma {:induction false} OnlyPendingHandleUnlocks(s: State, es: seq<Event>, h: nat)
    requires s.locked && s.pending == Some(h) && AllFires(es)
    ensures Unlocks(s, es) == (if FireUnlock(h) in es then 1 else 0)
    ensures Run(s, es).locked <==> FireUnlock(h) !in es
    ensures Run(s, es).x == s.x
    decreases |es|
  {
    if es != [] {
      AllFiresTail(es);
      assert es == [es[0]] + es[1..];
      var t := Step(s, es[0]);
      if es[0] == FireUnlock(h) {
        FiresWhenIdle(t, es[1..]);
      } else {
        assert es[0].FireUnlock? && es[0].id != h;
        assert t == s;
        OnlyPendingHandleUnlocks(s, es[1..], h);
      }
    }
  }

  /** A burst of synchronous actions ending in a wrapped call leaves exactly one unlock
      pending, the one scheduled by the last call; whatever the scheduler does afterwards,
      the lock goes from held to released at most once, and exactly once when that last
      handle runs. */
  lemma BurstUnlocksOnce(s: State, acts: seq<Action>, es: seq<Event>)
    requires Inv(s) && acts != [] && acts[|acts| - 1].Guarded? && AllFires(es)
    ensures var r := ApplyAll(s, acts);
      var h := r.nextId - 1;
      && r.locked && r.pending == Some(h) && h >= s.nextId
      && Unlocks(r, es) == (if FireUnlock(h) in es then 1 else 0)
      && Run(r, es).x == r.x
  {
    ApplyAllSnoc(s, acts);
    var before := ApplyAll(s, acts[..|acts| - 1]);
    GuardedCallEnds(before, acts[|acts| - 1].body);
    var r := ApplyAll(s, acts);
    OnlyPendingHandleUnlocks(r, es, r.nextId - 1);
  }

  /** The remembered column from the start: setX then an unlocked selection change forgets
      it; a selection change inside a wrapped call keeps it; once the unlock has run, an
      unlocked selection change forgets it again. */
  lemma SelectionTrace()
    ensures Run(Init(), [Do(SetX(100)), Do(SelectionChange)]).x == None
    ensures var s := Run(Init(), [Do(SetX(100)), Do(Guarded([SelectionChange]))]);
      && s.x == Some(100) && s.locked && s.pending == Some(0)
      && Run(s, [FireUnlock(0), Do(SelectionChange)]).x == None
  {
  }
}
