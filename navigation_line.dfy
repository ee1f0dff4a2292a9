/**
 The navigation-line object itself: the module-level variables become fields that the
 operations update in place. Each operation is tied to the matching step of
 `NavigationModel`, where its consequences over whole traces are proved.

 A wrapped call is split into `BeginGuard` (taking the lock) and `EndGuard` (rescheduling
 the unlock), so that a caller can run the callback's own effects — `SetX`,
 `OnSelectionChange`, further wrapped calls — between the two.
 */
module NavigationLine {
  import opened NavigationModel

  class CurrentVerticalNavigationLine {
    var x: Option<int>
    var locked: bool
    var pending: Option<nat>
    var nextId: nat

    /** The fields as a value of the pure model. */
    function Snapshot(): State
      reads this
    {
      State(x, locked, pending, nextId)
    }

    ghost predicate Valid()
      reads this
    {
      Inv(Snapshot())
    }

    /** Module load: no remembered column, unlocked, no unlock scheduled. */
    constructor ()
      ensures Valid() && Quiescent(Snapshot())
      ensures x == None && !locked && pending == None
      ensures Snapshot() == Init()
    {
      x := None;
      locked := false;
      pending := None;
      nextId := 0;
    }

    /** Reads the lock flag. */
    method GetIsLocked() returns (r: bool)
      ensures r <==> locked
    {
      r := locked;
    }

    /** Reads the remembered column. */
    method GetX() returns (r: Option<int>)
      ensures r == x
    {
      r := x;
    }

    /** Overwrites the column with any value; the lock and the pending unlock stay. */
    method SetX(v: int)
      requires Valid()
      modifies this
      ensures Valid()
      ensures x == Some(v)
      ensures locked == old(locked) && pending == old(pending) && nextId == old(nextId)
      ensures Snapshot() == Apply(old(Snapshot()), Action.SetX(v))
    {
      x := Some(v);
    }

    /** Forgets the column; nothing else changes. */
    method ResetX()
      requires Valid()
      modifies this
      ensures Valid()
      ensures x == None
      ensures locked == old(locked) && pending == old(pending) && nextId == old(nextId)
      ensures Snapshot() == Apply(old(Snapshot()), Action.ResetX)
    {
      x := None;
    }

    /** The `selectionchange` handler: forgets the column only when the lock is not held. */
    method OnSelectionChange()
      requires Valid()
      modifies this
      ensures Valid()
      ensures old(locked) ==> x == old(x)
      ensures !old(locked) ==> x == None
      ensures locked == old(locked) && pending == old(pending) && nextId == old(nextId)
      ensures Snapshot() == Apply(old(Snapshot()), SelectionChange)
    {
      var isLocked := GetIsLocked();
      if isLocked {
        return;
      }
      ResetX();
    }

    /** The scheduler runs the deferred unlock with handle `id`. Only the pending handle
        acts: it releases the lock and clears the handle, leaving the column. */
    method FireUnlock(id: nat)
      requires Valid()
      modifies this
      ensures Valid()
      ensures old(pending) == Some(id) ==> !locked && pending == None
      ensures old(pending) != Some(id) ==> locked == old(locked) && pending == old(pending)
      ensures x == old(x) && nextId == old(nextId)
      ensures Snapshot() == Step(old(Snapshot()), Event.FireUnlock(id))
    {
      if pending == Some(id) {
        locked := false;
        pending := None;
      }
    }

    /** Start of a wrapped call: the lock is taken before the callback runs. */
    method BeginGuard()
      requires Valid()
      modifies this
      ensures Valid()
      ensures locked
      ensures x == old(x) && pending == old(pending) && nextId == old(nextId)
      ensures Snapshot() == NavigationModel.BeginGuard(old(Snapshot()))
    {
      locked := true;
    }

    /** End of a wrapped call: the pending unlock, if any, is cancelled and one new unlock
        is scheduled under a handle never issued before. */
    method EndGuard()
      requires Valid()
      modifies this
      ensures Valid()
      ensures pending == Some(old(nextId)) && nextId == old(nextId) + 1
      ensures old(pending).Some? ==> pending != old(pending)
      ensures x == old(x) && locked == old(locked)
      ensures Snapshot() == NavigationModel.EndGuard(old(Snapshot()))
    {
      pending := Some(nextId);
      nextId := nextId + 1;
    }

    /** A call of `withLock(cb)` with `args`, for a callback that does not touch this
        object: the arguments reach the callback unchanged and its result is returned
        unchanged; on return the lock is held and exactly the freshly scheduled unlock is
        pending. */
    method WithLock<A, R>(cb: A -> R, args: A) returns (r: R)
      requires Valid()
      modifies this
      ensures Valid() && Quiescent(Snapshot())
      ensures r == cb(args)
      ensures locked && pending == Some(old(nextId)) && nextId == old(nextId) + 1
      ensures x == old(x)
      ensures Snapshot() == Apply(old(Snapshot()), Guarded([]))
    {
      BeginGuard();
      r := cb(args);
      EndGuard();
    }
  }

  /** Drives one object through `setX(100)`, an unlocked selection change, `setX(100)` again,
      a wrapped call whose callback causes a selection change (run between `BeginGuard` and
      `EndGuard`), the scheduled unlock, and one more selection change. */
  method SelectionScenario() returns (afterUnlocked: Option<int>, afterGuarded: Option<int>,
                                      lockedOnReturn: bool, afterRelease: Option<int>)
    ensures afterUnlocked == None
    ensures afterGuarded == Some(100) && lockedOnReturn
    ensures afterRelease == None
  {
    var nav := new CurrentVerticalNavigationLine();
    nav.SetX(100);
    nav.OnSelectionChange();
    afterUnlocked := nav.GetX();

    nav.SetX(100);
    nav.BeginGuard();
    nav.OnSelectionChange();
    nav.EndGuard();
    afterGuarded := nav.GetX();
    lockedOnReturn := nav.GetIsLocked();

    nav.FireUnlock(nav.nextId - 1);
    nav.OnSelectionChange();
    afterRelease := nav.GetX();
  }
}
