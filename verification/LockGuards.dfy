/**
 The reader/writer lock and the two kinds of scope guards over it. An acquisition that finds the lock taken does not
 return: it waits, and so far has changed nothing.
 */
module LockGuards {
  import opened Common

  /** The value of an ABT_rwlock: how many readers hold it, and whether a writer does. */
  datatype RwLock = RwLock(readers: nat, writer: bool)

  const FREE := RwLock(0, false)

  /** The two kinds of guard take the lock as its writer or as one of its readers. */
  datatype Kind = Unique | Shared

  predicate Available(l: RwLock, kind: Kind) {
    match kind case Unique => l.readers == 0 && !l.writer case Shared => !l.writer
  }

  function Held(l: RwLock, kind: Kind): RwLock {
    match kind case Unique => l.(writer := true) case Shared => l.(readers := l.readers + 1)
  }

  /** ABT_rwlock_unlock serves both kinds of holder: the writer if there is one, otherwise a reader. */
  function Unlocked(l: RwLock): RwLock {
    if l.writer then l.(writer := false) else if l.readers > 0 then l.(readers := l.readers - 1) else l
  }

  /** `m_device` and `m_owns` of a guard, for locks named by `D`. */
  datatype Guard<D> = Guard(device: Option<D>, owns: bool)

  /** The outcomes of a guard's lock() and unlock(): done, the system error they throw, or still waiting for the lock. */
  datatype Outcome = Done | NotPermitted | WouldDeadlock | Waits

  function Unassociated<D>(): Guard<D> {
    Guard(None, false)
  }

  /**
   lock() on a guard whose lock, if it has one, is `l`: the guard and the lock afterwards, and the outcome. A lock that
   cannot be taken makes the caller wait, and so far nothing has changed.
   */
  function Locking<D>(g: Guard<D>, l: RwLock, kind: Kind): (Guard<D>, RwLock, Outcome) {
    if g.device.None? then (g, l, NotPermitted)
    else if g.owns then (g, l, WouldDeadlock)
    else if Available(l, kind) then (g.(owns := true), Held(l, kind), Done)
    else (g, l, Waits)
  }

  /** Letting go of the lock `l`, by unlock(), by destruction, or on being assigned to. */
  function Releasing<D>(g: Guard<D>, l: RwLock): (Guard<D>, RwLock) {
    if g.owns && g.device.Some? then (g.(owns := false), Unlocked(l)) else (g, l)
  }

  class SharedMutex {
    var state: RwLock

    constructor ()
      ensures state == FREE
    {
      state := FREE;
    }

    /** False while the caller has to wait. */
    method Lock() returns (acquired: bool)
      modifies this
      ensures acquired <==> old(state) == FREE
      ensures state == if acquired then RwLock(0, true) else old(state)
    {
      acquired := state.readers == 0 && !state.writer;
      if acquired {
        state := state.(writer := true);
      }
    }

    /** False while the caller has to wait. */
    method LockShared() returns (acquired: bool)
      modifies this
      ensures acquired <==> !old(state).writer
      ensures state == if acquired then RwLock(old(state).readers + 1, false) else old(state)
    {
      acquired := !state.writer;
      if acquired {
        state := state.(readers := state.readers + 1);
      }
    }

    method Unlock()
      modifies this
      ensures state == Unlocked(old(state))
      ensures old(state).writer ==> state == RwLock(old(state).readers, false)
      ensures !old(state).writer && old(state).readers > 0 ==> state == RwLock(old(state).readers - 1, false)
      ensures old(state) == FREE ==> state == FREE
    {
      if state.writer {
        state := state.(writer := false);
      } else if state.readers > 0 {
        state := state.(readers := state.readers - 1);
      }
    }
  }

  class UniqueLock {
    var device: SharedMutex?
    var owns: bool

    /** The guard as a value. */
    ghost function View(): Guard<SharedMutex>
      reads this
    {
      if device == null then Guard(None, owns) else var d: SharedMutex := device; Guard(Some(d), owns)
    }

    /** The state of the guard's lock, if it has one. */
    ghost function LockState(): RwLock
      reads this, device
    {
      if device == null then FREE else device.state
    }

    constructor Default()
      ensures View() == Unassociated()
    {
      device, owns := null, false;
    }

    /** While the lock is taken the construction is not complete, and the guard owns nothing. */
    constructor (m: SharedMutex)
      modifies m
      ensures device == m
      ensures (View(), m.state) == (var (g, l, _) := Locking(Guard(Some(m), false), old(m.state), Unique); (g, l))
    {
      device, owns := m, false;
      new;
      var acquired := device.Lock();
      if acquired {
        owns := true;
      }
    }

    method Lock() returns (r: Outcome)
      modifies this`owns, device
      ensures device == old(device)
      ensures (View(), LockState(), r) == Locking(old(View()), old(LockState()), Unique)
      ensures r == NotPermitted <==> device == null
      ensures r == WouldDeadlock <==> device != null && old(owns)
      ensures r == Done <==> device != null && !old(owns) && old(LockState()) == FREE
      ensures r == Done ==> owns && LockState() == RwLock(0, true)
      ensures r != Done ==> owns == old(owns) && LockState() == old(LockState())
    {
      if device == null {
        return NotPermitted;
      } else if owns {
        return WouldDeadlock;
      }
      var acquired := device.Lock();
      if !acquired {
        return Waits;
      }
      owns := true;
      return Done;
    }

    method Unlock() returns (r: Outcome)
      modifies this`owns, device
      ensures device == old(device)
      ensures r == if old(owns) then Done else NotPermitted
      ensures (View(), LockState()) == Releasing(old(View()), old(LockState()))
      ensures r == Done && device != null && old(LockState()).writer ==>
                !owns && LockState() == RwLock(old(LockState()).readers, false)
      ensures r != Done ==> owns == old(owns) && LockState() == old(LockState())
    {
      if !owns {
        return NotPermitted;
      } else if device != null {
        device.Unlock();
        owns := false;
      }
      return Done;
    }

    method Swap(u: UniqueLock)
      modifies this, u
      ensures View() == old(u.View()) && u.View() == old(View())
    {
      device, u.device := u.device, device;
      owns, u.owns := u.owns, owns;
    }

    constructor Move(u: UniqueLock)
      modifies u
      ensures View() == old(u.View()) && u.View() == Unassociated()
    {
      device, owns := u.device, u.owns;
      new;
      u.device, u.owns := null, false;
    }

    /** operator=(unique_lock&&), which may be given the guard itself. */
    method MoveAssign(u: UniqueLock)
      modifies this, u, device
      ensures u.View() == Unassociated() && (u != this ==> View() == old(u.View()))
      ensures old(device) != null ==> old(device).state == Releasing(old(View()), old(LockState())).1
    {
      if owns {
        var _ := Unlock();
      }
      var tmp := new UniqueLock.Move(u);
      tmp.Swap(this);
      u.device, u.owns := null, false;
      if tmp.owns {
        var _ := tmp.Unlock();
      }
    }

    method Destroy()
      modifies this, device
      ensures device == old(device)
      ensures (View(), LockState()) == Releasing(old(View()), old(LockState()))
    {
      if owns {
        var _ := Unlock();
      }
    }
  }

  class SharedLock {
    var device: SharedMutex?
    var owns: bool

    /** The guard as a value. */
    ghost function View(): Guard<SharedMutex>
      reads this
    {
      if device == null then Guard(None, owns) else var d: SharedMutex := device; Guard(Some(d), owns)
    }

    /** The state of the guard's lock, if it has one. */
    ghost function LockState(): RwLock
      reads this, device
    {
      if device == null then FREE else device.state
    }

    constructor Default()
      ensures View() == Unassociated()
    {
      device, owns := null, false;
    }

    /**
     While a writer holds the lock the construction is not complete. The flag is set before the wait, but nobody sees
     it until the constructor returns.
     */
    constructor (m: SharedMutex)
      modifies m
      ensures device == m
      ensures m.state == Locking(Guard(Some(m), false), old(m.state), Shared).1
      ensures Available(old(m.state), Shared) ==> View() == Locking(Guard(Some(m), false), old(m.state), Shared).0
    {
      device, owns := m, true;
      new;
      var _ := m.LockShared();
    }

    method Lock() returns (r: Outcome)
      modifies this`owns, device
      ensures device == old(device)
      ensures (View(), LockState(), r) == Locking(old(View()), old(LockState()), Shared)
      ensures r == NotPermitted <==> device == null
      ensures r == WouldDeadlock <==> device != null && old(owns)
      ensures r == Done <==> device != null && !old(owns) && !old(LockState()).writer
      ensures r == Done ==> owns && LockState() == RwLock(old(LockState()).readers + 1, false)
      ensures r != Done ==> owns == old(owns) && LockState() == old(LockState())
    {
      if device == null {
        return NotPermitted;
      }
      if owns {
        return WouldDeadlock;
      }
      var acquired := device.LockShared();
      if !acquired {
        return Waits;
      }
      owns := true;
      return Done;
    }

    method Unlock() returns (r: Outcome)
      requires owns ==> device != null
      modifies this`owns, device
      ensures device == old(device)
      ensures r == if old(owns) then Done else WouldDeadlock
      ensures (View(), LockState()) == Releasing(old(View()), old(LockState()))
      ensures r == Done && !old(LockState()).writer && old(LockState()).readers > 0 ==>
                !owns && LockState() == RwLock(old(LockState()).readers - 1, false)
      ensures r != Done ==> owns == old(owns) && LockState() == old(LockState())
    {
      if !owns {
        return WouldDeadlock;
      }
      device.Unlock();
      owns := false;
      return Done;
    }

    method Swap(u: SharedLock)
      modifies this, u
      ensures View() == old(u.View()) && u.View() == old(View())
    {
      device, u.device := u.device, device;
      owns, u.owns := u.owns, owns;
    }

    constructor Move(sl: SharedLock)
      modifies sl
      ensures View() == old(sl.View()) && sl.View() == Unassociated()
    {
      device, owns := null, false;
      new;
      Swap(sl);
    }

    /** operator=(shared_lock&&): the temporary takes over what this guard held and releases it. */
    method MoveAssign(sl: SharedLock)
      requires owns ==> device != null
      modifies this, sl, device
      ensures View() == old(sl.View()) && (sl != this ==> sl.View() == Unassociated())
      ensures old(device) != null ==>
                old(device).state == (if sl != this then Releasing(old(View()), old(LockState())).1 else old(LockState()))
    {
      var tmp := new SharedLock.Move(sl);
      tmp.Swap(this);
      tmp.Destroy();
    }

    method Destroy()
      requires owns ==> device != null
      modifies this, device
      ensures device == old(device)
      ensures (View(), LockState()) == Releasing(old(View()), old(LockState()))
    {
      if owns {
        device.Unlock();
        owns := false;
      }
    }
  }
}
