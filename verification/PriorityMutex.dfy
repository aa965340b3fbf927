/** The two-class lock of `myutils.PriorityMutex`: one mutex, one condition variable per class,
    a waiter counter per class and the class that is currently active.

    A `Session` is one lock call of a class, from the request to the matching unlock; sessions are
    numbered separately in each class.  Every method of the
    source runs its body under the one mutex and gives it up only inside `Wait`, so the model's
    atomic steps are: a call up to its return or its first `Wait`; a return from `Wait` up to the
    method's return or the next `Wait`; an unlock.  The methods below are those steps; each is
    proved equal to a transition function written once for both classes. */
module PriorityLock {

  type Session = nat

  datatype Class = High | Low

  /** One class: its waiter counter, the sessions asleep on its condition variable, those woken
      that have not run yet, and those that hold the lock. */
  datatype Side = Side(waiters: int, asleep: set<Session>, awake: set<Session>, holding: set<Session>) {
    ghost predicate Idle(t: Session) {
      t !in asleep && t !in awake && t !in holding
    }
  }

  /** `activePriority` as one class sees it. */
  datatype Active = NoOne | Mine | Theirs

  /** The lock as one class sees it. The two classes run mirror-image code, so every step is
      defined once, from the point of view of the class that takes it. */
  datatype State = State(active: Active, mine: Side, theirs: Side) {
    /** The same lock as the other class sees it. */
    function Flip(): State {
      State(match active case NoOne => NoOne case Mine => Theirs case Theirs => Mine, theirs, mine)
    }

    /** Between the view of the high class and the view of class `c`; its own inverse. */
    function For(c: Class): State {
      if c.High? then this else Flip()
    }
  }

  const EmptySide := Side(0, {}, {}, {})
  const Fresh := State(NoOne, EmptySide, EmptySide)

  /** A lock call, up to its return or its first wait. */
  function LockStep(s: State, t: Session): State {
    if s.active == Theirs
    then s.(mine := s.mine.(waiters := s.mine.waiters + 1, asleep := s.mine.asleep + {t}))
    else s.(mine := s.mine.(holding := s.mine.holding + {t}), active := Mine)
  }

  /** A return from `Wait`: test the guard again, then acquire or go back to sleep. */
  function WakeStep(s: State, t: Session): State {
    var rest := s.mine.awake - {t};
    if s.active == Theirs
    then s.(mine := s.mine.(awake := rest, asleep := s.mine.asleep + {t}))
    else s.(mine := s.mine.(awake := rest, waiters := s.mine.waiters - 1, holding := s.mine.holding + {t}),
            active := Mine)
  }

  /** `Signal` wakes one sleeper if there is one. */
  datatype Woken = Nobody | Woke(who: Session)

  ghost predicate SignalChoice(side: Side, w: Woken) {
    match w
    case Nobody => side.asleep == {}
    case Woke(t) => t in side.asleep
  }

  function Signalled(side: Side, w: Woken): Side {
    match w
    case Nobody => side
    case Woke(t) => side.(asleep := side.asleep - {t}, awake := side.awake + {t})
  }

  function Broadcasted(side: Side): Side {
    side.(asleep := {}, awake := side.awake + side.asleep)
  }

  /** An unlock: own waiters first, then the other class, else the lock becomes free. */
  function UnlockStep(s: State, t: Session, w: Woken): State {
    var side := s.mine.(holding := s.mine.holding - {t});
    if side.waiters > 0 then
      s.(mine := Signalled(side, w))
    else if s.theirs.waiters > 0 then
      State(Theirs, side, Broadcasted(s.theirs))
    else
      State(NoOne, side, s.theirs)
  }

  /** `TryLockLowPriority`, as the low class sees it; `busy` says that `mu.TryLock` failed, which it
      may do for any reason. */
  function TryLockStep(s: State, t: Session, busy: bool): State {
    if busy || s.active != NoOne then s
    else s.(active := Mine, mine := s.mine.(holding := s.mine.holding + {t}))
  }

  /** The values of `activePriority`: "none", "high" and "low". */
  datatype Priority = NoneActive | HighActive | LowActive

  /** The lock as the source writes it. `highPriority` and `lowPriority` are the sleepers of the
      two condition variables; the ghost fields record where the woken and holding sessions are. */
  class PriorityMutex {
    var highPriority: set<Session>
    var lowPriority: set<Session>
    var highWaiters: int
    var lowWaiters: int
    var activePriority: Priority
    ghost var highAwake: set<Session>
    ghost var lowAwake: set<Session>
    ghost var highHolding: set<Session>
    ghost var lowHolding: set<Session>

    /** The fields as the high class sees them. */
    ghost function View(): State
      reads this
    {
      State(match activePriority case NoneActive => NoOne case HighActive => Mine case LowActive => Theirs,
            Side(highWaiters, highPriority, highAwake, highHolding),
            Side(lowWaiters, lowPriority, lowAwake, lowHolding))
    }

    constructor ()
      ensures View() == Fresh
    {
      highPriority, lowPriority, highWaiters, lowWaiters := {}, {}, 0, 0;
      activePriority := NoneActive;
      highAwake, lowAwake, highHolding, lowHolding := {}, {}, {}, {};
    }

    method LockHighPriority(t: Session) returns (acquired: bool)
      modifies this
      ensures View() == LockStep(old(View()), t)
      ensures acquired <==> old(activePriority) != LowActive
    {
      highWaiters := highWaiters + 1;
      acquired := HighGuard(t);
    }

    /** Return from `highPriority.Wait()` to the loop test. */
    method WakeHigh(t: Session) returns (acquired: bool)
      requires t in highAwake
      modifies this
      ensures View() == WakeStep(old(View()), t)
      ensures acquired <==> old(activePriority) != LowActive
    {
      highAwake := highAwake - {t};
      acquired := HighGuard(t);
    }

    /** The loop test of `LockHighPriority` and what follows it. */
    method HighGuard(t: Session) returns (acquired: bool)
      modifies this`highPriority, this`highWaiters, this`activePriority, this`highHolding
      ensures acquired <==> old(activePriority) != LowActive
      ensures !acquired ==> View() == old(View()).(mine := old(View()).mine.(asleep := old(highPriority) + {t}))
      ensures acquired ==> View() == State(Mine,
        Side(old(highWaiters) - 1, old(highPriority), highAwake, old(highHolding) + {t}), old(View()).theirs)
    {
      if activePriority == LowActive {
        highPriority := highPriority + {t};
        return false;
      }
      activePriority := HighActive;
      highWaiters := highWaiters - 1;
      highHolding := highHolding + {t};
      return true;
    }

    method UnlockHighPriority(t: Session) returns (w: Woken)
      requires t in highHolding
      modifies this
      ensures View() == UnlockStep(old(View()), t, w)
      ensures SignalChoice(old(View()).mine, w) || old(highWaiters) <= 0
    {
      w := Nobody;
      highHolding := highHolding - {t};
      if highWaiters > 0 {
        if highPriority != {} {
          var s :| s in highPriority;
          highPriority, highAwake, w := highPriority - {s}, highAwake + {s}, Woke(s);
        }
      } else if lowWaiters > 0 {
        activePriority := LowActive;
        lowPriority, lowAwake := {}, lowAwake + lowPriority;
      } else {
        activePriority := NoneActive;
      }
    }

    method LockLowPriority(t: Session) returns (acquired: bool)
      modifies this
      ensures View().Flip() == LockStep(old(View()).Flip(), t)
      ensures acquired <==> old(activePriority) != HighActive
    {
      lowWaiters := lowWaiters + 1;
      acquired := LowGuard(t);
    }

    method WakeLow(t: Session) returns (acquired: bool)
      requires t in lowAwake
      modifies this
      ensures View().Flip() == WakeStep(old(View()).Flip(), t)
      ensures acquired <==> old(activePriority) != HighActive
    {
      lowAwake := lowAwake - {t};
      acquired := LowGuard(t);
    }

    method LowGuard(t: Session) returns (acquired: bool)
      modifies this`lowPriority, this`lowWaiters, this`activePriority, this`lowHolding
      ensures acquired <==> old(activePriority) != HighActive
      ensures !acquired ==> View() == old(View()).(theirs := old(View()).theirs.(asleep := old(lowPriority) + {t}))
      ensures acquired ==> View() == State(Theirs, old(View()).mine,
        Side(old(lowWaiters) - 1, old(lowPriority), lowAwake, old(lowHolding) + {t}))
    {
      if activePriority == HighActive {
        lowPriority := lowPriority + {t};
        return false;
      }
      activePriority := LowActive;
      lowWaiters := lowWaiters - 1;
      lowHolding := lowHolding + {t};
      return true;
    }

    method TryLockLowPriority(t: Session, busy: bool) returns (ok: bool)
      modifies this
      ensures View().Flip() == TryLockStep(old(View()).Flip(), t, busy)
      ensures ok <==> !busy && old(activePriority) == NoneActive
    {
      if busy {
        return false;
      }
      if activePriority != NoneActive {
        return false;
      }
      activePriority := LowActive;
      lowHolding := lowHolding + {t};
      return true;
    }

    method UnlockLowPriority(t: Session) returns (w: Woken)
      requires t in lowHolding
      modifies this
      ensures View().Flip() == UnlockStep(old(View()).Flip(), t, w)
      ensures SignalChoice(old(View()).theirs, w) || old(lowWaiters) <= 0
    {
      w := Nobody;
      lowHolding := lowHolding - {t};
      if lowWaiters > 0 {
        if lowPriority != {} {
          var s :| s in lowPriority;
          lowPriority, lowAwake, w := lowPriority - {s}, lowAwake + {s}, Woke(s);
        }
      } else if highWaiters > 0 {
        activePriority := HighActive;
        highPriority, highAwake := {}, highAwake + highPriority;
      } else {
        activePriority := NoneActive;
      }
    }
  }
}
