/** Runs of the two-class lock: the joint invariant, what it gives (no lost wakeup, no deadlock,
    draining), and exactly when the two classes exclude each other.  Lock states are kept as the
    high class sees them: `mine` is the high side and `theirs` the low side. */
module PriorityLockRuns {
  import opened PriorityLock

  datatype Move =
    | LockCall(t: Session)
    | TryLock(t: Session, busy: bool)
    | Wake(t: Session)
    | Unlock(t: Session, w: Woken)
  {
    predicate Drains() { Wake? || Unlock? }
  }

  /** Unlocks come from holders; a lock call opens a new session. */
  ghost predicate MoveEnabled(s: State, m: Move) {
    match m
    case LockCall(t) => s.mine.Idle(t)
    case TryLock(t, _) => s.mine.Idle(t)
    case Wake(t) => t in s.mine.awake
    case Unlock(t, w) => t in s.mine.holding && (s.mine.waiters > 0 ==> SignalChoice(s.mine, w))
  }

  function Moved(s: State, m: Move): State {
    match m
    case LockCall(t) => LockStep(s, t)
    case TryLock(t, busy) => TryLockStep(s, t, busy)
    case Wake(t) => WakeStep(s, t)
    case Unlock(t, w) => UnlockStep(s, t, w)
  }

  /** A move of class `c`; only the low class has a try-lock. */
  datatype Action = Do(c: Class, m: Move)

  ghost predicate Enabled(s: State, a: Action) {
    MoveEnabled(s.For(a.c), a.m) && (a.m.TryLock? ==> a.c == Low)
  }

  function Next(s: State, a: Action): State {
    Moved(s.For(a.c), a.m).For(a.c)
  }

  ghost predicate Run(s: State, acts: seq<Action>, s': State)
    decreases |acts|
  {
    if acts == [] then s' == s
    else Enabled(s, acts[0]) && Run(Next(s, acts[0]), acts[1..], s')
  }

  // ----- the joint invariant

  ghost predicate SideOk(side: Side) {
    && side.asleep !! side.awake !! side.holding
    && side.waiters == |side.asleep| + |side.awake|
  }

  /** A sleeper of a class implies that the other class is active. */
  ghost predicate SleepersBlocked(s: State) {
    && (s.mine.asleep != {} ==> s.active == Theirs)
    && (s.theirs.asleep != {} ==> s.active == Mine)
  }

  /** The active class has a holder or a waiter; with no active class nobody waits. */
  ghost predicate ActiveJustified(s: State) {
    match s.active
    case NoOne => s.mine.waiters == 0 && s.theirs.waiters == 0
    case Mine => s.mine.holding != {} || s.mine.waiters > 0
    case Theirs => s.theirs.holding != {} || s.theirs.waiters > 0
  }

  ghost predicate Inv(s: State) {
    SideOk(s.mine) && SideOk(s.theirs) && SleepersBlocked(s) && ActiveJustified(s)
  }

  lemma SideNotify(side: Side, w: Woken)
    requires SideOk(side) && SignalChoice(side, w)
    ensures SideOk(Signalled(side, w)) && SideOk(Broadcasted(side))
  {
    var merged := side.awake + side.asleep;
    assert |merged| == |side.awake| + |side.asleep|;
  }

  lemma InvUnlock(s: State, t: Session, w: Woken)
    requires Inv(s) && MoveEnabled(s, Unlock(t, w))
    ensures Inv(UnlockStep(s, t, w))
  {
    var side := s.mine.(holding := s.mine.holding - {t});
    if side.waiters > 0 {
      SideNotify(side, w);
    } else if s.theirs.waiters > 0 {
      SideNotify(s.theirs, PickSleeper(s.theirs));
    }
  }

  lemma InvMove(s: State, m: Move)
    requires Inv(s) && MoveEnabled(s, m)
    ensures Inv(Moved(s, m))
  {
    match m
    case LockCall(t) =>
    case TryLock(t, busy) =>
    case Wake(t) =>
    case Unlock(t, w) => InvUnlock(s, t, w);
  }

  ghost function PickSleeper(side: Side): (w: Woken)
    ensures SignalChoice(side, w)
  {
    if side.asleep == {} then Nobody else var t :| t in side.asleep; Woke(t)
  }

  /** The invariant holds of both views or of neither, and every step keeps it. */
  lemma InvStep(s: State, a: Action)
    requires Inv(s) && Enabled(s, a)
    ensures Inv(Next(s, a)) && Inv(s.For(a.c)) && Inv(Moved(s.For(a.c), a.m))
  {
    InvMove(s.For(a.c), a.m);
  }

  lemma {:induction false} RunKeepsInv(s: State, acts: seq<Action>, s': State)
    requires Inv(s) && Run(s, acts, s')
    ensures Inv(s')
    decreases |acts|
  {
    if acts != [] {
      InvStep(s, acts[0]);
      RunKeepsInv(Next(s, acts[0]), acts[1..], s');
    }
  }

  lemma {:induction false} RunJoin(s: State, a1: seq<Action>, m: State, a2: seq<Action>, s': State)
    requires Run(s, a1, m) && Run(m, a2, s')
    ensures Run(s, a1 + a2, s')
    decreases |a1|
  {
    if a1 == [] {
      assert a1 + a2 == a2;
    } else {
      assert (a1 + a2)[1..] == a1[1..] + a2;
      RunJoin(Next(s, a1[0]), a1[1..], m, a2, s');
    }
  }

  // ----- no lost wakeup, no deadlock

  /** In every reachable state the counters count the waiting sessions, and a session sleeps only
      while the other class is active and has somebody left to hand the lock back. */
  lemma NoLostWakeup(acts: seq<Action>, s: State)
    requires Run(Fresh, acts, s)
    ensures s.mine.waiters == |s.mine.asleep + s.mine.awake|
    ensures s.theirs.waiters == |s.theirs.asleep + s.theirs.awake|
    ensures s.mine.asleep != {} ==> s.active == Theirs && s.theirs.holding + s.theirs.awake != {}
    ensures s.theirs.asleep != {} ==> s.active == Mine && s.mine.holding + s.mine.awake != {}
  {
    RunKeepsInv(Fresh, acts, s);
  }

  /** With a waiter and no holder, some woken session acquires the lock at its next step. */
  lemma DeadlockFree(acts: seq<Action>, s: State) returns (c: Class, t: Session)
    requires Run(Fresh, acts, s)
    requires s.mine.waiters > 0 || s.theirs.waiters > 0
    requires s.mine.holding == {} && s.theirs.holding == {}
    ensures Enabled(s, Do(c, Wake(t))) && t in Next(s, Do(c, Wake(t))).For(c).mine.holding
  {
    RunKeepsInv(Fresh, acts, s);
    c, t := SomeoneCanRun(s);
  }

  lemma SomeoneCanRun(s: State) returns (c: Class, t: Session)
    requires Inv(s)
    requires s.mine.waiters > 0 || s.theirs.waiters > 0
    requires s.mine.holding == {} && s.theirs.holding == {}
    ensures t in s.For(c).mine.awake && s.For(c).active == Mine
  {
    c := if s.active == Mine then High else Low;
    assert s.For(c).mine.awake != {};
    t :| t in s.For(c).mine.awake;
  }

  /** `TryLockLowPriority` succeeds exactly when the mutex was free and no class is active, and then
      no session of either class waits or has been woken: it never overtakes a waiter. */
  lemma TryLockNeverBarges(acts: seq<Action>, s: State, t: Session, busy: bool)
    requires Run(Fresh, acts, s) && s.theirs.Idle(t)
    ensures var s' := Next(s, Do(Low, TryLock(t, busy)));
      if busy || s.active != NoOne
      then s' == s
      else t in s'.theirs.holding && NobodyWaits(s.mine) && NobodyWaits(s.theirs)
  {
    RunKeepsInv(Fresh, acts, s);
    TryLockMove(s.Flip(), t, busy);
  }

  lemma TryLockMove(s: State, t: Session, busy: bool)
    requires Inv(s) && s.mine.Idle(t)
    ensures var s' := TryLockStep(s, t, busy);
      if busy || s.active != NoOne
      then s' == s
      else t in s'.mine.holding && NobodyWaits(s.mine) && NobodyWaits(s.theirs)
  {}

  ghost predicate NobodyWaits(side: Side) {
    side.asleep == {} && side.awake == {}
  }

  lemma HandoverMove(s: State, m: Move, t: Session)
    requires Inv(s) && MoveEnabled(s, m)
    ensures s.active == Mine && t in s.mine.awake && m != Wake(t) ==>
              Moved(s, m).active == Mine && t in Moved(s, m).mine.awake
    ensures s.active == Theirs && t in s.theirs.awake ==>
              Moved(s, m).active == Theirs && t in Moved(s, m).theirs.awake
  {}

  lemma HandoverStep(s: State, a: Action, c: Class, t: Session)
    requires Inv(s) && Enabled(s, a) && a != Do(c, Wake(t))
    requires s.For(c).active == Mine && t in s.For(c).mine.awake
    ensures Next(s, a).For(c).active == Mine && t in Next(s, a).For(c).mine.awake
  {
    InvStep(s, a);
    HandoverMove(s.For(a.c), a.m, t);
  }

  /** A handover stands: once a class is active and `t` of that class is woken, nothing that others
      do takes the turn back, so the next time `t` runs it acquires. */
  lemma {:induction false} HandoverStands(s: State, acts: seq<Action>, s': State, c: Class, t: Session)
    requires Inv(s) && Run(s, acts, s') && Do(c, Wake(t)) !in acts
    requires s.For(c).active == Mine && t in s.For(c).mine.awake
    ensures Enabled(s', Do(c, Wake(t))) && t in Next(s', Do(c, Wake(t))).For(c).mine.holding
    decreases |acts|
  {
    if acts != [] {
      InvStep(s, acts[0]);
      assert acts[0] in acts;
      HandoverStep(s, acts[0], c, t);
      HandoverStands(Next(s, acts[0]), acts[1..], s', c, t);
    }
  }

  // ----- draining: no new calls, only wakeups and unlocks

  ghost predicate IsDrain(acts: seq<Action>) {
    forall a :: a in acts ==> a.m.Drains()
  }

  ghost predicate Waits(side: Side, t: Session) {
    t in side.asleep || t in side.awake
  }

  ghost function Waiters(s: State): int {
    s.mine.waiters + s.theirs.waiters
  }

  /** Acquisitions and unlocks still to come. */
  ghost function Work(s: State): int {
    2 * Waiters(s) + |s.mine.holding| + |s.theirs.holding|
  }

  ghost function AwakeCount(s: State): nat {
    |s.mine.awake| + |s.theirs.awake|
  }

  ghost predicate Below(s': State, s: State) {
    && 0 <= Work(s') && AwakeCount(s') <= Waiters(s') <= Waiters(s)
    && (Work(s') < Work(s) || (Work(s') == Work(s) && AwakeCount(s') < AwakeCount(s)))
  }

  lemma DrainMoveDecreases(s: State, m: Move)
    requires Inv(s) && MoveEnabled(s, m) && m.Drains()
    ensures Below(Moved(s, m), s)
  {
    InvMove(s, m);
    if m.Unlock? {
      assert |s.mine.holding - {m.t}| == |s.mine.holding| - 1;
    }
  }

  /** Each draining step lowers (work left, woken sessions) lexicographically. */
  lemma DrainStepDecreases(s: State, a: Action)
    requires Inv(s) && Enabled(s, a) && a.m.Drains()
    ensures Below(Next(s, a), s)
  {
    InvStep(s, a);
    DrainMoveDecreases(s.For(a.c), a.m);
  }

  ghost function DrainBound(s: State, b: nat): int {
    Work(s) * (b + 1) + AwakeCount(s)
  }

  lemma InvCounts(s: State)
    requires Inv(s)
    ensures 0 <= Waiters(s) && 0 <= Work(s)
  {}

  lemma DrainBoundNonNegative(s: State, b: nat)
    requires 0 <= Work(s)
    ensures 0 <= DrainBound(s, b)
  {
    assert 0 <= Work(s) * (b + 1);
  }

  lemma DrainBoundDrops(s: State, s': State, b: nat)
    requires Below(s', s) && Waiters(s) <= b
    ensures 0 <= DrainBound(s', b) < DrainBound(s, b)
  {
    DrainBoundNonNegative(s', b);
    if Work(s') < Work(s) {
      assert (Work(s') + 1) * (b + 1) <= Work(s) * (b + 1);
    }
  }

  lemma DrainStepDrops(s: State, a: Action, b: nat)
    requires Inv(s) && Enabled(s, a) && a.m.Drains() && Waiters(s) <= b
    ensures Inv(Next(s, a)) && Waiters(Next(s, a)) <= b
    ensures 0 <= DrainBound(Next(s, a), b) < DrainBound(s, b)
  {
    InvStep(s, a);
    DrainStepDecreases(s, a);
    DrainBoundDrops(s, Next(s, a), b);
  }

  lemma {:induction false} DrainLength(s: State, acts: seq<Action>, s': State, b: nat)
    requires Inv(s) && Run(s, acts, s') && IsDrain(acts) && Waiters(s) <= b && 0 <= DrainBound(s, b)
    ensures |acts| <= DrainBound(s, b)
    decreases |acts|
  {
    if acts != [] {
      assert acts[0] in acts;
      DrainStepDrops(s, acts[0], b);
      DrainLength(Next(s, acts[0]), acts[1..], s', b);
    }
  }

  /** Once no new calls arrive every run is finite, with a bound read off the state it starts in. */
  lemma DrainTerminates(before: seq<Action>, s: State, acts: seq<Action>, s': State)
    requires Run(Fresh, before, s) && Run(s, acts, s') && IsDrain(acts)
    ensures |acts| <= Work(s) * (Waiters(s) + 1) + AwakeCount(s)
  {
    RunKeepsInv(Fresh, before, s);
    InvCounts(s);
    DrainBoundNonNegative(s, Waiters(s));
    DrainLength(s, acts, s', Waiters(s));
  }

  /** As long as anybody holds or waits, a draining step is enabled. */
  lemma DrainCanGoOn(s: State) returns (a: Action)
    requires Inv(s) && s != Fresh
    ensures a.m.Drains() && Enabled(s, a)
  {
    if t :| t in s.mine.holding {
      a := Do(High, Unlock(t, PickSleeper(s.mine)));
    } else if t :| t in s.theirs.holding {
      a := Do(Low, Unlock(t, PickSleeper(s.theirs)));
    } else {
      var c, t := SomeoneCanRun(s);
      a := Do(c, Wake(t));
    }
  }

  ghost function Bit(b: bool): nat { if b then 1 else 0 }

  ghost function Unlocks(acts: seq<Action>, c: Class, t: Session): nat {
    if acts == [] then 0
    else Bit(acts[0].c == c && acts[0].m.Unlock? && acts[0].m.t == t) + Unlocks(acts[1..], c, t)
  }

  /** How often session `t` of class `c` acquires the lock in a run from `s`. */
  ghost function Acquires(s: State, acts: seq<Action>, c: Class, t: Session): nat
    decreases |acts|
  {
    if acts == [] then 0
    else
      var s' := Next(s, acts[0]);
      Bit(t !in s.For(c).mine.holding && t in s'.For(c).mine.holding) + Acquires(s', acts[1..], c, t)
  }

  /** One draining step at one session of one side: leaving the waiters is acquiring, leaving the
      holders is unlocking. */
  ghost predicate Accounted(side: Side, side': Side, t: Session, unlocks: bool) {
    && Bit(Waits(side, t)) == Bit(Waits(side', t)) + Bit(t !in side.holding && t in side'.holding)
    && Bit(Waits(side, t)) + Bit(t in side.holding) == Bit(Waits(side', t)) + Bit(t in side'.holding) + Bit(unlocks)
  }

  lemma DrainMoveAccounted(s: State, m: Move, t: Session)
    requires Inv(s) && MoveEnabled(s, m) && m.Drains()
    ensures Accounted(s.mine, Moved(s, m).mine, t, m.Unlock? && m.t == t)
    ensures Accounted(s.theirs, Moved(s, m).theirs, t, false)
  {}

  lemma DrainStepAccounted(s: State, a: Action, c: Class, t: Session)
    requires Inv(s) && Enabled(s, a) && a.m.Drains()
    ensures Accounted(s.For(c).mine, Next(s, a).For(c).mine, t, a.c == c && a.m.Unlock? && a.m.t == t)
  {
    InvStep(s, a);
    DrainMoveAccounted(s.For(a.c), a.m, t);
  }

  lemma {:induction false} DrainCounts(s: State, acts: seq<Action>, s': State, c: Class, t: Session)
    requires Inv(s) && Run(s, acts, s') && IsDrain(acts)
    ensures var side, side' := s.For(c).mine, s'.For(c).mine;
      && Acquires(s, acts, c, t) == Bit(Waits(side, t)) - Bit(Waits(side', t))
      && Unlocks(acts, c, t) == Bit(Waits(side, t)) + Bit(t in side.holding) - Bit(Waits(side', t)) - Bit(t in side'.holding)
    decreases |acts|
  {
    if acts != [] {
      assert acts[0] in acts;
      InvStep(s, acts[0]);
      DrainStepAccounted(s, acts[0], c, t);
      DrainCounts(Next(s, acts[0]), acts[1..], s', c, t);
    }
  }

  /** A draining run that cannot go on serves everybody: each waiter acquires once, each waiter and
      each holder unlocks once, nobody else does, and the lock ends free. */
  lemma DrainServesEveryone(before: seq<Action>, s: State, acts: seq<Action>, s': State)
    requires Run(Fresh, before, s) && Run(s, acts, s') && IsDrain(acts)
    requires forall a: Action :: a.m.Drains() ==> !Enabled(s', a)
    ensures s' == Fresh
    ensures forall c, t :: Acquires(s, acts, c, t) == Bit(Waits(s.For(c).mine, t))
    ensures forall c, t :: Unlocks(acts, c, t) == Bit(Waits(s.For(c).mine, t) || t in s.For(c).mine.holding)
  {
    RunKeepsInv(Fresh, before, s);
    RunKeepsInv(s, acts, s');
    if s' != Fresh {
      var a := DrainCanGoOn(s');
      assert false;
    }
    forall c, t
      ensures Acquires(s, acts, c, t) == Bit(Waits(s.For(c).mine, t))
      ensures Unlocks(acts, c, t) == Bit(Waits(s.For(c).mine, t) || t in s.For(c).mine.holding)
    {
      DrainCounts(s, acts, s', c, t);
    }
  }

  // ----- exclusion between the classes

  ghost predicate Exclusive(s: State) {
    s.mine.holding == {} || s.theirs.holding == {}
  }

  /** Every holder belongs to the active class. */
  ghost predicate Matched(s: State) {
    && (s.mine.holding != {} ==> s.active == Mine)
    && (s.theirs.holding != {} ==> s.active == Theirs)
  }

  /** An unlock is clean when it comes from the last holder of its class, or while the class still
      has waiters. The other unlocks change `activePriority` under a remaining holder. */
  ghost predicate CleanMove(s: State, m: Move) {
    m.Unlock? ==> s.mine.holding == {m.t} || s.mine.waiters > 0
  }

  ghost predicate Clean(s: State, a: Action) {
    CleanMove(s.For(a.c), a.m)
  }

  lemma MatchedEitherWay(s: State)
    ensures forall c :: Matched(s.For(c)) <==> Matched(s)
  {}

  lemma MatchedMove(s: State, m: Move)
    requires Inv(s) && Matched(s) && MoveEnabled(s, m)
    ensures Matched(Moved(s, m)) <==> CleanMove(s, m)
  {
    if m.Unlock? {
      var rest := s.mine.holding - {m.t};
      assert rest == {} <==> s.mine.holding == {m.t};
    }
  }

  /** Exactly the clean steps keep the holders inside the active class. */
  lemma MatchedStep(s: State, a: Action)
    requires Inv(s) && Matched(s) && Enabled(s, a)
    ensures Matched(Next(s, a)) <==> Clean(s, a)
  {
    InvStep(s, a);
    var n := Moved(s.For(a.c), a.m);
    MatchedEitherWay(s);
    MatchedEitherWay(n);
    MatchedMove(s.For(a.c), a.m);
    assert Next(s, a) == n.For(a.c);
  }

  ghost predicate AllClean(s: State, acts: seq<Action>)
    decreases |acts|
  {
    acts == [] || (Clean(s, acts[0]) && AllClean(Next(s, acts[0]), acts[1..]))
  }

  ghost predicate CleanRun(s: State, acts: seq<Action>, s': State) {
    Run(s, acts, s') && AllClean(s, acts)
  }

  lemma {:induction false} CleanRunsExclude(s: State, acts: seq<Action>, s': State)
    requires Inv(s) && Matched(s) && CleanRun(s, acts, s')
    ensures Inv(s') && Matched(s') && Exclusive(s')
    decreases |acts|
  {
    if acts != [] {
      InvStep(s, acts[0]);
      MatchedStep(s, acts[0]);
      CleanRunsExclude(Next(s, acts[0]), acts[1..], s');
    }
  }

  ghost function Above(xs: set<Session>): (m: Session)
    ensures forall x :: x in xs ==> x < m
  {
    if xs == {} then 0 else
      var x :| x in xs;
      var m := Above(xs - {x});
      assert xs == (xs - {x}) + {x};
      if x < m then m else x + 1
  }

  /** A holder of my class outside the active class: one step of the other class overlaps it. */
  lemma MismatchOverlaps(s: State) returns (m: Move)
    requires Inv(s) && s.mine.holding != {} && s.active != Mine && s.theirs.holding == {}
    ensures (m.LockCall? || m.Wake?) && MoveEnabled(s.Flip(), m)
    ensures !Exclusive(Moved(s.Flip(), m))
  {
    if s.active == NoOne {
      var t := Above(s.theirs.asleep + s.theirs.awake);
      assert t !in s.theirs.asleep + s.theirs.awake;
      m := LockCall(t);
      assert t in Moved(s.Flip(), m).mine.holding;
    } else {
      assert s.theirs.awake != {};
      var t :| t in s.theirs.awake;
      m := Wake(t);
      assert t in Moved(s.Flip(), m).mine.holding;
    }
  }

  lemma MismatchOverlapsRun(s: State) returns (acts: seq<Action>, s': State)
    requires Inv(s) && !Matched(s)
    ensures |acts| <= 1 && CleanRun(s, acts, s') && !Exclusive(s')
  {
    if !Exclusive(s) {
      return [], s;
    }
    var a: Action;
    if s.mine.holding != {} {
      var m := MismatchOverlaps(s);
      a := Do(Low, m);
    } else {
      var m := MismatchOverlaps(s.Flip());
      a := Do(High, m);
    }
    assert [a][1..] == [];
    return [a], Next(s, a);
  }

  /** The exact condition for exclusion. From a state whose holders match, an enabled step leaves
      every continuation by clean steps exclusive if and only if the step itself is clean. */
  lemma ExclusionExactlyWhenClean(s: State, a: Action)
    requires Inv(s) && Matched(s) && Enabled(s, a)
    ensures Clean(s, a) <==>
            forall acts, s' :: CleanRun(Next(s, a), acts, s') ==> Exclusive(s')
  {
    InvStep(s, a);
    MatchedStep(s, a);
    if Clean(s, a) {
      forall acts, s' | CleanRun(Next(s, a), acts, s')
        ensures Exclusive(s')
      {
        CleanRunsExclude(Next(s, a), acts, s');
      }
    } else {
      var acts, s' := MismatchOverlapsRun(Next(s, a));
      assert CleanRun(Next(s, a), acts, s') && !Exclusive(s');
    }
  }

  /** Under matched holders `Signal` never finds a sleeper: the waiters of the active class are awake. */
  lemma SignalIsIdle(before: seq<Action>, s: State, c: Class, t: Session, w: Woken)
    requires CleanRun(Fresh, before, s)
    requires Enabled(s, Do(c, Unlock(t, w))) && s.For(c).mine.waiters > 0
    ensures w == Nobody && s.For(c).mine.awake != {}
  {
    CleanRunsExclude(Fresh, before, s);
  }

  // ----- client disciplines

  /** At most one client per class: `h` uses the high methods, `l` the low ones. */
  ghost predicate OnePerClass(acts: seq<Action>, h: Session, l: Session) {
    forall a :: a in acts ==> a.m.t == if a.c == High then h else l
  }

  lemma SingleHolderClean(s: State, m: Move, t: Session)
    requires s.mine.holding <= {t} && MoveEnabled(s, m) && m.t == t
    ensures CleanMove(s, m) && Moved(s, m).mine.holding <= {t}
    ensures Moved(s, m).theirs.holding == s.theirs.holding
  {}

  lemma {:induction false} OnePerClassClean(s: State, acts: seq<Action>, s': State, h: Session, l: Session)
    requires s.mine.holding <= {h} && s.theirs.holding <= {l}
    requires Run(s, acts, s') && OnePerClass(acts, h, l)
    ensures AllClean(s, acts)
    decreases |acts|
  {
    if acts != [] {
      var a := acts[0];
      assert a in acts;
      SingleHolderClean(s.For(a.c), a.m, if a.c == High then h else l);
      OnePerClassClean(Next(s, a), acts[1..], s', h, l);
    }
  }

  lemma OneClientPerClassExcludes(acts: seq<Action>, s: State, h: Session, l: Session)
    requires Run(Fresh, acts, s) && OnePerClass(acts, h, l)
    ensures Exclusive(s)
  {
    OnePerClassClean(Fresh, acts, s, h, l);
    CleanRunsExclude(Fresh, acts, s);
  }

  /** One high client, and any number of low clients that only use `TryLockLowPriority`. */
  ghost predicate TryOnly(acts: seq<Action>, h: Session) {
    forall a :: a in acts ==> if a.c == High then a.m.t == h else a.m.TryLock? || a.m.Unlock?
  }

  /** Seen from the low class: no low waiters and at most one low holder. */
  ghost predicate FewLow(s: State) {
    s.mine.asleep == s.mine.awake == {} && exists t :: s.mine.holding <= {t}
  }

  lemma TryOnlyLowMove(s: State, m: Move)
    requires Inv(s) && Matched(s) && FewLow(s) && MoveEnabled(s, m) && (m.TryLock? || m.Unlock?)
    ensures CleanMove(s, m) && FewLow(Moved(s, m)) && Moved(s, m).theirs.holding == s.theirs.holding
  {
    var t :| s.mine.holding <= {t};
    if m.Unlock? {
      SingleHolderClean(s, m, t);
    } else {
      assert Moved(s, m).mine.holding <= {t} || Moved(s, m).mine.holding <= {m.t};
    }
  }

  lemma TryOnlyStep(s: State, a: Action, h: Session)
    requires Inv(s) && Matched(s) && FewLow(s.Flip()) && s.mine.holding <= {h}
    requires Enabled(s, a) && if a.c == High then a.m.t == h else a.m.TryLock? || a.m.Unlock?
    ensures Clean(s, a) && FewLow(Next(s, a).Flip()) && Next(s, a).mine.holding <= {h}
  {
    if a.c == High {
      SingleHolderClean(s, a.m, h);
      assert Next(s, a).theirs.asleep == Next(s, a).theirs.awake == {};
    } else {
      InvStep(s, a);
      TryOnlyLowMove(s.Flip(), a.m);
    }
  }

  lemma {:induction false} TryOnlyClean(s: State, acts: seq<Action>, s': State, h: Session)
    requires Inv(s) && Matched(s) && FewLow(s.Flip()) && s.mine.holding <= {h}
    requires Run(s, acts, s') && TryOnly(acts, h)
    ensures AllClean(s, acts) && FewLow(s'.Flip())
    decreases |acts|
  {
    if acts != [] {
      var a := acts[0];
      assert a in acts;
      TryOnlyStep(s, a, h);
      InvStep(s, a);
      MatchedStep(s, a);
      TryOnlyClean(Next(s, a), acts[1..], s', h);
    }
  }

  /** Under the second discipline the low side is a mutex too. */
  lemma TryOnlyClientsExclude(acts: seq<Action>, s: State, h: Session)
    requires Run(Fresh, acts, s) && TryOnly(acts, h)
    ensures Exclusive(s)
    ensures forall t, u :: t in s.theirs.holding && u in s.theirs.holding ==> t == u
  {
    assert Fresh.theirs.holding <= {0};
    TryOnlyClean(Fresh, acts, s, h);
    CleanRunsExclude(Fresh, acts, s);
  }

  // ----- what the lock does not promise

  /** Without a discipline exclusion fails: two high holders, one unlocks, the low waiter gets in. */
  lemma OverlapIsReachable() returns (acts: seq<Action>, s: State)
    ensures Run(Fresh, acts, s) && s.mine.holding == {2} && s.theirs.holding == {3}
  {
    var a0, a1, a2 := Do(High, LockCall(1)), Do(High, LockCall(2)), Do(Low, LockCall(3));
    var a3, a4 := Do(High, Unlock(1, Nobody)), Do(Low, Wake(3));
    var s3 := State(Mine, Side(0, {}, {}, {1, 2}), Side(1, {3}, {}, {}));
    var s4 := State(Theirs, Side(0, {}, {}, {2}), Side(1, {}, {3}, {}));
    assert {1, 2} - {1} == {2} && {} + {3} == {3} && {1} + {2} == {1, 2};
    TwoSteps(Fresh, a0, a1);
    assert Next(Next(Next(Fresh, a0), a1), a2) == s3;
    TwoSteps(Next(Next(Fresh, a0), a1), a2, a3);
    s := Next(s4, a4);
    assert [a4][1..] == [] && Run(s4, [a4], s);
    RunJoin(Fresh, [a0, a1], Next(Next(Fresh, a0), a1), [a2, a3], s4);
    acts := [a0, a1] + [a2, a3] + [a4];
    RunJoin(Fresh, [a0, a1] + [a2, a3], s4, [a4], s);
  }

  lemma TwoSteps(s: State, a: Action, b: Action)
    requires Enabled(s, a) && Enabled(Next(s, a), b)
    ensures Run(s, [a, b], Next(Next(s, a), b))
  {
    assert [a, b][1..] == [b] && [b][1..] == [];
    assert Run(Next(s, a), [b], Next(Next(s, a), b));
  }
}
