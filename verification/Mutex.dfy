/** The mutex of kernel-3/kern/task.c as interleaved steps of any number of threads. */
module Mutex {
  import opened Common
  import opened Steps

  type Agent = nat

  /** Where a thread stands inside `mutex_lock`, `mutex_unlock`, `waitq_await` or `waitq_wake_one`. */
  datatype Pc =
    | Idle
    | WantsQueue              // found the mutex taken, about to lock the wait queue
    | QueueLocked             // holds the queue's lock, about to join it
    | Joined                  // in the queue, about to unlock it and switch away
    | Asleep
    | Acquiring               // granted, about to store itself as owner
    | Holding
    | Releasing               // cleared the owner, about to decrement
    | Waking                  // found others inside, about to lock the queue
    | WakeLocked              // about to take the first waiter
    | Took(taken: Option<Agent>)  // about to unlock the queue
    | Resuming(waiter: Agent)

  datatype Event = Enter(a: Agent) | LockToWait(a: Agent) | Join(a: Agent) | Sleep(a: Agent) | Acquire(a: Agent)
                 | Release(a: Agent) | Leave(a: Agent) | LockToWake(a: Agent) | Take(a: Agent) | Unlock(a: Agent)
                 | Resume(a: Agent)

  /** `halted` is a failed compare-exchange assertion. */
  datatype Mtx = Mtx(count: int, owner: Option<Agent>, lock: Option<Agent>, queue: seq<Agent>, pc: map<Agent, Pc>,
                     halted: bool)

  predicate At(s: Mtx, a: Agent, p: Pc) { a in s.pc && s.pc[a] == p }

  predicate Enabled(s: Mtx, e: Event) {
    && !s.halted
    && match e
       case Enter(a) => At(s, a, Idle)
       case LockToWait(a) => At(s, a, WantsQueue) && s.lock.None?
       case Join(a) => At(s, a, QueueLocked)
       case Sleep(a) => At(s, a, Joined)
       case Acquire(a) => At(s, a, Acquiring)
       case Release(a) => At(s, a, Holding)
       case Leave(a) => At(s, a, Releasing)
       case LockToWake(a) => At(s, a, Waking) && s.lock.None?
       case Take(a) => At(s, a, WakeLocked)
       case Unlock(a) => a in s.pc && s.pc[a].Took?
       case Resume(a) => a in s.pc && s.pc[a].Resuming? && s.pc[a].waiter in s.pc
  }

  function Step(s: Mtx, e: Event): Mtx
    requires Enabled(s, e)
  {
    match e
    case Enter(a) => s.(count := s.count + 1, pc := s.pc[a := if s.count >= 1 then WantsQueue else Acquiring])
    case LockToWait(a) => s.(lock := Some(a), pc := s.pc[a := QueueLocked])
    case Join(a) => s.(queue := s.queue + [a], pc := s.pc[a := Joined])
    case Sleep(a) => s.(lock := None, pc := s.pc[a := Asleep])
    case Acquire(a) =>
      if s.owner.None? then s.(owner := Some(a), pc := s.pc[a := Holding]) else s.(halted := true)
    case Release(a) =>
      if s.owner == Some(a) then s.(owner := None, pc := s.pc[a := Releasing]) else s.(halted := true)
    case Leave(a) => s.(count := s.count - 1, pc := s.pc[a := if s.count > 1 then Waking else Idle])
    case LockToWake(a) => s.(lock := Some(a), pc := s.pc[a := WakeLocked])
    case Take(a) =>
      if s.queue == [] then s.(pc := s.pc[a := Took(None)])
      else s.(queue := s.queue[1..], pc := s.pc[a := Took(Some(s.queue[0]))])
    case Unlock(a) =>
      s.(lock := None, pc := s.pc[a := match s.pc[a].taken case None => Idle case Some(w) => Resuming(w)])
    case Resume(a) => s.(pc := s.pc[a := Idle][s.pc[a].waiter := Acquiring])
  }

  // ---------------------------------------------------------------------------------
  // The invariant
  // ---------------------------------------------------------------------------------

  /** Between the increment and the decrement of the count. */
  predicate Inside(p: Pc) {
    p.WantsQueue? || p.QueueLocked? || p.Joined? || p.Asleep? || p.Acquiring? || p.Holding? || p.Releasing?
  }

  /** Granted the mutex, or on the way to grant it to a waiter. */
  predicate HasToken(p: Pc) {
    || p.Acquiring? || p.Holding? || p.Releasing? || p.Waking? || p.WakeLocked? || p.Resuming?
    || (p.Took? && p.taken.Some?)
  }

  predicate HoldsLock(p: Pc) { p.QueueLocked? || p.Joined? || p.WakeLocked? || p.Took? }

  predicate Carries(p: Pc, w: Agent) { p == Took(Some(w)) || p == Resuming(w) }

  ghost predicate Locking(s: Mtx) {
    && (s.lock.Some? ==> s.lock.value in s.pc)
    && (forall a | a in s.pc :: HoldsLock(s.pc[a]) <==> s.lock == Some(a))
  }

  ghost predicate QueueSound(s: Mtx) {
    && (forall i, j | 0 <= i < j < |s.queue| :: s.queue[i] != s.queue[j])
    && (forall w | w in s.queue :: At(s, w, Joined) || At(s, w, Asleep))
  }

  ghost predicate CarriedSound(s: Mtx) {
    forall a, w | a in s.pc && Carries(s.pc[a], w) :: At(s, w, Asleep) && w !in s.queue
  }

  /** The owner field names the holder, whoever that is. */
  ghost predicate Owned(s: Mtx) {
    !s.halted && forall a | a in s.pc :: s.pc[a].Holding? <==> s.owner == Some(a)
  }

  ghost predicate OwnerExists(s: Mtx) { s.owner.Some? ==> s.owner.value in s.pc }

  predicate Tallied(s: Mtx) {
    && s.count == |Where(s.pc, Inside)|
    && |Where(s.pc, HasToken)| <= 1
    && (|Where(s.pc, HasToken)| == 1 ==> s.count >= 1)
  }

  ghost predicate Invariant(s: Mtx) {
    Locking(s) && QueueSound(s) && CarriedSound(s) && Owned(s) && OwnerExists(s) && Tallied(s)
  }

  function Start(agents: set<Agent>): Mtx { Mtx(0, None, None, [], map a | a in agents :: Idle, false) }

  lemma StartHolds(agents: set<Agent>)
    ensures Invariant(Start(agents))
  {
    Nowhere(Start(agents).pc, Inside);
    Nowhere(Start(agents).pc, HasToken);
  }

  // ---------------------------------------------------------------------------------
  // Steps
  // ---------------------------------------------------------------------------------

  lemma OneToken(s: Mtx, a: Agent, b: Agent)
    requires Tallied(s) && a in s.pc && b in s.pc && HasToken(s.pc[a]) && HasToken(s.pc[b])
    ensures a == b
  {
    var t := Where(s.pc, HasToken);
    assert a in t && b in t;
    if a != b {
      assert |{a, b}| == 2 && {a, b} <= t;
      Smaller({a, b}, t);
    }
  }

  lemma Smaller(x: set<Agent>, y: set<Agent>)
    requires x <= y
    ensures |x| <= |y|
  {
    assert y == x + (y - x);
  }

  /** The one carrier's waiter sleeps outside the queue. */
  lemma Carried(s: Mtx, a: Agent)
    requires CarriedSound(s) && a in s.pc && s.pc[a].Resuming?
    ensures At(s, s.pc[a].waiter, Asleep) && s.pc[a].waiter !in s.queue && s.pc[a].waiter != a
  {
    assert Carries(s.pc[a], s.pc[a].waiter);
  }

  lemma LockingStep(s: Mtx, e: Event)
    requires Locking(s) && CarriedSound(s) && Enabled(s, e)
    ensures Locking(Step(s, e))
  {
    if e.Resume? {
      Carried(s, e.a);
      var w, t := s.pc[e.a].waiter, Step(s, e);
      forall x | x in t.pc ensures HoldsLock(t.pc[x]) <==> t.lock == Some(x) {
        assert !HoldsLock(s.pc[w]) && !HoldsLock(s.pc[e.a]);
      }
    }
  }

  /** A thread that holds the lock to wake finds only sleepers in the queue. */
  lemma WaitersSleep(s: Mtx, a: Agent)
    requires Locking(s) && QueueSound(s) && At(s, a, WakeLocked)
    ensures forall w | w in s.queue :: At(s, w, Asleep)
  {
    assert forall w | w in s.pc && HoldsLock(s.pc[w]) :: w == a;
  }

  lemma QueueStep(s: Mtx, e: Event)
    requires Locking(s) && QueueSound(s) && CarriedSound(s) && Enabled(s, e)
    ensures QueueSound(Step(s, e))
  {
    if e.Take? {
      QueueTake(s, e.a);
    } else if e.Join? {
      assert e.a !in s.queue;
    } else if e.Resume? {
      Carried(s, e.a);
    }
    hide Locking, CarriedSound;
  }

  lemma QueueTake(s: Mtx, a: Agent)
    requires Locking(s) && QueueSound(s) && Enabled(s, Take(a))
    ensures QueueSound(Step(s, Take(a)))
  {
    var t := Step(s, Take(a));
    WaitersSleep(s, a);
    if s.queue != [] {
      assert s.queue == [s.queue[0]] + t.queue;
    }
    forall w | w in t.queue ensures At(t, w, Asleep) {
      assert w in s.queue;
    }
  }

  lemma CarriedStep(s: Mtx, e: Event)
    requires Locking(s) && QueueSound(s) && CarriedSound(s) && Tallied(s) && Enabled(s, e)
    ensures CarriedSound(Step(s, e))
  {
    hide Locking, Tallied;
    var t := Step(s, e);
    forall a, w | a in t.pc && Carries(t.pc[a], w) ensures At(t, w, Asleep) && w !in t.queue {
      if e.Take? && a == e.a {
        WaitersSleep(s, e.a);
        assert s.queue == [s.queue[0]] + t.queue;
        assert s.queue[0] in s.queue;
      } else {
        assert Carries(s.pc[a], w) && At(s, w, Asleep) && w !in s.queue;
        assert w in t.queue ==> e.Join?;
        if e.Resume? {
          OneToken(s, a, e.a);
        }
      }
    }
  }

  lemma OwnedStep(s: Mtx, e: Event)
    requires CarriedSound(s) && Owned(s) && OwnerExists(s) && Tallied(s) && Enabled(s, e)
    ensures Owned(Step(s, e)) && OwnerExists(Step(s, e))
  {
    hide Tallied;
    if e.Acquire? {
      if s.owner.Some? {
        OneToken(s, e.a, s.owner.value);
      }
    } else if e.Resume? {
      Carried(s, e.a);
    }
  }

  lemma TalliedStep(s: Mtx, e: Event)
    requires CarriedSound(s) && Owned(s) && OwnerExists(s) && Tallied(s) && Enabled(s, e)
    ensures Tallied(Step(s, e))
  {
    var t := Step(s, e);
    OwnedStep(s, e);
    assert !t.halted;
    if e.Resume? {
      Carried(s, e.a);
      hide Where, CarriedSound, Owned, OwnerExists;
      var mid := s.pc[e.a := Idle];
      Moved(s.pc, e.a, Idle, Inside);
      Moved(s.pc, e.a, Idle, HasToken);
      Moved(mid, s.pc[e.a].waiter, Acquiring, Inside);
      Moved(mid, s.pc[e.a].waiter, Acquiring, HasToken);
    } else {
      hide Where, CarriedSound, Owned, OwnerExists;
      Moved(s.pc, e.a, t.pc[e.a], Inside);
      Moved(s.pc, e.a, t.pc[e.a], HasToken);
    }
  }

  lemma StepHolds(s: Mtx, e: Event)
    requires Invariant(s) && Enabled(s, e)
    ensures Invariant(Step(s, e))
  {
    hide Locking, QueueSound, CarriedSound, Owned, OwnerExists, Tallied, Step, Enabled;
    LockingStep(s, e);
    QueueStep(s, e);
    CarriedStep(s, e);
    OwnedStep(s, e);
    TalliedStep(s, e);
  }

  function Final(s: Mtx, run: seq<Event>): Option<Mtx>
    decreases |run|
  {
    if run == [] then Some(s)
    else if Enabled(s, run[0]) then Final(Step(s, run[0]), run[1..])
    else None
  }

  lemma {:induction false} RunHolds(s: Mtx, run: seq<Event>)
    requires Invariant(s) && Final(s, run).Some?
    ensures Invariant(Final(s, run).value)
    decreases |run|
  {
    hide Invariant, Step, Enabled;
    if run != [] {
      StepHolds(s, run[0]);
      RunHolds(Step(s, run[0]), run[1..]);
    }
  }

  ghost predicate Reachable(s: Mtx) {
    exists agents: set<Agent>, run: seq<Event> :: Final(Start(agents), run) == Some(s)
  }

  lemma ReachableHolds(s: Mtx)
    requires Reachable(s)
    ensures Invariant(s)
  {
    hide Invariant, Step, Enabled;
    var agents, run :| Final(Start(agents), run) == Some(s);
    StartHolds(agents);
    RunHolds(Start(agents), run);
  }

  // ---------------------------------------------------------------------------------
  // What holds after any run
  // ---------------------------------------------------------------------------------

  predicate Granted(p: Pc) { p.Acquiring? || p.Holding? || p.Releasing? }

  /** At most one thread is granted, holding or releasing, and no compare-exchange assertion fails. */
  lemma Exclusion(s: Mtx, a: Agent, b: Agent)
    requires Reachable(s) && a in s.pc && b in s.pc && Granted(s.pc[a]) && Granted(s.pc[b])
    ensures a == b && !s.halted
    ensures s.owner == if s.pc[a].Holding? then Some(a) else None
  {
    hide Reachable;
    ReachableHolds(s);
    OneToken(s, a, b);
    if s.owner.Some? {
      OneToken(s, a, s.owner.value);
    }
  }

  lemma NeverHalts(s: Mtx)
    requires Reachable(s)
    ensures !s.halted
  {
    hide Reachable;
    ReachableHolds(s);
  }

  // ---------------------------------------------------------------------------------
  // Order of service
  // ---------------------------------------------------------------------------------

  /** How many waiters are taken from the queue in a run. */
  function Takes(run: seq<Event>): nat
    decreases |run|
  {
    if run == [] then 0 else (if run[0].Take? then 1 else 0) + Takes(run[1..])
  }

  /** First come, first served: whoever is at position `i` of the queue moves up by one with each waiter
      taken and is the one taken after `i` of them, whoever joins meanwhile. */
  lemma {:induction false} FirstComeFirstServed(s: Mtx, i: nat, run: seq<Event>)
    requires i < |s.queue| && Final(s, run).Some? && Takes(run) <= i
    ensures var t, n := Final(s, run).value, i - Takes(run);
            && n < |t.queue| && t.queue[n] == s.queue[i]
            && (n == 0 ==> forall a | Enabled(t, Take(a)) :: a in Step(t, Take(a)).pc && Step(t, Take(a)).pc[a] == Took(Some(s.queue[i])))
    decreases |run|
  {
    if run != [] {
      LineStep(s, i, run[0]);
      hide Enabled, Step;
      FirstComeFirstServed(Step(s, run[0]), if run[0].Take? then i - 1 else i, run[1..]);
    }
  }

  lemma LineStep(s: Mtx, i: nat, e: Event)
    requires Enabled(s, e) && i < |s.queue|
    ensures var q, n := Step(s, e).queue, if e.Take? then 1 else 0;
            n <= i ==> i - n < |q| && q[i - n] == s.queue[i]
  {}

  /** Threads are inside, and nobody is granted the mutex or on the way to grant it. */
  predicate Dead(s: Mtx) { Where(s.pc, HasToken) == {} && s.count >= 1 }

  /** The one step after which nobody can get the mutex is an unlock that finds the queue empty. */
  lemma OnlyEmptyWakeKills(s: Mtx, e: Event)
    requires Reachable(s) && Enabled(s, e) && !Dead(s)
    ensures Dead(Step(s, e)) <==> e.Take? && s.queue == []
  {
    hide Reachable;
    ReachableHolds(s);
    var t, a := Step(s, e), e.a;
    OwnedStep(s, e);
    if e.Resume? {
      Carried(s, a);
    }
    hide Where, Locking, QueueSound, CarriedSound, Owned, OwnerExists;
    var moved := if e.Resume? then s.pc[a := Idle] else t.pc;
    Moved(s.pc, a, moved[a], HasToken);
    if e.Resume? {
      Moved(moved, s.pc[a].waiter, Acquiring, HasToken);
    }
  }

  /** Then nobody ever gets it again, however the run goes on. */
  lemma {:induction false} DeadForever(s: Mtx, run: seq<Event>)
    requires Dead(s) && Final(s, run).Some?
    ensures var t := Final(s, run).value;
            Dead(t) && forall a | a in t.pc :: !Granted(t.pc[a])
    decreases |run|
  {
    forall a | a in s.pc ensures !HasToken(s.pc[a]) {
      assert HasToken(s.pc[a]) ==> a in Where(s.pc, HasToken);
    }
    if run != [] {
      Nowhere(Step(s, run[0]).pc, HasToken);
      DeadForever(Step(s, run[0]), run[1..]);
    }
  }

  function Two(count: int, owner: Option<Agent>, lock: Option<Agent>, p0: Pc, p1: Pc): Mtx {
    Mtx(count, owner, lock, [], map[0 := p0, 1 := p1], false)
  }

  lemma {:induction false} Prepend(s: Mtx, e: Event, t: Mtx, run: seq<Event>, last: Mtx)
    requires Enabled(s, e) && Step(s, e) == t && Final(t, run) == Some(last)
    ensures Final(s, [e] + run) == Some(last)
  {
    assert ([e] + run)[1..] == run;
  }

  function Lost(): Mtx { Two(1, None, Some(0), Took(None), WantsQueue) }

  /** The holder unlocks, sees the other inside, and finds the queue still empty. */
  lemma UnlockTooEarly() returns (run: seq<Event>)
    ensures Final(Two(2, Some(0), None, Holding, WantsQueue), run) == Some(Lost())
  {
    hide Final;
    run := [];
    Nothing(Lost());
    Prepend(Two(1, None, Some(0), WakeLocked, WantsQueue), Take(0), Lost(), run, Lost());
    run := [Take(0)] + run;
    Prepend(Two(1, None, None, Waking, WantsQueue), LockToWake(0), Two(1, None, Some(0), WakeLocked, WantsQueue), run, Lost());
    run := [LockToWake(0)] + run;
    Prepend(Two(2, None, None, Releasing, WantsQueue), Leave(0), Two(1, None, None, Waking, WantsQueue), run, Lost());
    run := [Leave(0)] + run;
    Prepend(Two(2, Some(0), None, Holding, WantsQueue), Release(0), Two(2, None, None, Releasing, WantsQueue), run, Lost());
    run := [Release(0)] + run;
  }

  /** It happens with two threads: one unlocks between the other's increment and its joining the queue. */
  lemma WakeupLost()
    ensures Reachable(Lost()) && Dead(Lost())
  {
    hide Final, Lost;
    var run := UnlockTooEarly();
    Prepend(Two(1, Some(0), None, Holding, Idle), Enter(1), Two(2, Some(0), None, Holding, WantsQueue), run, Lost());
    run := [Enter(1)] + run;
    Prepend(Two(1, None, None, Acquiring, Idle), Acquire(0), Two(1, Some(0), None, Holding, Idle), run, Lost());
    run := [Acquire(0)] + run;
    assert Start({0, 1}) == Two(0, None, None, Idle, Idle);
    Prepend(Start({0, 1}), Enter(0), Two(1, None, None, Acquiring, Idle), run, Lost());
    LostIsDead();
  }

  lemma LostIsDead()
    ensures Dead(Lost())
  {
    Nowhere(Lost().pc, HasToken);
  }

  lemma Nothing(s: Mtx)
    ensures Final(s, []) == Some(s)
  {}

  // ---------------------------------------------------------------------------------
  // Nothing is left hanging
  // ---------------------------------------------------------------------------------

  /** A new call; every other step goes on with one that was begun. */
  predicate Begins(e: Event) { e.Enter? || e.Release? }

  predicate Settled(s: Mtx) { forall a | a in s.pc :: s.pc[a].Idle? || s.pc[a].Asleep? || s.pc[a].Holding? }

  /** How many steps a thread's call still takes at most, with the grant of the waiter it wakes. */
  function Rest(p: Pc): nat {
    match p
    case Idle => 0 case Asleep => 0 case Holding => 0
    case WantsQueue => 3 case QueueLocked => 2 case Joined => 1 case Acquiring => 1
    case Releasing => 6 case Waking => 5 case WakeLocked => 4 case Took(_) => 3 case Resuming(_) => 2
  }

  function Above(k: nat): Pc -> bool { (p: Pc) => Rest(p) > k }

  function Left(pc: map<Agent, Pc>): nat {
    |Where(pc, Above(0))| + |Where(pc, Above(1))| + |Where(pc, Above(2))|
    + |Where(pc, Above(3))| + |Where(pc, Above(4))| + |Where(pc, Above(5))|
  }

  lemma LeftMoved(pc: map<Agent, Pc>, a: Agent, p: Pc)
    requires a in pc
    ensures Left(pc[a := p]) + Rest(pc[a]) == Left(pc) + Rest(p)
  {
    hide Where;
    Moved(pc, a, p, Above(0));
    Moved(pc, a, p, Above(1));
    Moved(pc, a, p, Above(2));
    Moved(pc, a, p, Above(3));
    Moved(pc, a, p, Above(4));
    Moved(pc, a, p, Above(5));
  }

  lemma LeftStep(s: Mtx, e: Event)
    requires CarriedSound(s) && Enabled(s, e) && !Begins(e) && !Step(s, e).halted
    ensures Left(Step(s, e).pc) < Left(s.pc)
  {
    hide Left;
    if e.Resume? {
      Carried(s, e.a);
      LeftMoved(s.pc, e.a, Idle);
      LeftMoved(s.pc[e.a := Idle], s.pc[e.a].waiter, Acquiring);
    } else {
      LeftMoved(s.pc, e.a, Step(s, e).pc[e.a]);
    }
  }

  /** Where a call is under way, one can go on. */
  lemma SomeGoesOn(s: Mtx) returns (e: Event)
    requires Locking(s) && CarriedSound(s) && !s.halted && !Settled(s)
    ensures Enabled(s, e) && !Begins(e)
  {
    var a :| a in s.pc && !s.pc[a].Idle? && !s.pc[a].Asleep? && !s.pc[a].Holding?;
    if s.lock.Some? {
      a := s.lock.value;
    }
    match s.pc[a]
    case WantsQueue => e := LockToWait(a);
    case QueueLocked => e := Join(a);
    case Joined => e := Sleep(a);
    case Acquiring => e := Acquire(a);
    case Releasing => e := Leave(a);
    case Waking => e := LockToWake(a);
    case WakeLocked => e := Take(a);
    case Took(_) => e := Unlock(a);
    case Resuming(w) =>
      Carried(s, a);
      e := Resume(a);
  }

  lemma InvariantParts(s: Mtx)
    requires Invariant(s)
    ensures Locking(s) && CarriedSound(s) && !s.halted
  {}

  lemma {:induction false} RunLeft(s: Mtx, run: seq<Event>)
    requires Invariant(s) && Final(s, run).Some? && forall e | e in run :: !Begins(e)
    ensures |run| + Left(Final(s, run).value.pc) <= Left(s.pc)
    decreases |run|
  {
    hide Invariant, Step, Enabled, Left, CarriedSound, Locking;
    if run != [] {
      assert run[0] in run;
      StepHolds(s, run[0]);
      InvariantParts(s);
      InvariantParts(Step(s, run[0]));
      LeftStep(s, run[0]);
      RunLeft(Step(s, run[0]), run[1..]);
    }
  }

  /** Without new calls a run has a bounded length, in whatever order the steps are taken. When it can go no
      further one thread holds the mutex, or none is inside, or a wakeup was lost. */
  lemma SomeoneHoldsIt(s: Mtx, run: seq<Event>)
    requires Reachable(s) && Final(s, run).Some? && forall e | e in run :: !Begins(e)
    ensures |run| <= Left(s.pc)
    ensures var t := Final(s, run).value;
            || (exists e :: Enabled(t, e) && !Begins(e))
            || (Settled(t) && (Dead(t) || (t.owner.Some? && At(t, t.owner.value, Holding)) || forall a | a in t.pc :: t.pc[a].Idle?))
  {
    hide Reachable, Invariant, Enabled, Step, Left, Dead;
    ReachableHolds(s);
    RunLeft(s, run);
    RunHolds(s, run);
    var t := Final(s, run).value;
    if !Settled(t) {
      InvariantParts(t);
      var e := SomeGoesOn(t);
    } else {
      SettledHeld(t);
    }
  }

  lemma SettledHeld(s: Mtx)
    requires Invariant(s) && Settled(s)
    ensures Dead(s) || (s.owner.Some? && At(s, s.owner.value, Holding)) || forall a | a in s.pc :: s.pc[a].Idle?
  {
    if s.count == 0 {
      assert Where(s.pc, Inside) == {};
      forall a | a in s.pc ensures s.pc[a].Idle? {
        assert a !in Where(s.pc, Inside);
      }
    } else if Where(s.pc, HasToken) != {} {
      var h :| h in Where(s.pc, HasToken);
      assert s.pc[h].Holding?;
    }
  }

  // What calls do that nobody interrupts.

  predicate Leads(s: Mtx, e: Event, t: Mtx) { Enabled(s, e) && Step(s, e) == t }

  /** Steps that lead from state to state are a run. */
  lemma {:induction false} Along(states: seq<Mtx>, run: seq<Event>)
    requires |states| == |run| + 1
    requires forall i | 0 <= i < |run| :: Leads(states[i], run[i], states[i + 1])
    ensures Final(states[0], run) == Some(states[|run|])
    decreases |run|
  {
    hide Enabled, Step;
    if run != [] {
      assert Leads(states[0], run[0], states[1]);
      Along(states[1..], run[1..]);
    }
  }

  /** Locking takes a free mutex, and joins the queue of one that is taken. */
  lemma LockAlone(s: Mtx, a: Agent)
    requires At(s, a, Idle) && s.lock.None? && !s.halted
    ensures s.count < 1 && s.owner.None? ==>
              Final(s, [Enter(a), Acquire(a)]) == Some(s.(count := s.count + 1, owner := Some(a), pc := s.pc[a := Holding]))
    ensures 1 <= s.count ==>
              Final(s, [Enter(a), LockToWait(a), Join(a), Sleep(a)])
              == Some(s.(count := s.count + 1, queue := s.queue + [a], pc := s.pc[a := Asleep]))
  {
    hide Enabled, Step, Final, Leads;
    if s.count < 1 && s.owner.None? {
      var s1, t := LockTakes(s, a);
      Along([s, s1, t], [Enter(a), Acquire(a)]);
    } else if 1 <= s.count {
      var s1, s2, s3, t := LockSleeps(s, a);
      Along([s, s1, s2, s3, t], [Enter(a), LockToWait(a), Join(a), Sleep(a)]);
    }
  }

  lemma LockTakes(s: Mtx, a: Agent) returns (s1: Mtx, t: Mtx)
    requires At(s, a, Idle) && !s.halted && s.count < 1 && s.owner.None?
    ensures Leads(s, Enter(a), s1) && Leads(s1, Acquire(a), t)
    ensures t == s.(count := s.count + 1, owner := Some(a), pc := s.pc[a := Holding])
  {
    s1 := Step(s, Enter(a));
    t := Step(s1, Acquire(a));
    assert t.pc == s.pc[a := Holding];
  }

  lemma LockSleeps(s: Mtx, a: Agent) returns (s1: Mtx, s2: Mtx, s3: Mtx, t: Mtx)
    requires At(s, a, Idle) && s.lock.None? && !s.halted && 1 <= s.count
    ensures Leads(s, Enter(a), s1) && Leads(s1, LockToWait(a), s2) && Leads(s2, Join(a), s3) && Leads(s3, Sleep(a), t)
    ensures t == s.(count := s.count + 1, queue := s.queue + [a], pc := s.pc[a := Asleep])
  {
    s1 := s.(count := s.count + 1, pc := s.pc[a := WantsQueue]);
    s2 := s1.(lock := Some(a), pc := s1.pc[a := QueueLocked]);
    s3 := s2.(queue := s.queue + [a], pc := s2.pc[a := Joined]);
    t := s3.(lock := None, pc := s3.pc[a := Asleep]);
    assert t.pc == s.pc[a := Asleep];
  }

  /** Unlocking frees a mutex nobody else wants, and hands one over to the first of the queue. */
  lemma UnlockAlone(s: Mtx, a: Agent)
    requires At(s, a, Holding) && s.owner == Some(a) && s.lock.None? && !s.halted
    ensures s.count <= 1 ==>
              Final(s, [Release(a), Leave(a)]) == Some(s.(count := s.count - 1, owner := None, pc := s.pc[a := Idle]))
    ensures 1 < s.count && s.queue != [] && At(s, s.queue[0], Asleep) ==>
              var w := s.queue[0];
              Final(s, [Release(a), Leave(a), LockToWake(a), Take(a), Unlock(a), Resume(a), Acquire(w)])
              == Some(s.(count := s.count - 1, owner := Some(w), queue := s.queue[1..], pc := s.pc[a := Idle][w := Holding]))
  {
    hide Enabled, Step, Final, Leads;
    if s.count <= 1 {
      var s1, t := UnlockFrees(s, a);
      Along([s, s1, t], [Release(a), Leave(a)]);
    } else if s.queue != [] && At(s, s.queue[0], Asleep) {
      var w := s.queue[0];
      var s1, s2, s3, s4 := UnlockTakes(s, a, w, s.queue[1..]);
      var s5, s6, t := UnlockHandsOver(s, s4, a, w, s.queue[1..]);
      Along([s, s1, s2, s3, s4, s5, s6, t], [Release(a), Leave(a), LockToWake(a), Take(a), Unlock(a), Resume(a), Acquire(w)]);
    }
  }

  lemma UnlockFrees(s: Mtx, a: Agent) returns (s1: Mtx, t: Mtx)
    requires At(s, a, Holding) && s.owner == Some(a) && !s.halted && s.count <= 1
    ensures Leads(s, Release(a), s1) && Leads(s1, Leave(a), t)
    ensures t == s.(count := s.count - 1, owner := None, pc := s.pc[a := Idle])
  {
    s1 := Step(s, Release(a));
    t := Step(s1, Leave(a));
    assert t.pc == s.pc[a := Idle];
  }

  lemma UnlockTakes(s: Mtx, a: Agent, w: Agent, rest: seq<Agent>) returns (s1: Mtx, s2: Mtx, s3: Mtx, s4: Mtx)
    requires At(s, a, Holding) && s.owner == Some(a) && s.lock.None? && !s.halted && 1 < s.count && s.queue == [w] + rest
    ensures Leads(s, Release(a), s1) && Leads(s1, Leave(a), s2) && Leads(s2, LockToWake(a), s3) && Leads(s3, Take(a), s4)
    ensures s4 == s.(count := s.count - 1, owner := None, lock := Some(a), queue := rest, pc := s.pc[a := Took(Some(w))])
  {
    s1 := s.(owner := None, pc := s.pc[a := Releasing]);
    s2 := s1.(count := s.count - 1, pc := s1.pc[a := Waking]);
    s3 := s2.(lock := Some(a), pc := s2.pc[a := WakeLocked]);
    s4 := s3.(queue := rest, pc := s3.pc[a := Took(Some(w))]);
    assert s4.pc == s.pc[a := Took(Some(w))];
  }

  lemma UnlockHandsOver(s: Mtx, s4: Mtx, a: Agent, w: Agent, rest: seq<Agent>) returns (s5: Mtx, s6: Mtx, t: Mtx)
    requires At(s, a, Holding) && At(s, w, Asleep) && !s.halted
    requires s4 == s.(count := s.count - 1, owner := None, lock := Some(a), queue := rest, pc := s.pc[a := Took(Some(w))])
    ensures Leads(s4, Unlock(a), s5) && Leads(s5, Resume(a), s6) && Leads(s6, Acquire(w), t)
    ensures t == s.(count := s.count - 1, owner := Some(w), lock := None, queue := rest, pc := s.pc[a := Idle][w := Holding])
  {
    s5 := s4.(lock := None, pc := s4.pc[a := Resuming(w)]);
    s6 := s5.(pc := s5.pc[a := Idle][w := Acquiring]);
    t := s6.(owner := Some(w), pc := s6.pc[w := Holding]);
    assert t.pc == s.pc[a := Idle][w := Holding];
  }
}
