/** The counting semaphore of kernel-3/kern/task.c as interleaved steps of any number of agents
    (threads, and interrupt handlers that signal). */
module Semaphore {
  import opened Common
  import opened Steps

  type Agent = nat

  /** Where an agent stands inside `semaphore_wait`, `semaphore_signal` or `waitq_wake_one`. */
  datatype Pc =
    | Idle
    | WaitLocked              // holds the wait queue's lock, has not decremented
    | WaitPassed              // decremented to at least 0, about to unlock
    | WaitBlocking            // decremented below 0, about to join the queue
    | WaitJoined              // in the queue, about to unlock and switch away
    | Asleep                  // switched away, in the queue or taken from it
    | Signalling              // incremented to at most 0, about to lock the queue
    | SignalLocked            // holds the lock, about to take the first waiter
    | SignalTook(taken: Option<Agent>) // about to unlock
    | Resuming(waiter: Agent)         // unlocked, about to resume the waiter

  datatype Event = Lock(a: Agent) | Decrement(a: Agent) | Pass(a: Agent) | Join(a: Agent) | Sleep(a: Agent)
                 | Increment(a: Agent) | LockToWake(a: Agent) | Take(a: Agent) | Unlock(a: Agent) | Resume(a: Agent)

  /** `begun`, `done` and `signals` are tallies: decrements, finished waits, increments. */
  datatype Sem = Sem(count: int, lock: Option<Agent>, queue: seq<Agent>, pc: map<Agent, Pc>,
                     begun: nat, done: nat, signals: nat)

  predicate At(s: Sem, a: Agent, p: Pc) { a in s.pc && s.pc[a] == p }

  /** When an agent can take a step: only the two lock steps ever wait. */
  predicate Enabled(s: Sem, e: Event) {
    match e
    case Lock(a) => At(s, a, Idle) && s.lock.None?
    case Decrement(a) => At(s, a, WaitLocked)
    case Pass(a) => At(s, a, WaitPassed)
    case Join(a) => At(s, a, WaitBlocking)
    case Sleep(a) => At(s, a, WaitJoined)
    case Increment(a) => At(s, a, Idle)
    case LockToWake(a) => At(s, a, Signalling) && s.lock.None?
    case Take(a) => At(s, a, SignalLocked)
    case Unlock(a) => a in s.pc && s.pc[a].SignalTook?
    case Resume(a) => a in s.pc && s.pc[a].Resuming? && s.pc[a].waiter in s.pc
  }

  function Step(s: Sem, e: Event): Sem
    requires Enabled(s, e)
  {
    match e
    case Lock(a) => s.(lock := Some(a), pc := s.pc[a := WaitLocked])
    case Decrement(a) =>
      s.(count := s.count - 1, begun := s.begun + 1,
         pc := s.pc[a := if s.count - 1 < 0 then WaitBlocking else WaitPassed])
    case Pass(a) => s.(lock := None, pc := s.pc[a := Idle], done := s.done + 1)
    case Join(a) => s.(queue := s.queue + [a], pc := s.pc[a := WaitJoined])
    case Sleep(a) => s.(lock := None, pc := s.pc[a := Asleep])
    case Increment(a) =>
      s.(count := s.count + 1, signals := s.signals + 1,
         pc := s.pc[a := if s.count + 1 <= 0 then Signalling else Idle])
    case LockToWake(a) => s.(lock := Some(a), pc := s.pc[a := SignalLocked])
    case Take(a) =>
      if s.queue == [] then s.(pc := s.pc[a := SignalTook(None)])
      else s.(queue := s.queue[1..], pc := s.pc[a := SignalTook(Some(s.queue[0]))])
    case Unlock(a) =>
      s.(lock := None,
         pc := s.pc[a := match s.pc[a].taken case None => Idle case Some(w) => Resuming(w)])
    case Resume(a) =>
      s.(pc := s.pc[a := Idle][s.pc[a].waiter := Idle], done := s.done + 1)
  }

  // ---------------------------------------------------------------------------------
  // The invariant
  // ---------------------------------------------------------------------------------

  predicate IsBlocking(p: Pc) { p.WaitBlocking? }

  predicate HasPassed(p: Pc) { p.WaitPassed? }

  /** A signaller that still has to take a waiter. */
  predicate ToTake(p: Pc) { p.Signalling? || p.SignalLocked? }

  /** A signaller that took a waiter and has not resumed it. */
  predicate Carrying(p: Pc) { p.Resuming? || (p.SignalTook? && p.taken.Some?) }

  predicate Carries(p: Pc, w: Agent) { p == SignalTook(Some(w)) || p == Resuming(w) }

  function Blocking(s: Sem): set<Agent> { Where(s.pc, IsBlocking) }

  function Passed(s: Sem): set<Agent> { Where(s.pc, HasPassed) }

  function Pending(s: Sem): set<Agent> { Where(s.pc, ToTake) }

  function Carriers(s: Sem): set<Agent> { Where(s.pc, Carrying) }

  function Deficit(count: int): nat { if count < 0 then -count else 0 }

  predicate HoldsLock(p: Pc) {
    p.WaitLocked? || p.WaitPassed? || p.WaitBlocking? || p.WaitJoined? || p.SignalLocked? || p.SignalTook?
  }

  ghost predicate Locking(s: Sem) {
    && (s.lock.Some? ==> s.lock.value in s.pc)
    && (forall a | a in s.pc :: HoldsLock(s.pc[a]) <==> s.lock == Some(a))
  }

  /** The queue holds agents about to sleep or asleep, each once, and no agent a signaller carries. */
  ghost predicate QueueSound(s: Sem) {
    && (forall i, j | 0 <= i < j < |s.queue| :: s.queue[i] != s.queue[j])
    && (forall w | w in s.queue :: At(s, w, WaitJoined) || At(s, w, Asleep))
    && (forall a | At(s, a, WaitJoined) :: a in s.queue)
  }

  /** Each carried waiter sleeps, and one signaller carries it. */
  ghost predicate CarriedSound(s: Sem) {
    && (forall a, w | a in s.pc && Carries(s.pc[a], w) :: At(s, w, Asleep) && w !in s.queue)
    && (forall a, b, w | a in s.pc && b in s.pc && Carries(s.pc[a], w) && Carries(s.pc[b], w) :: a == b)
  }

  ghost predicate IsCarried(s: Sem, w: Agent) { exists a :: a in s.pc && Carries(s.pc[a], w) }

  /** A sleeping agent that has left the queue is carried. */
  ghost predicate NoneForgotten(s: Sem) {
    forall w | At(s, w, Asleep) && w !in s.queue :: IsCarried(s, w)
  }

  /** Queued and about-to-queue waiters, less the signallers yet to take one, are what the count lacks. */
  predicate NoneLost(s: Sem) {
    |s.queue| + |Blocking(s)| - |Pending(s)| == Deficit(s.count)
  }

  /** Every decrement is a finished wait or one still on its way. */
  predicate Tallied(s: Sem, permits: nat) {
    && s.count == permits + s.signals - s.begun
    && s.begun == s.done + |Passed(s)| + |Blocking(s)| + |s.queue| + |Carriers(s)|
  }

  /** No signaller ever finds the queue empty. */
  predicate NeverEmptyHanded(s: Sem) { forall a | a in s.pc :: s.pc[a] != SignalTook(None) }

  ghost predicate Invariant(s: Sem, permits: nat) {
    && Locking(s) && QueueSound(s) && CarriedSound(s) && NoneForgotten(s) && NeverEmptyHanded(s)
    && NoneLost(s) && Tallied(s, permits)
  }

  function Start(permits: nat, agents: set<Agent>): Sem {
    Sem(permits, None, [], map a | a in agents :: Idle, 0, 0, 0)
  }

  lemma StartHolds(permits: nat, agents: set<Agent>)
    ensures Invariant(Start(permits, agents), permits)
  {
    var s := Start(permits, agents);
    assert Passed(s) == {} && Blocking(s) == {} && Pending(s) == {} && Carriers(s) == {};
  }

  // ---------------------------------------------------------------------------------
  // Steps
  // ---------------------------------------------------------------------------------

  /** How the invariant's tallies change when `a` alone moves to `p`. */
  lemma Recount(s: Sem, t: Sem, a: Agent, p: Pc)
    requires a in s.pc && t.pc == s.pc[a := p]
    ensures |Passed(t)| + One(HasPassed(s.pc[a])) == |Passed(s)| + One(HasPassed(p))
    ensures |Blocking(t)| + One(IsBlocking(s.pc[a])) == |Blocking(s)| + One(IsBlocking(p))
    ensures |Pending(t)| + One(ToTake(s.pc[a])) == |Pending(s)| + One(ToTake(p))
    ensures |Carriers(t)| + One(Carrying(s.pc[a])) == |Carriers(s)| + One(Carrying(p))
  {
    Moved(s.pc, a, p, HasPassed);
    Moved(s.pc, a, p, IsBlocking);
    Moved(s.pc, a, p, ToTake);
    Moved(s.pc, a, p, Carrying);
  }

  lemma LockingStep(s: Sem, e: Event)
    requires Locking(s) && CarriedSound(s) && Enabled(s, e)
    ensures Locking(Step(s, e))
  {
    if e.Resume? {
      var w, t := s.pc[e.a].waiter, Step(s, e);
      assert Carries(s.pc[e.a], w) && At(s, w, Asleep);
      forall x | x in t.pc ensures HoldsLock(t.pc[x]) <==> t.lock == Some(x) {
        assert !HoldsLock(s.pc[w]) && !HoldsLock(s.pc[e.a]);
      }
    }
  }

  /** While a signaller holds the lock nobody is about to queue, so a waiter is there. */
  lemma WaiterIsThere(s: Sem, a: Agent)
    requires Locking(s) && NoneLost(s) && At(s, a, SignalLocked)
    ensures s.queue != [] && Blocking(s) == {}
    ensures QueueSound(s) ==> At(s, s.queue[0], Asleep)
  {
    assert forall b | b in s.pc && HoldsLock(s.pc[b]) :: b == a;
    assert Blocking(s) == {};
    assert a in Pending(s);
    assert s.queue[0] in s.queue;
  }

  lemma QueueStep(s: Sem, e: Event)
    requires Locking(s) && NoneLost(s) && QueueSound(s) && CarriedSound(s) && Enabled(s, e)
    ensures QueueSound(Step(s, e))
  {
    hide NoneLost;
    var t := Step(s, e);
    if e.Take? {
      WaiterIsThere(s, e.a);
      assert s.queue == [s.queue[0]] + t.queue;
      forall w | w in t.queue ensures At(t, w, WaitJoined) || At(t, w, Asleep) {
        assert w in s.queue;
      }
      assert forall w | w in s.pc && HoldsLock(s.pc[w]) :: w == e.a;
      assert forall w :: At(t, w, WaitJoined) ==> At(s, w, WaitJoined);
    } else if e.Join? {
      assert e.a !in s.queue;
      assert t.queue[|s.queue|] == e.a;
      forall w | At(t, w, WaitJoined) ensures w in t.queue {
        assert w != e.a ==> At(s, w, WaitJoined);
      }
    } else if e.Resume? {
      assert Carries(s.pc[e.a], s.pc[e.a].waiter);
    }
  }

  lemma CarriedStep(s: Sem, e: Event)
    requires Locking(s) && NoneLost(s) && QueueSound(s) && CarriedSound(s) && Enabled(s, e)
    ensures CarriedSound(Step(s, e))
  {
    hide NoneLost, Locking;
    var t := Step(s, e);
    if e.Take? {
      WaiterIsThere(s, e.a);
      assert s.queue == [s.queue[0]] + t.queue;
      assert s.queue[0] in s.queue;
    }
    assert s.queue != [] && e.Take? ==> s.queue[0] !in t.queue;
    hide QueueSound;
    forall a, w | a in t.pc && Carries(t.pc[a], w)
      ensures if e.Take? && a == e.a then w == s.queue[0] else Carries(s.pc[a], w)
      ensures At(t, w, Asleep) && w !in t.queue
    {
      if e.Take? && a == e.a {
        assert w == s.queue[0] && w !in t.queue;
      } else {
        assert Carries(s.pc[a], w);
        assert At(s, w, Asleep) && w !in s.queue;
        assert w in t.queue ==> e.Join?;
        assert e.Resume? ==> Carries(s.pc[e.a], s.pc[e.a].waiter);
      }
    }
  }

  lemma ForgottenStep(s: Sem, e: Event)
    requires Locking(s) && NoneLost(s) && QueueSound(s) && CarriedSound(s) && NoneForgotten(s) && NeverEmptyHanded(s) && Enabled(s, e)
    ensures NoneForgotten(Step(s, e)) && NeverEmptyHanded(Step(s, e))
  {
    hide NoneLost, Locking;
    var t := Step(s, e);
    if e.Take? {
      WaiterIsThere(s, e.a);
      assert s.queue == [s.queue[0]] + t.queue;
      assert Carries(t.pc[e.a], s.queue[0]) && IsCarried(t, s.queue[0]);
    }
    forall w | At(t, w, Asleep) && w !in t.queue ensures IsCarried(t, w) {
      if w !in s.queue {
        assert e.Sleep? ==> At(s, e.a, WaitJoined);
        assert At(s, w, Asleep);
        var b :| b in s.pc && Carries(s.pc[b], w);
        if e.Resume? {
          var waiter := s.pc[e.a].waiter;
          assert Carries(s.pc[e.a], waiter) && At(s, waiter, Asleep);
          assert t.pc[waiter] == Idle && w != waiter && b != waiter;
        }
        assert Carries(t.pc[b], w);
      }
    }
  }

  lemma CountsResume(s: Sem, e: Event, permits: nat)
    requires CarriedSound(s) && NoneLost(s) && Tallied(s, permits) && Enabled(s, e) && e.Resume?
    ensures NoneLost(Step(s, e)) && Tallied(Step(s, e), permits)
  {
    var w := s.pc[e.a].waiter;
    assert Carries(s.pc[e.a], w) && At(s, w, Asleep);
    hide CarriedSound, Passed, Blocking, Pending, Carriers;
    var mid := s.(pc := s.pc[e.a := Idle]);
    Recount(s, mid, e.a, Idle);
    Recount(mid, Step(s, e), w, Idle);
  }

  lemma CountsStep(s: Sem, e: Event, permits: nat)
    requires Invariant(s, permits) && Enabled(s, e)
    ensures NoneLost(Step(s, e)) && Tallied(Step(s, e), permits)
  {
    if e.Take? {
      WaiterIsThere(s, e.a);
    }
    assert CarriedSound(s) && NoneLost(s) && Tallied(s, permits) && s.pc[e.a] != SignalTook(None);
    hide Invariant, Locking, QueueSound, CarriedSound, NoneForgotten, NeverEmptyHanded, Passed, Blocking, Pending, Carriers;
    if e.Resume? {
      CountsResume(s, e, permits);
    } else {
      Recount(s, Step(s, e), e.a, Step(s, e).pc[e.a]);
    }
  }

  lemma StepHolds(s: Sem, e: Event, permits: nat)
    requires Invariant(s, permits) && Enabled(s, e)
    ensures Invariant(Step(s, e), permits)
  {
    hide Locking, QueueSound, CarriedSound, NoneForgotten, NeverEmptyHanded, NoneLost, Tallied, Step, Enabled;
    LockingStep(s, e);
    QueueStep(s, e);
    CarriedStep(s, e);
    ForgottenStep(s, e);
    CountsStep(s, e, permits);
  }

  function Final(s: Sem, run: seq<Event>): Option<Sem>
    decreases |run|
  {
    if run == [] then Some(s)
    else if Enabled(s, run[0]) then Final(Step(s, run[0]), run[1..])
    else None
  }

  lemma {:induction false} RunHolds(s: Sem, run: seq<Event>, permits: nat)
    requires Invariant(s, permits) && Final(s, run).Some?
    decreases |run|
    ensures Invariant(Final(s, run).value, permits)
  {
    hide Invariant, Step, Enabled;
    if run != [] {
      StepHolds(s, run[0], permits);
      RunHolds(Step(s, run[0]), run[1..], permits);
    }
  }

  // ---------------------------------------------------------------------------------
  // What holds after any run
  // ---------------------------------------------------------------------------------

  ghost predicate Reachable(s: Sem, permits: nat) {
    exists agents: set<Agent>, run: seq<Event> :: Final(Start(permits, agents), run) == Some(s)
  }

  lemma ReachableHolds(s: Sem, permits: nat)
    requires Reachable(s, permits)
    ensures Invariant(s, permits)
  {
    hide Invariant, Step, Enabled;
    var agents, run :| Final(Start(permits, agents), run) == Some(s);
    StartHolds(permits, agents);
    RunHolds(Start(permits, agents), run, permits);
  }

  /** A signaller about to take a waiter finds one, and it is an agent that has gone to sleep. */
  lemma SignalFindsWaiter(s: Sem, permits: nat, a: Agent)
    requires Reachable(s, permits) && At(s, a, SignalLocked)
    ensures s.queue != [] && At(s, s.queue[0], Asleep)
    ensures Step(s, Take(a)).pc[a] == SignalTook(Some(s.queue[0]))
  {
    hide Reachable;
    ReachableHolds(s, permits);
    WaiterIsThere(s, a);
  }

  // ---------------------------------------------------------------------------------
  // Order of service
  // ---------------------------------------------------------------------------------

  /** How many waiters are taken from the queue in a run. */
  function Takes(run: seq<Event>): nat
    decreases |run|
  {
    if run == [] then 0 else (if run[0].Take? then 1 else 0) + Takes(run[1..])
  }

  /** First come, first served: whoever is at position `i` of the queue moves up by one with each waiter
      taken and is the one taken after `i` of them, whoever joins meanwhile. */
  lemma {:induction false} FirstComeFirstServed(s: Sem, i: nat, run: seq<Event>)
    requires i < |s.queue| && Final(s, run).Some? && Takes(run) <= i
    ensures var t, n := Final(s, run).value, i - Takes(run);
            && n < |t.queue| && t.queue[n] == s.queue[i]
            && (n == 0 ==> forall a | Enabled(t, Take(a)) :: a in Step(t, Take(a)).pc && Step(t, Take(a)).pc[a] == SignalTook(Some(s.queue[i])))
    decreases |run|
  {
    if run != [] {
      LineStep(s, i, run[0]);
      hide Enabled, Step;
      FirstComeFirstServed(Step(s, run[0]), if run[0].Take? then i - 1 else i, run[1..]);
    }
  }

  lemma LineStep(s: Sem, i: nat, e: Event)
    requires Enabled(s, e) && i < |s.queue|
    ensures var q, n := Step(s, e).queue, if e.Take? then 1 else 0;
            n <= i ==> i - n < |q| && q[i - n] == s.queue[i]
  {}

  /** Finished waits never outnumber the permits there were and the signals sent. */
  lemma WaitsAreBacked(s: Sem, permits: nat)
    requires Reachable(s, permits)
    ensures s.done <= permits + s.signals
  {
    hide Reachable;
    ReachableHolds(s, permits);
  }

  /** No signaller is between its increment and its resume, and no waiter is between decrement and sleep. */
  predicate Quiet(s: Sem) {
    forall a | a in s.pc :: s.pc[a].Idle? || s.pc[a].Asleep? || s.pc[a].WaitLocked?
  }

  /** Nothing is lost: when no step is under way, exactly as many waits have finished as the permits
      and signals allow, and the others are all in the queue. */
  lemma QuietServesAll(s: Sem, permits: nat)
    requires Reachable(s, permits) && Quiet(s)
    ensures s.done == if s.begun <= permits + s.signals then s.begun else permits + s.signals
    ensures |s.queue| == s.begun - s.done
    ensures forall a | At(s, a, Asleep) :: a in s.queue
  {
    hide Reachable;
    ReachableHolds(s, permits);
    QuietServes(s, permits);
  }

  lemma QuietServes(s: Sem, permits: nat)
    requires Invariant(s, permits) && Quiet(s)
    ensures s.done == if s.begun <= permits + s.signals then s.begun else permits + s.signals
    ensures |s.queue| == s.begun - s.done
    ensures forall a | At(s, a, Asleep) :: a in s.queue
  {
    assert Passed(s) == {} && Blocking(s) == {} && Pending(s) == {} && Carriers(s) == {};
  }

  // ---------------------------------------------------------------------------------
  // Nothing is left hanging
  // ---------------------------------------------------------------------------------

  /** A new call; every other step goes on with one that was begun. */
  predicate Begins(e: Event) { e.Lock? || e.Increment? }

  predicate Settled(s: Sem) { forall a | a in s.pc :: s.pc[a].Idle? || s.pc[a].Asleep? }

  /** How many steps an agent's call still takes at most. */
  function Rest(p: Pc): nat {
    match p
    case Idle => 0 case Asleep => 0
    case WaitLocked => 3 case WaitBlocking => 2 case WaitJoined => 1 case WaitPassed => 1
    case Signalling => 4 case SignalLocked => 3 case SignalTook(_) => 2 case Resuming(_) => 1
  }

  function Above(k: nat): Pc -> bool { (p: Pc) => Rest(p) > k }

  function Left(pc: map<Agent, Pc>): nat {
    |Where(pc, Above(0))| + |Where(pc, Above(1))| + |Where(pc, Above(2))| + |Where(pc, Above(3))|
  }

  lemma LeftMoved(pc: map<Agent, Pc>, a: Agent, p: Pc)
    requires a in pc
    ensures Left(pc[a := p]) + Rest(pc[a]) == Left(pc) + Rest(p)
  {
    hide Where;
    Moved(pc, a, p, Above(0));
    Moved(pc, a, p, Above(1));
    Moved(pc, a, p, Above(2));
    Moved(pc, a, p, Above(3));
  }

  lemma LeftStep(s: Sem, e: Event)
    requires CarriedSound(s) && Enabled(s, e) && !Begins(e)
    ensures Left(Step(s, e).pc) < Left(s.pc)
  {
    hide Left;
    if e.Resume? {
      var w := s.pc[e.a].waiter;
      assert Carries(s.pc[e.a], w) && At(s, w, Asleep);
      LeftMoved(s.pc, e.a, Idle);
      LeftMoved(s.pc[e.a := Idle], w, Idle);
    } else {
      LeftMoved(s.pc, e.a, Step(s, e).pc[e.a]);
    }
  }

  /** Where a call is under way, one can go on. */
  lemma SomeGoesOn(s: Sem) returns (e: Event)
    requires Locking(s) && CarriedSound(s) && !Settled(s)
    ensures Enabled(s, e) && !Begins(e)
  {
    var a :| a in s.pc && !s.pc[a].Idle? && !s.pc[a].Asleep?;
    if s.lock.Some? {
      a := s.lock.value;
    }
    match s.pc[a]
    case WaitLocked => e := Decrement(a);
    case WaitPassed => e := Pass(a);
    case WaitBlocking => e := Join(a);
    case WaitJoined => e := Sleep(a);
    case SignalLocked => e := Take(a);
    case SignalTook(_) => e := Unlock(a);
    case Signalling => e := LockToWake(a);
    case Resuming(w) =>
      assert Carries(s.pc[a], w) && At(s, w, Asleep);
      e := Resume(a);
  }

  lemma {:induction false} RunLeft(s: Sem, run: seq<Event>, permits: nat)
    requires Invariant(s, permits) && Final(s, run).Some? && forall e | e in run :: !Begins(e)
    ensures |run| + Left(Final(s, run).value.pc) <= Left(s.pc)
    decreases |run|
  {
    if run != [] {
      assert run[0] in run;
      LeftStep(s, run[0]);
      StepHolds(s, run[0], permits);
      hide Invariant, Step, Enabled, Left;
      RunLeft(Step(s, run[0]), run[1..], permits);
    }
  }

  /** Every wait that can be served is served, in whatever order the steps are taken: without new calls a run
      has a bounded length, and when it can go no further all waits the permits and signals allow have
      finished, and the others are asleep in the queue. */
  lemma AllServed(s: Sem, permits: nat, run: seq<Event>)
    requires Reachable(s, permits) && Final(s, run).Some? && forall e | e in run :: !Begins(e)
    ensures |run| <= Left(s.pc)
    ensures var t := Final(s, run).value;
            || (exists e :: Enabled(t, e) && !Begins(e))
            || (&& Settled(t) && t.done == (if t.begun <= permits + t.signals then t.begun else permits + t.signals)
                && |t.queue| == t.begun - t.done && forall a | At(t, a, Asleep) :: a in t.queue)
  {
    hide Reachable, Invariant, Enabled, Step, Left;
    ReachableHolds(s, permits);
    RunLeft(s, run, permits);
    RunHolds(s, run, permits);
    var t := Final(s, run).value;
    if !Settled(t) {
      InvariantParts(t, permits);
      var e := SomeGoesOn(t);
    } else {
      QuietServes(t, permits);
    }
  }

  lemma InvariantParts(s: Sem, permits: nat)
    requires Invariant(s, permits)
    ensures Locking(s) && CarriedSound(s)
  {}

  /** Steps that lead from state to state are a run. */
  lemma {:induction false} Along(states: seq<Sem>, run: seq<Event>)
    requires |states| == |run| + 1
    requires forall i | 0 <= i < |run| :: Leads(states[i], run[i], states[i + 1])
    ensures Final(states[0], run) == Some(states[|run|])
    decreases |run|
  {
    hide Enabled, Step;
    if run != [] {
      assert Leads(states[0], run[0], states[1]);
      Along(states[1..], run[1..]);
    }
  }

  /** `t` is where one step leads. */
  predicate Leads(s: Sem, e: Event, t: Sem) { Enabled(s, e) && Step(s, e) == t }

  /** A wait that nobody interrupts takes a permit, or joins the queue and sleeps. */
  lemma WaitAlone(s: Sem, a: Agent)
    requires At(s, a, Idle) && s.lock.None?
    ensures 0 < s.count ==>
              Final(s, [Lock(a), Decrement(a), Pass(a)]) == Some(s.(count := s.count - 1, begun := s.begun + 1, done := s.done + 1))
    ensures s.count <= 0 ==>
              Final(s, [Lock(a), Decrement(a), Join(a), Sleep(a)])
              == Some(s.(count := s.count - 1, begun := s.begun + 1, queue := s.queue + [a], pc := s.pc[a := Asleep]))
  {
    hide Enabled, Step, Final, Leads;
    var s1 := s.(lock := Some(a), pc := s.pc[a := WaitLocked]);
    if 0 < s.count {
      var s2, t := WaitPasses(s, a, s1);
      Along([s, s1, s2, t], [Lock(a), Decrement(a), Pass(a)]);
    } else {
      var s2, s3, t := WaitSleeps(s, a, s1);
      Along([s, s1, s2, s3, t], [Lock(a), Decrement(a), Join(a), Sleep(a)]);
    }
  }

  lemma WaitPasses(s: Sem, a: Agent, s1: Sem) returns (s2: Sem, t: Sem)
    requires At(s, a, Idle) && s.lock.None? && 0 < s.count && s1 == s.(lock := Some(a), pc := s.pc[a := WaitLocked])
    ensures Leads(s, Lock(a), s1) && Leads(s1, Decrement(a), s2) && Leads(s2, Pass(a), t)
    ensures t == s.(count := s.count - 1, begun := s.begun + 1, done := s.done + 1)
  {
    s2 := Step(s1, Decrement(a));
    t := Step(s2, Pass(a));
    assert t.pc == s.pc;
  }

  lemma WaitSleeps(s: Sem, a: Agent, s1: Sem) returns (s2: Sem, s3: Sem, t: Sem)
    requires At(s, a, Idle) && s.lock.None? && s.count <= 0 && s1 == s.(lock := Some(a), pc := s.pc[a := WaitLocked])
    ensures Leads(s, Lock(a), s1) && Leads(s1, Decrement(a), s2) && Leads(s2, Join(a), s3) && Leads(s3, Sleep(a), t)
    ensures t == s.(count := s.count - 1, begun := s.begun + 1, queue := s.queue + [a], pc := s.pc[a := Asleep])
  {
    s2 := Step(s1, Decrement(a));
    s3 := Step(s2, Join(a));
    t := Step(s3, Sleep(a));
    assert t.pc == s.pc[a := Asleep];
  }

  /** A signal that nobody interrupts adds a permit, or ends the wait of the first of the queue. */
  lemma SignalAlone(s: Sem, a: Agent)
    requires At(s, a, Idle) && s.lock.None?
    ensures 0 <= s.count ==> Final(s, [Increment(a)]) == Some(s.(count := s.count + 1, signals := s.signals + 1))
    ensures s.count < 0 && s.queue != [] && At(s, s.queue[0], Asleep) ==>
              Final(s, [Increment(a), LockToWake(a), Take(a), Unlock(a), Resume(a)])
              == Some(s.(count := s.count + 1, signals := s.signals + 1, done := s.done + 1, queue := s.queue[1..],
                         pc := s.pc[s.queue[0] := Idle]))
  {
    hide Enabled, Step, Final, Leads;
    if 0 <= s.count {
      var t := SignalAdds(s, a);
      Along([s, t], [Increment(a)]);
    } else if s.queue != [] && At(s, s.queue[0], Asleep) {
      var s1, s2, s3, s4, t := SignalWakes(s, a, s.queue[0], s.queue[1..]);
      Along([s, s1, s2, s3, s4, t], [Increment(a), LockToWake(a), Take(a), Unlock(a), Resume(a)]);
    }
  }

  lemma SignalAdds(s: Sem, a: Agent) returns (t: Sem)
    requires At(s, a, Idle) && 0 <= s.count
    ensures Leads(s, Increment(a), t) && t == s.(count := s.count + 1, signals := s.signals + 1)
  {
    t := Step(s, Increment(a));
    assert t.pc == s.pc;
  }

  lemma SignalWakes(s: Sem, a: Agent, w: Agent, rest: seq<Agent>) returns (s1: Sem, s2: Sem, s3: Sem, s4: Sem, t: Sem)
    requires At(s, a, Idle) && s.lock.None? && s.count < 0 && s.queue == [w] + rest && At(s, w, Asleep)
    ensures Leads(s, Increment(a), s1) && Leads(s1, LockToWake(a), s2) && Leads(s2, Take(a), s3)
    ensures Leads(s3, Unlock(a), s4) && Leads(s4, Resume(a), t)
    ensures t == s.(count := s.count + 1, signals := s.signals + 1, done := s.done + 1, queue := rest, pc := s.pc[w := Idle])
  {
    s1 := s.(count := s.count + 1, signals := s.signals + 1, pc := s.pc[a := Signalling]);
    s2 := s1.(lock := Some(a), pc := s1.pc[a := SignalLocked]);
    s3 := s2.(queue := rest, pc := s2.pc[a := SignalTook(Some(w))]);
    s4 := s3.(lock := None, pc := s3.pc[a := Resuming(w)]);
    t := s4.(pc := s4.pc[a := Idle][w := Idle], done := s.done + 1);
    assert t.pc == s.pc[w := Idle];
  }
}
