/** Wait queues, run queues and context switches of kernel-3/kern/task.c, and the switch branch of
    kernel-3/x86_64/intr.c, as interleaved steps of any number of processors and threads. */
module Scheduler {
  import opened Common

  type Tid = nat

  datatype State = Runnable | Running | Waiting | Exiting

  /** Where a thread's queue linkage is: bookkeeping that no step reads. `Limbo` is a thread that a
      waker took off its wait queue and has not resumed, `Fresh` one that was never resumed. */
  datatype Place = Nowhere | OnRun | OnWait(w: nat) | Limbo | Fresh

  /** `context` is what the thread's registers should be; `frame` is where they are saved. */
  datatype Thread = Thread(cpu: nat, state: State, place: Place, locked: bool, frame: int, context: int)

  /** `window` says that the current thread joined a wait queue, or is exiting, with interrupts off
      and has not rescheduled. */
  datatype Cpu = Cpu(runq: seq<Tid>, current: Tid, idle: Tid, window: bool, regs: int)

  datatype Sys = Sys(cpus: seq<Cpu>, waitqs: seq<seq<Tid>>, th: map<Tid, Thread>, lastcpu: nat,
                     switching: Option<nat>, from: Tid, halted: bool)

  datatype Event = New(t: Tid, v: int) | Work(c: nat, v: int) | Join(c: nat, w: nat) | Exit(c: nat)
                 | Dequeue(w: nat) | Resume(t: Tid) | Reschedule(c: nat) | Switch(c: nat)

  /** The current thread of a processor that runs code with interrupts on. */
  predicate Free(s: Sys, c: nat) {
    c < |s.cpus| && !s.cpus[c].window && s.switching != Some(c) && s.cpus[c].current in s.th
  }

  predicate Enabled(s: Sys, e: Event) {
    && !s.halted
    && match e
       case New(t, _) => t !in s.th && s.switching.None? && s.cpus != []
       case Work(c, _) => Free(s, c)
       case Join(c, w) =>
         && Free(s, c) && w < |s.waitqs| && s.cpus[c].current != s.cpus[c].idle
         && !s.th[s.cpus[c].current].locked
       case Exit(c) => Free(s, c) && s.cpus[c].current != s.cpus[c].idle
       case Dequeue(w) => w < |s.waitqs| && forall t | t in s.waitqs[w] :: t in s.th
       case Resume(t) => t in s.th && (s.th[t].place.Limbo? || s.th[t].place.Fresh?) && s.switching.None?
                         && s.th[t].cpu < |s.cpus|
       case Reschedule(c) =>
         && c < |s.cpus| && s.switching.None? && s.cpus[c].current in s.th
         && s.cpus[c].idle in s.th && forall t | t in s.cpus[c].runq :: t in s.th
       case Switch(c) => c < |s.cpus| && s.switching == Some(c) && s.from in s.th && s.cpus[c].current in s.th
  }

  /** `nextcpu`. */
  function NextCpu(s: Sys): nat
    requires s.cpus != []
  {
    if s.lastcpu + 1 >= |s.cpus| then 0 else s.lastcpu + 1
  }

  function WithThread(s: Sys, t: Tid, x: Thread): Sys { s.(th := s.th[t := x]) }

  function WithCpu(s: Sys, c: nat, p: Cpu): Sys
    requires c < |s.cpus|
  {
    s.(cpus := s.cpus[c := p])
  }

  /** What `sched_reschedule` does with the thread it takes off the processor. */
  function PutBack(s: Sys, c: nat): Sys
    requires c < |s.cpus| && s.cpus[c].current in s.th
  {
    var p := s.cpus[c];
    var x := s.th[p.current];
    if p.current == p.idle then
      if x.state.Running? then s else s.(halted := true)
    else match x.state
      case Waiting => WithThread(s, p.current, x.(locked := false))
      case Exiting => s
      case Running =>
        WithThread(WithCpu(s, c, p.(runq := p.runq + [p.current])), p.current, x.(place := OnRun))
      case Runnable => s
  }

  /** `sched_next` and the hand-over: the first of the run queue, or the idle thread. */
  function PickNext(s: Sys, c: nat): Sys
    requires c < |s.cpus| && s.cpus[c].idle in s.th && forall t | t in s.cpus[c].runq :: t in s.th
  {
    var p := s.cpus[c];
    var next := if p.runq == [] then p.idle else p.runq[0];
    var s1 := WithThread(s, next, s.th[next].(state := Running, place := Nowhere));
    var p1 := p.(runq := if p.runq == [] then [] else p.runq[1..], window := false);
    if next == p.current then WithCpu(s1, c, p1)
    else WithCpu(s1, c, p1.(current := next)).(switching := Some(c), from := p.current)
  }

  function Step(s: Sys, e: Event): Sys
    requires Enabled(s, e)
  {
    match e
    case New(t, v) => WithThread(s, t, Thread(NextCpu(s), Runnable, Fresh, false, v, v)).(lastcpu := NextCpu(s))
    case Work(c, v) =>
      var t := s.cpus[c].current;
      WithThread(WithCpu(s, c, s.cpus[c].(regs := v)), t, s.th[t].(context := v))
    case Join(c, w) =>
      var t := s.cpus[c].current;
      WithThread(WithCpu(s, c, s.cpus[c].(window := true)), t,
                 s.th[t].(state := Waiting, place := OnWait(w), locked := true))
      .(waitqs := s.waitqs[w := s.waitqs[w] + [t]])
    case Exit(c) =>
      var t := s.cpus[c].current;
      WithThread(WithCpu(s, c, s.cpus[c].(window := true)), t, s.th[t].(state := Exiting))
    case Dequeue(w) =>
      if s.waitqs[w] == [] then s
      else WithThread(s, s.waitqs[w][0], s.th[s.waitqs[w][0]].(place := Limbo)).(waitqs := s.waitqs[w := s.waitqs[w][1..]])
    case Resume(t) =>
      var c := s.th[t].cpu;
      WithThread(WithCpu(s, c, s.cpus[c].(runq := [t] + s.cpus[c].runq)), t, s.th[t].(state := Runnable, place := OnRun))
    case Reschedule(c) =>
      var s1 := PutBack(s, c);
      if s1.halted then s1 else PickNext(s1, c)
    case Switch(c) =>
      var next := s.cpus[c].current;
      var s1 := WithThread(s, s.from, s.th[s.from].(frame := s.cpus[c].regs));
      WithCpu(s1, c, s1.cpus[c].(regs := s1.th[next].frame)).(switching := None)
  }

  // ---------------------------------------------------------------------------------
  // The invariant
  // ---------------------------------------------------------------------------------

  predicate Distinct(q: seq<Tid>) { forall i, j | 0 <= i < j < |q| :: q[i] != q[j] }

  ghost predicate IsQueue(s: Sys, q: seq<Tid>, place: Place) {
    Distinct(q) && forall t | t in q :: t in s.th && s.th[t].place == place
  }

  /** A thread queued to run is in its own processor's run queue, once, and nothing else is. */
  ghost predicate RunSound(s: Sys) {
    && (forall c | 0 <= c < |s.cpus| :: IsQueue(s, s.cpus[c].runq, OnRun))
    && (forall c, t | 0 <= c < |s.cpus| && t in s.cpus[c].runq :: t in s.th && s.th[t].cpu == c)
    && (forall t | t in s.th && s.th[t].place.OnRun? :: s.th[t].cpu < |s.cpus| && t in s.cpus[s.th[t].cpu].runq)
  }

  /** A waiting thread is in the one wait queue its place names, once. */
  ghost predicate WaitSound(s: Sys) {
    && (forall w | 0 <= w < |s.waitqs| :: IsQueue(s, s.waitqs[w], OnWait(w)))
    && (forall t | t in s.th && s.th[t].place.OnWait? :: s.th[t].place.w < |s.waitqs| && t in s.waitqs[s.th[t].place.w])
  }

  /** Each processor's current and idle threads belong to it. */
  ghost predicate CurrentSound(s: Sys) {
    && !s.halted
    && (forall c | 0 <= c < |s.cpus| ::
          && s.cpus[c].current in s.th && s.th[s.cpus[c].current].cpu == c
          && s.cpus[c].idle in s.th && s.th[s.cpus[c].idle].cpu == c
          && s.th[s.cpus[c].idle].state.Running? && s.th[s.cpus[c].idle].place.Nowhere?)
    && (s.switching.Some? ==>
          && s.switching.value < |s.cpus| && s.from in s.th && s.th[s.from].cpu == s.switching.value
          && s.from != s.cpus[s.switching.value].current && !s.cpus[s.switching.value].window)
  }

  /** What a thread's state says about its place, on and off the processor. */
  predicate Fitting(x: Thread, current: bool, window: bool) {
    match x.state
    case Running => if current then x.place.Nowhere? && !window else x.place.OnRun?
    case Runnable => if current then x.place.OnRun? && window else x.place.OnRun? || x.place.Fresh?
    case Waiting => (x.place.OnWait? || x.place.Limbo?) && (current ==> window)
    case Exiting => x.place.Nowhere? && (current ==> window)
  }

  /** `off` is a processor whose current thread has been put back and not replaced yet. */
  predicate ThreadOk(s: Sys, t: Tid, off: Option<nat>)
    requires t in s.th
  {
    && s.th[t].cpu < |s.cpus|
    && var p := s.cpus[s.th[t].cpu];
       if t == p.idle then t == p.current ==> !p.window
       else Fitting(s.th[t], t == p.current && off != Some(s.th[t].cpu), p.window)
  }

  ghost predicate ThreadsSound(s: Sys, off: Option<nat>) { forall t | t in s.th :: ThreadOk(s, t, off) }

  /** Registers are where they should be: on the processor, or saved in the thread. */
  ghost predicate ContextsSound(s: Sys) {
    forall t | t in s.th && s.th[t].cpu < |s.cpus| ::
      var p := s.cpus[s.th[t].cpu];
      var onCpu := if s.switching == Some(s.th[t].cpu) then t == s.from else t == p.current;
      s.th[t].context == if onCpu then p.regs else s.th[t].frame
  }

  ghost predicate Invariant(s: Sys) { RunSound(s) && WaitSound(s) && CurrentSound(s) && ThreadsSound(s, None) && ContextsSound(s) }

  function Start(n: nat, m: nat): Sys {
    Sys(seq(n, (c: nat) => Cpu([], c, c, false, 0)), seq(m, w => []),
        map t: nat | 0 <= t < n :: Thread(t, Running, Nowhere, false, 0, 0), 0, None, 0, false)
  }

  lemma StartHolds(n: nat, m: nat)
    ensures Invariant(Start(n, m))
  {}

  // ---------------------------------------------------------------------------------
  // Steps
  // ---------------------------------------------------------------------------------

  lemma Appended(s: Sys, q: seq<Tid>, t: Tid, x: Thread)
    requires IsQueue(s, q, x.place) && (t in s.th ==> s.th[t].place != x.place)
    ensures IsQueue(WithThread(s, t, x), q + [t], x.place) && IsQueue(WithThread(s, t, x), [t] + q, x.place)
  {
    assert t !in q;
  }

  lemma Shortened(s: Sys, q: seq<Tid>, place: Place, x: Thread)
    requires IsQueue(s, q, place) && q != []
    ensures IsQueue(WithThread(s, q[0], x), q[1..], place) && q[0] !in q[1..] && q[0] in q
  {
    assert forall t | t in q[1..] :: t in q;
  }

  lemma StillQueue(s: Sys, q: seq<Tid>, place: Place, t: Tid, x: Thread)
    requires IsQueue(s, q, place) && (t in s.th ==> s.th[t].place != place)
    ensures IsQueue(WithThread(s, t, x), q, place)
  {}

  /** A step on one thread that is not queued to run, and that leaves the run queues alone. */
  lemma RunFrame(s: Sys, s': Sys, t: Tid)
    requires RunSound(s) && |s.cpus| == |s'.cpus| && forall c | 0 <= c < |s.cpus| :: s'.cpus[c].runq == s.cpus[c].runq
    requires t in s'.th && s'.th == s.th[t := s'.th[t]] && !s'.th[t].place.OnRun? && (t in s.th ==> !s.th[t].place.OnRun?)
    ensures RunSound(s')
  {}

  lemma WaitFrame(s: Sys, s': Sys, t: Tid)
    requires WaitSound(s) && s'.waitqs == s.waitqs
    requires t in s'.th && s'.th == s.th[t := s'.th[t]]
    requires s'.th[t].place.OnWait? ==> t in s.th && s'.th[t].place == s.th[t].place
    requires t in s.th && s.th[t].place.OnWait? ==> s'.th[t].place == s.th[t].place
    ensures WaitSound(s')
  {}

  lemma RunFrameSame(s: Sys, s': Sys, t: Tid)
    requires RunSound(s) && |s.cpus| == |s'.cpus| && forall c | 0 <= c < |s.cpus| :: s'.cpus[c].runq == s.cpus[c].runq
    requires t in s.th && t in s'.th && s'.th == s.th[t := s'.th[t]] && s'.th[t].place == s.th[t].place && s'.th[t].cpu == s.th[t].cpu
    ensures RunSound(s')
  {}

  lemma CurrentStep(s: Sys, e: Event)
    requires CurrentSound(s) && WaitSound(s) && Enabled(s, e) && !e.Reschedule?
    ensures CurrentSound(Step(s, e))
  {
    if e.Dequeue? && s.waitqs[e.w] != [] {
      assert IsQueue(s, s.waitqs[e.w], OnWait(e.w)) && s.waitqs[e.w][0] in s.waitqs[e.w];
    }
    hide WaitSound;
  }
  /** A step on one thread; the window may close or open for its own processor if it is current there. */
  lemma ThreadsFrame(s: Sys, s': Sys, t: Tid, off: Option<nat>)
    requires ThreadsSound(s, off) && t in s'.th && s'.th == s.th[t := s'.th[t]] && |s'.cpus| == |s.cpus|
    requires forall c | 0 <= c < |s.cpus| ::
      && s'.cpus[c].current == s.cpus[c].current && s'.cpus[c].idle == s.cpus[c].idle
      && (s'.cpus[c].window == s.cpus[c].window || s.cpus[c].current == t)
    requires ThreadOk(s', t, off)
    ensures ThreadsSound(s', off)
  {}

  lemma ThreadsStep(s: Sys, e: Event)
    requires CurrentSound(s) && WaitSound(s) && ThreadsSound(s, None) && Enabled(s, e) && !e.Reschedule?
    ensures ThreadsSound(Step(s, e), None)
  {
    var s' := Step(s, e);
    if e.Dequeue? && s.waitqs[e.w] != [] {
      assert IsQueue(s, s.waitqs[e.w], OnWait(e.w)) && s.waitqs[e.w][0] in s.waitqs[e.w];
    }
    var t := match e
      case New(t, _) => t
      case Work(c, _) => s.cpus[c].current
      case Join(c, _) => s.cpus[c].current
      case Exit(c) => s.cpus[c].current
      case Dequeue(w) => if s.waitqs[w] != [] then s.waitqs[w][0] else 0
      case Resume(t) => t
      case Switch(c) => s.from
      case Reschedule(_) => 0;
    if !(e.Dequeue? && s.waitqs[e.w] == []) {
      assert t in s.th ==> ThreadOk(s, t, None);
      assert ThreadOk(s', t, None);
      hide CurrentSound, ThreadsSound, ThreadOk, WaitSound, PutBack, PickNext;
      ThreadsFrame(s, s', t, None);
    }
  }

  lemma ContextsStep(s: Sys, e: Event)
    requires CurrentSound(s) && ContextsSound(s) && Enabled(s, e) && !e.Reschedule?
    ensures ContextsSound(Step(s, e))
  {
    hide PutBack, PickNext, Distinct, Fitting, ThreadOk;
  }
  lemma RunStep(s: Sys, e: Event)
    requires CurrentSound(s) && RunSound(s) && WaitSound(s) && ThreadsSound(s, None) && Enabled(s, e) && !e.Reschedule?
    ensures RunSound(Step(s, e))
  {
    if e.Resume? {
      hide RunSound, WaitSound, CurrentSound, ThreadsSound;
      Requeued(s, s.th[e.t].cpu, e.t, Step(s, e).th[e.t], true);
    } else if e.Dequeue? {
      if s.waitqs[e.w] != [] {
        assert IsQueue(s, s.waitqs[e.w], OnWait(e.w)) && s.waitqs[e.w][0] in s.waitqs[e.w];
        hide RunSound, IsQueue, WaitSound, CurrentSound, ThreadsSound;
        RunFrame(s, Step(s, e), s.waitqs[e.w][0]);
      }
    } else {
      RunAtWork(s, e);
    }
  }

  lemma RunAtWork(s: Sys, e: Event)
    requires CurrentSound(s) && RunSound(s) && ThreadsSound(s, None) && Enabled(s, e)
    requires !e.Reschedule? && !e.Resume? && !e.Dequeue?
    ensures RunSound(Step(s, e))
  {
    hide PutBack, PickNext, IsQueue, RunSound;
    var s' := Step(s, e);
    if e.New? {
      hide CurrentSound, ThreadsSound;
      RunFrame(s, s', e.t);
    } else {
      var t := if e.Switch? then s.from else s.cpus[e.c].current;
      assert ThreadOk(s, t, None);
      assert |s'.cpus| == |s.cpus| && forall c | 0 <= c < |s.cpus| :: s'.cpus[c].runq == s.cpus[c].runq;
      assert t in s'.th && s'.th == s.th[t := s'.th[t]] && s'.th[t].cpu == s.th[t].cpu;
      hide CurrentSound, ThreadsSound, ThreadOk;
      if e.Join? {
        RunFrame(s, s', t);
      } else {
        RunFrameSame(s, s', t);
      }
    }
  }

  /** Queueing a thread to run on its own processor, at either end. */
  lemma Requeued(s: Sys, c: nat, t: Tid, x: Thread, front: bool)
    requires RunSound(s) && c < |s.cpus| && t in s.th && s.th[t].cpu == c == x.cpu && !s.th[t].place.OnRun? && x.place.OnRun?
    ensures var p := s.cpus[c];
            RunSound(WithThread(WithCpu(s, c, p.(runq := if front then [t] + p.runq else p.runq + [t])), t, x))
  {
    var p := s.cpus[c];
    var s1 := WithThread(WithCpu(s, c, p.(runq := if front then [t] + p.runq else p.runq + [t])), t, x);
    forall d | 0 <= d < |s.cpus| ensures IsQueue(s1, s1.cpus[d].runq, OnRun) {
      assert IsQueue(s, s.cpus[d].runq, OnRun);
      if d == c {
        Appended(s, p.runq, t, x);
      } else {
        StillQueue(s, s.cpus[d].runq, OnRun, t, x);
      }
    }
    assert t in s1.cpus[c].runq;
  }

  lemma WaitStep(s: Sys, e: Event)
    requires CurrentSound(s) && WaitSound(s) && ThreadsSound(s, None) && Enabled(s, e) && !e.Reschedule?
    ensures WaitSound(Step(s, e))
  {
    hide ThreadsSound;
    if e.Join? {
      ThreadAt(s, s.cpus[e.c].current);
      hide CurrentSound;
      WaitJoins(s, Step(s, e), s.cpus[e.c].current, e.w);
    }
  }

  /** A thread that was in no wait queue joins one. */
  lemma WaitJoins(s: Sys, s': Sys, t: Tid, w: nat)
    requires WaitSound(s) && w < |s.waitqs| && t in s.th && t in s'.th && !s.th[t].place.OnWait? && s'.th[t].place == OnWait(w)
    requires s'.th == s.th[t := s'.th[t]] && s'.waitqs == s.waitqs[w := s.waitqs[w] + [t]]
    ensures WaitSound(s')
  {
    var x := s'.th[t];
    forall v | 0 <= v < |s'.waitqs| ensures IsQueue(s', s'.waitqs[v], OnWait(v)) {
      assert IsQueue(s, s.waitqs[v], OnWait(v));
      if v == w {
        Appended(s, s.waitqs[w], t, x);
      } else {
        StillQueue(s, s.waitqs[v], OnWait(v), t, x);
      }
    }
    assert s'.waitqs[w][|s.waitqs[w]|] == t;
  }

  // `sched_reschedule`, in its two halves.

  lemma PutBackQueues(s: Sys, c: nat)
    requires RunSound(s) && WaitSound(s) && CurrentSound(s) && ThreadsSound(s, None) && Enabled(s, Reschedule(c))
    ensures RunSound(PutBack(s, c)) && WaitSound(PutBack(s, c))
  {
    var s1, t := PutBack(s, c), s.cpus[c].current;
    var x := s.th[t];
    assert ThreadOk(s, t, None);
    hide CurrentSound, ThreadsSound;
    if t != s.cpus[c].idle && x.state.Running? {
      Requeued(s, c, t, x.(place := OnRun), false);
      WaitFrame(s, s1, t);
    } else if t != s.cpus[c].idle && x.state.Waiting? {
      RunFrame(s, s1, t);
      WaitFrame(s, s1, t);
    }
  }

  lemma PutBackRest(s: Sys, c: nat)
    requires CurrentSound(s) && ThreadsSound(s, None) && ContextsSound(s) && Enabled(s, Reschedule(c))
    ensures var s1 := PutBack(s, c);
            && CurrentSound(s1) && ContextsSound(s1)
            && s1.switching.None? && |s1.cpus| == |s.cpus| && s1.cpus[c].current == s.cpus[c].current
  {
    hide ThreadsSound;
    ThreadAt(s, s.cpus[c].current);
  }

  lemma ThreadAt(s: Sys, t: Tid)
    requires ThreadsSound(s, None) && t in s.th
    ensures ThreadOk(s, t, None)
  {}

  lemma PutBackThreads(s: Sys, c: nat)
    requires CurrentSound(s) && ThreadsSound(s, None) && Enabled(s, Reschedule(c))
    ensures ThreadsSound(PutBack(s, c), Some(c))
  {
    var s1, t := PutBack(s, c), s.cpus[c].current;
    assert ThreadOk(s, t, None);
    forall u | u in s1.th ensures ThreadOk(s1, u, Some(c)) {
      assert ThreadOk(s, u, None);
    }
  }

  /** The thread `sched_next` picks: the idle thread, or one queued to run here. */
  lemma Picked(s: Sys, c: nat)
    requires RunSound(s) && c < |s.cpus| && s.cpus[c].runq != []
    ensures var t := s.cpus[c].runq[0]; t in s.th && s.th[t].place.OnRun? && s.th[t].cpu == c
  {
    assert IsQueue(s, s.cpus[c].runq, OnRun) && s.cpus[c].runq[0] in s.cpus[c].runq;
  }

  /** The first of a run queue taken off it. */
  lemma ShiftRun(s: Sys, c: nat, s1: Sys, x: Thread)
    requires RunSound(s) && c < |s.cpus| && s.cpus[c].runq != [] && x.place.Nowhere?
    requires |s1.cpus| == |s.cpus| && s1.cpus[c].runq == s.cpus[c].runq[1..] && s1.th == s.th[s.cpus[c].runq[0] := x]
    requires forall d | 0 <= d < |s.cpus| && d != c :: s1.cpus[d].runq == s.cpus[d].runq
    ensures RunSound(s1)
  {
    Picked(s, c);
    var q, t := s.cpus[c].runq, s.cpus[c].runq[0];
    forall d | 0 <= d < |s.cpus| ensures IsQueue(s1, s1.cpus[d].runq, OnRun) {
      assert IsQueue(s, s.cpus[d].runq, OnRun);
      if d == c {
        Shortened(s, q, OnRun, x);
      } else {
        assert t !in s.cpus[d].runq;
      }
    }
    assert q == [t] + s1.cpus[c].runq;
    forall u | u in s1.th && s1.th[u].place.OnRun? ensures s1.th[u].cpu < |s1.cpus| && u in s1.cpus[s1.th[u].cpu].runq {
      assert u in s.cpus[s.th[u].cpu].runq;
    }
  }

  lemma PickNextRun(s: Sys, c: nat)
    requires RunSound(s) && CurrentSound(s) && c < |s.cpus|
    ensures forall t | t in s.cpus[c].runq :: t in s.th
    ensures RunSound(PickNext(s, c))
  {
    var p := s.cpus[c];
    assert forall t | t in p.runq :: t in s.th;
    hide RunSound;
    if p.runq == [] {
      RunFrame(s, PickNext(s, c), p.idle);
    } else {
      Picked(s, c);
      ShiftRun(s, c, PickNext(s, c), PickNext(s, c).th[p.runq[0]]);
    }
  }

  lemma PickNextRest(s: Sys, c: nat)
    requires RunSound(s) && WaitSound(s) && CurrentSound(s) && ContextsSound(s) && c < |s.cpus| && s.switching.None?
    requires forall t | t in s.cpus[c].runq :: t in s.th
    ensures WaitSound(PickNext(s, c)) && CurrentSound(PickNext(s, c)) && ContextsSound(PickNext(s, c))
  {
    var p, s1 := s.cpus[c], PickNext(s, c);
    var next := if p.runq == [] then p.idle else p.runq[0];
    if p.runq != [] {
      Picked(s, c);
    }
    assert next in s.th && s.th[next].cpu == c && !s.th[next].place.OnWait?;
    hide RunSound, CurrentSound, ContextsSound, WaitSound;
    WaitFrame(s, s1, next);
    PickNextCurrent(s, c, next);
    PickNextContexts(s, c, next);
  }

  lemma PickNextCurrent(s: Sys, c: nat, next: Tid)
    requires CurrentSound(s) && c < |s.cpus| && s.switching.None? && next in s.th && s.th[next].cpu == c
    requires forall t | t in s.cpus[c].runq :: t in s.th
    requires next == if s.cpus[c].runq == [] then s.cpus[c].idle else s.cpus[c].runq[0]
    ensures CurrentSound(PickNext(s, c))
  {}

  lemma PickNextContexts(s: Sys, c: nat, next: Tid)
    requires CurrentSound(s) && ContextsSound(s) && c < |s.cpus| && s.switching.None? && next in s.th && s.th[next].cpu == c
    requires forall t | t in s.cpus[c].runq :: t in s.th
    requires next == if s.cpus[c].runq == [] then s.cpus[c].idle else s.cpus[c].runq[0]
    ensures ContextsSound(PickNext(s, c))
  {}

  lemma PickNextThreads(s: Sys, c: nat)
    requires RunSound(s) && CurrentSound(s) && ThreadsSound(s, Some(c)) && c < |s.cpus|
    requires forall t | t in s.cpus[c].runq :: t in s.th
    ensures ThreadsSound(PickNext(s, c), None)
  {
    var p, s1 := s.cpus[c], PickNext(s, c);
    var next := if p.runq == [] then p.idle else p.runq[0];
    if p.runq != [] {
      Picked(s, c);
    }
    hide RunSound;
    assert next in s.th && s.th[next].cpu == c && (next == p.idle || s.th[next].place.OnRun?);
    assert ThreadOk(s, next, Some(c)) && s1.cpus[c].current == next && !s1.cpus[c].window && s1.cpus[c].idle == p.idle;
    hide CurrentSound, IsQueue;
    forall u | u in s1.th ensures ThreadOk(s1, u, None) {
      assert ThreadOk(s, u, Some(c));
      assert u != next ==> s1.th[u] == s.th[u];
    }
  }

  lemma StepHolds(s: Sys, e: Event)
    requires Invariant(s) && Enabled(s, e)
    ensures Invariant(Step(s, e))
  {
    if e.Reschedule? {
      PutBackQueues(s, e.c);
      PutBackRest(s, e.c);
      PutBackThreads(s, e.c);
      var s1 := PutBack(s, e.c);
      hide RunSound, WaitSound, ThreadsSound, ContextsSound, PutBack, PickNext;
      assert !s1.halted;
      PickNextRun(s1, e.c);
      PickNextRest(s1, e.c);
      PickNextThreads(s1, e.c);
    } else {
      hide RunSound, WaitSound, CurrentSound, ThreadsSound, ContextsSound, Enabled, Step;
      CurrentStep(s, e);
      ThreadsStep(s, e);
      ContextsStep(s, e);
      RunStep(s, e);
      WaitStep(s, e);
    }
  }

  function Final(s: Sys, run: seq<Event>): Option<Sys>
    decreases |run|
  {
    if run == [] then Some(s)
    else if Enabled(s, run[0]) then Final(Step(s, run[0]), run[1..])
    else None
  }

  lemma {:induction false} RunHolds(s: Sys, run: seq<Event>)
    requires Invariant(s) && Final(s, run).Some?
    ensures Invariant(Final(s, run).value)
    decreases |run|
  {
    hide Invariant, Enabled, Step;
    if run != [] {
      StepHolds(s, run[0]);
      RunHolds(Step(s, run[0]), run[1..]);
    }
  }

  ghost predicate Reachable(s: Sys) {
    exists n: nat, m: nat, run: seq<Event> :: Final(Start(n, m), run) == Some(s)
  }

  lemma ReachableHolds(s: Sys)
    requires Reachable(s)
    ensures Invariant(s)
  {
    hide Invariant, Enabled, Step, Start;
    var n: nat, m: nat, run :| Final(Start(n, m), run) == Some(s);
    StartHolds(n, m);
    RunHolds(Start(n, m), run);
  }

  // ---------------------------------------------------------------------------------
  // What holds after any run
  // ---------------------------------------------------------------------------------

  /** Position `i` of a run queue (`w` is None) or of a wait queue. */
  predicate Holds(s: Sys, queue: (bool, nat), i: nat, t: Tid) {
    if queue.0 then queue.1 < |s.cpus| && i < |s.cpus[queue.1].runq| && s.cpus[queue.1].runq[i] == t
    else queue.1 < |s.waitqs| && i < |s.waitqs[queue.1]| && s.waitqs[queue.1][i] == t
  }

  /** A thread is at one position of one queue at most, and queued to run only on its own processor. */
  lemma InOneQueue(s: Sys, t: Tid, q: (bool, nat), i: nat, q': (bool, nat), i': nat)
    requires Reachable(s) && Holds(s, q, i, t) && Holds(s, q', i', t)
    ensures q == q' && i == i' && t in s.th && (q.0 ==> s.th[t].cpu == q.1)
  {
    hide Reachable;
    ReachableHolds(s);
    hide CurrentSound, ThreadsSound, ContextsSound;
    if q.0 {
      assert IsQueue(s, s.cpus[q.1].runq, OnRun) && t in s.cpus[q.1].runq;
    } else {
      assert IsQueue(s, s.waitqs[q.1], OnWait(q.1)) && t in s.waitqs[q.1];
    }
    if q'.0 {
      assert IsQueue(s, s.cpus[q'.1].runq, OnRun) && t in s.cpus[q'.1].runq;
    } else {
      assert IsQueue(s, s.waitqs[q'.1], OnWait(q'.1)) && t in s.waitqs[q'.1];
    }
  }

  /** A thread is current on one processor at most, and a queued one is current only while its
      processor has not rescheduled since it joined a wait queue. */
  lemma CurrentOnce(s: Sys, c: nat, d: nat, q: (bool, nat), i: nat)
    requires Reachable(s) && c < |s.cpus| && d < |s.cpus| && s.cpus[c].current == s.cpus[d].current
    ensures c == d && s.cpus[c].current in s.th
    ensures Holds(s, q, i, s.cpus[c].current) ==> s.cpus[c].window
  {
    hide Reachable;
    ReachableHolds(s);
    hide ContextsSound;
    var t := s.cpus[c].current;
    assert ThreadOk(s, t, None);
    if Holds(s, q, i, t) {
      if q.0 {
        assert IsQueue(s, s.cpus[q.1].runq, OnRun) && t in s.cpus[q.1].runq;
      } else {
        assert IsQueue(s, s.waitqs[q.1], OnWait(q.1)) && t in s.waitqs[q.1];
      }
    }
  }

  /** Wherever interrupts are on, the current thread is running (the assertions of `sched_reschedule`
      and of `handle_int` hold), and its registers are its own. */
  lemma RunsAsItself(s: Sys, c: nat)
    requires Reachable(s) && Free(s, c)
    ensures !s.halted && s.th[s.cpus[c].current].state.Running?
    ensures s.cpus[c].regs == s.th[s.cpus[c].current].context
  {
    hide Reachable;
    ReachableHolds(s);
    assert ThreadOk(s, s.cpus[c].current, None);
  }

  /** No wakeup is lost: a thread that waits is in its wait queue or in a waker's hands, and one that
      may run is on its processor or in its run queue. */
  lemma NobodyIsLost(s: Sys, t: Tid)
    requires Reachable(s) && t in s.th && s.th[t].cpu < |s.cpus| && t != s.cpus[s.th[t].cpu].idle
    ensures s.th[t].state.Waiting? ==> s.th[t].place.Limbo? || exists w :: 0 <= w < |s.waitqs| && t in s.waitqs[w]
    ensures s.th[t].state.Running? || s.th[t].state.Runnable? ==>
              s.th[t].place.Fresh? || t == s.cpus[s.th[t].cpu].current || t in s.cpus[s.th[t].cpu].runq
  {
    hide Reachable;
    ReachableHolds(s);
    hide CurrentSound, ContextsSound;
    assert ThreadOk(s, t, None);
  }

  // ---------------------------------------------------------------------------------
  // Whose turn it is
  // ---------------------------------------------------------------------------------

  /** A time slice ends: the running thread goes behind everyone in the run queue and the first of the
      queue runs. With an empty queue it runs on. */
  lemma SliceEnds(s: Sys, c: nat)
    requires Enabled(s, Reschedule(c)) && s.cpus[c].current != s.cpus[c].idle && s.th[s.cpus[c].current].state.Running?
    ensures var p, p' := s.cpus[c], Step(s, Reschedule(c)).cpus[c];
            if p.runq == [] then p'.current == p.current && p'.runq == []
            else p'.current == p.runq[0] && p'.runq == p.runq[1..] + [p.current]
  {}

  /** Any other thread leaves the processor without joining the run queue; the first of the queue runs, or
      the idle thread. */
  lemma OthersLeave(s: Sys, c: nat)
    requires Enabled(s, Reschedule(c)) && s.th[s.cpus[c].idle].state.Running?
    requires s.cpus[c].current == s.cpus[c].idle || !s.th[s.cpus[c].current].state.Running?
    ensures var p, p' := s.cpus[c], Step(s, Reschedule(c)).cpus[c];
            if p.runq == [] then p'.current == p.idle && p'.runq == []
            else p'.current == p.runq[0] && p'.runq == p.runq[1..]
  {}

  /** How often a processor reschedules in a run. */
  function Turns(run: seq<Event>, c: nat): nat
    decreases |run|
  {
    if run == [] then 0 else (if run[0] == Reschedule(c) then 1 else 0) + Turns(run[1..], c)
  }

  /** No thread is put back into the processor's run queue from outside. */
  predicate NoneResumed(s: Sys, run: seq<Event>, c: nat)
    requires Final(s, run).Some?
    decreases |run|
  {
    run == [] || (!(run[0].Resume? && s.th[run[0].t].cpu == c) && NoneResumed(Step(s, run[0]), run[1..], c))
  }

  lemma IdleRuns(s: Sys, c: nat)
    requires Invariant(s) && Enabled(s, Reschedule(c))
    ensures c < |s.cpus| && c < |Step(s, Reschedule(c)).cpus|
    ensures s.cpus[c].current in s.th && s.cpus[c].idle in s.th && s.th[s.cpus[c].idle].state.Running?
  {
    hide RunSound, WaitSound, ThreadsSound, ContextsSound;
  }

  lemma QueueStays(s: Sys, c: nat, e: Event)
    requires Enabled(s, e) && c < |s.cpus| && e != Reschedule(c) && !(e.Resume? && s.th[e.t].cpu == c)
    ensures c < |Step(s, e).cpus| && Step(s, e).cpus[c].runq == s.cpus[c].runq
  {}

  /** The first of the queue runs, and the others move up. */
  lemma NextUp(s: Sys, c: nat)
    requires Invariant(s) && Enabled(s, Reschedule(c)) && s.cpus[c].runq != []
    ensures var p, s' := s.cpus[c], Step(s, Reschedule(c));
            c < |s'.cpus| && s'.cpus[c].current == p.runq[0] && p.runq[1..] <= s'.cpus[c].runq
  {
    hide Invariant, Step, Enabled;
    IdleRuns(s, c);
    if s.cpus[c].current != s.cpus[c].idle && s.th[s.cpus[c].current].state.Running? {
      SliceEnds(s, c);
    } else {
      OthersLeave(s, c);
    }
  }

  lemma LineStep(s: Sys, c: nat, i: nat, e: Event)
    requires Invariant(s) && Enabled(s, e) && c < |s.cpus| && i < |s.cpus[c].runq| && !(e.Resume? && s.th[e.t].cpu == c)
    ensures var s' := Step(s, e); var n := if e == Reschedule(c) then 1 else 0;
            c < |s'.cpus| && (n <= i ==> i - n < |s'.cpus[c].runq| && s'.cpus[c].runq[i - n] == s.cpus[c].runq[i])
  {
    hide Invariant, Step, Enabled;
    if e == Reschedule(c) {
      NextUp(s, c);
      assert i > 0 ==> s.cpus[c].runq[1..][i - 1] == s.cpus[c].runq[i];
    } else {
      QueueStays(s, c, e);
    }
  }

  lemma {:induction false} LineMoves(s: Sys, c: nat, i: nat, run: seq<Event>)
    requires Invariant(s) && Final(s, run).Some? && c < |s.cpus| && i < |s.cpus[c].runq|
    requires NoneResumed(s, run, c) && Turns(run, c) <= i
    ensures var s' := Final(s, run).value;
            c < |s'.cpus| && i - Turns(run, c) < |s'.cpus[c].runq| && s'.cpus[c].runq[i - Turns(run, c)] == s.cpus[c].runq[i]
    decreases |run|
  {
    hide Invariant, Enabled, Step;
    if run != [] {
      LineStep(s, c, i, run[0]);
      StepHolds(s, run[0]);
      LineMoves(Step(s, run[0]), c, if run[0] == Reschedule(c) then i - 1 else i, run[1..]);
    }
  }

  /** Round robin: whatever happens elsewhere and whatever those before it do, the thread at position `i`
      of a run queue moves up by one with each reschedule of its processor and runs with the one after
      `i` of them, unless a thread is resumed in front of it. */
  lemma RoundRobin(s: Sys, c: nat, i: nat, run: seq<Event>)
    requires Reachable(s) && c < |s.cpus| && i < |s.cpus[c].runq|
    requires Final(s, run).Some? && NoneResumed(s, run, c) && Turns(run, c) <= i
    ensures var s' := Final(s, run).value;
            && c < |s'.cpus| && i - Turns(run, c) < |s'.cpus[c].runq|
            && s'.cpus[c].runq[i - Turns(run, c)] == s.cpus[c].runq[i]
            && (Turns(run, c) == i && Enabled(s', Reschedule(c)) ==>
                  Step(s', Reschedule(c)).cpus[c].current == s.cpus[c].runq[i])
  {
    hide Reachable, Invariant, Enabled, Step, Final;
    ReachableHolds(s);
    LineMoves(s, c, i, run);
    RunHolds(s, run);
    var s' := Final(s, run).value;
    if Enabled(s', Reschedule(c)) {
      NextUp(s', c);
    }
  }

  /** A resumed thread is next: it goes in front of the others, who keep their order behind it. */
  lemma ResumedIsNext(s: Sys, t: Tid)
    requires Reachable(s) && Enabled(s, Resume(t))
    ensures var c, s' := s.th[t].cpu, Step(s, Resume(t));
            && |s'.cpus[c].runq| == |s.cpus[c].runq| + 1
            && (forall i | 0 <= i < |s.cpus[c].runq| :: s'.cpus[c].runq[i + 1] == s.cpus[c].runq[i])
            && (Enabled(s', Reschedule(c)) ==> Step(s', Reschedule(c)).cpus[c].current == t)
  {
    hide Reachable, Invariant, PutBack, PickNext;
    ReachableHolds(s);
    StepHolds(s, Resume(t));
    var c, s' := s.th[t].cpu, Step(s, Resume(t));
    if Enabled(s', Reschedule(c)) {
      NextUp(s', c);
    }
  }

  /** How many waiters are taken off a wait queue in a run. */
  function Wakes(run: seq<Event>, w: nat): nat
    decreases |run|
  {
    if run == [] then 0 else (if run[0] == Dequeue(w) then 1 else 0) + Wakes(run[1..], w)
  }

  /** First come, first served: the waiter at position `i` of a wait queue moves up by one with each wakeup
      and is taken by the one after `i` of them, whoever joins meanwhile. */
  lemma {:induction false} FirstComeFirstServed(s: Sys, w: nat, i: nat, run: seq<Event>)
    requires w < |s.waitqs| && i < |s.waitqs[w]| && Final(s, run).Some? && Wakes(run, w) <= i
    ensures var s' := Final(s, run).value;
            && w < |s'.waitqs| && i - Wakes(run, w) < |s'.waitqs[w]| && s'.waitqs[w][i - Wakes(run, w)] == s.waitqs[w][i]
            && (Wakes(run, w) == i && Enabled(s', Dequeue(w)) ==>
                  var s'' := Step(s', Dequeue(w)); s.waitqs[w][i] in s''.th && s''.th[s.waitqs[w][i]].place.Limbo?)
    decreases |run|
  {
    if run != [] {
      WaitLineStep(s, w, i, run[0]);
      hide Enabled, Step;
      FirstComeFirstServed(Step(s, run[0]), w, if run[0] == Dequeue(w) then i - 1 else i, run[1..]);
    }
  }

  lemma WaitLineStep(s: Sys, w: nat, i: nat, e: Event)
    requires Enabled(s, e) && w < |s.waitqs| && i < |s.waitqs[w]|
    ensures var s' := Step(s, e); var n := if e == Dequeue(w) then 1 else 0;
            w < |s'.waitqs| && (n <= i ==> i - n < |s'.waitqs[w]| && s'.waitqs[w][i - n] == s.waitqs[w][i])
  {}

  function News(run: seq<Event>): nat
    decreases |run|
  {
    if run == [] then 0 else (if run[0].New? then 1 else 0) + News(run[1..])
  }

  /** The processor `m` further on from `k`, of `n`. */
  function Further(k: nat, m: nat, n: nat): nat
    requires 0 < n
  {
    (k + m) % n
  }

  /** New threads go to the processors in turn. */
  lemma ProcessorsInTurn(s: Sys, run: seq<Event>, t: Tid, v: int)
    requires s.lastcpu < |s.cpus| && Final(s, run).Some? && Enabled(Final(s, run).value, New(t, v))
    ensures var s' := Step(Final(s, run).value, New(t, v));
            t in s'.th && s'.th[t].cpu == (s.lastcpu + News(run) + 1) % |s.cpus|
  {
    hide Enabled, Step, Final;
    CpusInTurn(s, run, t, v);
  }

  lemma {:induction false} CpusInTurn(s: Sys, run: seq<Event>, t: Tid, v: int)
    requires s.lastcpu < |s.cpus| && Final(s, run).Some? && Enabled(Final(s, run).value, New(t, v))
    ensures var s' := Step(Final(s, run).value, New(t, v));
            t in s'.th && s'.th[t].cpu == Further(s.lastcpu, News(run) + 1, |s.cpus|)
    decreases |run|
  {
    hide Enabled, Step, Further;
    if run != [] {
      CpuStep(s, run[0]);
      CpusInTurn(Step(s, run[0]), run[1..], t, v);
      Around(s.lastcpu, News(run[1..]) + 1, |s.cpus|);
    } else {
      NewThread(s, t, v);
      Around(s.lastcpu, 0, |s.cpus|);
    }
  }

  lemma NewThread(s: Sys, t: Tid, v: int)
    requires s.lastcpu < |s.cpus| && Enabled(s, New(t, v))
    ensures var s' := Step(s, New(t, v));
            t in s'.th && s'.th[t].cpu == if s.lastcpu + 1 == |s.cpus| then 0 else s.lastcpu + 1
  {}

  lemma CpuStep(s: Sys, e: Event)
    requires s.lastcpu < |s.cpus| && Enabled(s, e)
    ensures var s' := Step(s, e);
            |s'.cpus| == |s.cpus| && s'.lastcpu == if e.New? then (if s.lastcpu + 1 == |s.cpus| then 0 else s.lastcpu + 1) else s.lastcpu
  {}

  lemma Around(k: nat, m: nat, n: nat)
    requires k < n
    ensures Further(if k + 1 == n then 0 else k + 1, m, n) == Further(k, m + 1, n)
    ensures m == 0 ==> Further(k, 1, n) == if k + 1 == n then 0 else k + 1
  {
    if k + 1 == n {
      assert m + n == (m / n + 1) * n + m % n;
      Remainder(m + n, m / n + 1, m % n, n);
    }
  }

  /** The thread lock taken to wait is dropped by the reschedule unless a wakeup came first. */
  lemma EarlyWakeKeepsLock(s: Sys, c: nat)
    requires Reachable(s) && Enabled(s, Reschedule(c)) && s.cpus[c].window
    requires s.th[s.cpus[c].current].locked && !s.th[s.cpus[c].current].state.Exiting?
    ensures var t := s.cpus[c].current;
            Step(s, Reschedule(c)).th[t].locked <==> t in s.cpus[c].runq
  {
    hide Reachable;
    ReachableHolds(s);
    hide ContextsSound;
    assert ThreadOk(s, s.cpus[c].current, None);
    PutBackQueues(s, c);
  }

  lemma LockStays(s: Sys, t: Tid, e: Event)
    requires t in s.th && s.th[t].locked && !s.th[t].state.Waiting? && Enabled(s, e)
    ensures var s' := Step(s, e); t in s'.th && s'.th[t].locked && !s'.th[t].state.Waiting?
  {}

  /** A thread that runs with its lock left held can never wait again: every later attempt spins. */
  lemma {:induction false} NeverWaitsAgain(s: Sys, t: Tid, run: seq<Event>)
    requires t in s.th && s.th[t].locked && !s.th[t].state.Waiting? && Final(s, run).Some?
    ensures var s' := Final(s, run).value;
            t in s'.th && s'.th[t].locked && !s'.th[t].state.Waiting?
    decreases |run|
  {
    hide Enabled, Step;
    if run != [] {
      LockStays(s, t, run[0]);
      NeverWaitsAgain(Step(s, run[0]), t, run[1..]);
    }
  }

  // One processor, one wait queue, one thread beside the idle one.

  function Solo(runq: seq<Tid>, current: Tid, window: bool, queue: seq<Tid>, x: Thread, switching: Option<nat>): Sys {
    Sys([Cpu(runq, current, 0, window, 0)], [queue], map[0 := Thread(0, Running, Nowhere, false, 0, 0), 1 := x],
        0, switching, 0, false)
  }

  function Being(state: State, place: Place, locked: bool): Thread { Thread(0, state, place, locked, 0, 0) }

  /** Equality of such states, part by part. */
  predicate Same(s: Sys, s': Sys) {
    && |s.cpus| == |s'.cpus| == 1 && |s.waitqs| == |s'.waitqs| == 1
    && s.cpus[0].runq == s'.cpus[0].runq && s.cpus[0] == s'.cpus[0] && s.waitqs[0] == s'.waitqs[0] && s.th == s'.th
    && s.lastcpu == s'.lastcpu && s.switching == s'.switching && s.from == s'.from && s.halted == s'.halted
  }

  lemma Prepend(s: Sys, e: Event, s': Sys, run: seq<Event>, last: Sys)
    requires Enabled(s, e) && Same(Step(s, e), s') && Final(s', run) == Some(last)
    ensures Final(s, [e] + run) == Some(last)
  {
    assert Step(s, e).cpus == s'.cpus && Step(s, e).waitqs == s'.waitqs;
    assert ([e] + run)[1..] == run;
  }

  lemma Nothing(s: Sys)
    ensures Final(s, []) == Some(s)
  {}

  /** The thread runs again, its lock still held. */
  function Stuck(): Sys { Solo([], 1, false, [], Being(Running, Nowhere, true), None) }

  /** Thread 1 joins the wait queue and is woken before it reschedules. */
  lemma WokenEarly() returns (run: seq<Event>)
    ensures Final(Solo([], 1, false, [], Being(Running, Nowhere, false), None), run) == Some(Stuck())
  {
    hide Final;
    var one: seq<Tid> := [1];
    assert one[1..] == [] && one + [] == one && [] + one == one;
    run := [];
    Nothing(Stuck());
    Prepend(Solo([1], 1, true, [], Being(Runnable, OnRun, true), None), Reschedule(0), Stuck(), run, Stuck());
    run := [Reschedule(0)] + run;
    Prepend(Solo([], 1, true, [], Being(Waiting, Limbo, true), None), Resume(1),
            Solo([1], 1, true, [], Being(Runnable, OnRun, true), None), run, Stuck());
    run := [Resume(1)] + run;
    Prepend(Solo([], 1, true, [1], Being(Waiting, OnWait(0), true), None), Dequeue(0),
            Solo([], 1, true, [], Being(Waiting, Limbo, true), None), run, Stuck());
    run := [Dequeue(0)] + run;
    Prepend(Solo([], 1, false, [], Being(Running, Nowhere, false), None), Join(0, 0),
            Solo([], 1, true, [1], Being(Waiting, OnWait(0), true), None), run, Stuck());
    run := [Join(0, 0)] + run;
  }

  /** So a thread does come to run with its lock held. */
  lemma LockLeftHeld()
    ensures Reachable(Stuck()) && Stuck().th[1].locked && !Stuck().th[1].state.Waiting?
  {
    hide Final;
    var one: seq<Tid> := [1];
    assert one[1..] == [] && one + [] == one;
    var run := WokenEarly();
    Prepend(Solo([], 1, false, [], Being(Running, Nowhere, false), Some(0)), Switch(0),
            Solo([], 1, false, [], Being(Running, Nowhere, false), None), run, Stuck());
    run := [Switch(0)] + run;
    Prepend(Solo([1], 0, false, [], Being(Runnable, OnRun, false), None), Reschedule(0),
            Solo([], 1, false, [], Being(Running, Nowhere, false), Some(0)), run, Stuck());
    run := [Reschedule(0)] + run;
    Prepend(Solo([], 0, false, [], Being(Runnable, Fresh, false), None), Resume(1),
            Solo([1], 0, false, [], Being(Runnable, OnRun, false), None), run, Stuck());
    run := [Resume(1)] + run;
    assert Start(1, 1).cpus == [Cpu([], 0, 0, false, 0)] && Start(1, 1).waitqs == [[]];
    Prepend(Start(1, 1), New(1, 0), Solo([], 0, false, [], Being(Runnable, Fresh, false), None), run, Stuck());
  }
}
