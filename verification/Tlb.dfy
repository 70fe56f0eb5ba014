/** The invalidation of one address on every processor: `pmap_global_invlpg` of
    kernel-3/x86_64/vm.c and its interrupt in kernel-3/x86_64/intr.c. */
module Tlb {
  import opened Common
  import opened Steps

  type Addr = nat

  /** Where a processor stands in `pmap_global_invlpg`; its interrupts are off except in `Out`. */
  datatype Pc =
    | Out
    | Spinning(va: Addr)           // about to take the global lock
    | Locked(va: Addr)             // about to publish the address
    | Published(va: Addr)          // about to reset the counter
    | Sending(va: Addr, i: nat)    // about to look at processor i
    | Waiting(va: Addr)            // has invalidated its own entry, reads the counter

  /** The interrupt on its receiver: pending, or in the handler between `invlpg` and the increment. */
  datatype Ipi = Quiet | Pending | Handling

  datatype Cpu = Cpu(pc: Pc, ipi: Ipi)

  /** `flushed` records which processors have invalidated `addr` since it was published: no step reads it. */
  datatype Sys = Sys(cpu: map<nat, Cpu>, lock: Option<nat>, addr: Addr, done: int, flushed: set<nat>)

  datatype Event = Call(c: nat, va: Addr) | Lock(c: nat) | Publish(c: nat) | Reset(c: nat) | Send(c: nat)
                 | FlushSelf(c: nat) | Return(c: nat) | Flush(c: nat) | Acknowledge(c: nat)

  predicate Enabled(s: Sys, e: Event) {
    && e.c in s.cpu
    && var p := s.cpu[e.c];
       match e
       case Call(_, _) => p.pc.Out? && !p.ipi.Handling?
       case Lock(_) => p.pc.Spinning? && s.lock.None?
       case Publish(_) => p.pc.Locked?
       case Reset(_) => p.pc.Published?
       case Send(c) => p.pc.Sending? && p.pc.i < |s.cpu| && p.pc.i in s.cpu
       case FlushSelf(_) => p.pc.Sending? && p.pc.i >= |s.cpu|
       case Return(_) => p.pc.Waiting? && s.done == |s.cpu|
       case Flush(_) => p.pc.Out? && p.ipi.Pending?
       case Acknowledge(_) => p.ipi.Handling?
  }

  function Step(s: Sys, e: Event): Sys
    requires Enabled(s, e)
  {
    var c, p := e.c, s.cpu[e.c];
    match e
    case Call(_, va) => s.(cpu := s.cpu[c := p.(pc := Spinning(va))])
    case Lock(_) => s.(lock := Some(c), cpu := s.cpu[c := p.(pc := Locked(p.pc.va))])
    case Publish(_) => s.(addr := p.pc.va, flushed := {}, cpu := s.cpu[c := p.(pc := Published(p.pc.va))])
    case Reset(_) => s.(done := 1, cpu := s.cpu[c := p.(pc := Sending(p.pc.va, 0))])
    case Send(_) =>
      var next := p.(pc := Sending(p.pc.va, p.pc.i + 1));
      if p.pc.i == c then s.(cpu := s.cpu[c := next])
      else s.(cpu := s.cpu[p.pc.i := s.cpu[p.pc.i].(ipi := Pending)][c := next])
    case FlushSelf(_) => s.(flushed := s.flushed + {c}, cpu := s.cpu[c := p.(pc := Waiting(p.pc.va))])
    case Return(_) => s.(lock := None, cpu := s.cpu[c := p.(pc := Out)])
    case Flush(_) => s.(flushed := s.flushed + {c}, cpu := s.cpu[c := p.(ipi := Handling)])
    case Acknowledge(_) => s.(done := s.done + 1, cpu := s.cpu[c := p.(ipi := Quiet)])
  }

  // ---------------------------------------------------------------------------------
  // The invariant
  // ---------------------------------------------------------------------------------

  predicate IsPending(p: Cpu) { p.ipi.Pending? }

  predicate IsHandling(p: Cpu) { p.ipi.Handling? }

  predicate InRound(p: Pc) { p.Sending? || p.Waiting? }

  predicate HoldsLock(p: Pc) { p.Locked? || p.Published? || InRound(p) }

  /** How many processors the sender has still to interrupt. */
  function Unsent(n: nat, h: nat, p: Pc): int {
    if p.Sending? then n - p.i - (if p.i <= h then 1 else 0) else 0
  }

  ghost predicate Numbered(s: Sys) { forall c :: c in s.cpu <==> 0 <= c < |s.cpu| }

  ghost predicate Locking(s: Sys) {
    && (s.lock.Some? ==> s.lock.value in s.cpu)
    && (forall c | c in s.cpu :: HoldsLock(s.cpu[c].pc) <==> s.lock == Some(c))
    && (forall c | c in s.cpu && s.cpu[c].ipi.Handling? :: s.cpu[c].pc.Out?)
  }

  /** The published address is the lock holder's. */
  ghost predicate Addressed(s: Sys) {
    && (forall c | c in s.cpu && s.cpu[c].pc.Sending? :: s.cpu[c].pc.i <= |s.cpu|)
    && (forall c | c in s.cpu && HoldsLock(s.cpu[c].pc) && !s.cpu[c].pc.Locked? :: s.addr == s.cpu[c].pc.va)
  }

  /** Outside a round nothing is outstanding. */
  ghost predicate NothingOutstanding(s: Sys) { forall c | c in s.cpu :: s.cpu[c].ipi.Quiet? }

  /** Inside one, every processor is done, unsent, or still to acknowledge. */
  predicate Tallied(s: Sys, h: nat)
    requires h in s.cpu
  {
    s.done + Unsent(|s.cpu|, h, s.cpu[h].pc) + |Where(s.cpu, IsPending)| + |Where(s.cpu, IsHandling)| == |s.cpu|
  }

  /** A processor the sender has passed has flushed, or has the interrupt pending; the others are quiet. */
  ghost predicate Reached(s: Sys, h: nat)
    requires h in s.cpu
  {
    && s.cpu[h].ipi.Quiet?
    && (s.cpu[h].pc.Waiting? ==> h in s.flushed)
    && forall c | c in s.cpu && c != h ::
         if s.cpu[h].pc.Sending? && s.cpu[h].pc.i <= c then s.cpu[c].ipi.Quiet?
         else s.cpu[c].ipi.Pending? || c in s.flushed
  }

  ghost predicate Invariant(s: Sys) {
    && Numbered(s) && Locking(s) && Addressed(s)
    && if s.lock.Some? && InRound(s.cpu[s.lock.value].pc)
       then Tallied(s, s.lock.value) && Reached(s, s.lock.value)
       else NothingOutstanding(s)
  }

  function Cpus(n: nat): (m: map<nat, Cpu>)
    ensures |m| == n && forall c :: (c in m <==> 0 <= c < n) && (c in m ==> m[c] == Cpu(Out, Quiet))
  {
    if n == 0 then map[] else Cpus(n - 1)[n - 1 := Cpu(Out, Quiet)]
  }

  function Start(n: nat): Sys { Sys(Cpus(n), None, 0, 0, {}) }

  lemma StartHolds(n: nat)
    ensures Invariant(Start(n))
  {}

  lemma NumberedStep(s: Sys, e: Event)
    requires Numbered(s) && Enabled(s, e)
    ensures Numbered(Step(s, e)) && |Step(s, e).cpu| == |s.cpu|
  {
    assert Step(s, e).cpu.Keys == s.cpu.Keys;
  }

  lemma LockingStep(s: Sys, e: Event)
    requires Numbered(s) && Locking(s) && Enabled(s, e)
    ensures Locking(Step(s, e))
  {
    NumberedStep(s, e);
    hide Numbered;
  }

  lemma AddressedStep(s: Sys, e: Event)
    requires Numbered(s) && Locking(s) && Addressed(s) && Enabled(s, e)
    ensures Addressed(Step(s, e))
  {
    NumberedStep(s, e);
    hide Numbered;
  }

  lemma ReachedStep(s: Sys, e: Event)
    requires Invariant(s) && Enabled(s, e)
    ensures var t := Step(s, e);
            && (t.lock.Some? ==> t.lock.value in t.cpu)
            && (t.lock.Some? && InRound(t.cpu[t.lock.value].pc) ==> Reached(t, t.lock.value))
  {
    hide Tallied, Addressed, Where, Unsent;
    NumberedStep(s, e);
    LockingStep(s, e);
  }

  lemma TalliedStep(s: Sys, e: Event)
    requires Invariant(s) && Enabled(s, e)
    ensures var t := Step(s, e);
            && (t.lock.Some? ==> t.lock.value in t.cpu)
            && (t.lock.Some? && InRound(t.cpu[t.lock.value].pc) ==> Tallied(t, t.lock.value))
  {
    NumberedStep(s, e);
    LockingStep(s, e);
    hide Where, Numbered, Addressed;
    var t := Step(s, e);
    if e.Send? && s.cpu[e.c].pc.i != e.c {
      var i := s.cpu[e.c].pc.i;
      Moved(s.cpu, i, s.cpu[i].(ipi := Pending), IsPending);
      Moved(s.cpu, i, s.cpu[i].(ipi := Pending), IsHandling);
      var mid := s.cpu[i := s.cpu[i].(ipi := Pending)];
      Moved(mid, e.c, t.cpu[e.c], IsPending);
      Moved(mid, e.c, t.cpu[e.c], IsHandling);
    } else {
      Moved(s.cpu, e.c, t.cpu[e.c], IsPending);
      Moved(s.cpu, e.c, t.cpu[e.c], IsHandling);
    }
    if !(s.lock.Some? && InRound(s.cpu[s.lock.value].pc)) {
      Nowhere(s.cpu, IsPending);
      Nowhere(s.cpu, IsHandling);
    }
  }

  /** When the counter is full nobody is outstanding. */
  lemma FullMeansQuiet(s: Sys, h: nat)
    requires Numbered(s) && Locking(s) && h in s.cpu && Tallied(s, h) && Reached(s, h) && s.cpu[h].pc.Waiting? && s.done == |s.cpu|
    ensures NothingOutstanding(s)
    ensures forall c | c in s.cpu :: c in s.flushed
  {
    assert forall c | c in s.cpu && IsPending(s.cpu[c]) :: c in Where(s.cpu, IsPending);
    assert forall c | c in s.cpu && IsHandling(s.cpu[c]) :: c in Where(s.cpu, IsHandling);
  }

  lemma StepHolds(s: Sys, e: Event)
    requires Invariant(s) && Enabled(s, e)
    ensures Invariant(Step(s, e))
  {
    NumberedStep(s, e);
    LockingStep(s, e);
    AddressedStep(s, e);
    ReachedStep(s, e);
    TalliedStep(s, e);
    if e.Return? {
      FullMeansQuiet(s, e.c);
    }
    hide Tallied, Reached;
  }

  function Final(s: Sys, run: seq<Event>): Option<Sys>
    decreases |run|
  {
    if run == [] then Some(s)
    else if Enabled(s, run[0]) then Final(Step(s, run[0]), run[1..])
    else None
  }

  lemma {:induction false} RunHolds(s: Sys, run: seq<Event>)
    requires Invariant(s) && Final(s, run).Some?
    ensures Invariant(Final(s, run).value)
    decreases |run|
  {
    hide Invariant, Enabled, Step;
    if run != [] {
      StepHolds(s, run[0]);
      RunHolds(Step(s, run[0]), run[1..]);
    }
  }

  ghost predicate Reachable(s: Sys) { exists n: nat, run: seq<Event> :: Final(Start(n), run) == Some(s) }

  lemma ReachableHolds(s: Sys)
    requires Reachable(s)
    ensures Invariant(s)
  {
    hide Invariant, Enabled, Step, Start;
    var n: nat, run :| Final(Start(n), run) == Some(s);
    StartHolds(n);
    RunHolds(Start(n), run);
  }

  // ---------------------------------------------------------------------------------
  // What holds after any run
  // ---------------------------------------------------------------------------------

  /** When the call can return, every processor has invalidated the caller's address since it was published;
      returning frees the lock. */
  lemma ReturnMeansFlushed(s: Sys, c: nat)
    requires Reachable(s) && Enabled(s, Return(c))
    ensures s.addr == s.cpu[c].pc.va && forall d | d in s.cpu :: d in s.flushed
    ensures var t := Step(s, Return(c)); t.lock.None? && t.cpu.Keys == s.cpu.Keys && t.cpu[c].pc.Out? && t.flushed == s.flushed
  {
    hide Reachable;
    ReachableHolds(s);
    FullMeansQuiet(s, c);
  }

  /** The shared address is written only while no interrupt is outstanding, and an interrupt is never
      sent to a processor that still has one. */
  lemma NeverOverwritten(s: Sys, e: Event)
    requires Reachable(s) && Enabled(s, e)
    ensures Step(s, e).addr != s.addr ==> NothingOutstanding(s)
    ensures e.Send? && s.cpu[e.c].pc.i != e.c ==> s.cpu[s.cpu[e.c].pc.i].ipi.Quiet?
  {
    hide Reachable;
    ReachableHolds(s);
  }

  /** In a round the counter, the unsent and the unacknowledged add up to the number of processors. */
  lemma RoundTally(s: Sys, h: nat)
    requires Reachable(s) && h in s.cpu && InRound(s.cpu[h].pc)
    ensures s.done + Unsent(|s.cpu|, h, s.cpu[h].pc) + |Where(s.cpu, IsPending)| + |Where(s.cpu, IsHandling)| == |s.cpu|
  {
    hide Reachable;
    ReachableHolds(s);
  }

  // ---------------------------------------------------------------------------------
  // When a round can end
  // ---------------------------------------------------------------------------------

  /** The holder's interrupt has still to be taken by `c`, or even to be sent to it. */
  predicate Awaited(s: Sys, h: nat, c: nat)
    requires h in s.cpu && c in s.cpu
  {
    && c != h
    && (s.cpu[c].ipi.Pending? || s.cpu[h].pc.Locked? || s.cpu[h].pc.Published?
        || (s.cpu[h].pc.Sending? && s.cpu[h].pc.i <= c))
  }

  /** `h` holds the lock and awaits `c`, which spins for that lock with its interrupts off. */
  predicate Blocked(s: Sys, h: nat, c: nat) {
    && h in s.cpu && c in s.cpu && s.lock == Some(h) && HoldsLock(s.cpu[h].pc)
    && s.cpu[c].pc.Spinning? && Awaited(s, h, c)
  }

  lemma BlockedStep(s: Sys, h: nat, c: nat, e: Event)
    requires Invariant(s) && Blocked(s, h, c) && Enabled(s, e)
    ensures e != Return(h) && Blocked(Step(s, e), h, c)
  {
    if e == Return(h) {
      FullMeansQuiet(s, h);
    }
  }

  /** Neither call ever returns then, however the run goes on. */
  lemma {:induction false} BlockedForever(s: Sys, h: nat, c: nat, run: seq<Event>)
    requires Invariant(s) && Blocked(s, h, c) && Final(s, run).Some?
    ensures var t := Final(s, run).value;
            Blocked(t, h, c) && !Enabled(t, Return(h)) && !Enabled(t, Return(c))
    decreases |run|
  {
    if run != [] {
      BlockedStep(s, h, c, run[0]);
      StepHolds(s, run[0]);
      hide Invariant, Enabled, Step, Blocked;
      BlockedForever(Step(s, run[0]), h, c, run[1..]);
    } else if Enabled(s, Return(h)) {
      BlockedStep(s, h, c, Return(h));
    }
  }

  /** `h` holds the lock and every processor it awaits takes interrupts. */
  ghost predicate Free(s: Sys, h: nat) {
    && h in s.cpu && s.lock == Some(h) && HoldsLock(s.cpu[h].pc)
    && forall c | c in s.cpu :: !Blocked(s, h, c)
  }

  /** Steps still to take before the round can end. */
  function Left(s: Sys, h: nat): int
    requires h in s.cpu
  {
    var p := s.cpu[h].pc;
    var own := if p.Locked? then 3 * |s.cpu| + 3 else if p.Published? then 3 * |s.cpu| + 2
               else if p.Sending? then 3 * (|s.cpu| - p.i) + 1 else 0;
    own + 2 * |Where(s.cpu, IsPending)| + |Where(s.cpu, IsHandling)|
  }

  /** In a round that is not blocked and not over some step brings the end nearer. */
  lemma NextToEnd(s: Sys, h: nat) returns (e: Event)
    requires Invariant(s) && Free(s, h) && !Enabled(s, Return(h))
    ensures Enabled(s, e) && e.c in s.cpu && Nearer(s, h, e)
  {
    hide Where;
    var p := s.cpu[h].pc;
    if p.Locked? {
      e := Publish(h);
    } else if p.Published? {
      e := Reset(h);
    } else if p.Sending? {
      e := if p.i < |s.cpu| then Send(h) else FlushSelf(h);
    } else if c :| c in s.cpu && s.cpu[c].ipi.Handling? {
      e := Acknowledge(c);
    } else {
      e := SomePending(s, h);
    }
  }

  lemma LeftIsNat(s: Sys, h: nat)
    requires Addressed(s) && h in s.cpu
    ensures Left(s, h) >= 0
  {}

  /** The steps of a round's own making. */
  predicate Nearer(s: Sys, h: nat, e: Event) {
    match e
    case Publish(c) => c == h
    case Reset(c) => c == h
    case Send(c) => c == h
    case FlushSelf(c) => c == h
    case Flush(c) => c != h
    case Acknowledge(c) => c != h
    case _ => false
  }

  /** While the counter is short of the number of processors someone has an interrupt to take. */
  lemma SomePending(s: Sys, h: nat) returns (e: Event)
    requires Invariant(s) && Free(s, h) && s.cpu[h].pc.Waiting? && !Enabled(s, Return(h))
    requires forall c | c in s.cpu :: !s.cpu[c].ipi.Handling?
    ensures e.Flush? && Enabled(s, e) && Nearer(s, h, e)
  {
    Nowhere(s.cpu, IsHandling);
    if !(exists c :: c in s.cpu && IsPending(s.cpu[c])) {
      Nowhere(s.cpu, IsPending);
    }
    var c :| c in s.cpu && IsPending(s.cpu[c]);
    assert !Blocked(s, h, c);
    e := Flush(c);
  }

  lemma NearerStep(s: Sys, h: nat, e: Event)
    requires Invariant(s) && Free(s, h) && Enabled(s, e) && Nearer(s, h, e)
    ensures Free(Step(s, e), h) && Left(Step(s, e), h) < Left(s, h)
  {
    NumberedStep(s, e);
    var t := Step(s, e);
    forall c | c in t.cpu ensures !Blocked(t, h, c) {
      assert !Blocked(s, h, c);
    }
    hide Where, Blocked, Awaited;
    if e.Send? && s.cpu[h].pc.i != h {
      var i := s.cpu[h].pc.i;
      Moved(s.cpu, i, s.cpu[i].(ipi := Pending), IsPending);
      Moved(s.cpu, i, s.cpu[i].(ipi := Pending), IsHandling);
      var mid := s.cpu[i := s.cpu[i].(ipi := Pending)];
      Moved(mid, h, t.cpu[h], IsPending);
      Moved(mid, h, t.cpu[h], IsHandling);
    } else {
      Moved(s.cpu, e.c, t.cpu[e.c], IsPending);
      Moved(s.cpu, e.c, t.cpu[e.c], IsHandling);
    }
  }

  /** A round that is not blocked can be brought to its end. */
  lemma {:induction false} RoundEnds(s: Sys, h: nat) returns (run: seq<Event>)
    requires Invariant(s) && Free(s, h)
    ensures Final(s, run).Some? && Enabled(Final(s, run).value, Return(h))
    decreases Left(s, h)
  {
    LeftIsNat(s, h);
    hide Invariant, Free, Step, Left, Nearer;
    if Enabled(s, Return(h)) {
      run := [];
      Nothing(s);
    } else {
      var e := NextToEnd(s, h);
      NearerStep(s, h, e);
      StepHolds(s, e);
      var t := Step(s, e);
      var rest := RoundEnds(t, h);
      hide Enabled;
      Prepend(s, e, t, rest, Final(t, rest).value);
      run := [e] + rest;
    }
  }

  ghost predicate CanReturn(s: Sys, h: nat) {
    exists run: seq<Event> :: Final(s, run).Some? && Enabled(Final(s, run).value, Return(h))
  }

  /** The call of whoever holds the lock can return, in some continuation, if and only if it awaits no
      processor that spins for the lock. */
  lemma ReturnsIffUnblocked(s: Sys, h: nat)
    requires Reachable(s) && s.lock == Some(h)
    ensures h in s.cpu && (CanReturn(s, h) <==> forall c | c in s.cpu :: !Blocked(s, h, c))
  {
    ReachableHolds(s);
    assert h in s.cpu && HoldsLock(s.cpu[h].pc);
    assert (forall c | c in s.cpu :: !Blocked(s, h, c)) ==> Free(s, h);
    hide Reachable, Invariant, Step, Enabled, Blocked, Free;
    if c :| c in s.cpu && Blocked(s, h, c) {
      forall run | Final(s, run).Some? ensures !Enabled(Final(s, run).value, Return(h)) {
        BlockedForever(s, h, c, run);
      }
    } else {
      var run := RoundEnds(s, h);
    }
  }

  function Pair(p: Pc, q: Pc, ipi: Ipi, lock: Option<nat>, addr: Addr, done: int, flushed: set<nat>): Sys {
    Sys(map[0 := Cpu(p, Quiet), 1 := Cpu(q, ipi)], lock, addr, done, flushed)
  }

  lemma Prepend(s: Sys, e: Event, s': Sys, run: seq<Event>, last: Sys)
    requires Enabled(s, e) && Step(s, e) == s' && Final(s', run) == Some(last)
    ensures Final(s, [e] + run) == Some(last)
  {
    assert ([e] + run)[1..] == run;
  }

  lemma Nothing(s: Sys)
    ensures Final(s, []) == Some(s)
  {}

  function Crossed(): Sys { Pair(Waiting(1), Spinning(2), Pending, Some(0), 1, 1, {0}) }

  /** Processor 0 sends while processor 1 is about to start a call of its own. */
  lemma SendToSpinner() returns (run: seq<Event>)
    ensures Final(Pair(Sending(1, 0), Spinning(2), Quiet, Some(0), 1, 1, {}), run) == Some(Crossed())
  {
    hide Final;
    run := [];
    Nothing(Crossed());
    Prepend(Pair(Sending(1, 2), Spinning(2), Pending, Some(0), 1, 1, {}), FlushSelf(0), Crossed(), run, Crossed());
    run := [FlushSelf(0)] + run;
    Prepend(Pair(Sending(1, 1), Spinning(2), Quiet, Some(0), 1, 1, {}), Send(0),
            Pair(Sending(1, 2), Spinning(2), Pending, Some(0), 1, 1, {}), run, Crossed());
    run := [Send(0)] + run;
    Prepend(Pair(Sending(1, 0), Spinning(2), Quiet, Some(0), 1, 1, {}), Send(0),
            Pair(Sending(1, 1), Spinning(2), Quiet, Some(0), 1, 1, {}), run, Crossed());
    run := [Send(0)] + run;
  }

  /** So two crossing calls can leave both processors waiting. */
  lemma CallsCross()
    ensures Reachable(Crossed()) && Blocked(Crossed(), 0, 1)
  {
    hide Final;
    var run := SendToSpinner();
    Prepend(Pair(Sending(1, 0), Out, Quiet, Some(0), 1, 1, {}), Call(1, 2),
            Pair(Sending(1, 0), Spinning(2), Quiet, Some(0), 1, 1, {}), run, Crossed());
    run := [Call(1, 2)] + run;
    Prepend(Pair(Published(1), Out, Quiet, Some(0), 1, 0, {}), Reset(0),
            Pair(Sending(1, 0), Out, Quiet, Some(0), 1, 1, {}), run, Crossed());
    run := [Reset(0)] + run;
    Prepend(Pair(Locked(1), Out, Quiet, Some(0), 0, 0, {}), Publish(0),
            Pair(Published(1), Out, Quiet, Some(0), 1, 0, {}), run, Crossed());
    run := [Publish(0)] + run;
    Prepend(Pair(Spinning(1), Out, Quiet, None, 0, 0, {}), Lock(0),
            Pair(Locked(1), Out, Quiet, Some(0), 0, 0, {}), run, Crossed());
    run := [Lock(0)] + run;
    assert Start(2) == Pair(Out, Out, Quiet, None, 0, 0, {});
    Prepend(Start(2), Call(0, 1), Pair(Spinning(1), Out, Quiet, None, 0, 0, {}), run, Crossed());
  }
}
