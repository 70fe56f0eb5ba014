/** The submission and completion rings of kernel-3/dev/NVMeController.m, with the device on the other
    side of them as sections 4.1 and 4.6 of the NVM Express Base Specification 1.4c describe it. */
module Nvme {
  import opened Common

  type Cid = int

  const SLOTS: nat := 64        // a page of 64-byte submission entries, for both rings

  datatype Sqe = Sqe(cid: Cid, payload: int)

  datatype Cqe = Cqe(cid: Cid, phase: int, status: int)

  /** What one look at the completion ring does. */
  datatype Outcome = Nothing | Done(cid: Cid, data: int) | Panic

  // ---------------------------------------------------------------------------------
  // The rings
  // ---------------------------------------------------------------------------------

  /** The phase bit of the k-th completion ever posted: 1 on the first pass, then alternating. */
  function PhaseOf(k: nat): int { 1 - k / SLOTS % 2 }

  function Next(i: int): int { if i + 1 == SLOTS then 0 else i + 1 }

  lemma SlotsDiffer(j: nat, k: nat)
    requires j < k < j + SLOTS
    ensures j % SLOTS != k % SLOTS
  {}

  lemma NextSlot(k: nat)
    ensures (k + 1) % SLOTS == if k % SLOTS + 1 == SLOTS then 0 else k % SLOTS + 1
    ensures PhaseOf(k + 1) == if k % SLOTS + 1 == SLOTS then 1 - PhaseOf(k) else PhaseOf(k)
  {}

  lemma SameSlotFlips(k: nat)
    ensures (k + SLOTS) % SLOTS == k % SLOTS && PhaseOf(k + SLOTS) == 1 - PhaseOf(k)
  {
    assert (k + SLOTS) / SLOTS == k / SLOTS + 1;
  }

  /** The unfetched entries are in the ring, in order; there are never more than slots. */
  ghost predicate SubmissionOk(ring: seq<Sqe>, tail: int, head: int, submitted: seq<Sqe>, fetched: int) {
    && |ring| == SLOTS && 0 <= fetched <= |submitted| <= fetched + SLOTS
    && tail == |submitted| % SLOTS && head == fetched % SLOTS
    && forall k | fetched <= k < |submitted| :: ring[k % SLOTS] == submitted[k]
  }

  /** The last completions posted are in the ring, each with the phase of its pass; the rest was never
      written. The device leaves one slot free. */
  ghost predicate CompletionOk(ring: seq<Cqe>, head: int, phase: int, tail: int, devPhase: int, posted: seq<Cqe>, consumed: int) {
    && |ring| == SLOTS && 0 <= consumed <= |posted| < consumed + SLOTS
    && head == consumed % SLOTS && tail == |posted| % SLOTS
    && phase == PhaseOf(consumed) && devPhase == PhaseOf(|posted|)
    && (forall k | 0 <= k < |posted| :: posted[k].phase == PhaseOf(k))
    && (forall k | 0 <= k < |posted| <= k + SLOTS :: ring[k % SLOTS] == posted[k])
    && (forall i | |posted| <= i < SLOTS :: ring[i].phase == 0)
  }

  /** A new entry overwrites none that the device has still to fetch. */
  lemma SubmittedRing(ring: seq<Sqe>, tail: int, head: int, submitted: seq<Sqe>, fetched: int, e: Sqe)
    requires SubmissionOk(ring, tail, head, submitted, fetched) && |submitted| < fetched + SLOTS
    ensures 0 <= tail < SLOTS
    ensures SubmissionOk(ring[tail := e], Next(tail), head, submitted + [e], fetched)
    ensures forall k | fetched <= k < |submitted| :: ring[tail := e][k % SLOTS] == submitted[k]
  {
    hide PhaseOf;
    NextSlot(|submitted|);
    forall k | fetched <= k < |submitted| ensures k % SLOTS != tail {
      SlotsDiffer(k, |submitted|);
    }
  }

  /** The device finds its next entry, except that a full ring looks like an empty one. */
  lemma FetchedRing(ring: seq<Sqe>, tail: int, head: int, submitted: seq<Sqe>, fetched: int)
    requires SubmissionOk(ring, tail, head, submitted, fetched)
    ensures 0 <= head < SLOTS
    ensures head == tail <==> fetched == |submitted| || |submitted| == fetched + SLOTS
    ensures head != tail ==>
              ring[head] == submitted[fetched] && SubmissionOk(ring, tail, Next(head), submitted, fetched + 1)
  {
    hide PhaseOf;
    if fetched < |submitted| < fetched + SLOTS {
      SlotsDiffer(fetched, |submitted|);
    }
    NextSlot(fetched);
  }

  lemma PostedRing(ring: seq<Cqe>, head: int, phase: int, tail: int, devPhase: int, posted: seq<Cqe>, consumed: int, e: Cqe)
    requires CompletionOk(ring, head, phase, tail, devPhase, posted, consumed) && e.phase == devPhase
    ensures 0 <= tail < SLOTS && (Next(tail) == head <==> |posted| - consumed == SLOTS - 1)
    ensures Next(tail) != head ==>
              var tail' := Next(tail);
              CompletionOk(ring[tail := e], head, phase, tail', if tail' == 0 then 1 - devPhase else devPhase, posted + [e], consumed)
  {
    var n := |posted|;
    NextSlot(n);
    if n + 1 < consumed + SLOTS {
      SlotsDiffer(consumed, n + 1);
    }
    hide PhaseOf;
    forall k | 0 <= k < n < k + SLOTS ensures k % SLOTS != tail {
      SlotsDiffer(k, n);
    }
  }

  /** The phase bit tells a new entry from one of the pass before. */
  lemma NewOrOld(ring: seq<Cqe>, head: int, phase: int, tail: int, devPhase: int, posted: seq<Cqe>, consumed: int)
    requires CompletionOk(ring, head, phase, tail, devPhase, posted, consumed)
    ensures 0 <= head < SLOTS && (ring[head].phase == phase <==> consumed < |posted|)
    ensures consumed < |posted| ==>
              && ring[head] == posted[consumed]
              && var head' := Next(head);
                 CompletionOk(ring, head', if head' == 0 then 1 - phase else phase, tail, devPhase, posted, consumed + 1)
  {
    NextSlot(consumed);
    if consumed == |posted| && consumed >= SLOTS {
      SameSlotFlips(consumed - SLOTS);
    }
  }

  // ---------------------------------------------------------------------------------
  // Command ids
  // ---------------------------------------------------------------------------------

  /** Every command id, once. */
  function Ids(n: nat): (m: multiset<Cid>)
    ensures forall c: Cid :: m[c] == if 0 <= c < n then 1 else 0
    ensures |m| == n
  {
    if n == 0 then multiset{} else Ids(n - 1) + multiset{n - 1}
  }

  function CidsOf(cmds: seq<Sqe>): (s: seq<Cid>)
    ensures |s| == |cmds| && forall i | 0 <= i < |s| :: s[i] == cmds[i].cid
  {
    seq(|cmds|, i requires 0 <= i < |cmds| => cmds[i].cid)
  }

  function IdsIn(es: seq<Cqe>): (s: seq<Cid>)
    ensures |s| == |es| && forall i | 0 <= i < |s| :: s[i] == es[i].cid
  {
    seq(|es|, i requires 0 <= i < |es| => es[i].cid)
  }

  /** Where the command ids are: free, in a caller's hands, waiting in the ring, in the device, posted. */
  datatype Places = Places(free: seq<Cid>, taken: multiset<Cid>, waiting: seq<Cid>, inDevice: multiset<Cid>, done: seq<Cid>) {
    function Count(c: Cid): nat { multiset(free)[c] + taken[c] + multiset(waiting)[c] + inDevice[c] + multiset(done)[c] }
  }

  /** Every command id is in exactly one place, once. */
  ghost predicate Conserved(p: Places) { forall c: Cid :: p.Count(c) == if 0 <= c < SLOTS then 1 else 0 }

  lemma Total(p: Places, n: nat)
    requires forall c: Cid :: p.Count(c) == if 0 <= c < n then 1 else 0
    ensures |p.free| + |p.taken| + |p.waiting| + |p.inDevice| + |p.done| == n
  {
    hide Ids;
    var all := multiset(p.free) + p.taken + multiset(p.waiting) + p.inDevice + multiset(p.done);
    forall c: Cid ensures all[c] == Ids(n)[c] {
      assert p.Count(c) == all[c];
    }
    assert all == Ids(n);
  }

  /** With a request in hand at most the others wait in the ring; with all of them waiting nothing else holds one. */
  lemma Room(p: Places)
    requires Conserved(p)
    ensures |p.waiting| <= SLOTS && (p.taken != multiset{} ==> |p.waiting| < SLOTS)
    ensures |p.waiting| == SLOTS ==> p.free == [] && p.taken == multiset{} && p.inDevice == multiset{} && p.done == []
  {
    Total(p, SLOTS);
    Empty(p.taken);
    if |p.waiting| == SLOTS {
      Empty(p.inDevice);
    }
  }

  lemma Empty(m: multiset<Cid>)
    ensures |m| == 0 <==> m == multiset{}
  {
    if c: Cid :| m[c] != 0 {
      assert m == multiset{c} + (m - multiset{c});
    } else {
      var none: multiset<Cid> := multiset{};
      assert forall c: Cid :: m[c] == none[c];
      assert m == none;
    }
  }

  lemma HereOnly(p: Places, c: Cid)
    requires Conserved(p) && (c in p.free || c in p.taken || c in p.waiting || c in p.inDevice || c in p.done)
    ensures 0 <= c < SLOTS && p.Count(c) == 1
  {
    assert c in p.free ==> multiset(p.free)[c] > 0;
    assert c in p.waiting ==> multiset(p.waiting)[c] > 0;
    assert c in p.done ==> multiset(p.done)[c] > 0;
    assert p.Count(c) > 0;
  }

  lemma TakenMove(p: Places)
    requires Conserved(p) && p.free != []
    ensures var n := |p.free| - 1;
            var c := p.free[n];
            && 0 <= c < SLOTS && c !in p.free[..n]
            && Conserved(p.(free := p.free[..n], taken := p.taken + multiset{c}))
  {
    var n := |p.free| - 1;
    var c, q := p.free[n], p.(free := p.free[..n], taken := p.taken + multiset{p.free[n]});
    assert p.free == q.free + [c];
    HereOnly(p, c);
    assert multiset(p.free)[c] == multiset(q.free)[c] + 1;
    forall d: Cid ensures q.Count(d) == p.Count(d) {}
  }

  lemma SubmittedMove(p: Places, c: Cid)
    requires Conserved(p) && c in p.taken
    ensures Conserved(p.(taken := p.taken - multiset{c}, waiting := p.waiting + [c]))
  {
    var q := p.(taken := p.taken - multiset{c}, waiting := p.waiting + [c]);
    forall d: Cid ensures q.Count(d) == p.Count(d) {}
  }

  lemma FetchedMove(p: Places, rest: seq<Cid>, c: Cid)
    requires Conserved(p) && p.waiting == [c] + rest
    ensures Conserved(p.(waiting := rest, inDevice := p.inDevice + multiset{c}))
  {
    var q := p.(waiting := rest, inDevice := p.inDevice + multiset{c});
    forall d: Cid ensures q.Count(d) == p.Count(d) {}
  }

  lemma PostedMove(p: Places, c: Cid)
    requires Conserved(p) && c in p.inDevice
    ensures Conserved(p.(inDevice := p.inDevice - multiset{c}, done := p.done + [c]))
  {
    var q := p.(inDevice := p.inDevice - multiset{c}, done := p.done + [c]);
    forall d: Cid ensures q.Count(d) == p.Count(d) {}
  }

  lemma ConsumedMove(p: Places, c: Cid, rest: seq<Cid>)
    requires Conserved(p) && p.done == [c] + rest
    ensures 0 <= c < SLOTS && c !in p.free && Conserved(p.(done := rest, free := [c] + p.free))
  {
    var q := p.(done := rest, free := [c] + p.free);
    assert c in p.done;
    HereOnly(p, c);
    assert c in p.free ==> multiset(p.free)[c] > 0;
    forall d: Cid ensures q.Count(d) == p.Count(d) {}
  }

  ghost function PlacesOf(reqs: seq<Cid>, taken: multiset<Cid>, submitted: seq<Sqe>, fetched: int, inDevice: multiset<Cid>,
      posted: seq<Cqe>, consumed: int): Places
    requires 0 <= fetched <= |submitted| && 0 <= consumed <= |posted|
  {
    Places(reqs, taken, CidsOf(submitted[fetched..]), inDevice, IdsIn(posted[consumed..]))
  }

  lemma AllFree(reqs: seq<Cid>)
    requires forall c: Cid :: multiset(reqs)[c] == if 0 <= c < SLOTS then 1 else 0
    ensures Conserved(PlacesOf(reqs, multiset{}, [], 0, multiset{}, [], 0))
  {
    var p := PlacesOf(reqs, multiset{}, [], 0, multiset{}, [], 0);
    assert CidsOf([]) == [] && IdsIn([]) == [];
    assert p.waiting == [] && p.done == [];
  }

  /** The ids' side of the five steps. */
  ghost predicate Settled(reqs: seq<Cid>, taken: multiset<Cid>, submitted: seq<Sqe>, fetched: int, inDevice: multiset<Cid>,
      posted: seq<Cqe>, consumed: int) {
    && 0 <= fetched <= |submitted| && 0 <= consumed <= |posted|
    && Conserved(PlacesOf(reqs, taken, submitted, fetched, inDevice, posted, consumed))
  }

  lemma SettledTaken(reqs: seq<Cid>, taken: multiset<Cid>, submitted: seq<Sqe>, fetched: int, inDevice: multiset<Cid>,
      posted: seq<Cqe>, consumed: int)
    requires Settled(reqs, taken, submitted, fetched, inDevice, posted, consumed) && reqs != []
    ensures var n := |reqs| - 1;
            && 0 <= reqs[n] < SLOTS && reqs[n] !in reqs[..n]
            && Settled(reqs[..n], taken + multiset{reqs[n]}, submitted, fetched, inDevice, posted, consumed)
  {
    hide Conserved, CidsOf, IdsIn;
    TakenMove(PlacesOf(reqs, taken, submitted, fetched, inDevice, posted, consumed));
  }

  lemma SettledSubmitted(reqs: seq<Cid>, taken: multiset<Cid>, submitted: seq<Sqe>, fetched: int, inDevice: multiset<Cid>,
      posted: seq<Cqe>, consumed: int, e: Sqe)
    requires Settled(reqs, taken, submitted, fetched, inDevice, posted, consumed) && e.cid in taken
    ensures |submitted| < fetched + SLOTS
    ensures Settled(reqs, taken - multiset{e.cid}, submitted + [e], fetched, inDevice, posted, consumed)
  {
    var p := PlacesOf(reqs, taken, submitted, fetched, inDevice, posted, consumed);
    assert CidsOf((submitted + [e])[fetched..]) == CidsOf(submitted[fetched..]) + [e.cid];
    hide Conserved;
    Room(p);
    SubmittedMove(p, e.cid);
  }

  lemma SettledFetched(reqs: seq<Cid>, taken: multiset<Cid>, submitted: seq<Sqe>, fetched: int, inDevice: multiset<Cid>,
      posted: seq<Cqe>, consumed: int)
    requires Settled(reqs, taken, submitted, fetched, inDevice, posted, consumed) && fetched < |submitted|
    ensures Settled(reqs, taken, submitted, fetched + 1, inDevice + multiset{submitted[fetched].cid}, posted, consumed)
  {
    var p, e := PlacesOf(reqs, taken, submitted, fetched, inDevice, posted, consumed), submitted[fetched];
    assert submitted[fetched..] == [e] + submitted[fetched + 1..];
    assert CidsOf(submitted[fetched..]) == [e.cid] + CidsOf(submitted[fetched + 1..]);
    hide Conserved;
    FetchedMove(p, CidsOf(submitted[fetched + 1..]), e.cid);
  }

  lemma SettledPosted(reqs: seq<Cid>, taken: multiset<Cid>, submitted: seq<Sqe>, fetched: int, inDevice: multiset<Cid>,
      posted: seq<Cqe>, consumed: int, e: Cqe)
    requires Settled(reqs, taken, submitted, fetched, inDevice, posted, consumed) && e.cid in inDevice
    ensures Settled(reqs, taken, submitted, fetched, inDevice - multiset{e.cid}, posted + [e], consumed)
  {
    var p := PlacesOf(reqs, taken, submitted, fetched, inDevice, posted, consumed);
    assert IdsIn((posted + [e])[consumed..]) == IdsIn(posted[consumed..]) + [e.cid];
    hide Conserved;
    PostedMove(p, e.cid);
  }

  lemma SettledConsumed(reqs: seq<Cid>, taken: multiset<Cid>, submitted: seq<Sqe>, fetched: int, inDevice: multiset<Cid>,
      posted: seq<Cqe>, consumed: int)
    requires Settled(reqs, taken, submitted, fetched, inDevice, posted, consumed) && consumed < |posted|
    ensures var c := posted[consumed].cid;
            && 0 <= c < SLOTS && c !in reqs
            && Settled([c] + reqs, taken, submitted, fetched, inDevice, posted, consumed + 1)
  {
    var p, e := PlacesOf(reqs, taken, submitted, fetched, inDevice, posted, consumed), posted[consumed];
    assert posted[consumed..] == [e] + posted[consumed + 1..];
    assert IdsIn(posted[consumed..]) == [e.cid] + IdsIn(posted[consumed + 1..]);
    hide Conserved;
    ConsumedMove(p, e.cid, IdsIn(posted[consumed + 1..]));
  }

  lemma Twice(l: seq<Cid>, i: nat, j: nat)
    requires i < j < |l| && l[i] == l[j]
    ensures multiset(l)[l[i]] >= 2
  {
    assert l == l[..i] + [l[i]] + l[i + 1..j] + [l[j]] + l[j + 1..];
  }

  /** The calls made for the completions from `start` on: each its own command's, with the data recorded for it. */
  ghost predicate Called(posted: seq<Cqe>, start: int, calls: seq<Outcome>, data: seq<Option<int>>) {
    0 <= start && start + |calls| <= |posted| && forall k | 0 <= k < |calls| :: CallFor(posted[start + k].cid, calls[k], data)
  }

  predicate CallFor(c: Cid, call: Outcome, data: seq<Option<int>>) {
    0 <= c < |data| && data[c].Some? && call == Done(c, data[c].value)
  }

  /** The last `n` ids consumed are at the front of the free ones, the latest first. */
  ghost predicate Freed(posted: seq<Cqe>, consumed: int, n: nat, was: seq<Cid>, reqs: seq<Cid>) {
    && n <= consumed <= |posted| && |reqs| == n + |was| && reqs[n..] == was
    && forall k | 0 <= k < n :: reqs[k] == posted[consumed - 1 - k].cid
  }

  /** Nothing has been done yet about the completions from `consumed` on. */
  ghost predicate Kept(posted: seq<Cqe>, consumed: int, was: seq<Option<int>>, data: seq<Option<int>>) {
    && 0 <= consumed <= |posted| && |was| == |data|
    && forall k | consumed <= k < |posted| && 0 <= posted[k].cid < |data| :: data[posted[k].cid] == was[posted[k].cid]
  }

  lemma CalledNext(posted: seq<Cqe>, start: int, calls: seq<Outcome>, was: seq<Option<int>>, c: Cid, d: int,
                   data: seq<Option<int>>, data': seq<Option<int>>)
    requires Called(posted, start, calls, was) && start + |calls| < |posted| && Kept(posted, start + |calls|, was, data)
    requires c == posted[start + |calls|].cid && 0 <= c < |data| && data[c] == Some(d) && data' == data[c := None]
    requires forall i, j | start + |calls| <= i < j < |posted| :: posted[i].cid != posted[j].cid
    ensures Called(posted, start, calls + [Done(c, d)], was) && Kept(posted, start + |calls| + 1, was, data')
  {
    var n, calls' := start + |calls|, calls + [Done(c, d)];
    assert data[posted[n].cid] == was[posted[n].cid];
    forall k | 0 <= k < |calls'| ensures CallFor(posted[start + k].cid, calls'[k], was) {
      if k < |calls| {
        assert calls'[k] == calls[k] && CallFor(posted[start + k].cid, calls[k], was);
      } else {
        assert start + k == n;
      }
    }
    forall k | n + 1 <= k < |posted| && 0 <= posted[k].cid < |data'| ensures data'[posted[k].cid] == was[posted[k].cid] {
      assert posted[n].cid != posted[k].cid;
    }
  }

  lemma FreedNext(posted: seq<Cqe>, consumed: int, n: nat, was: seq<Cid>, reqs: seq<Cid>)
    requires Freed(posted, consumed, n, was, reqs) && consumed < |posted|
    ensures Freed(posted, consumed + 1, n + 1, was, [posted[consumed].cid] + reqs)
  {
    var reqs' := [posted[consumed].cid] + reqs;
    forall k | 0 <= k < n + 1 ensures reqs'[k] == posted[consumed - k].cid {
      assert k > 0 ==> reqs'[k] == reqs[k - 1];
    }
  }

  class Queue {
    // The host's side.
    const sq: array<Sqe>
    const cq: array<Cqe>
    const completion: array<Option<int>>   // per request: the callback's data, while it is not free
    var sqtail: int
    var cqhead: int
    var phase: int
    var reqs: seq<Cid>                     // the free requests' command ids
    // The doorbells and the device's side.
    var sqdbl: int
    var cqdbl: int
    var devHead: int
    var devTail: int
    var devPhase: int
    // What has happened so far.
    ghost var submitted: seq<Sqe>
    ghost var fetched: int
    ghost var posted: seq<Cqe>
    ghost var consumed: int
    ghost var taken: multiset<Cid>         // requests taken and not submitted yet
    ghost var inDevice: multiset<Cid>      // commands fetched and not completed yet

    ghost predicate SubmissionSide()
      reads `sqtail, `sqdbl, `devHead, `submitted, `fetched, sq
    {
      SubmissionOk(sq[..], sqtail, devHead, submitted, fetched) && sqdbl == sqtail
    }

    ghost predicate CompletionSide()
      reads `cqhead, `cqdbl, `phase, `devTail, `devPhase, `posted, `consumed, cq
    {
      CompletionOk(cq[..], cqhead, phase, devTail, devPhase, posted, consumed) && cqdbl == cqhead
    }

    ghost predicate CallbacksOk()
      reads `reqs, completion
    {
      completion.Length == SLOTS && forall c | 0 <= c < SLOTS :: completion[c].Some? <==> c !in reqs
    }

    ghost predicate Valid()
      reads this, sq, cq, completion
    {
      && sq.Length == SLOTS && cq.Length == SLOTS && 0 <= fetched <= |submitted| && 0 <= consumed <= |posted|
      && SubmissionSide() && CompletionSide() && CallbacksOk()
      && Settled(reqs, taken, submitted, fetched, inDevice, posted, consumed)
    }

    /** `queue_alloc`. */
    constructor ()
      ensures Valid() && fresh(sq) && fresh(cq) && fresh(completion)
      ensures submitted == [] && posted == [] && consumed == 0 && fetched == 0 && |reqs| == SLOTS
    {
      sq := new Sqe[SLOTS](i => Sqe(0, 0));
      cq := new Cqe[SLOTS](i => Cqe(0, 0, 0));
      completion := new Option<int>[SLOTS](i => None);
      sqtail, cqhead, phase, sqdbl, cqdbl, devHead, devTail, devPhase := 0, 0, 1, 0, 0, 0, 0, 1;
      submitted, fetched, posted, consumed, taken, inDevice := [], 0, [], 0, multiset{}, multiset{};
      reqs := [];
      new;
      assert SubmissionOk(sq[..], sqtail, devHead, submitted, fetched);
      assert CompletionOk(cq[..], cqhead, phase, devTail, devPhase, posted, consumed);
      hide Ids, SubmissionOk, CompletionOk, Conserved, PlacesOf;
      assert multiset(reqs) == multiset{};
      var i: nat := 0;
      while i < SLOTS
        invariant i == |reqs| <= SLOTS && forall k | 0 <= k < i :: reqs[k] == k
        invariant forall c: Cid :: multiset(reqs)[c] == if 0 <= c < i then 1 else 0
        modifies `reqs
      {
        reqs := reqs + [i];
        i := i + 1;
      }
      forall c | 0 <= c < SLOTS ensures c in reqs {
        assert multiset(reqs)[c] == 1;
      }
      AllFree(reqs);
    }

    /** The request taken in `readBlocks`: the last of the free queue; its assertion fails on an empty one. */
    method Take(data: int) returns (cid: Option<Cid>)
      requires Valid()
      modifies `reqs, `taken, completion
      ensures Valid()
      ensures cid.None? <==> old(reqs) == []
      ensures cid.None? ==> reqs == old(reqs) && taken == old(taken) && completion[..] == old(completion[..])
      ensures cid.Some? ==>
                && 0 <= cid.value < SLOTS && reqs + [cid.value] == old(reqs) && taken == old(taken) + multiset{cid.value}
                && completion[..] == old(completion[..])[cid.value := Some(data)]
    {
      hide SubmissionSide, CompletionSide, Settled;
      if reqs == [] {
        return None;
      }
      SettledTaken(reqs, taken, submitted, fetched, inDevice, posted, consumed);
      var n := |reqs| - 1;
      var c := reqs[n];
      assert reqs == reqs[..n] + [c];
      completion[c] := Some(data);
      reqs := reqs[..n];
      taken := taken + multiset{c};
      return Some(c);
    }

    /** `submitRequest`. */
    method Submit(cid: Cid, payload: int)
      requires Valid() && cid in taken
      modifies `sqtail, `sqdbl, `submitted, `taken, sq
      ensures Valid()
      ensures submitted == old(submitted) + [Sqe(cid, payload)] && taken == old(taken) - multiset{cid}
      ensures forall k | fetched <= k < |old(submitted)| :: sq[k % SLOTS] == old(submitted)[k]
    {
      var e := Sqe(cid, payload);
      hide SubmissionOk, CompletionSide, Settled, CallbacksOk;
      SettledSubmitted(reqs, taken, submitted, fetched, inDevice, posted, consumed, e);
      SubmittedRing(sq[..], sqtail, devHead, submitted, fetched, e);
      ghost var ring := sq[..];
      sq[sqtail] := e;
      assert sq[..] == ring[sqtail := e];
      sqtail := sqtail + 1;
      if sqtail == SLOTS {
        sqtail := 0;
      }
      sqdbl := sqtail;
      submitted := submitted + [e];
      taken := taken - multiset{cid};
    }

    /** The device fetches the next entry, if the tail doorbell differs from its head. A full ring of
        unfetched entries looks empty to it. */
    method DeviceFetch() returns (cmd: Option<Sqe>)
      requires Valid()
      modifies `devHead, `fetched, `inDevice
      ensures Valid()
      ensures cmd.None? <==> old(fetched) == |submitted| || |submitted| - old(fetched) == SLOTS
      ensures cmd.None? ==> fetched == old(fetched) && inDevice == old(inDevice)
      ensures cmd.Some? ==>
                && 0 <= old(fetched) < |submitted| && cmd.value == submitted[old(fetched)] && fetched == old(fetched) + 1
                && inDevice == old(inDevice) + multiset{cmd.value.cid}
    {
      hide SubmissionOk, CompletionSide, Settled, CallbacksOk;
      FetchedRing(sq[..], sqtail, devHead, submitted, fetched);
      if devHead == sqdbl {
        return None;
      }
      var e := sq[devHead];
      SettledFetched(reqs, taken, submitted, fetched, inDevice, posted, consumed);
      devHead := Next(devHead);
      fetched := fetched + 1;
      inDevice := inDevice + multiset{e.cid};
      return Some(e);
    }

    /** The device writes a completion at its tail. */
    method DeviceWrite(e: Cqe)
      requires Valid() && e.cid in inDevice && e.phase == devPhase && Next(devTail) != cqhead
      modifies `devTail, `devPhase, `posted, `inDevice, cq
      ensures Valid() && posted == old(posted) + [e] && inDevice == old(inDevice) - multiset{e.cid}
    {
      hide SubmissionSide, CompletionOk, Settled, CallbacksOk, PhaseOf, Next;
      PostedRing(cq[..], cqhead, phase, devTail, devPhase, posted, consumed, e);
      SettledPosted(reqs, taken, submitted, fetched, inDevice, posted, consumed, e);
      ghost var ring := cq[..];
      cq[devTail] := e;
      assert cq[..] == ring[devTail := e];
      devTail := Next(devTail);
      if devTail == 0 {
        devPhase := 1 - devPhase;
      }
      posted := posted + [e];
      inDevice := inDevice - multiset{e.cid};
    }

    /** The device posts a completion, unless that would fill the completion ring. */
    method DevicePost(cid: Cid, status: int) returns (ok: bool)
      requires Valid() && cid in inDevice
      modifies `devTail, `devPhase, `posted, `inDevice, cq
      ensures Valid()
      ensures ok <==> |old(posted)| - consumed < SLOTS - 1
      ensures ok ==> posted == old(posted) + [Cqe(cid, PhaseOf(|old(posted)|), status)] && inDevice == old(inDevice) - multiset{cid}
      ensures !ok ==> posted == old(posted) && inDevice == old(inDevice)
    {
      PostedRing(cq[..], cqhead, phase, devTail, devPhase, posted, consumed, Cqe(cid, devPhase, status));
      assert devPhase == PhaseOf(|posted|) && |posted| - consumed < SLOTS && cqdbl == cqhead;
      hide Valid, PhaseOf, Next, CompletionOk;
      if Next(devTail) == cqdbl {
        return false;
      }
      DeviceWrite(Cqe(cid, devPhase, status));
      return true;
    }

    /** One pass of the loop of `queueCompleteRequests`: the next completion posted, if there is one. */
    method CompleteOne() returns (r: Outcome)
      requires Valid()
      modifies `cqhead, `cqdbl, `phase, `reqs, `consumed, completion
      ensures Valid() && 0 <= old(consumed) <= |posted|
      ensures r.Nothing? <==> old(consumed) == |posted|
      ensures r.Panic? <==> old(consumed) < |posted| && posted[old(consumed)].status != 0
      ensures !r.Done? ==> consumed == old(consumed) && reqs == old(reqs) && completion[..] == old(completion[..])
      ensures r.Done? ==>
                && consumed == old(consumed) + 1 && 0 <= r.cid < SLOTS && r.cid == posted[old(consumed)].cid
                && old(completion[r.cid]) == Some(r.data) && reqs == [r.cid] + old(reqs)
                && completion[..] == old(completion[..])[r.cid := None]
    {
      hide SubmissionSide, CompletionOk, Settled, PhaseOf;
      NewOrOld(cq[..], cqhead, phase, devTail, devPhase, posted, consumed);
      var e := cq[cqhead];
      if e.phase != phase {
        return Nothing;
      }
      if e.status != 0 {
        return Panic;
      }
      SettledConsumed(reqs, taken, submitted, fetched, inDevice, posted, consumed);
      var data := completion[e.cid].value;
      completion[e.cid] := None;
      reqs := [e.cid] + reqs;
      cqhead := cqhead + 1;
      if cqhead == SLOTS {
        cqhead, phase := 0, 1 - phase;
      }
      cqdbl := cqhead;
      consumed := consumed + 1;
      return Done(e.cid, data);
    }

    /** How far an interrupt has come that began at completion `start`, with these data and free ids. */
    ghost predicate Progress(start: int, calls: seq<Outcome>, data: seq<Option<int>>, was: seq<Cid>)
      reads `consumed, `posted, `reqs, completion
    {
      && 0 <= start <= consumed <= |posted| && |calls| == consumed - start
      && (forall k | start <= k < consumed :: posted[k].status == 0)
      && Called(posted, start, calls, data) && Freed(posted, consumed, |calls|, was, reqs)
      && Kept(posted, consumed, data, completion[..])
    }

    /** One pass of the interrupt's loop. */
    method CompleteNext(calls: seq<Outcome>, ghost start: int, ghost data: seq<Option<int>>, ghost was: seq<Cid>)
      returns (r: Outcome, calls': seq<Outcome>)
      requires Valid() && Progress(start, calls, data, was)
      modifies `cqhead, `cqdbl, `phase, `reqs, `consumed, completion
      ensures Valid() && Progress(start, calls', data, was) && consumed == old(consumed) + (if r.Done? then 1 else 0)
      ensures r.Nothing? ==> consumed == |posted|
      ensures r.Panic? ==> 0 <= consumed < |posted| && posted[consumed].status != 0
    {
      hide Valid, Called, Freed, Kept;
      ghost var rs, cs := reqs, completion[..];
      IdsDiffer();
      r := CompleteOne();
      calls' := calls;
      if r.Done? {
        calls' := calls + [r];
        assert |cs| == completion.Length && cs[r.cid] == Some(r.data) && r == Done(r.cid, r.data);
        CalledNext(posted, start, calls, data, r.cid, r.data, cs, completion[..]);
        FreedNext(posted, consumed - 1, |calls|, was, rs);
      }
    }

    /** The interrupt: every posted completion is consumed, in order, up to the first that failed. For each,
        once, the callback of its own command runs with its own data; its id goes to the front of the free ones. */
    method Interrupt() returns (panicked: bool, calls: seq<Outcome>)
      requires Valid()
      modifies `cqhead, `cqdbl, `phase, `reqs, `consumed, completion
      ensures Valid() && 0 <= old(consumed) <= consumed <= |posted| && |calls| == consumed - old(consumed)
      ensures !panicked ==> consumed == |posted|
      ensures panicked ==> consumed < |posted| && posted[consumed].status != 0
      ensures forall k | old(consumed) <= k < consumed :: posted[k].status == 0
      ensures Called(posted, old(consumed), calls, old(completion[..])) && Freed(posted, consumed, |calls|, old(reqs), reqs)
    {
      calls := [];
      assert Progress(consumed, calls, completion[..], reqs);
      hide Valid, Called, Freed, Kept;
      while true
        invariant Valid() && Progress(old(consumed), calls, old(completion[..]), old(reqs))
        decreases |posted| - consumed
      {
        var r;
        r, calls := CompleteNext(calls, old(consumed), old(completion[..]), old(reqs));
        match r
        case Nothing => return false, calls;
        case Panic => return true, calls;
        case Done(_, _) =>
      }
    }

    /** No id is posted twice without being consumed. */
    lemma IdsDiffer()
      requires Valid()
      ensures 0 <= consumed <= |posted| && forall i, j | consumed <= i < j < |posted| :: posted[i].cid != posted[j].cid
      ensures completion.Length == SLOTS && forall i | consumed <= i < |posted| :: 0 <= posted[i].cid < SLOTS
    {
      hide SubmissionSide, CompletionSide;
      var p, l := PlacesOf(reqs, taken, submitted, fetched, inDevice, posted, consumed), IdsIn(posted[consumed..]);
      forall i | consumed <= i < |posted| ensures 0 <= posted[i].cid < SLOTS {
        assert l[i - consumed] == posted[i].cid && posted[i].cid in p.done;
        HereOnly(p, posted[i].cid);
      }
      forall i, j | consumed <= i < j < |posted| ensures posted[i].cid != posted[j].cid {
        if posted[i].cid == posted[j].cid {
          assert l[i - consumed] == posted[i].cid && l[j - consumed] == posted[i].cid && posted[i].cid in p.done;
          HereOnly(p, posted[i].cid);
          Twice(l, i - consumed, j - consumed);
        }
      }
    }

    /** With all the ids unfetched nothing can happen any more: the device sees an empty ring, no request
        is free or in hand, nothing is in the device and nothing is posted. */
    lemma FullRingStalls()
      requires Valid() && |submitted| - fetched == SLOTS
      ensures devHead == sqdbl && reqs == [] && taken == multiset{} && inDevice == multiset{} && consumed == |posted|
    {
      FetchedRing(sq[..], sqtail, devHead, submitted, fetched);
      hide SubmissionSide, CompletionSide, Conserved, PhaseOf;
      Room(PlacesOf(reqs, taken, submitted, fetched, inDevice, posted, consumed));
    }

    /** Callers that submit as many reads as there are requests, before the device fetches any, fill a new
        ring: no further request is free and the device fetches nothing. */
    method FillRing() returns (next: Option<Cid>, cmd: Option<Sqe>)
      requires Valid() && submitted == [] && fetched == 0 && |reqs| == SLOTS
      modifies this, sq, completion
      ensures Valid() && |submitted| - fetched == SLOTS && next.None? && cmd.None?
    {
      hide Valid;
      var i: nat := 0;
      while i < SLOTS
        invariant Valid() && i <= SLOTS && |submitted| == i && fetched == 0 && |reqs| == SLOTS - i
      {
        var cid := Take(i);
        Submit(cid.value, i);
        i := i + 1;
      }
      FullRingStalls();
      next := Take(0);
      cmd := DeviceFetch();
    }

    /** A command id is free, in a caller's hands, waiting in the ring, in the device, or posted: one of them. */
    lemma OnePlace(c: Cid)
      requires Valid() && 0 <= c < SLOTS
      ensures 0 <= fetched <= |submitted| && 0 <= consumed <= |posted|
      ensures multiset(reqs)[c] + taken[c] + multiset(CidsOf(submitted[fetched..]))[c] + inDevice[c]
              + multiset(IdsIn(posted[consumed..]))[c] == 1
    {
      hide SubmissionSide, CompletionSide;
      assert PlacesOf(reqs, taken, submitted, fetched, inDevice, posted, consumed).Count(c) == 1;
    }
  }
}
