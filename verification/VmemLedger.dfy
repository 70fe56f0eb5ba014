/** Conservation in a VMem arena over whole runs: every span's bytes are free, allocated, or lost
    to a free that could not be coalesced, and nothing else changes the balance. */
module VmemLedger {
  import opened Common
  import opened VmemSegments
  import opened VmemEdits

  // ---------------------------------------------------------------------------------
  // What the edits do to the contents of the queue
  // ---------------------------------------------------------------------------------

  lemma FilterAround(a: seq<Seg>, mid: seq<Seg>, b: seq<Seg>, p: Seg -> bool)
    ensures Filter(a + mid + b, p) == Filter(a, p) + Filter(mid, p) + Filter(b, p)
  {
    FilterConcat(a + mid, b, p);
    FilterConcat(a, mid, p);
  }

  lemma FilterSplit(s: Seg, addr: nat, size: nat, p: Seg -> bool)
    requires Holds(s, addr, size)
    ensures Filter(SplitOf(s, addr, size), p)
         == Filter(LeftRest(s, addr), p)
            + (if p(Seg(Allocated, addr, size)) then [Seg(Allocated, addr, size)] else [])
            + Filter(RightRest(s, addr, size), p)
  {
    FilterAround(LeftRest(s, addr), [Seg(Allocated, addr, size)], RightRest(s, addr, size), p);
    FilterOne(Seg(Allocated, addr, size), p);
  }

  lemma FilterRests(s: Seg, addr: nat, size: nat, p: Seg -> bool)
    requires Holds(s, addr, size)
    ensures Filter(LeftRest(s, addr), p)
         == if s.base < addr && p(Seg(Free, s.base, addr - s.base)) then LeftRest(s, addr) else []
    ensures Filter(RightRest(s, addr, size), p)
         == if addr + size < s.End() && p(RightRest(s, addr, size)[0]) then RightRest(s, addr, size) else []
  {
    if s.base < addr { FilterOne(LeftRest(s, addr)[0], p); }
    if addr + size < s.End() { FilterOne(RightRest(s, addr, size)[0], p); }
  }

  lemma FilterTwo(s: Seg, t: Seg, p: Seg -> bool)
    ensures Filter([s, t], p) == (if p(s) then [s] else []) + (if p(t) then [t] else [])
  {
    assert [s, t] == [s] + [t];
    FilterConcat([s], [t], p);
    FilterOne(s, p);
    FilterOne(t, p);
  }

  /** A new span is all free: it adds no allocation. */
  lemma AddAllocatesNothing(q: seq<Seg>, typ: SegType, base: nat, size: nat)
    requires typ.Span? || typ.SpanImported?
    ensures Allocations(AfterAdd(q, typ, base, size)) == Allocations(q)
  {
    hide Filter, InsertPoint;
    var p, f := InsertPoint(q, base), IsOf(Allocated);
    FilterAround(q[..p], [Seg(typ, base, size), Seg(Free, base, size)], q[p..], f);
    FilterTwo(Seg(typ, base, size), Seg(Free, base, size), f);
    assert q == q[..p] + q[p..];
    FilterConcat(q[..p], q[p..], f);
  }

  /** A split adds exactly the requested range to the live allocations. */
  lemma SplitAllocatesOne(a: seq<Seg>, s: Seg, b: seq<Seg>, addr: nat, size: nat)
    requires Holds(s, addr, size)
    ensures Allocations(AfterSplit(a, s, b, addr, size))
         == Allocations(a + [s] + b) + multiset{Seg(Allocated, addr, size)}
  {
    var f := IsOf(Allocated);
    FilterAround(a, SplitOf(s, addr, size), b, f);
    FilterAround(a, [s], b, f);
    FilterSplit(s, addr, size, f);
    FilterRests(s, addr, size, f);
    FilterOne(s, f);
  }

  /** Coalescing touches free neighbours only. */
  lemma NeighboursHoldNothing(a: seq<Seg>, b: seq<Seg>)
    requires Anchored(a)
    ensures Filter(Before(a), IsOf(Allocated)) == Filter(a, IsOf(Allocated))
    ensures Filter(Beyond(b), IsOf(Allocated)) == Filter(b, IsOf(Allocated))
  {
    var f := IsOf(Allocated);
    if JoinsLeft(a) {
      assert a == Before(a) + [Last(a)];
      FilterConcat(Before(a), [Last(a)], f);
      FilterOne(Last(a), f);
    }
    if JoinsRight(b) {
      assert b == [b[0]] + Beyond(b);
    }
  }

  lemma DropLast(a: seq<Seg>)
    requires a != [] && !Last(a).typ.Allocated?
    ensures Filter(a[..|a| - 1], IsOf(Allocated)) == Filter(a, IsOf(Allocated))
  {
    assert a == a[..|a| - 1] + [Last(a)];
    FilterConcat(a[..|a| - 1], [Last(a)], IsOf(Allocated));
    FilterOne(Last(a), IsOf(Allocated));
  }

  lemma FreeContents(a: seq<Seg>, s: Seg, b: seq<Seg>)
    requires s.typ.Allocated? && Anchored(a)
    ensures Filter(AfterFree(a, s, b).queue, IsOf(Allocated)) == Filter(a, IsOf(Allocated)) + Filter(b, IsOf(Allocated))
  {
    var r := AfterFree(a, s, b);
    NeighboursHoldNothing(a, b);
    if r.released.Some? {
      DropLast(Before(a));
      FilterConcat(Before(a)[..|Before(a)| - 1], Beyond(b), IsOf(Allocated));
    } else if r.dropped {
      FilterConcat(a, b, IsOf(Allocated));
    } else {
      FreeBetween(Before(a), Coalesced(a, s, b), Beyond(b));
    }
  }

  lemma FreeBetween(a: seq<Seg>, t: Seg, b: seq<Seg>)
    requires t.typ.Free?
    ensures Filter(a + [t] + b, IsOf(Allocated)) == Filter(a, IsOf(Allocated)) + Filter(b, IsOf(Allocated))
  {
    FilterAround(a, [t], b, IsOf(Allocated));
    FilterOne(t, IsOf(Allocated));
  }

  /** A free removes exactly the freed range from the live allocations. */
  lemma FreeReleasesOne(a: seq<Seg>, s: Seg, b: seq<Seg>)
    requires s.typ.Allocated? && Anchored(a)
    ensures Allocations(AfterFree(a, s, b).queue) + multiset{s} == Allocations(a + [s] + b)
  {
    FreeContents(a, s, b);
    FilterAround(a, [s], b, IsOf(Allocated));
    FilterOne(s, IsOf(Allocated));
    var x, y := Filter(a, IsOf(Allocated)), Filter(b, IsOf(Allocated));
    assert multiset(x + [s] + y) == multiset(x + y) + multiset{s};
  }

  // ---------------------------------------------------------------------------------
  // Bytes held by a span
  // ---------------------------------------------------------------------------------

  /** Free and allocated bytes of the span based at `x`. */
  function Used(q: seq<Seg>, cur: nat, x: nat): nat {
    Held(q, cur, x, Free) + Held(q, cur, x, Allocated)
  }

  lemma UsedAround(a: seq<Seg>, mid: seq<Seg>, b: seq<Seg>, x: nat)
    ensures Used(a + mid + b, 0, x)
         == Used(a, 0, x) + Used(mid, Governor(a, 0), x) + Used(b, Governor(mid, Governor(a, 0)), x)
  {
    HeldConcat(a + mid, b, 0, x, Free);
    HeldConcat(a + mid, b, 0, x, Allocated);
    HeldConcat(a, mid, 0, x, Free);
    HeldConcat(a, mid, 0, x, Allocated);
  }

  /** Total bytes of a stretch without span markers. */
  function Bytes(q: seq<Seg>): nat {
    if q == [] then 0 else q[0].size + Bytes(q[1..])
  }

  predicate Plain(q: seq<Seg>) { forall s | s in q :: !s.IsSpan() }

  lemma {:induction false} PlainStretch(q: seq<Seg>, cur: nat, x: nat)
    requires Plain(q)
    ensures Governor(q, cur) == cur
    ensures Used(q, cur, x) == if cur == x then Bytes(q) else 0
  {
    if q != [] {
      assert q == [q[0]] + q[1..];
      PlainStretch(q[1..], cur, x);
    }
  }

  /** Rewriting a plain stretch changes the balance of its own span only, by the byte difference. */
  lemma PlainRewrite(a: seq<Seg>, old_: seq<Seg>, new_: seq<Seg>, b: seq<Seg>, x: nat)
    requires Plain(old_) && Plain(new_)
    ensures Used(a + new_ + b, 0, x)
         == Used(a + old_ + b, 0, x) + (if Governor(a, 0) == x then Bytes(new_) as int - Bytes(old_) else 0)
  {
    UsedAround(a, old_, b, x);
    UsedAround(a, new_, b, x);
    PlainStretch(old_, Governor(a, 0), x);
    PlainStretch(new_, Governor(a, 0), x);
  }

  lemma SplitBytes(s: Seg, addr: nat, size: nat)
    requires Holds(s, addr, size)
    ensures Plain(SplitOf(s, addr, size)) && Bytes(SplitOf(s, addr, size)) == s.size == Bytes([s])
  {
    var l, m, r := LeftRest(s, addr), Seg(Allocated, addr, size), RightRest(s, addr, size);
    BytesConcat(l + [m], r);
    BytesConcat(l, [m]);
    BytesOne(m);
    BytesOne(s);
    if l != [] { BytesOne(l[0]); }
    if r != [] { BytesOne(r[0]); }
  }

  lemma {:induction false} BytesConcat(a: seq<Seg>, b: seq<Seg>)
    ensures Bytes(a + b) == Bytes(a) + Bytes(b)
  {
    if a == [] {
      assert a + b == b;
    } else {
      assert (a + b)[1..] == a[1..] + b;
      BytesConcat(a[1..], b);
    }
  }

  lemma BytesOne(s: Seg)
    ensures Bytes([s]) == s.size
  {
    assert [s][1..] == [];
  }

  /** No byte is charged to a base that no span in sight has. */
  lemma {:induction false} NoSpanNoBytes(q: seq<Seg>, cur: nat, x: nat)
    requires cur != x && forall s | s in q :: s.IsSpan() ==> s.base != x
    ensures Used(q, cur, x) == 0 && Governor(q, cur) != x
  {
    if q != [] {
      assert q == [q[0]] + q[1..];
      NoSpanNoBytes(q[1..], if q[0].IsSpan() then q[0].base else cur, x);
    }
  }

  // ---------------------------------------------------------------------------------
  // Runs
  // ---------------------------------------------------------------------------------

  /** A queue together with the bytes each live span has lost so far. */
  datatype Book = Book(q: seq<Seg>, lost: map<nat, nat>)

  datatype ArenaOp =
    | AddSpan(typ: SegType, base: nat, size: nat)
    | AllocFrom(i: nat, addr: nat, size: nat)
    | FreeSegment(i: nat)

  predicate Enabled(q: seq<Seg>, op: ArenaOp) {
    match op
    case AddSpan(typ, base, size) => CanAdd(q, typ, base, size)
    case AllocFrom(i, addr, size) => i < |q| && Holds(q[i], addr, size)
    case FreeSegment(i) => i < |q| && q[i].typ.Allocated? && Anchored(q[..i])
  }

  /** One operation. The lost bytes of a span change in one case only: a free that joins no free
      neighbour and does not give its span back. */
  function Step(k: Book, op: ArenaOp): Book
    requires Enabled(k.q, op)
  {
    match op
    case AddSpan(typ, base, size) => Book(AfterAdd(k.q, typ, base, size), k.lost[base := 0])
    case AllocFrom(i, addr, size) => Book(AfterSplit(k.q[..i], k.q[i], k.q[i + 1..], addr, size), k.lost)
    case FreeSegment(i) =>
      var r := AfterFree(k.q[..i], k.q[i], k.q[i + 1..]);
      var x := Governor(k.q[..i], 0);
      Book(r.queue,
           if r.released.Some? then k.lost - {r.released.value.base}
           else if r.dropped then k.lost[x := (if x in k.lost then k.lost[x] else 0) + k.q[i].size]
           else k.lost)
  }

  function Run(k: Book, ops: seq<ArenaOp>): Book
    decreases |ops|
  {
    if ops == [] then k
    else Run(if Enabled(k.q, ops[0]) then Step(k, ops[0]) else k, ops[1..])
  }

  /** Span bases are unique. */
  lemma SpanBasesDiffer(q: seq<Seg>, i: nat, j: nat)
    requires Chain(q, ORIGIN) && i < |q| && j < |q| && q[i].IsSpan() && q[j].IsSpan() && q[i].base == q[j].base
    ensures i == j
  {
    if i < j { SegmentsInOrder(q, i, j); }
    if j < i { SegmentsInOrder(q, j, i); }
  }

  lemma {:induction false} GovernorIsSpan(q: seq<Seg>, cur: nat) returns (m: nat)
    requires exists s :: s in q && s.IsSpan()
    ensures m < |q| && q[m].IsSpan() && Governor(q, cur) == q[m].base
  {
    assert q == [q[0]] + q[1..];
    if exists s :: s in q[1..] && s.IsSpan() {
      m := GovernorIsSpan(q[1..], if q[0].IsSpan() then q[0].base else cur);
      m := m + 1;
    } else {
      m := 0;
      PlainStretch(q[1..], q[0].base, 0);
    }
  }

  /** A new span is charged its whole size, as free bytes; no other charge moves. */
  lemma AddCharges(q: seq<Seg>, a: seq<Seg>, mid: seq<Seg>, b: seq<Seg>, base: nat, size: nat, x: nat)
    requires Chain(q, ORIGIN) && q == a + b && 0 < size && (b == [] || b[0].IsSpan())
    requires forall s | s in q :: s.IsSpan() ==> !s.Overlaps(base, base + size)
    requires |mid| == 2 && mid[0].IsSpan() && mid[0].base == base && mid[1] == Seg(Free, base, size)
    ensures Used(a + mid + b, 0, x) == if x == base then size else Used(q, 0, x)
  {
    assert mid[1..] == [mid[1]];
    PlainStretch([mid[1]], base, x);
    BytesOne(mid[1]);
    assert Governor(mid, Governor(a, 0)) == base;
    assert Used(mid, Governor(a, 0), x) == if x == base then size else 0;
    UsedAround(a, mid, b, x);
    HeldConcat(a, b, 0, x, Free);
    HeldConcat(a, b, 0, x, Allocated);
    assert Used(b, base, x) == Used(b, Governor(a, 0), x);
    if x == base {
      FirstIsSpan(q);
      if a != [] { assert a[0] == q[0]; }
      NoSpanAt(q, a, b, base, size);
    }
  }

  ghost predicate Settled(k: Book, s: Seg) {
    s.base in k.lost && Used(k.q, 0, s.base) + k.lost[s.base] == s.size
  }

  ghost predicate HasSpanAt(q: seq<Seg>, x: nat) { exists s :: s in q && s.IsSpan() && s.base == x }

  ghost predicate Balanced(k: Book) {
    && Chain(k.q, ORIGIN)
    && (forall s | s in k.q && s.IsSpan() :: Settled(k, s))
    && (forall x | x in k.lost :: HasSpanAt(k.q, x))
  }

  /** The spans of `q` other than those based at `but` are spans of `r`. */
  lemma SpansCarryOver(q: seq<Seg>, r: seq<Seg>, x: nat)
    requires HasSpanAt(q, x) && forall s | s in q && s.IsSpan() && s.base == x :: s in r
    ensures HasSpanAt(r, x)
  {}

  lemma AddBalanced(k: Book, typ: SegType, base: nat, size: nat)
    requires Balanced(k) && CanAdd(k.q, typ, base, size)
    ensures Balanced(Step(k, AddSpan(typ, base, size)))
  {
    var p := InsertPoint(k.q, base);
    assert k.q == k.q[..p] + k.q[p..];
    AddKeepsOrder(k.q, typ, base, size);
    InsertBalanced(k, k.q[..p], Seg(typ, base, size), k.q[p..], Step(k, AddSpan(typ, base, size)));
  }

  /** Putting a fresh, wholly free span between two spans. */
  lemma InsertBalanced(k: Book, a: seq<Seg>, span: Seg, b: seq<Seg>, k': Book)
    requires Balanced(k) && k.q == a + b && span.IsSpan() && 0 < span.size && (b == [] || b[0].IsSpan())
    requires forall s | s in k.q :: s.IsSpan() ==> !s.Overlaps(span.base, span.End())
    requires k' == Book(a + [span, Seg(Free, span.base, span.size)] + b, k.lost[span.base := 0])
    requires Chain(k'.q, ORIGIN)
    ensures Balanced(k')
  {
    var mid := [span, Seg(Free, span.base, span.size)];
    forall s: Seg | s in k'.q && s.IsSpan() ensures Settled(k', s) {
      AddCharges(k.q, a, mid, b, span.base, span.size, s.base);
      if s != span {
        SpanOfEither(a, mid, b, s);
        SegmentIsSized(k.q, s);
        assert s.base != span.base;
        assert Settled(k, s);
      }
    }
    forall x: nat | x in k'.lost ensures HasSpanAt(k'.q, x) {
      if x == span.base {
        assert mid[0] in k'.q;
      } else {
        SpansCarryOver(k.q, k'.q, x);
      }
    }
  }

  lemma SpanOfEither(a: seq<Seg>, mid: seq<Seg>, b: seq<Seg>, s: Seg)
    requires s in a + mid + b && s !in mid
    ensures s in a + b && (s in a || s in b)
  {}

  lemma SegmentIsSized(q: seq<Seg>, s: Seg)
    requires Chain(q, ORIGIN) && s in q
    ensures 0 < s.size
  {
    var i :| 0 <= i < |q| && q[i] == s;
    SegmentSizes(q, i);
  }

  lemma FirstIsSpan(q: seq<Seg>)
    requires Chain(q, ORIGIN)
    ensures q == [] || q[0].IsSpan()
  {}

  lemma NoSpanAt(q: seq<Seg>, a: seq<Seg>, b: seq<Seg>, base: nat, size: nat)
    requires Chain(q, ORIGIN) && q == a + b && 0 < size && (a != [] ==> a[0].IsSpan()) && (b == [] || b[0].IsSpan())
    requires forall s | s in q :: s.IsSpan() ==> !s.Overlaps(base, base + size)
    ensures Used(a, 0, base) == 0 && Used(b, base, base) == 0
  {
    forall s | s in q && s.IsSpan() ensures s.base != base { SegmentIsSized(q, s); }
    if a != [] {
      assert a == [a[0]] + a[1..] && a[0] in q;
      NoSpanNoBytes(a[1..], a[0].base, base);
    }
    if b != [] {
      assert b == [b[0]] + b[1..] && b[0] in q;
      NoSpanNoBytes(b[1..], b[0].base, base);
    }
  }

  /** A rewrite of a plain stretch that adds `gain` bytes to its span keeps the book balanced when
      the span's lost bytes shrink by as much. */
  lemma RewriteBalanced(k: Book, a: seq<Seg>, old_: seq<Seg>, new_: seq<Seg>, b: seq<Seg>, k': Book)
    requires Balanced(k) && k.q == a + old_ + b && k'.q == a + new_ + b && Chain(k'.q, ORIGIN)
    requires Plain(old_) && Plain(new_) && Governor(a, 0) in k.lost
    requires k'.lost.Keys == k.lost.Keys
    requires forall x | x in k.lost :: k'.lost[x] as int
                                    == k.lost[x] - if x == Governor(a, 0) then Bytes(new_) as int - Bytes(old_) else 0
    ensures Balanced(k')
  {
    forall s: Seg | s in k'.q && s.IsSpan() ensures Settled(k', s) {
      assert s in a || s in b;
      assert s in k.q;
      assert Settled(k, s);
      PlainRewrite(a, old_, new_, b, s.base);
    }
    forall x: nat | x in k'.lost ensures HasSpanAt(k'.q, x) {
      forall s: Seg | s in k.q && s.IsSpan() && s.base == x ensures s in k'.q {
        assert s in a || s in b;
      }
      SpansCarryOver(k.q, k'.q, x);
    }
  }

  lemma GovernorInBook(k: Book, a: seq<Seg>, s: Seg, b: seq<Seg>)
    requires Balanced(k) && k.q == a + [s] + b && !s.IsSpan()
    ensures Governor(a, 0) in k.lost
  {
    var m := InsideSpan(k.q, |a|);
    assert a[m] == k.q[m] && a[m] in a;
    var n := GovernorIsSpan(a, 0);
    assert a[n] in k.q;
  }

  lemma AllocBalanced(k: Book, i: nat, addr: nat, size: nat)
    requires Balanced(k) && i < |k.q| && Holds(k.q[i], addr, size)
    ensures Balanced(Step(k, AllocFrom(i, addr, size)))
  {
    var a, s, b := k.q[..i], k.q[i], k.q[i + 1..];
    assert k.q == a + [s] + b;
    SplitKeepsOrder(a, s, b, addr, size);
    SplitBytes(s, addr, size);
    GovernorInBook(k, a, s, b);
    RewriteBalanced(k, a, [s], SplitOf(s, addr, size), b, Step(k, AllocFrom(i, addr, size)));
  }

  lemma CoalescedBytes(a: seq<Seg>, s: Seg, b: seq<Seg>)
    requires Anchored(a) && s.typ.Allocated?
    ensures var old_ := a[|Before(a)|..] + [s] + b[..|b| - |Beyond(b)|];
            Plain(old_) && Bytes(old_) == Coalesced(a, s, b).size == Bytes([Coalesced(a, s, b)])
  {
    var l, r := a[|Before(a)|..], b[..|b| - |Beyond(b)|];
    if JoinsLeft(a) { assert l == [Last(a)]; BytesOne(Last(a)); } else { assert l == []; }
    if JoinsRight(b) { assert r == [b[0]]; BytesOne(b[0]); } else { assert r == []; }
    BytesConcat(l + [s], r);
    BytesConcat(l, [s]);
    BytesOne(s);
    BytesOne(Coalesced(a, s, b));
  }

  /** Removing the left neighbour does not change whose span this is. */
  lemma SameGovernor(a: seq<Seg>)
    requires Anchored(a)
    ensures Governor(Before(a), 0) == Governor(a, 0)
  {
    if JoinsLeft(a) {
      assert a == Before(a) + [Last(a)];
      HeldConcat(Before(a), [Last(a)], 0, 0, Free);
      PlainStretch([Last(a)], Governor(Before(a), 0), 0);
    }
  }

  lemma FreeBalanced(k: Book, i: nat)
    requires Balanced(k) && Enabled(k.q, FreeSegment(i))
    ensures Balanced(Step(k, FreeSegment(i)))
  {
    hide Held, Chain, Fits, Advance, Used;
    var a, s, b := k.q[..i], k.q[i], k.q[i + 1..];
    assert k.q == a + [s] + b;
    FreeKeepsOrder(a, s, b);
    GovernorInBook(k, a, s, b);
    var k' := Step(k, FreeSegment(i));
    if AfterFree(a, s, b).released.Some? {
      ReleaseBalanced(k, a, s, b, k');
    } else if JoinsLeft(a) || JoinsRight(b) {
      MergeBalanced(k, a, s, b, k');
    } else {
      assert k'.q == a + [] + b;
      BytesOne(s);
      RewriteBalanced(k, a, [s], [], b, k');
    }
  }

  lemma MergeBalanced(k: Book, a: seq<Seg>, s: Seg, b: seq<Seg>, k': Book)
    requires Balanced(k) && k.q == a + [s] + b && s.typ.Allocated? && Anchored(a) && Governor(a, 0) in k.lost
    requires AfterFree(a, s, b).released.None? && (JoinsLeft(a) || JoinsRight(b))
    requires k' == Book(AfterFree(a, s, b).queue, k.lost) && Chain(k'.q, ORIGIN)
    ensures Balanced(k')
  {
    CoalescedBytes(a, s, b);
    FreeRegion(a, s, b);
    SameGovernor(a);
    RewriteBalanced(k, Before(a), a[|Before(a)|..] + [s] + b[..|b| - |Beyond(b)|],
                    [Coalesced(a, s, b)], Beyond(b), k');
  }

  /** A free that gives its span back takes out the span's marker and all it governs. */
  lemma ReleaseShape(a: seq<Seg>, s: Seg, b: seq<Seg>) returns (a2: seq<Seg>, span: Seg, held: seq<Seg>, b1: seq<Seg>)
    requires Chain(a + [s] + b, ORIGIN) && s.typ.Allocated? && Anchored(a) && AfterFree(a, s, b).released.Some?
    ensures AfterFree(a, s, b).queue == a2 + b1 && a + [s] + b == a2 + [span] + held + b1
    ensures AfterFree(a, s, b).released.value.base == span.base && span.IsSpan()
    ensures Plain(held) && (b1 == [] || b1[0].IsSpan()) && Chain(a2 + b1, ORIGIN)
  {
    hide Held, Fits, Advance, Used, Settled, Chain, Bytes, Coalesced, Governor;
    ReleasedSpanIsBare(a, s, b);
    FreeRegion(a, s, b);
    CoalescedBytes(a, s, b);
    var a1 := Before(a);
    b1 := Beyond(b);
    a2, span, held := a1[..|a1| - 1], Last(a1), a[|a1|..] + [s] + b[..|b| - |b1|];
    assert a1 == a2 + [span];
    assert a + [s] + b == a1 + held + b1;
  }

  lemma ReleaseBalanced(k: Book, a: seq<Seg>, s: Seg, b: seq<Seg>, k': Book)
    requires Balanced(k) && k.q == a + [s] + b && s.typ.Allocated? && Anchored(a)
    requires AfterFree(a, s, b).released.Some?
    requires k' == Book(AfterFree(a, s, b).queue, k.lost - {AfterFree(a, s, b).released.value.base})
    ensures Balanced(k')
  {
    hide Settled, Chain, AfterFree;
    var a2, span, held, b1 := ReleaseShape(a, s, b);
    DropSpanBalanced(k, a2, span, held, b1, k');
  }

  /** Taking out a span marker together with everything it governs. */
  lemma DropSpanBalanced(k: Book, a: seq<Seg>, span: Seg, held: seq<Seg>, b: seq<Seg>, k': Book)
    requires Balanced(k) && k.q == a + [span] + held + b && span.IsSpan() && Plain(held) && (b == [] || b[0].IsSpan())
    requires k' == Book(a + b, k.lost - {span.base}) && Chain(k'.q, ORIGIN)
    ensures Balanced(k')
  {
    assert k.q == a + [span] + (held + b);
    forall u: Seg | u in k'.q && u.IsSpan() ensures Settled(k', u) {
      SpanOfEither(a, [], b, u);
      OtherSpan(k.q, a, span, held + b, u);
      ReleaseCharges(a, span, held, b, u.base);
      assert Settled(k, u);
    }
    forall x: nat | x in k'.lost ensures HasSpanAt(k'.q, x) {
      forall u: Seg | u in k.q && u.IsSpan() && u.base == x ensures u in k'.q {
        assert u in a || u == span || u in held || u in b;
      }
      SpansCarryOver(k.q, k'.q, x);
    }
  }

  lemma ReleaseCharges(a: seq<Seg>, span: Seg, held: seq<Seg>, b: seq<Seg>, x: nat)
    requires span.IsSpan() && Plain(held) && (b == [] || b[0].IsSpan()) && x != span.base
    ensures Used(a + [span] + (held + b), 0, x) == Used(a + b, 0, x)
  {
    assert a + [span] + (held + b) == a + ([span] + held) + b;
    UsedAround(a, [span] + held, b, x);
    assert ([span] + held)[1..] == held;
    PlainStretch(held, span.base, x);
    HeldConcat(a, b, 0, x, Free);
    HeldConcat(a, b, 0, x, Allocated);
  }

  lemma OtherSpan(q: seq<Seg>, a: seq<Seg>, span: Seg, b: seq<Seg>, u: Seg)
    requires Chain(q, ORIGIN) && q == a + [span] + b && span.IsSpan() && u.IsSpan() && (u in a || u in b)
    ensures u.base != span.base
  {
    var j :| 0 <= j < |q| && q[j] == u && j != |a| by {
      if u in a {
        var n :| 0 <= n < |a| && a[n] == u;
        assert q[n] == u;
      } else {
        var n :| 0 <= n < |b| && b[n] == u;
        assert q[|a| + 1 + n] == u;
      }
    }
    if u.base == span.base {
      SpanBasesDiffer(q, j, |a|);
    }
  }

  lemma GovernorAt(q: seq<Seg>, m: nat, i: nat)
    requires m < i <= |q| && q[m].IsSpan() && forall j | m < j < i :: !q[j].IsSpan()
    ensures Governor(q[..i], 0) == q[m].base
  {
    var a, b := q[..m], q[m + 1..i];
    assert q[..i] == (a + [q[m]]) + b;
    HeldConcat(a + [q[m]], b, 0, 0, Free);
    HeldConcat(a, [q[m]], 0, 0, Free);
    PlainStretch(b, q[m].base, 0);
    assert [q[m]][1..] == [];
  }

  /** A span loses bytes, the freed ones, if and only if the freed segment has no free neighbour and its
      span is not given back; `m` is the marker of that span. */
  lemma LostIff(k: Book, i: nat, m: nat)
    requires Balanced(k) && m < i < |k.q| && k.q[i].typ.Allocated?
    requires k.q[m].IsSpan() && forall j | m < j < i :: !k.q[j].IsSpan()
    ensures Enabled(k.q, FreeSegment(i)) && k.q[m].base in k.lost
    ensures var x, lost := k.q[m].base, Step(k, FreeSegment(i)).lost;
            && (EmptiesImport(k.q, i) ==> lost == k.lost - {x})
            && (!EmptiesImport(k.q, i) && (FreeAt(k.q, i - 1) || FreeAt(k.q, i + 1)) ==> lost == k.lost)
            && (!EmptiesImport(k.q, i) && !FreeAt(k.q, i - 1) && !FreeAt(k.q, i + 1) ==>
                  lost == k.lost[x := k.lost[x] + k.q[i].size])
  {
    hide Used, Chain, AfterFree, StretchSize;
    assert Settled(k, k.q[m]);
    FreeOutcome(k.q, i);
    GovernorAt(k.q, m, i);
    if EmptiesImport(k.q, i) {
      assert StretchLo(k.q, i) - 1 == m;
    }
  }

  /** Conservation over every run: whatever is added, allocated and freed in whatever order, each
      live span's bytes are exactly its free bytes, its allocated bytes and the bytes it lost to
      frees that joined nothing. */
  lemma {:induction false} RunBalanced(k: Book, ops: seq<ArenaOp>)
    requires Balanced(k)
    ensures Balanced(Run(k, ops))
    decreases |ops|
  {
    if ops != [] {
      if Enabled(k.q, ops[0]) {
        match ops[0] {
          case AddSpan(typ, base, size) => AddBalanced(k, typ, base, size);
          case AllocFrom(i, addr, size) => AllocBalanced(k, i, addr, size);
          case FreeSegment(i) => FreeBalanced(k, i);
        }
      }
      RunBalanced(if Enabled(k.q, ops[0]) then Step(k, ops[0]) else k, ops[1..]);
    }
  }

  /** From an empty arena, at every point of every run: two live allocations never share an
      address, and every live allocation lies inside a live span. */
  lemma AllocationsNeverOverlap(ops: seq<ArenaOp>, i: nat, j: nat)
    requires var q := Run(Book([], map[]), ops).q; i < j < |q| && q[i].typ.Allocated? && q[j].typ.Allocated?
    ensures var q := Run(Book([], map[]), ops).q;
            && q[i].End() <= q[j].base
            && exists m :: 0 <= m < i && q[m].IsSpan() && q[m].base <= q[i].base && q[i].End() <= q[m].End()
  {
    RunBalanced(Book([], map[]), ops);
    var q := Run(Book([], map[]), ops).q;
    SegmentsInOrder(q, i, j);
    var m := InsideSpan(q, i);
  }
}
