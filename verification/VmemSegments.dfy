/** The segment queue of a VMem arena: its order, its contents and what the three queue
    edits (add a span, split a free segment, free an allocation) do to it. */
module VmemSegments {

  const ADDR_LIMIT: nat := 0x1_0000_0000_0000_0000

  datatype SegType = Free | Allocated | Span | SpanImported

  /** A segment tag. `base` and `size` are bytes. */
  datatype Seg = Seg(typ: SegType, base: nat, size: nat) {
    function End(): nat { base + size }

    predicate IsSpan() { typ.Span? || typ.SpanImported? }

    predicate Overlaps(lo: nat, hi: nat) { base < hi && lo < End() }
  }

  // ---------------------------------------------------------------------------------
  // Order: reading the queue from the left
  // ---------------------------------------------------------------------------------

  /** Where a left-to-right reading of the queue stands: the next ordinary segment lies at or
      after `lo` and inside the current span, which ends at `hi`. */
  datatype Cursor = Cursor(lo: nat, hi: nat)

  const ORIGIN := Cursor(0, 0)

  predicate Fits(c: Cursor, s: Seg) {
    && 0 < s.size
    && s.End() < ADDR_LIMIT
    && if s.IsSpan() then c.hi <= s.base else c.lo <= s.base && s.End() <= c.hi
  }

  function Advance(c: Cursor, s: Seg): Cursor {
    if s.IsSpan() then Cursor(s.base, s.End()) else Cursor(s.End(), c.hi)
  }

  function After(q: seq<Seg>, c: Cursor): Cursor {
    if q == [] then c else After(q[1..], Advance(c, q[0]))
  }

  /** Spans are sorted and disjoint; the segments behind a span marker are sorted, disjoint and
      inside that span. */
  predicate Chain(q: seq<Seg>, c: Cursor) {
    q == [] || (Fits(c, q[0]) && Chain(q[1..], Advance(c, q[0])))
  }

  lemma {:induction false} ChainConcat(a: seq<Seg>, b: seq<Seg>, c: Cursor)
    ensures Chain(a + b, c) <==> Chain(a, c) && Chain(b, After(a, c))
    ensures After(a + b, c) == After(b, After(a, c))
  {
    if a == [] {
      assert a + b == b;
    } else {
      assert (a + b)[1..] == a[1..] + b;
      ChainConcat(a[1..], b, Advance(c, a[0]));
    }
  }

  /** A chain may also be read from a cursor that stands further left. */
  lemma {:induction false} ChainSlack(q: seq<Seg>, c: Cursor, d: Cursor)
    requires Chain(q, c) && d.lo <= c.lo && d.hi == c.hi
    ensures Chain(q, d)
    ensures After(q, d).lo <= After(q, c).lo && After(q, d).hi == After(q, c).hi
  {
    if q != [] {
      ChainSlack(q[1..], Advance(c, q[0]), Advance(d, q[0]));
    }
  }

  /** Replacing a stretch of the queue keeps the chain when the new stretch is a chain that reads
      no further right than the old one. */
  lemma ChainReplace(a: seq<Seg>, old_: seq<Seg>, new_: seq<Seg>, b: seq<Seg>, c: Cursor)
    requires Chain(a + old_ + b, c)
    requires Chain(new_, After(a, c))
    requires After(new_, After(a, c)).lo <= After(old_, After(a, c)).lo
    requires After(new_, After(a, c)).hi == After(old_, After(a, c)).hi
    ensures Chain(a + new_ + b, c)
  {
    ChainConcat(a + old_, b, c);
    ChainConcat(a, old_, c);
    ChainConcat(a + new_, b, c);
    ChainConcat(a, new_, c);
    ChainSlack(b, After(old_, After(a, c)), After(new_, After(a, c)));
  }

  /** Reading to the right never moves the cursor left. */
  lemma {:induction false} CursorGrows(q: seq<Seg>, c: Cursor)
    requires Chain(q, c) && c.lo <= c.hi
    ensures c.lo <= After(q, c).lo <= After(q, c).hi && c.hi <= After(q, c).hi
  {
    if q != [] {
      CursorGrows(q[1..], Advance(c, q[0]));
    }
  }

  /** What a chain says about the segment at index `i`. */
  lemma ChainAt(q: seq<Seg>, c: Cursor, i: nat)
    requires Chain(q, c) && i < |q|
    ensures Chain(q[..i], c) && Fits(After(q[..i], c), q[i])
    ensures After(q[..i + 1], c) == Advance(After(q[..i], c), q[i])
    ensures Chain(q[i + 1..], Advance(After(q[..i], c), q[i]))
  {
    assert q == q[..i] + q[i..];
    ChainConcat(q[..i], q[i..], c);
    assert q[..i + 1] == q[..i] + [q[i]];
    ChainConcat(q[..i], [q[i]], c);
    assert After([q[i]], After(q[..i], c)) == Advance(After(q[..i], c), q[i]);
    assert q[i..][1..] == q[i + 1..];
  }

  /** The order any two segments of an arena keep: ordinary segments never overlap, and a span
      marker lies behind everything that precedes it. */
  lemma SegmentsInOrder(q: seq<Seg>, i: nat, j: nat)
    requires Chain(q, ORIGIN) && i < j < |q|
    ensures q[j].IsSpan() || !q[i].IsSpan() ==> q[i].End() <= q[j].base
    ensures q[i].IsSpan() ==> q[i].base <= q[j].base
    ensures 0 < q[i].size && 0 < q[j].size && q[i].End() < ADDR_LIMIT && q[j].End() < ADDR_LIMIT
  {
    ChainAt(q, ORIGIN, i);
    ChainAt(q, ORIGIN, j);
    CursorGrows(q[..i], ORIGIN);
    var c := Advance(After(q[..i], ORIGIN), q[i]);
    assert q[..j] == q[..i + 1] + q[i + 1..j];
    ChainConcat(q[..i + 1], q[i + 1..j], ORIGIN);
    CursorGrows(q[i + 1..j], c);
  }

  /** Every ordinary segment lies inside the span whose marker precedes it. */
  lemma {:induction false} InsideSpan(q: seq<Seg>, i: nat) returns (m: nat)
    requires Chain(q, ORIGIN) && i < |q| && !q[i].IsSpan()
    ensures m < i && q[m].IsSpan() && (forall k | m < k <= i :: !q[k].IsSpan())
    ensures q[m].base <= q[i].base && q[i].End() <= q[m].End()
    ensures After(q[..i], ORIGIN).hi == q[m].End()
  {
    ChainAt(q, ORIGIN, i);
    assert q[..0] == [];
    m := i;
    while m != 0 && !q[m].IsSpan()
      invariant m <= i
      invariant forall k | m < k <= i :: !q[k].IsSpan()
      invariant q[m].IsSpan() ==> After(q[..i], ORIGIN).hi == q[m].End()
      invariant !q[m].IsSpan() ==> After(q[..i], ORIGIN).hi == After(q[..m], ORIGIN).hi
    {
      ChainAt(q, ORIGIN, m - 1);
      m := m - 1;
    }
    assert q[m].IsSpan();
    SegmentsInOrder(q, m, i);
  }

  // ---------------------------------------------------------------------------------
  // Contents
  // ---------------------------------------------------------------------------------

  function Filter(q: seq<Seg>, p: Seg -> bool): seq<Seg> {
    if q == [] then [] else (if p(q[0]) then [q[0]] else []) + Filter(q[1..], p)
  }

  lemma {:induction false} FilterConcat(a: seq<Seg>, b: seq<Seg>, p: Seg -> bool)
    ensures Filter(a + b, p) == Filter(a, p) + Filter(b, p)
  {
    if a == [] {
      assert a + b == b;
    } else {
      assert (a + b)[0] == a[0] && (a + b)[1..] == a[1..] + b;
      FilterConcat(a[1..], b, p);
      var x, rest := a[0], Filter(a[1..], p);
      assert [x] + (rest + Filter(b, p)) == [x] + rest + Filter(b, p);
    }
  }

  lemma FilterOne(s: Seg, p: Seg -> bool)
    ensures Filter([s], p) == if p(s) then [s] else []
  {
    assert [s][1..] == [];
  }

  lemma {:induction false} FilterMember(q: seq<Seg>, p: Seg -> bool, s: Seg)
    ensures s in Filter(q, p) <==> s in q && p(s)
  {
    if q != [] {
      FilterMember(q[1..], p, s);
      assert q == [q[0]] + q[1..];
    }
  }

  function IsFreeOn(k: nat): Seg -> bool {
    (s: Seg) => s.typ.Free? && FreelistIndex(s.size) == k
  }

  function IsAllocatedOn(hash: nat -> nat, h: nat): Seg -> bool {
    (s: Seg) => s.typ.Allocated? && Bucket(hash, s.base) == h
  }

  function IsOf(t: SegType): Seg -> bool { (s: Seg) => s.typ == t }

  function IsMarker(): Seg -> bool { (s: Seg) => s.IsSpan() }

  /** The live allocations of an arena. */
  function Allocations(q: seq<Seg>): multiset<Seg> { multiset(Filter(q, IsOf(Allocated))) }

  const FREELISTS: nat := 64
  const BUCKETS: nat := 16

  /** floor(log2(size)), the source's 64 - clz(size) - 1. */
  function FreelistIndex(size: nat): (k: nat)
  {
    if size <= 1 then 0 else 1 + FreelistIndex(size / 2)
  }

  function Bucket(hash: nat -> nat, addr: nat): nat { hash(addr) % BUCKETS }

  function Pow2(k: nat): nat { if k == 0 then 1 else 2 * Pow2(k - 1) }

  lemma {:induction false} FreelistBounds(size: nat)
    requires 0 < size
    ensures Pow2(FreelistIndex(size)) <= size < Pow2(FreelistIndex(size) + 1)
  {
    if 1 < size {
      FreelistBounds(size / 2);
    }
  }

  lemma {:induction false} FreelistMonotone(s: nat, t: nat)
    requires s <= t
    ensures FreelistIndex(s) <= FreelistIndex(t)
  {
    if 1 < s {
      FreelistMonotone(s / 2, t / 2);
    }
  }

  lemma {:induction false} Pow2Sum(j: nat, k: nat)
    ensures Pow2(j + k) == Pow2(j) * Pow2(k)
  {
    if j != 0 {
      Pow2Sum(j - 1, k);
      assert Pow2(j + k) == 2 * (Pow2(j - 1) * Pow2(k)) == Pow2(j) * Pow2(k);
    }
  }

  /** Every size the address width allows has a freelist. */
  lemma FreelistInRange(size: nat)
    requires 0 < size < ADDR_LIMIT
    ensures FreelistIndex(size) < FREELISTS
  {
    FreelistBounds(size);
    assert Pow2(64) == ADDR_LIMIT by {
      assert Pow2(8) == 0x100 && Pow2(7) == 0x80;
      Pow2Sum(8, 8);
      Pow2Sum(16, 16);
      Pow2Sum(32, 32);
    }
    if FREELISTS <= FreelistIndex(size) {
      Pow2Sum(64, FreelistIndex(size) - 64);
    }
  }

  // ---------------------------------------------------------------------------------
  // Bytes held by one span
  // ---------------------------------------------------------------------------------

  /** Base of the span that governs what follows `q`. */
  function Governor(q: seq<Seg>, cur: nat): nat {
    if q == [] then cur else Governor(q[1..], if q[0].IsSpan() then q[0].base else cur)
  }

  /** Bytes of type `t` held by the span based at `x`. */
  function Held(q: seq<Seg>, cur: nat, x: nat, t: SegType): nat {
    if q == [] then 0
    else if q[0].IsSpan() then Held(q[1..], q[0].base, x, t)
    else (if cur == x && q[0].typ == t then q[0].size else 0) + Held(q[1..], cur, x, t)
  }

  lemma {:induction false} HeldConcat(a: seq<Seg>, b: seq<Seg>, cur: nat, x: nat, t: SegType)
    ensures Governor(a + b, cur) == Governor(b, Governor(a, cur))
    ensures Held(a + b, cur, x, t) == Held(a, cur, x, t) + Held(b, Governor(a, cur), x, t)
  {
    if a == [] {
      assert a + b == b;
    } else {
      assert (a + b)[1..] == a[1..] + b;
      HeldConcat(a[1..], b, if a[0].IsSpan() then a[0].base else cur, x, t);
    }
  }
}
