/** The three edits a VMem arena makes to its segment queue, as functions of the queue, and what
    each one keeps: order, the allocated set, and the bytes each span accounts for. */
module VmemEdits {
  import opened Common
  import opened VmemSegments

  // ---------------------------------------------------------------------------------
  // Adding a span
  // ---------------------------------------------------------------------------------

  /** The queue position of the first span marker at or after `base`. */
  function InsertPoint(q: seq<Seg>, base: nat): (p: nat)
    ensures p <= |q| && (p < |q| ==> q[p].IsSpan() && base <= q[p].base)
    ensures forall i | 0 <= i < p :: q[i].IsSpan() ==> q[i].base < base
  {
    if q == [] || (q[0].IsSpan() && base <= q[0].base) then 0 else 1 + InsertPoint(q[1..], base)
  }

  function AfterAdd(q: seq<Seg>, typ: SegType, base: nat, size: nat): seq<Seg> {
    var p := InsertPoint(q, base);
    q[..p] + [Seg(typ, base, size), Seg(Free, base, size)] + q[p..]
  }

  predicate CanAdd(q: seq<Seg>, typ: SegType, base: nat, size: nat) {
    && (typ.Span? || typ.SpanImported?)
    && 0 < size && base + size < ADDR_LIMIT
    && forall s | s in q :: s.IsSpan() ==> !s.Overlaps(base, base + size)
  }

  /** The cursor's upper bound is the end of the last span read. */
  lemma {:induction false} LimitIsASpanEnd(q: seq<Seg>, c: Cursor, limit: nat)
    requires c.hi <= limit && forall s | s in q :: s.IsSpan() ==> s.End() <= limit
    ensures After(q, c).hi <= limit
  {
    if q != [] {
      LimitIsASpanEnd(q[1..], Advance(c, q[0]), limit);
    }
  }

  lemma AddKeepsOrder(q: seq<Seg>, typ: SegType, base: nat, size: nat)
    requires Chain(q, ORIGIN) && CanAdd(q, typ, base, size)
    ensures Chain(AfterAdd(q, typ, base, size), ORIGIN)
  {
    var p := InsertPoint(q, base);
    var a, b := q[..p], q[p..];
    var mid := [Seg(typ, base, size), Seg(Free, base, size)];
    assert q == a + b;
    ChainConcat(a, b, ORIGIN);
    SpansEndBelow(q, base, size, typ);
    LimitIsASpanEnd(a, ORIGIN, base);
    SpanFits(After(a, ORIGIN), typ, base, size);
    if b != [] {
      assert b[0] in q;
      SegmentSizes(q, p);
      NextSpanFits(b, After(a, ORIGIN), After(mid, After(a, ORIGIN)));
    }
    hide Chain, After, CanAdd, InsertPoint;
    ChainConcat(a, mid, ORIGIN);
    ChainConcat(a + mid, b, ORIGIN);
  }

  /** The spans before the insertion point end at or before the new one. */
  lemma SpansEndBelow(q: seq<Seg>, base: nat, size: nat, typ: SegType)
    requires Chain(q, ORIGIN) && CanAdd(q, typ, base, size)
    ensures forall s | s in q[..InsertPoint(q, base)] && s.IsSpan() :: s.End() <= base
  {
    hide Chain;
    var p := InsertPoint(q, base);
    forall s | s in q[..p] && s.IsSpan() ensures s.End() <= base {
      var i :| 0 <= i < p && q[i] == s;
      assert s in q && s.base < base;
      SegmentSizes(q, i);
    }
  }

  /** A span and the free segment behind it can follow anything that ends before them. */
  lemma SpanFits(c: Cursor, typ: SegType, base: nat, size: nat)
    requires (typ.Span? || typ.SpanImported?) && 0 < size && base + size < ADDR_LIMIT && c.hi <= base
    ensures var mid := [Seg(typ, base, size), Seg(Free, base, size)];
            Chain(mid, c) && After(mid, c) == Cursor(base + size, base + size)
  {
    var mid := [Seg(typ, base, size), Seg(Free, base, size)];
    assert mid[1..] == [Seg(Free, base, size)];
    ReadOne(Seg(Free, base, size), Cursor(base, base + size));
  }

  /** A chain that starts with a span can follow anything that ends before it. */
  lemma NextSpanFits(b: seq<Seg>, c: Cursor, c': Cursor)
    requires Chain(b, c) && b != [] && b[0].IsSpan() && c'.hi <= b[0].base
    ensures Chain(b, c')
  {}

  lemma ReadOne(s: Seg, c: Cursor)
    ensures Chain([s], c) <==> Fits(c, s)
    ensures After([s], c) == Advance(c, s)
  {
    assert [s][1..] == [];
  }

  lemma SegmentSizes(q: seq<Seg>, i: nat)
    requires Chain(q, ORIGIN) && i < |q|
    ensures 0 < q[i].size && q[i].End() < ADDR_LIMIT
  {
    ChainAt(q, ORIGIN, i);
  }

  // ---------------------------------------------------------------------------------
  // Splitting an allocation out of a free segment
  // ---------------------------------------------------------------------------------

  function LeftRest(s: Seg, addr: nat): seq<Seg>
    requires s.base <= addr
  {
    if s.base < addr then [Seg(Free, s.base, addr - s.base)] else []
  }

  function RightRest(s: Seg, addr: nat, size: nat): seq<Seg>
    requires addr + size <= s.End()
  {
    if addr + size < s.End() then [Seg(Free, addr + size, s.End() - (addr + size))] else []
  }

  predicate Holds(s: Seg, addr: nat, size: nat) {
    s.typ.Free? && 0 < size && s.base <= addr && addr + size <= s.End()
  }

  function SplitOf(s: Seg, addr: nat, size: nat): seq<Seg>
    requires Holds(s, addr, size)
  {
    LeftRest(s, addr) + [Seg(Allocated, addr, size)] + RightRest(s, addr, size)
  }

  function AfterSplit(a: seq<Seg>, s: Seg, b: seq<Seg>, addr: nat, size: nat): seq<Seg>
    requires Holds(s, addr, size)
  {
    a + SplitOf(s, addr, size) + b
  }

  lemma SplitKeepsOrder(a: seq<Seg>, s: Seg, b: seq<Seg>, addr: nat, size: nat)
    requires Chain(a + [s] + b, ORIGIN) && Holds(s, addr, size)
    ensures Chain(AfterSplit(a, s, b, addr, size), ORIGIN)
  {
    ChainConcat(a + [s], b, ORIGIN);
    ChainConcat(a, [s], ORIGIN);
    var c := After(a, ORIGIN);
    var l, m, r := LeftRest(s, addr), [Seg(Allocated, addr, size)], RightRest(s, addr, size);
    ReadOne(s, c);
    ReadOne(m[0], After(l, c));
    assert Chain(l, c) && After(l, c).lo <= addr && After(l, c).hi == c.hi;
    assert Chain(m, After(l, c)) && After(m, After(l, c)) == Cursor(addr + size, c.hi);
    assert Chain(r, Cursor(addr + size, c.hi)) && After(r, Cursor(addr + size, c.hi)) == Cursor(s.End(), c.hi);
    ChainConcat(l, m, c);
    ChainConcat(l + m, r, c);
    ChainReplace(a, [s], SplitOf(s, addr, size), b, ORIGIN);
  }

  // ---------------------------------------------------------------------------------
  // Freeing an allocation
  // ---------------------------------------------------------------------------------

  /** What a free leaves behind: the queue, the imported span it gave back (if any), and whether
      the freed range was dropped because it touched no free segment. */
  datatype Freed = Freed(queue: seq<Seg>, released: Option<Seg>, dropped: bool)

  function Last(a: seq<Seg>): Seg
    requires a != []
  {
    a[|a| - 1]
  }

  /** An ordinary segment always has its span marker somewhere to its left. */
  predicate Anchored(a: seq<Seg>) {
    a != [] && (Last(a).typ.Free? ==> 2 <= |a|)
  }

  function JoinsLeft(a: seq<Seg>): bool
    requires Anchored(a)
  {
    Last(a).typ.Free?
  }

  function JoinsRight(b: seq<Seg>): bool { b != [] && b[0].typ.Free? }

  /** The queue left of the coalesced segment. */
  function Before(a: seq<Seg>): (r: seq<Seg>)
    requires Anchored(a)
    ensures r != []
  {
    if JoinsLeft(a) then a[..|a| - 1] else a
  }

  function Beyond(b: seq<Seg>): seq<Seg> {
    if JoinsRight(b) then b[1..] else b
  }

  /** The freed segment after coalescing to the left, then to the right. */
  function Coalesced(a: seq<Seg>, s: Seg, b: seq<Seg>): Seg
    requires Anchored(a)
  {
    var t := if JoinsLeft(a) then Seg(Free, Last(a).base, Last(a).size + s.size) else s;
    if JoinsRight(b) then Seg(Free, t.base, b[0].size + t.size) else t
  }

  function AfterFree(a: seq<Seg>, s: Seg, b: seq<Seg>): Freed
    requires Anchored(a)
  {
    var a1, t, b1 := Before(a), Coalesced(a, s, b), Beyond(b);
    if Last(a1).typ.SpanImported? && t.size == Last(a1).size then
      Freed(a1[..|a1| - 1] + b1, Some(Last(a1)), false)
    else if JoinsLeft(a) || JoinsRight(b) then
      Freed(a1 + [t] + b1, None, false)
    else
      Freed(a + b, None, true)
  }

  lemma ChainAnchors(a: seq<Seg>, s: Seg, b: seq<Seg>)
    requires Chain(a + [s] + b, ORIGIN) && !s.IsSpan()
    ensures Anchored(a)
  {
    var q := a + [s] + b;
    var m := InsideSpan(q, |a|);
    if |a| == 1 {
      assert q[m] == Last(a);
    }
  }

  /** The stretch of the queue that a free rewrites. */
  lemma FreeRegion(a: seq<Seg>, s: Seg, b: seq<Seg>)
    requires Anchored(a)
    ensures a + [s] + b == Before(a) + (a[|Before(a)|..] + [s] + b[..|b| - |Beyond(b)|]) + Beyond(b)
  {
    assert a == Before(a) + a[|Before(a)|..];
    assert b == b[..|b| - |Beyond(b)|] + Beyond(b);
    Regroup(Before(a), a[|Before(a)|..], [s], b[..|b| - |Beyond(b)|], Beyond(b));
  }

  lemma Regroup(x: seq<Seg>, l: seq<Seg>, m: seq<Seg>, r: seq<Seg>, y: seq<Seg>)
    ensures (x + l) + m + (r + y) == x + (l + m + r) + y
  {}

  /** The coalesced segment still lies where its parts lay: nothing else can overlap it. */
  lemma CoalescedFits(a: seq<Seg>, s: Seg, b: seq<Seg>)
    requires Chain(a + [s] + b, ORIGIN) && s.typ.Allocated? && Anchored(a)
    ensures var c := After(Before(a), ORIGIN); var t := Coalesced(a, s, b);
            && Chain(Before(a), ORIGIN)
            && Fits(c, t) && !t.IsSpan()
            && Chain(Beyond(b), Cursor(t.End(), c.hi))
            && c.lo <= c.hi
  {
    var a1, b1 := Before(a), Beyond(b);
    var l, r := a[|a1|..], b[..|b| - |b1|];
    FreeRegion(a, s, b);
    ChainConcat(a1 + (l + [s] + r), b1, ORIGIN);
    ChainConcat(a1, l + [s] + r, ORIGIN);
    var c := After(a1, ORIGIN);
    CursorGrows(a1, ORIGIN);
    ChainConcat(l + [s], r, c);
    ChainConcat(l, [s], c);
    var t := Coalesced(a, s, b);
    var d := After(l + [s] + r, c);
    assert d.hi == c.hi && t.End() <= d.lo by {
      if JoinsLeft(a) { assert l == [Last(a)]; assert l[1..] == []; } else { assert l == []; }
      assert [s][1..] == [];
      if JoinsRight(b) { assert r == [b[0]]; assert r[1..] == []; } else { assert r == []; }
    }
    ChainSlack(b1, d, Cursor(t.End(), c.hi));
  }

  /** Freeing keeps the arena sorted, disjoint and inside its spans, whether the range is merged,
      dropped or given back with its span. */
  lemma FreeKeepsOrder(a: seq<Seg>, s: Seg, b: seq<Seg>)
    requires Chain(a + [s] + b, ORIGIN) && s.typ.Allocated?
    ensures Anchored(a) && Chain(AfterFree(a, s, b).queue, ORIGIN)
  {
    ChainAnchors(a, s, b);
    CoalescedFits(a, s, b);
    var a1, t, b1 := Before(a), Coalesced(a, s, b), Beyond(b);
    var c := After(a1, ORIGIN);
    if AfterFree(a, s, b).released.Some? {
      ReleasedSpanIsBare(a, s, b);
    } else if JoinsLeft(a) || JoinsRight(b) {
      ChainConcat(a1, [t], ORIGIN);
      ChainConcat(a1 + [t], b1, ORIGIN);
    } else {
      ChainSlack(b, Cursor(t.End(), c.hi), c);
      ChainConcat(a, b, ORIGIN);
    }
  }

  /** When an imported span is given back, the freed segment is all it held, and the queue goes on
      with another span marker or ends: the release assertion of `vmem_xfree` can only fail on a
      span that was added by hand. */
  lemma ReleasedSpanIsBare(a: seq<Seg>, s: Seg, b: seq<Seg>)
    requires Chain(a + [s] + b, ORIGIN) && s.typ.Allocated? && Anchored(a)
    requires AfterFree(a, s, b).released.Some?
    ensures var span := AfterFree(a, s, b).released.value; var t := Coalesced(a, s, b);
            && t.base == span.base && t.size == span.size
            && (Beyond(b) == [] || Beyond(b)[0].IsSpan())
            && Chain(AfterFree(a, s, b).queue, ORIGIN)
  {
    CoalescedFits(a, s, b);
    var a1, t, b1 := Before(a), Coalesced(a, s, b), Beyond(b);
    var a2, span := a1[..|a1| - 1], Last(a1);
    assert a1 == a2 + [span];
    ChainConcat(a2, [span], ORIGIN);
    var c := After(a2, ORIGIN);
    assert After([span], c) == Cursor(span.base, span.End());
    assert t.base == span.base;
    CursorGrows(a2, ORIGIN);
    assert Chain(b1, c);
    ChainConcat(a2, b1, ORIGIN);
  }

  // ---------------------------------------------------------------------------------
  // A free, neighbour by neighbour
  // ---------------------------------------------------------------------------------

  predicate FreeAt(q: seq<Seg>, j: int) { 0 <= j < |q| && q[j].typ.Free? }

  /** The freed segment's stretch: from `lo` up to `hi`, with the free neighbours on either side. */
  function StretchLo(q: seq<Seg>, i: nat): int { if FreeAt(q, i - 1) then i - 1 else i }

  function StretchHi(q: seq<Seg>, i: nat): nat { if FreeAt(q, i + 1) then i + 2 else i + 1 }

  function StretchSize(q: seq<Seg>, i: nat): nat
    requires i < |q|
  {
    q[i].size + (if FreeAt(q, i - 1) then q[i - 1].size else 0) + (if FreeAt(q, i + 1) then q[i + 1].size else 0)
  }

  /** The stretch is all that an imported span holds. */
  predicate EmptiesImport(q: seq<Seg>, i: nat)
    requires i < |q|
  {
    var lo := StretchLo(q, i);
    0 < lo && q[lo - 1].typ.SpanImported? && q[lo - 1].size == StretchSize(q, i)
  }

  /** What freeing the segment at `i` makes of the queue: the span goes with the stretch, or the stretch
      becomes one free segment, or, if nothing next to it is free, it is dropped. */
  predicate FreedAt(q: seq<Seg>, i: nat, q': seq<Seg>, released: Option<Seg>)
    requires i < |q|
  {
    var lo, hi := StretchLo(q, i), StretchHi(q, i);
    if EmptiesImport(q, i) then released == Some(q[lo - 1]) && q' == q[..lo - 1] + q[hi..]
    else
      && released.None?
      && q' == q[..lo] + (if FreeAt(q, i - 1) || FreeAt(q, i + 1) then [Seg(Free, q[lo].base, StretchSize(q, i))] else []) + q[hi..]
  }

  lemma StretchShape(q: seq<Seg>, i: nat)
    requires i < |q| && Anchored(q[..i]) && q[i].typ.Allocated?
    ensures var a, b, lo, hi := q[..i], q[i + 1..], StretchLo(q, i), StretchHi(q, i);
            && (JoinsLeft(a) <==> FreeAt(q, i - 1)) && (JoinsRight(b) <==> FreeAt(q, i + 1))
            && 0 < lo && Before(a) == q[..lo] && Beyond(b) == q[hi..]
            && Last(Before(a)) == q[lo - 1] && Before(a)[..|Before(a)| - 1] == q[..lo - 1]
  {
    assert i > 0 ==> Last(q[..i]) == q[i - 1];
    assert i + 1 < |q| ==> q[i + 1..][0] == q[i + 1] && q[i + 1..][1..] == q[i + 2..];
  }

  lemma StretchIs(q: seq<Seg>, i: nat)
    requires i < |q| && Anchored(q[..i]) && q[i].typ.Allocated?
    ensures var t := Coalesced(q[..i], q[i], q[i + 1..]);
            && t.size == StretchSize(q, i)
            && (FreeAt(q, i - 1) || FreeAt(q, i + 1) ==> t == Seg(Free, q[StretchLo(q, i)].base, StretchSize(q, i)))
  {
    assert i > 0 ==> Last(q[..i]) == q[i - 1];
    assert i + 1 < |q| ==> q[i + 1..][0] == q[i + 1];
  }

  lemma AfterFreeIs(q: seq<Seg>, i: nat)
    requires i < |q| && Anchored(q[..i]) && q[i].typ.Allocated?
    ensures var lo, hi, t := StretchLo(q, i), StretchHi(q, i), Seg(Free, q[StretchLo(q, i)].base, StretchSize(q, i));
            && 0 < lo
            && AfterFree(q[..i], q[i], q[i + 1..]) ==
               if EmptiesImport(q, i) then Freed(q[..lo - 1] + q[hi..], Some(q[lo - 1]), false)
               else if FreeAt(q, i - 1) || FreeAt(q, i + 1) then Freed(q[..lo] + [t] + q[hi..], None, false)
               else Freed(q[..i] + q[i + 1..], None, true)
  {
    hide Anchored, Coalesced, Before, Beyond, StretchSize, StretchLo, StretchHi, JoinsLeft, JoinsRight, FreeAt;
    StretchShape(q, i);
    StretchIs(q, i);
  }

  lemma FreeOutcome(q: seq<Seg>, i: nat)
    requires Chain(q, ORIGIN) && i < |q| && q[i].typ.Allocated?
    ensures Anchored(q[..i])
    ensures var r := AfterFree(q[..i], q[i], q[i + 1..]);
            && FreedAt(q, i, r.queue, r.released)
            && (r.dropped <==> !FreeAt(q, i - 1) && !FreeAt(q, i + 1) && !EmptiesImport(q, i))
  {
    hide Chain, AfterFree, StretchSize, EmptiesImport;
    assert q == q[..i] + [q[i]] + q[i + 1..];
    ChainAnchors(q[..i], q[i], q[i + 1..]);
    AfterFreeIs(q, i);
    var none: seq<Seg> := [];
    assert q[..i] + none + q[i + 1..] == q[..i] + q[i + 1..];
  }

  /** No gap lies between the freed segment and its free neighbours. */
  predicate Gapless(q: seq<Seg>, i: nat)
    requires i < |q|
  {
    (FreeAt(q, i - 1) ==> q[i - 1].End() == q[i].base) && (FreeAt(q, i + 1) ==> q[i].End() == q[i + 1].base)
  }

  /** The merged segment covers the freed range and each free neighbour if and only if there is no gap
      between them: its size is only their sum. */
  lemma MergeCovers(q: seq<Seg>, i: nat)
    requires Chain(q, ORIGIN) && i < |q| && q[i].typ.Allocated?
    ensures var t := Seg(Free, q[StretchLo(q, i)].base, StretchSize(q, i));
            (forall j | StretchLo(q, i) <= j < StretchHi(q, i) :: t.base <= q[j].base && q[j].End() <= t.End()) <==> Gapless(q, i)
  {
    var lo, hi := StretchLo(q, i), StretchHi(q, i);
    var t := Seg(Free, q[lo].base, StretchSize(q, i));
    if lo < i {
      SegmentsInOrder(q, lo, i);
    }
    if i + 1 < hi {
      SegmentsInOrder(q, i, i + 1);
    }
    hide Chain;
    if forall j | lo <= j < hi :: t.base <= q[j].base && q[j].End() <= t.End() {
      assert q[hi - 1].End() <= t.End();
    }
  }

  /** A gap arises when a middle allocation is freed between two live ones. The neighbour freed after it
      then merges across the gap: with the last free, freeing the first gives back the gap's bytes and
      loses the last ones. */
  lemma MergeAcrossGap()
    ensures var q := [Seg(Span, 0x1000, 0x4000), Seg(Allocated, 0x1000, 0x1000), Seg(Allocated, 0x2000, 0x1000),
                      Seg(Allocated, 0x3000, 0x1000), Seg(Free, 0x4000, 0x1000)];
            var q1 := [q[0], q[1], q[3], q[4]];
            var q2 := [q[0], q[1], Seg(Free, 0x3000, 0x2000)];
            && Chain(q, ORIGIN)
            && FreedAt(q, 2, q1, None) && FreedAt(q1, 2, q2, None)
            && FreedAt(q2, 1, [q[0], Seg(Free, 0x1000, 0x3000)], None) && !Gapless(q2, 1)
  {
    var q := [Seg(Span, 0x1000, 0x4000), Seg(Allocated, 0x1000, 0x1000), Seg(Allocated, 0x2000, 0x1000),
              Seg(Allocated, 0x3000, 0x1000), Seg(Free, 0x4000, 0x1000)];
    var q1, q2 := [q[0], q[1], q[3], q[4]], [q[0], q[1], Seg(Free, 0x3000, 0x2000)];
    assert q[1..] == [q[1], q[2], q[3], q[4]] && [q[1], q[2], q[3], q[4]][1..] == [q[2], q[3], q[4]];
    assert [q[2], q[3], q[4]][1..] == [q[3], q[4]] && [q[3], q[4]][1..] == [q[4]] && [q[4]][1..] == [];
    assert q[..2] == [q[0], q[1]] && q[3..] == [q[3], q[4]] && q[..2] + [] + q[3..] == q1;
    assert q1[..2] == [q[0], q[1]] && q1[4..] == [] && q1[..2] + [q2[2]] + q1[4..] == q2;
    assert q2[..1] == [q[0]] && q2[3..] == [];
  }
}
