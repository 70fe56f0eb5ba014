/** The VMem arena: kernel-3/kern/vmem.c as a class over its queue and indexes. */
module Vmem {
  import opened Common
  import opened VmemSegments
  import opened VmemEdits
  import opened VmemLedger
  import opened VmemIndex

  /** The reserve of segment tags every arena draws from. */
  class TagReserve {
    var nfreesegs: nat

    constructor (n: nat)
      ensures nfreesegs == n
    {
      nfreesegs := n;
    }

    /** `seg_alloc`; its non-empty assertion is the precondition. */
    method SegAlloc()
      requires 0 < nfreesegs
      modifies this
      ensures nfreesegs == old(nfreesegs) - 1
    {
      nfreesegs := nfreesegs - 1;
    }

    method SegFree()
      modifies this
      ensures nfreesegs == old(nfreesegs) + 1
    {
      nfreesegs := nfreesegs + 1;
    }
  }

  /** A segment that `vmem_xalloc` may carve `size` bytes out of: at `min` for an exact request,
      at its own base otherwise. */
  predicate Suits(s: Seg, size: nat, min: nat, exact: bool) {
    s.typ.Free? && if exact then s.base <= min && min + size <= s.End() else size <= s.size
  }

  /** The first segment of its freelist that suits. */
  predicate FirstSuiting(freelist: seq<seq<Seg>>, s: Seg, size: nat, min: nat, exact: bool) {
    FreelistIndex(s.size) < |freelist| &&
    var list := freelist[FreelistIndex(s.size)];
    exists j :: 0 <= j < |list| && list[j] == s && forall n | 0 <= n < j :: !Suits(list[n], size, min, exact)
  }

  function PlaceIn(s: Seg, min: nat, exact: bool): nat { if exact then min else s.base }

  class Arena {
    const hash: nat -> nat
    var segqueue: seq<Seg>
    var freelist: seq<seq<Seg>>
    var hashtab: seq<seq<Seg>>
    var spanlist: seq<Seg>

    ghost predicate Valid()
      reads this
    {
      Chain(segqueue, ORIGIN) && Indexed(hash, segqueue, freelist, hashtab, spanlist)
    }

    /** `vmem_init` for an arena without spans of its own. */
    constructor (hash: nat -> nat)
      ensures Valid() && segqueue == [] && this.hash == hash
    {
      this.hash := hash;
      segqueue, spanlist := [], [];
      freelist := seq(FREELISTS, _ => []);
      hashtab := seq(BUCKETS, _ => []);
    }

    method FreelistInsert(seg: Seg)
      requires FreelistIndex(seg.size) < |freelist|
      modifies `freelist
      ensures OneMore(freelist, old(freelist), FreelistIndex(seg.size), seg)
      ensures freelist[FreelistIndex(seg.size)] == [seg] + old(freelist)[FreelistIndex(seg.size)]
    {
      var k := FreelistIndex(seg.size);
      freelist := freelist[k := [seg] + freelist[k]];
    }

    /** LIST_REMOVE of a free segment. */
    method FreelistRemove(seg: Seg)
      requires FreelistIndex(seg.size) < |freelist| && seg in freelist[FreelistIndex(seg.size)]
      modifies `freelist
      ensures OneMore(old(freelist), freelist, FreelistIndex(seg.size), seg)
    {
      var k := FreelistIndex(seg.size);
      freelist := freelist[k := Without(freelist[k], seg)];
    }

    method HashtabInsert(seg: Seg)
      requires |hashtab| == BUCKETS
      modifies `hashtab
      ensures OneMore(hashtab, old(hashtab), Bucket(hash, seg.base), seg)
      ensures hashtab[Bucket(hash, seg.base)] == [seg] + old(hashtab)[Bucket(hash, seg.base)]
    {
      var h := Bucket(hash, seg.base);
      hashtab := hashtab[h := [seg] + hashtab[h]];
    }

    method HashtabRemove(seg: Seg)
      requires |hashtab| == BUCKETS && seg in hashtab[Bucket(hash, seg.base)]
      modifies `hashtab
      ensures OneMore(old(hashtab), hashtab, Bucket(hash, seg.base), seg)
    {
      var h := Bucket(hash, seg.base);
      hashtab := hashtab[h := Without(hashtab[h], seg)];
    }

    /** `vmem_add_internal`: a new span and, behind it, one free segment as large. */
    method AddInternal(reserve: TagReserve, typ: SegType, base: nat, size: nat) returns (newfree: Seg)
      requires Valid() && CanAdd(segqueue, typ, base, size) && 2 <= reserve.nfreesegs
      modifies this, reserve
      ensures Valid() && segqueue == AfterAdd(old(segqueue), typ, base, size)
      ensures newfree == Seg(Free, base, size) && newfree in segqueue
      ensures reserve.nfreesegs == old(reserve.nfreesegs) - 2
    {
      hide FreeIndexed, AllocatedIndexed, OneMore, Chain, Fits, InsertPoint, FreelistIndex, PositionOf;
      ghost var q, fl, sl := segqueue, freelist, spanlist;
      var i := 0;
      while i < |spanlist| && spanlist[i].base < base
        invariant i <= |spanlist|
        invariant forall j | 0 <= j < i :: spanlist[j].base < base
      {
        i := i + 1;
      }
      reserve.SegAlloc();
      reserve.SegAlloc();
      var newspan := Seg(typ, base, size);
      newfree := Seg(Free, base, size);
      SpanListSplit(q, base, i);
      var at := if i < |spanlist| then PositionOf(segqueue, spanlist[i]) else |segqueue|;
      spanlist := spanlist[..i] + [newspan] + spanlist[i..];
      segqueue := segqueue[..at] + [newspan] + segqueue[at..];
      segqueue := segqueue[..at + 1] + [newfree] + segqueue[at + 1..];
      InsertTwice(q, at, newspan, newfree);
      FreelistInRange(size);
      FreelistInsert(newfree);
      AddIndexed(hash, q, fl, freelist, hashtab, sl, newspan, newfree);
      AddKeepsOrder(q, typ, base, size);
    }

    /** `split_seg`: the two spare tags take what is left over on either side, or go back. */
    method SplitSeg(reserve: TagReserve, seg: Seg, addr: nat, size: nat) returns (ghost i: nat)
      requires Valid() && seg in segqueue && Holds(seg, addr, size)
      modifies this, reserve
      ensures Valid()
      ensures i < |old(segqueue)| && old(segqueue)[i] == seg
      ensures segqueue == AfterSplit(old(segqueue)[..i], seg, old(segqueue)[i + 1..], addr, size)
      ensures reserve.nfreesegs == old(reserve.nfreesegs) + 2 - |LeftRest(seg, addr)| - |RightRest(seg, addr, size)|
    {
      hide FreeIndexed, AllocatedIndexed, OneMore, Chain, Fits, Filter, FreelistIndex, PositionOf, Bucket, Inserted;
      var at := PositionOf(segqueue, seg);
      i := at;
      ghost var q, fl, ht := segqueue, freelist, hashtab;
      SegmentSizes(q, at);
      FreelistInRange(seg.size);
      OnFreelist(q, freelist, seg);
      FreelistRemove(seg);
      ghost var fl1 := freelist;
      PlaceRest(reserve, at, seg.base, addr - seg.base);
      ghost var fl2 := freelist;
      ghost var l, r := LeftRest(seg, addr), RightRest(seg, addr, size);
      at := at + if seg.base < addr then 1 else 0;
      PlaceRest(reserve, at + 1, addr + size, seg.End() - (addr + size));
      var taken := Seg(Allocated, addr, size);
      SplitInPlace(q, i, l, r, taken);
      segqueue := segqueue[at := taken];
      HashtabInsert(taken);
      assert q == q[..i] + [seg] + q[i + 1..];
      SplitIndexed(hash, q[..i], seg, q[i + 1..], addr, size, fl, fl1, fl2, freelist, ht, hashtab, spanlist);
      SplitKeepsOrder(q[..i], seg, q[i + 1..], addr, size);
    }

    /** One side of a split: a spare tag takes the left-over piece, if any; otherwise it is freed. */
    method PlaceRest(reserve: TagReserve, at: nat, base: nat, size: nat)
      requires at <= |segqueue| && |freelist| == FREELISTS && size < ADDR_LIMIT
      modifies `segqueue, `freelist, reserve
      ensures var rest := if 0 < size then [Seg(Free, base, size)] else [];
              && segqueue == old(segqueue)[..at] + rest + old(segqueue)[at..]
              && Inserted(rest, freelist, old(freelist))
              && reserve.nfreesegs == old(reserve.nfreesegs) + 1 - |rest|
    {
      if 0 < size {
        var seg := Seg(Free, base, size);
        segqueue := segqueue[..at] + [seg] + segqueue[at..];
        FreelistInRange(size);
        FreelistInsert(seg);
      } else {
        reserve.SegFree();
      }
    }

    /** The search of `vmem_xalloc`: size classes from the first that might do, each in list order. */
    method Search(size: nat, min: nat, exact: bool) returns (found: Option<Seg>)
      requires Valid() && 0 < size && (min == 0 || exact)
      ensures found.Some? ==> found.value in segqueue && Suits(found.value, size, min, exact)
      ensures found.Some? ==> forall s | s in segqueue && Suits(s, size, min, exact) ::
                                FreelistIndex(found.value.size) <= FreelistIndex(s.size)
      ensures found.Some? ==> FirstSuiting(freelist, found.value, size, min, exact)
      ensures found.None? ==> forall s | s in segqueue :: !Suits(s, size, min, exact)
    {
      hide Chain, Filter, FreelistIndex, FreeIndexed, AllocatedIndexed;
      var idx := FreelistIndex(size);
      SearchStart(segqueue, size, min, exact);
      while idx < FREELISTS
        invariant forall s | s in segqueue && Suits(s, size, min, exact) :: idx <= FreelistIndex(s.size)
      {
        var list := freelist[idx];
        var j := 0;
        while j < |list|
          invariant j <= |list|
          invariant forall n | 0 <= n < j :: !Suits(list[n], size, min, exact)
        {
          var freeseg := list[j];
          InFreelist(segqueue, freelist, idx, freeseg);
          j := j + 1;
          var addr := min;
          if freeseg.base <= min {
          } else if exact {
            continue;
          } else {
            addr := freeseg.base;
          }
          if addr + size <= freeseg.End() {
            assert freeseg in list && Suits(freeseg, size, min, exact) && list[j - 1] == freeseg;
            return Some(freeseg);
          }
        }
        forall s | s in segqueue && Suits(s, size, min, exact) ensures FreelistIndex(s.size) != idx {
          if FreelistIndex(s.size) == idx {
            OnFreelist(segqueue, freelist, s);
          }
        }
        idx := idx + 1;
      }
      forall s | s in segqueue ensures !Suits(s, size, min, exact) {
        AllOnFreelists(segqueue, s);
      }
      return None;
    }

    /** `vmem_xalloc` in an arena without an import callback. It fails exactly when no free segment
        suits, and then the two tags it took are gone for good. */
    method XAlloc(reserve: TagReserve, size: nat, min: nat, exact: bool) returns (r: Option<nat>, ghost i: nat)
      requires Valid() && 0 < size && (min == 0 || exact) && 2 <= reserve.nfreesegs
      modifies this, reserve
      ensures Valid()
      ensures r.None? <==> forall s | s in old(segqueue) :: !Suits(s, size, min, exact)
      ensures r.None? ==> segqueue == old(segqueue) && reserve.nfreesegs == old(reserve.nfreesegs) - 2
      ensures r.Some? ==> var q := old(segqueue);
              && i < |q| && Suits(q[i], size, min, exact) && r.value == PlaceIn(q[i], min, exact)
              && r.value == (if exact then min else q[i].base)
              && segqueue == AfterSplit(q[..i], q[i], q[i + 1..], r.value, size)
              && reserve.nfreesegs + |segqueue| == old(reserve.nfreesegs) + |q|
              && FirstSuiting(old(freelist), q[i], size, min, exact)
              && forall s | s in q && Suits(s, size, min, exact) :: FreelistIndex(q[i].size) <= FreelistIndex(s.size)
    {
      hide Chain, Filter, FreelistIndex, Indexed;
      reserve.SegAlloc();
      reserve.SegAlloc();
      i := 0;
      var found := Search(size, min, exact);
      match found {
        case None => return None, 0;
        case Some(freeseg) =>
          var addr := PlaceIn(freeseg, min, exact);
          i := SplitSeg(reserve, freeseg, addr, size);
          return Some(addr), i;
      }
    }

    /** `freeseg_expand`: the segment changes place and size; it moves to another freelist only if
        its size class changed. */
    method FreesegExpand(at: nat, newbase: nat, newsize: nat) returns (t: Seg, ghost rest: seq<seq<Seg>>)
      requires at < |segqueue| && segqueue[at].typ.Free? && |freelist| == FREELISTS
      requires FreelistIndex(segqueue[at].size) < FREELISTS && FreelistIndex(newsize) < FREELISTS
      requires segqueue[at] in freelist[FreelistIndex(segqueue[at].size)]
      modifies `segqueue, `freelist
      ensures t == Seg(Free, newbase, newsize) && segqueue == old(segqueue)[at := t]
      ensures OneMore(old(freelist), rest, FreelistIndex(old(segqueue)[at].size), old(segqueue)[at])
      ensures OneMore(freelist, rest, FreelistIndex(newsize), t)
    {
      var seg := segqueue[at];
      t := Seg(Free, newbase, newsize);
      segqueue := segqueue[at := t];
      var k := FreelistIndex(seg.size);
      rest := freelist[k := Without(freelist[k], seg)];
      if FreelistIndex(newsize) != k {
        FreelistRemove(seg);
        rest := freelist;
        FreelistInsert(t);
      } else {
        freelist := freelist[k := InPlace(freelist[k], seg, t)];
        Cancel(multiset(freelist[k]), multiset(rest[k]) + multiset{t}, seg);
      }
    }

    /** First half of the coalescing in `vmem_xfree`: the freed segment at `at` joins a free left
        neighbour. The indexes already leave the freed segment out. */
    method CoalesceLeft(reserve: TagReserve, at: nat) returns (joined: bool)
      requires 0 < at < |segqueue| && segqueue[at].typ.Allocated? && Chain(segqueue, ORIGIN)
      requires Indexed(hash, segqueue[..at] + segqueue[at + 1..], freelist, hashtab, spanlist)
      modifies `segqueue, `freelist, reserve
      ensures var q := old(segqueue); Anchored(q[..at]) && joined == JoinsLeft(q[..at])
      ensures !joined ==> segqueue == old(segqueue) && freelist == old(freelist) && reserve.nfreesegs == old(reserve.nfreesegs)
      ensures joined ==> var q := old(segqueue); var t := Seg(Free, q[at - 1].base, q[at - 1].size + q[at].size);
              && segqueue == q[..at - 1] + [t] + q[at + 1..]
              && Indexed(hash, segqueue, freelist, hashtab, spanlist)
              && reserve.nfreesegs == old(reserve.nfreesegs) + 1
    {
      hide FreeIndexed, AllocatedIndexed, OneMore, Chain, Filter, FreelistIndex;
      ghost var q, a, b := segqueue, segqueue[..at], segqueue[at + 1..];
      assert q == a + [q[at]] + b;
      ChainAnchors(a, q[at], b);
      var left := segqueue[at - 1];
      joined := left.typ.Free?;
      if joined {
        CoalescedSizes(a, q[at], b);
        FreelistInRange(left.size + q[at].size);
        FreelistInRange(left.size);
        assert a + b == q[..at - 1] + [left] + b;
        assert left in a + b;
        OnFreelist(a + b, freelist, left);
        ghost var fl := freelist;
        var t, rest := FreesegExpand(at - 1, left.base, left.size + segqueue[at].size);
        segqueue := segqueue[..at] + segqueue[at + 1..];
        reserve.SegFree();
        assert segqueue == q[..at - 1] + [t] + b;
        IndexedFree(hash, q[..at - 1], left, b, fl, rest, hashtab, spanlist);
        IndexedFree(hash, q[..at - 1], t, b, freelist, rest, hashtab, spanlist);
      }
    }

    /** A free segment leaves its freelist. */
    method Unlist(ghost a: seq<Seg>, seg: Seg, ghost b: seq<Seg>)
      requires seg.typ.Free? && 0 < seg.size < ADDR_LIMIT && Indexed(hash, a + [seg] + b, freelist, hashtab, spanlist)
      modifies `freelist
      ensures Indexed(hash, a + b, freelist, hashtab, spanlist)
    {
      hide FreeIndexed, AllocatedIndexed, OneMore, FreelistIndex, Indexed, Filter;
      ghost var fl := freelist;
      assert (a + [seg] + b)[|a|] == seg;
      FreelistInRange(seg.size);
      FreePart(hash, a + [seg] + b, freelist, hashtab, spanlist);
      OnFreelist(a + [seg] + b, freelist, seg);
      FreelistRemove(seg);
      IndexedFree(hash, a, seg, b, fl, freelist, hashtab, spanlist);
    }

    /** Second half: the segment at `at`, which is on a freelist only if it was coalesced to the left,
        joins a free right neighbour. */
    method CoalesceRight(reserve: TagReserve, at: nat, coalescedLeft: bool) returns (joined: bool)
      requires at < |segqueue| && segqueue[at].typ == if coalescedLeft then Free else Allocated
      requires 0 < segqueue[at].size < ADDR_LIMIT
      requires JoinsRight(segqueue[at + 1..]) ==> 0 < segqueue[at + 1].size && segqueue[at + 1].size + segqueue[at].size < ADDR_LIMIT
      requires Indexed(hash, if coalescedLeft then segqueue else segqueue[..at] + segqueue[at + 1..], freelist, hashtab, spanlist)
      modifies `segqueue, `freelist, reserve
      ensures joined == JoinsRight(old(segqueue)[at + 1..])
      ensures !joined ==> segqueue == old(segqueue) && freelist == old(freelist) && reserve.nfreesegs == old(reserve.nfreesegs)
      ensures joined ==> var q := old(segqueue); var t := Seg(Free, q[at].base, q[at + 1].size + q[at].size);
              && segqueue == q[..at] + [t] + q[at + 2..]
              && Indexed(hash, segqueue, freelist, hashtab, spanlist)
              && reserve.nfreesegs == old(reserve.nfreesegs) + 1
    {
      hide FreeIndexed, AllocatedIndexed, OneMore, Chain, Filter, FreelistIndex, Indexed;
      var seg := segqueue[at];
      ghost var q := segqueue;
      ghost var l, m := q[..at], if coalescedLeft then [seg] else [];
      joined := at + 1 < |segqueue| && segqueue[at + 1].typ.Free?;
      if joined {
        var right := segqueue[at + 1];
        ghost var b1, fl := q[at + 2..], freelist;
        var t := Seg(Free, segqueue[at].base, right.size + segqueue[at].size);
        JoinRight(q, at, m, t);
        FreelistInRange(right.size);
        FreelistInRange(t.size);
        FreelistInRange(seg.size);
        FreePart(hash, l + m + [right] + b1, freelist, hashtab, spanlist);
        OnFreelist(l + m + [right] + b1, freelist, right);
        ghost var rest;
        t, rest := FreesegExpand(at + 1, segqueue[at].base, right.size + segqueue[at].size);
        IndexedFree(hash, l + m, right, b1, fl, rest, hashtab, spanlist);
        segqueue := segqueue[..at] + segqueue[at + 1..];
        IndexedFree(hash, l + m, t, b1, freelist, rest, hashtab, spanlist);
        if coalescedLeft {
          Unlist(l, seg, [t] + b1);
        }
        reserve.SegFree();
      }
    }

    /** Gives an imported span back: the segment at `at`, which fills it, and its marker before it. */
    method DropSpan(reserve: TagReserve, at: nat, coalesced: bool)
      requires 0 < at < |segqueue| && segqueue[at - 1].typ.SpanImported?
      requires segqueue[at].typ == if coalesced then Free else Allocated
      requires 0 < segqueue[at].size < ADDR_LIMIT
      requires Indexed(hash, if coalesced then segqueue else segqueue[..at] + segqueue[at + 1..], freelist, hashtab, spanlist)
      requires segqueue[at - 1] !in segqueue[..at - 1]
      modifies this, reserve
      ensures segqueue == old(segqueue)[..at - 1] + old(segqueue)[at + 1..]
      ensures Indexed(hash, segqueue, freelist, hashtab, spanlist)
      ensures reserve.nfreesegs == old(reserve.nfreesegs) + 2
    {
      hide FreeIndexed, AllocatedIndexed, OneMore, Chain, Filter, FreelistIndex;
      var seg, left := segqueue[at], segqueue[at - 1];
      ghost var q, a, b := segqueue, segqueue[..at - 1], segqueue[at + 1..];
      ghost var fl := freelist;
      if coalesced {
        FreelistInRange(seg.size);
        OnFreelist(segqueue, freelist, seg);
        FreelistRemove(seg);
        assert q == q[..at] + [seg] + b;
        IndexedFree(hash, q[..at], seg, b, fl, freelist, hashtab, spanlist);
      }
      assert q[..at] + b == a + [left] + b;
      IndexedMarker(hash, a, left, b, freelist, hashtab);
      SpanListRemove(a, left, b);
      segqueue := segqueue[..at] + segqueue[at + 1..];
      reserve.SegFree();
      spanlist := Without(spanlist, left);
      segqueue := segqueue[..at - 1] + segqueue[at..];
      reserve.SegFree();
      assert segqueue == a + b;
    }

    /** `vmem_xfree`. An address no allocation starts at is fatal there, `None` here. Otherwise the
        queue becomes what `AfterFree` says, and every tag that leaves it goes back to the reserve.
        A span to give back is returned for the caller to hand to the import callback. */
    method XFree(reserve: TagReserve, addr: nat) returns (freed: Option<nat>, released: Option<Seg>, ghost i: nat)
      requires Valid()
      modifies this, reserve
      ensures Valid()
      ensures freed.None? <==> forall s | s in old(segqueue) :: !(s.typ.Allocated? && s.base == addr)
      ensures freed.None? ==> segqueue == old(segqueue) && reserve.nfreesegs == old(reserve.nfreesegs) && released.None?
      ensures freed.Some? ==> var q := old(segqueue);
              && i < |q| && q[i] == Seg(Allocated, addr, freed.value) && Anchored(q[..i])
              && segqueue == AfterFree(q[..i], q[i], q[i + 1..]).queue
              && released == AfterFree(q[..i], q[i], q[i + 1..]).released
              && FreedAt(q, i, segqueue, released)
              && reserve.nfreesegs + |segqueue| == old(reserve.nfreesegs) + |q|
    {
      hide FreeIndexed, AllocatedIndexed, OneMore, Chain, Filter, FreelistIndex, Fits;
      hide FreedAt, Before, Beyond, Coalesced, JoinsLeft, JoinsRight, Anchored;
      i, released := 0, None;
      var seg := FindAllocated(addr);
      if seg.None? {
        return None, None, 0;
      }
      var at := PositionOf(segqueue, seg.value);
      i := at;
      ghost var q, a, b, ht := segqueue, segqueue[..at], segqueue[at + 1..], hashtab;
      assert q == a + [seg.value] + b;
      OnHashtab(hash, segqueue, hashtab, seg.value);
      HashtabRemove(seg.value);
      IndexedAllocated(hash, a, seg.value, b, freelist, ht, hashtab, spanlist);
      FreeKeepsOrder(a, seg.value, b);
      FreeOutcome(q, at);
      ghost var a1 := Before(a);
      var joined;
      at, joined := Coalesce(reserve, at);
      MarkerBefore(a, seg.value, b);
      UnlessJoined(a, seg.value, b);
      Cut(a1, segqueue[at], Beyond(b));
      released := Settle(reserve, at, joined, a1, Beyond(b));
      return Some(seg.value.size), released, i;
    }

    /** The end of `vmem_xfree`: give an emptied imported span back, or drop a range that joined nothing. */
    method Settle(reserve: TagReserve, at: nat, joined: bool, ghost a: seq<Seg>, ghost b: seq<Seg>) returns (released: Option<Seg>)
      requires at < |segqueue| && segqueue == a + [segqueue[at]] + b && at == |a| && a != []
      requires segqueue[at].typ == if joined then Free else Allocated
      requires 0 < segqueue[at].size < ADDR_LIMIT && Last(a) !in a[..|a| - 1]
      requires Indexed(hash, if joined then segqueue else a + b, freelist, hashtab, spanlist)
      modifies this, reserve
      ensures Indexed(hash, segqueue, freelist, hashtab, spanlist)
      ensures released == if Last(a).typ.SpanImported? && old(segqueue)[at].size == Last(a).size then Some(Last(a)) else None
      ensures segqueue == if released.Some? then a[..|a| - 1] + b else if joined then old(segqueue) else a + b
      ensures reserve.nfreesegs + |segqueue| == old(reserve.nfreesegs) + |old(segqueue)|
    {
      hide FreeIndexed, AllocatedIndexed, OneMore, Chain, Filter, FreelistIndex;
      var left := segqueue[at - 1];
      Cut(a, segqueue[at], b);
      released := None;
      if left.typ.SpanImported? && segqueue[at].size == left.size {
        released := Some(left);
        DropSpan(reserve, at, joined);
      } else if !joined {
        segqueue := segqueue[..at] + segqueue[at + 1..];
        reserve.SegFree();
      }
    }

    method Coalesce(reserve: TagReserve, at: nat) returns (at': nat, joined: bool)
      requires at < |segqueue| && segqueue[at].typ.Allocated? && Chain(segqueue, ORIGIN)
      requires Indexed(hash, segqueue[..at] + segqueue[at + 1..], freelist, hashtab, spanlist)
      modifies `segqueue, `freelist, reserve
      ensures var q := old(segqueue); var a, b := q[..at], q[at + 1..];
              && Anchored(a) && joined == (JoinsLeft(a) || JoinsRight(b))
              && segqueue == Before(a) + [Coalesced(a, q[at], b)] + Beyond(b) && at' == |Before(a)|
              && 0 < segqueue[at'].size < ADDR_LIMIT
              && reserve.nfreesegs + |segqueue| == old(reserve.nfreesegs) + |q|
      ensures Indexed(hash, if joined then segqueue else segqueue[..at'] + segqueue[at' + 1..], freelist, hashtab, spanlist)
    {
      hide FreeIndexed, AllocatedIndexed, OneMore, Chain, Filter, FreelistIndex, Fits;
      at' := at;
      ghost var q, seg, a, b := segqueue, segqueue[at], segqueue[..at], segqueue[at + 1..];
      assert q == a + [seg] + b;
      ChainAnchors(a, seg, b);
      CoalescedSizes(a, seg, b);
      SegmentSizes(q, at);
      FreeMiddle(a, seg, b);
      var joinedLeft := CoalesceLeft(reserve, at);
      if joinedLeft {
        at' := at - 1;
      }
      assert segqueue[..at'] == Before(a) && segqueue[at' + 1..] == b;
      var joinedRight := CoalesceRight(reserve, at', joinedLeft);
      joined := joinedLeft || joinedRight;
    }

    /** The bucket walk of `vmem_xfree`. */
    method FindAllocated(addr: nat) returns (seg: Option<Seg>)
      requires Valid()
      ensures seg.Some? ==> seg.value in segqueue && seg.value.typ.Allocated? && seg.value.base == addr
      ensures seg.None? ==> forall s | s in segqueue :: !(s.typ.Allocated? && s.base == addr)
    {
      hide FreeIndexed, AllocatedIndexed, Chain, Filter;
      var bucket := hashtab[Bucket(hash, addr)];
      var j := 0;
      while j < |bucket|
        invariant j <= |bucket|
        invariant forall n | 0 <= n < j :: bucket[n].base != addr
      {
        if bucket[j].base == addr {
          InHashtab(hash, segqueue, hashtab, Bucket(hash, addr), bucket[j]);
          return Some(bucket[j]);
        }
        j := j + 1;
      }
      forall s | s in segqueue ensures !(s.typ.Allocated? && s.base == addr) {
        OnHashtab(hash, segqueue, hashtab, s);
      }
      return None;
    }

    /** `vmem_destroy`: its assertions find every hash bucket empty exactly when nothing is allocated; then
        every segment's tag goes back. */
    method Destroy(reserve: TagReserve) returns (empty: bool)
      requires Valid()
      modifies reserve
      ensures empty <==> forall s | s in segqueue :: !s.typ.Allocated?
      ensures empty ==> reserve.nfreesegs == old(reserve.nfreesegs) + |segqueue|
    {
      hide Chain, FreeIndexed, AllocatedIndexed, Filter;
      var h: nat := 0;
      while h < BUCKETS
        invariant h <= BUCKETS && forall g | 0 <= g < h :: hashtab[g] == []
      {
        if hashtab[h] != [] {
          InHashtab(hash, segqueue, hashtab, h, hashtab[h][0]);
          return false;
        }
        h := h + 1;
      }
      forall s | s in segqueue ensures !s.typ.Allocated? {
        OnHashtab(hash, segqueue, hashtab, s);
      }
      var i := 0;
      while i < |segqueue|
        invariant i <= |segqueue| && reserve.nfreesegs == old(reserve.nfreesegs) + i
      {
        reserve.SegFree();
        i := i + 1;
      }
      return true;
    }
  }

  lemma Cut(a: seq<Seg>, t: Seg, b: seq<Seg>)
    ensures var q := a + [t] + b;
            && q[..|a|] == a && q[|a|] == t && q[|a| + 1..] == b
            && (a != [] ==> q[..|a| - 1] == a[..|a| - 1] && q[|a| - 1] == Last(a))
  {}

  /** Only a segment that joined a neighbour is free, and changed. */
  lemma UnlessJoined(a: seq<Seg>, s: Seg, b: seq<Seg>)
    requires Anchored(a) && s.typ.Allocated?
    ensures if JoinsLeft(a) || JoinsRight(b) then Coalesced(a, s, b).typ.Free?
            else Coalesced(a, s, b) == s && Before(a) == a && Beyond(b) == b
  {}

  lemma MarkerBefore(a: seq<Seg>, s: Seg, b: seq<Seg>)
    requires Chain(a + [s] + b, ORIGIN) && Anchored(a)
    ensures Last(Before(a)) !in Before(a)[..|Before(a)| - 1]
  {
    var q, n := a + [s] + b, |Before(a)| - 1;
    MarkerOnce(q, n);
    assert q[..n] == Before(a)[..n] && q[n] == Last(Before(a));
  }

  lemma FreePart(hash: nat -> nat, q: seq<Seg>, freelist: seq<seq<Seg>>, hashtab: seq<seq<Seg>>, spanlist: seq<Seg>)
    requires Indexed(hash, q, freelist, hashtab, spanlist)
    ensures FreeIndexed(q, freelist) && |freelist| == FREELISTS
  {}

  /** The groupings of the queue a right join goes through; `m` is the joined segment if it is
      itself listed. */
  lemma JoinRight(q: seq<Seg>, at: nat, m: seq<Seg>, t: Seg)
    requires at + 1 < |q| && (m == [] || m == [q[at]])
    ensures var l, b := q[..at], q[at + 2..];
            && q[at + 1..] != [] && q[at + 1..][0] == q[at + 1]
            && l + m + [q[at + 1]] + b == (if m == [] then l + q[at + 1..] else q)
            && q[at + 1] in l + m + [q[at + 1]] + b
            && q[at] in l + [q[at]] + ([t] + b)
            && q[at + 1 := t][..at] + q[at + 1 := t][at + 1..] == l + [t] + b
            && l + m + [t] + b == (if m == [] then l + [t] + b else l + m + ([t] + b))
            && l + ([t] + b) == l + [t] + b
  {
    var l, b := q[..at], q[at + 2..];
    assert (l + m + [q[at + 1]] + b)[|l + m|] == q[at + 1];
    assert (l + [q[at]] + ([t] + b))[at] == q[at];
    RightParts(q, at, t);
    if m == [] {
      assert l + m == l;
    }
  }

  lemma RightParts(q: seq<Seg>, at: nat, t: Seg)
    requires at + 1 < |q|
    ensures var l, s, r, b := q[..at], q[at], q[at + 1], q[at + 2..];
            && q[at + 1..] == [r] + b && l + [r] + b == l + q[at + 1..] && l + [s] + [r] + b == q
            && q[at + 1 := t][..at] + q[at + 1 := t][at + 1..] == l + [t] + b
            && l + ([t] + b) == l + [t] + b && l + [s] + [t] + b == l + [s] + ([t] + b)
  {}

  lemma FreeMiddle(a: seq<Seg>, s: Seg, b: seq<Seg>)
    requires Chain(a + [s] + b, ORIGIN) && s.typ.Allocated? && Anchored(a)
    ensures JoinsRight(b) ==> b == [b[0]] + Beyond(b)
    ensures JoinsLeft(a) ==> a == Before(a) + [Last(a)]
  {}

  lemma MarkerOnce(q: seq<Seg>, i: nat)
    requires Chain(q, ORIGIN) && i < |q|
    ensures q[i] !in q[..i]
  {
    forall j | 0 <= j < i ensures q[j] != q[i] { SegmentsDiffer(q, j, i); }
  }

  lemma SpanListRemove(a: seq<Seg>, s: Seg, b: seq<Seg>)
    requires s.IsSpan() && s !in a
    ensures var l := Filter(a, IsMarker()) + [s] + Filter(b, IsMarker());
            s in l && Without(l, s) == Filter(a, IsMarker()) + Filter(b, IsMarker())
  {
    FilterMember(a, IsMarker(), s);
    FirstOccurrence(Filter(a, IsMarker()), s, Filter(b, IsMarker()));
  }

  lemma FirstOccurrence(x: seq<Seg>, s: Seg, y: seq<Seg>)
    requires s !in x
    ensures s in x + [s] + y && Without(x + [s] + y, s) == x + y
  {
    var l := x + [s] + y;
    assert l[|x|] == s;
    var n := PositionOf(l, s);
    assert forall m | 0 <= m < |x| :: l[m] == x[m];
  }

  /** Sizes stay within the address width while coalescing. */
  lemma CoalescedSizes(a: seq<Seg>, s: Seg, b: seq<Seg>)
    requires Chain(a + [s] + b, ORIGIN) && s.typ.Allocated? && Anchored(a)
    ensures JoinsLeft(a) ==> 0 < Last(a).size && Last(a).size + s.size < ADDR_LIMIT
    ensures JoinsRight(b) ==> 0 < b[0].size
    ensures 0 < Coalesced(a, s, b).size < ADDR_LIMIT
  {
    CoalescedFits(a, s, b);
    var q := a + [s] + b;
    SegmentSizes(q, |a| - 1);
    if b != [] { SegmentSizes(q, |a| + 1); }
  }

  /** A segment that fits is never below the first size class searched. */
  lemma SearchStart(q: seq<Seg>, size: nat, min: nat, exact: bool)
    ensures forall s | s in q && Suits(s, size, min, exact) :: FreelistIndex(size) <= FreelistIndex(s.size)
  {
    forall s | s in q && Suits(s, size, min, exact) ensures FreelistIndex(size) <= FreelistIndex(s.size) {
      FreelistMonotone(size, s.size);
    }
  }

  lemma AllOnFreelists(q: seq<Seg>, s: Seg)
    requires Chain(q, ORIGIN) && s in q
    ensures FreelistIndex(s.size) < FREELISTS
  {
    var i := PositionOf(q, s);
    SegmentSizes(q, i);
    FreelistInRange(s.size);
  }

  lemma InsertTwice(q: seq<Seg>, at: nat, x: Seg, y: Seg)
    requires at <= |q|
    ensures var q1 := q[..at] + [x] + q[at..];
            at < |q1| && q1[..at + 1] + [y] + q1[at + 1..] == q[..at] + [x, y] + q[at..]
  {}

  lemma SplitInPlace(q: seq<Seg>, i: nat, l: seq<Seg>, r: seq<Seg>, t: Seg)
    requires i < |q|
    ensures var q1 := q[..i] + l + q[i..]; var n := i + |l|; var q2 := q1[..n + 1] + r + q1[n + 1..];
            && n < |q2| && q2[n := t] == q[..i] + (l + [t] + r) + q[i + 1..]
            && (r == [] ==> q2 == q1)
  {}

  lemma AddIndexed(hash: nat -> nat, q: seq<Seg>, fl: seq<seq<Seg>>, fl': seq<seq<Seg>>, hashtab: seq<seq<Seg>>, sl: seq<Seg>,
                   span: Seg, free: Seg)
    requires Indexed(hash, q, fl, hashtab, sl) && span.IsSpan() && free == Seg(Free, span.base, span.size)
    requires |fl'| == FREELISTS && OneMore(fl', fl, FreelistIndex(free.size), free)
    ensures var p := InsertPoint(q, span.base);
            Indexed(hash, AfterAdd(q, span.typ, span.base, span.size), fl', hashtab,
                    Filter(q[..p], IsMarker()) + [span] + Filter(q[p..], IsMarker()))
  {
    hide FreeIndexed, AllocatedIndexed, OneMore, Filter;
    var p := InsertPoint(q, span.base);
    var a, b := q[..p], q[p..];
    assert q == a + b;
    IndexedMarker(hash, a, span, b, fl, hashtab);
    var sl' := Filter(a, IsMarker()) + [span] + Filter(b, IsMarker());
    IndexedFree(hash, a + [span], free, b, fl', fl, hashtab, sl');
    assert a + [span] + [free] + b == AfterAdd(q, span.typ, span.base, span.size);
  }

  ghost predicate Inserted(rest: seq<Seg>, with: seq<seq<Seg>>, without: seq<seq<Seg>>) {
    |with| == |without| == FREELISTS && if rest == [] then with == without else OneMore(with, without, FreelistIndex(rest[0].size), rest[0])
  }

  /** Inserting the left-over piece (if there is one) keeps the indexes in step. */
  lemma RestIndexed(hash: nat -> nat, a: seq<Seg>, rest: seq<Seg>, b: seq<Seg>, with: seq<seq<Seg>>, without: seq<seq<Seg>>,
                    hashtab: seq<seq<Seg>>, spanlist: seq<Seg>)
    requires |rest| <= 1 && (rest != [] ==> rest[0].typ.Free?) && Inserted(rest, with, without)
    requires Indexed(hash, a + b, without, hashtab, spanlist)
    ensures Indexed(hash, a + rest + b, with, hashtab, spanlist)
  {
    if rest == [] {
      assert a + rest + b == a + b;
    } else {
      assert rest == [rest[0]];
      IndexedFree(hash, a, rest[0], b, with, without, hashtab, spanlist);
    }
  }

  lemma SplitIndexed(hash: nat -> nat, a: seq<Seg>, s: Seg, b: seq<Seg>, addr: nat, size: nat,
                     fl: seq<seq<Seg>>, fl1: seq<seq<Seg>>, fl2: seq<seq<Seg>>, fl3: seq<seq<Seg>>,
                     ht: seq<seq<Seg>>, ht': seq<seq<Seg>>, spanlist: seq<Seg>)
    requires Indexed(hash, a + [s] + b, fl, ht, spanlist) && Holds(s, addr, size)
    requires OneMore(fl, fl1, FreelistIndex(s.size), s)
    requires Inserted(LeftRest(s, addr), fl2, fl1) && Inserted(RightRest(s, addr, size), fl3, fl2)
    requires OneMore(ht', ht, Bucket(hash, addr), Seg(Allocated, addr, size))
    ensures Indexed(hash, AfterSplit(a, s, b, addr, size), fl3, ht', spanlist)
  {
    hide FreeIndexed, AllocatedIndexed, OneMore, Filter;
    var l, t, r := LeftRest(s, addr), Seg(Allocated, addr, size), RightRest(s, addr, size);
    IndexedFree(hash, a, s, b, fl, fl1, ht, spanlist);
    RestIndexed(hash, a, l, b, fl2, fl1, ht, spanlist);
    RestIndexed(hash, a + l, r, b, fl3, fl2, ht, spanlist);
    assert a + l + (r + b) == a + l + r + b;
    IndexedAllocated(hash, a + l, t, r + b, fl3, ht', ht, spanlist);
    assert a + l + [t] + (r + b) == AfterSplit(a, s, b, addr, size);
  }

  /** The first `i` spans of the span list are the markers left of the insertion point. */
  lemma SpanListSplit(q: seq<Seg>, base: nat, i: nat)
    requires Chain(q, ORIGIN)
    requires var l := Filter(q, IsMarker());
             i <= |l| && (forall j | 0 <= j < i :: l[j].base < base) && (i < |l| ==> base <= l[i].base)
    ensures var p := InsertPoint(q, base); var l := Filter(q, IsMarker());
            && Filter(q[..p], IsMarker()) == l[..i] && Filter(q[p..], IsMarker()) == l[i..]
            && (i < |l| ==> l[i] in q && PositionOf(q, l[i]) == p)
            && (i == |l| ==> p == |q|)
  {
    var p := InsertPoint(q, base);
    var l := Filter(q, IsMarker());
    var x, y := Filter(q[..p], IsMarker()), Filter(q[p..], IsMarker());
    assert q == q[..p] + q[p..];
    FilterConcat(q[..p], q[p..], IsMarker());
    forall s | s in x ensures s.base < base {
      FilterMember(q[..p], IsMarker(), s);
    }
    assert if p < |q| then y != [] && y[0] == q[p] else y == [];
    assert forall n | 0 <= n < |x| :: l[n] == x[n] && x[n] in x;
    assert y != [] ==> l[|x|] == y[0];
    assert |x| == i;
    if p < |q| {
      forall n: nat | n < p ensures q[n] != q[p] {
        SegmentsDiffer(q, n, p);
      }
    }
  }
}
