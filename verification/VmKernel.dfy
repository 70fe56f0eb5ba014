/** Kernel virtual memory: the wired arena stacked on the kernel map's arena
    (kernel-3/vm/vm_kernel.c), and the tag reserve both draw from, which is refilled by a call back
    into the allocator itself (kernel-3/kern/vmem.c). */
module VmKernel {
  import opened Common
  import opened VmemSegments
  import opened VmemEdits
  import opened VmemLedger
  import opened VmemIndex
  import opened Vmem
  import opened VmReserve

  const PGSIZE: nat := 4096
  const INT_LIMIT: nat := 0x8000_0000

  // ---------------------------------------------------------------------------------
  // The shape of the wired arena
  // ---------------------------------------------------------------------------------

  /** Imported spans only, each filled by one allocation of the same base and size. */
  predicate Paired(q: seq<Seg>) {
    q == [] ||
    (&& 2 <= |q| && q[0].typ.SpanImported? && q[1] == Seg(Allocated, q[0].base, q[0].size)
     && Paired(q[2..]))
  }

  lemma {:induction false} PairedConcat(a: seq<Seg>, b: seq<Seg>)
    requires Paired(a) && Paired(b)
    ensures Paired(a + b)
  {
    if a == [] {
      assert a + b == b;
    } else {
      assert (a + b)[2..] == a[2..] + b;
      PairedConcat(a[2..], b);
    }
  }

  lemma {:induction false} PairedCut(q: seq<Seg>, p: nat)
    requires Paired(q) && p <= |q| && (p == |q| || q[p].IsSpan())
    ensures Paired(q[..p]) && Paired(q[p..])
  {
    if p == 0 {
      assert q[..p] == [] && q[p..] == q;
    } else {
      assert p != 1;
      PairedCut(q[2..], p - 2);
      assert q[2..][..p - 2] == q[..p][2..] && q[2..][p - 2..] == q[p..];
    }
  }

  lemma {:induction false} PairedAt(q: seq<Seg>, i: nat)
    requires Paired(q) && i < |q|
    ensures !q[i].typ.Free? && !q[i].typ.Span?
    ensures q[i].typ.Allocated? ==>
              && 0 < i && q[i - 1] == Seg(SpanImported, q[i].base, q[i].size)
              && (i + 1 == |q| || q[i + 1].typ.SpanImported?)
    ensures q[i].IsSpan() ==> i + 1 < |q| && q[i + 1] == Seg(Allocated, q[i].base, q[i].size)
  {
    if 2 <= i {
      PairedAt(q[2..], i - 2);
    } else if i == 1 && 2 < |q| {
      assert q[2..][0] == q[2];
    }
  }

  /** A span imported into a paired arena and wholly allocated leaves it paired. */
  lemma ImportPaired(q: seq<Seg>, base: nat, size: nat, i: nat)
    requires Paired(q) && Chain(q, ORIGIN) && CanAdd(q, SpanImported, base, size)
    requires var q1 := AfterAdd(q, SpanImported, base, size); i < |q1| && q1[i] == Seg(Free, base, size)
    ensures var q1 := AfterAdd(q, SpanImported, base, size);
            var q2 := AfterSplit(q1[..i], q1[i], q1[i + 1..], base, size);
            && Paired(q2)
            && q2 == q[..InsertPoint(q, base)] + [Seg(SpanImported, base, size), Seg(Allocated, base, size)] + q[InsertPoint(q, base)..]
  {
    var p := InsertPoint(q, base);
    var q1 := AfterAdd(q, SpanImported, base, size);
    AddKeepsOrder(q, SpanImported, base, size);
    assert q1[p + 1] == Seg(Free, base, size);
    if i < p + 1 { SegmentsDiffer(q1, i, p + 1); }
    if p + 1 < i { SegmentsDiffer(q1, p + 1, i); }
    var pair := [Seg(SpanImported, base, size), Seg(Allocated, base, size)];
    assert q1[..i] == q[..p] + [Seg(SpanImported, base, size)] && q1[i + 1..] == q[p..];
    assert AfterSplit(q1[..i], q1[i], q1[i + 1..], base, size) == q[..p] + pair + q[p..];
    PairedCut(q, p);
    assert pair[2..] == [];
    PairedConcat(q[..p], pair);
    PairedConcat(q[..p] + pair, q[p..]);
  }

  /** A free in a paired arena always gives its span back, and nothing is dropped or merged. */
  lemma FreePaired(q: seq<Seg>, i: nat)
    requires Paired(q) && i < |q| && q[i].typ.Allocated?
    ensures 0 < i && Anchored(q[..i])
    ensures AfterFree(q[..i], q[i], q[i + 1..])
         == Freed(q[..i - 1] + q[i + 1..], Some(Seg(SpanImported, q[i].base, q[i].size)), false)
    ensures Paired(q[..i - 1] + q[i + 1..])
  {
    PairedAt(q, i);
    var a, b := q[..i], q[i + 1..];
    assert Last(a) == q[i - 1];
    assert !JoinsLeft(a) && !JoinsRight(b) && Before(a) == a && Beyond(b) == b;
    assert a[..|a| - 1] == q[..i - 1];
    PairedCut(q, i - 1);
    PairedCut(q, i + 1);
    PairedConcat(q[..i - 1], b);
  }

  // ---------------------------------------------------------------------------------
  // Live allocations
  // ---------------------------------------------------------------------------------

  lemma AllocationMember(q: seq<Seg>, s: Seg)
    requires Chain(q, ORIGIN)
    ensures Allocations(q)[s] == if s in q && s.typ.Allocated? then 1 else 0
  {
    FilterCount(q, IsOf(Allocated), s);
    if s in q { OccursOnce(q, s); }
  }

  lemma AllocationsDisjoint(q: seq<Seg>, s: Seg, t: Seg)
    requires Chain(q, ORIGIN) && s in q && t in q && !s.IsSpan() && !t.IsSpan() && s != t
    ensures s.End() <= t.base || t.End() <= s.base
  {
    var i, j := PositionOf(q, s), PositionOf(q, t);
    if i < j { SegmentsInOrder(q, i, j); } else { SegmentsInOrder(q, j, i); }
  }

  /** The page addresses of an allocation. */
  predicate PageOf(s: Seg, v: nat) {
    s.base <= v < s.End() && (v - s.base) % PGSIZE == 0
  }

  ghost predicate Backed(wired: seq<Seg>, mapped: map<nat, nat>) {
    forall v :: v in mapped <==> exists s :: s in wired && s.typ.Allocated? && PageOf(s, v)
  }

  ghost predicate BackedBut(wired: seq<Seg>, s: Seg, mapped: map<nat, nat>) {
    forall v :: v in mapped <==> PageOf(s, v) || exists t :: t in wired && t.typ.Allocated? && PageOf(t, v)
  }

  /** Whole pages, and few enough for the int counters of the page loops. */
  predicate PageSized(q: seq<Seg>) {
    forall s | s in q && s.typ.Allocated? :: 0 < s.size < INT_LIMIT && s.size % PGSIZE == 0
  }

  predicate OneFrameEach(mapped: map<nat, nat>) {
    forall v, w | v in mapped && w in mapped && v != w :: mapped[v] != mapped[w]
  }

  function Wired(base: nat, size: nat): Seg { Seg(Allocated, base, size) }

  /** What the rest of the kernel can see: wired allocations, kernel map allocations, page table. */
  datatype VmView = VmView(wired: multiset<Seg>, kmap: multiset<Seg>, mapped: map<nat, nat>)

  /** Nothing allocated or mapped in `x` is taken away in `y`. */
  ghost predicate Grows(x: VmView, y: VmView) {
    && x.wired <= y.wired && x.kmap <= y.kmap
    && forall v | v in x.mapped :: v in y.mapped && y.mapped[v] == x.mapped[v]
  }

  /** The allocation `s` appears in both arenas, with every page of it newly mapped. */
  ghost predicate Extended(x: VmView, y: VmView, s: Seg) {
    && x.wired + multiset{s} <= y.wired && x.kmap + multiset{s} <= y.kmap
    && forall v | PageOf(s, v) :: v in y.mapped && v !in x.mapped
  }

  /** ... and nothing else does. */
  ghost predicate ExtendedOnly(x: VmView, y: VmView, s: Seg) {
    && y.wired == x.wired + multiset{s} && y.kmap == x.kmap + multiset{s}
    && forall v :: v in y.mapped <==> v in x.mapped || PageOf(s, v)
  }

  lemma GrowsThenExtends(x: VmView, y: VmView, z: VmView, s: Seg)
    requires Grows(x, y) && Grows(y, z) && Extended(y, z, s)
    ensures Grows(x, z) && Extended(x, z, s)
  {}

  /** Once the kernel map has the allocation and its pages are mapped, the wired arena alone is to follow. */
  lemma ImportExtends(x: VmView, y: VmView, s: Seg, z: VmView)
    requires Grows(x, y) && x.kmap + multiset{s} <= y.kmap && forall v | PageOf(s, v) :: v in y.mapped && v !in x.mapped
    requires z == VmView(y.wired + multiset{s}, y.kmap, y.mapped)
    ensures Grows(x, z) && Extended(x, z, s)
    ensures y.wired == x.wired && y.kmap == x.kmap + multiset{s} && (forall v :: v in y.mapped <==> v in x.mapped || PageOf(s, v))
        ==> ExtendedOnly(x, z, s)
  {}

  /** No segment of the arena is large enough: the condition under which an import is fatal. */
  predicate Exhausted(q: seq<Seg>, size: nat) {
    forall s | s in q :: !Suits(s, size, 0, false)
  }

  class KernelVm {
    const reserve: TagReserve
    const kmap: Arena
    const wired: Arena
    var mapped: map<nat, nat>   // the tracked part of the kernel page table: page address to frame
    var frames: set<nat>        // frames on the kernel memory queue

    ghost predicate Valid()
      reads this, kmap, wired
    {
      && kmap != wired && kmap.Valid() && wired.Valid()
      && Paired(wired.segqueue) && PageSized(wired.segqueue)
      && Allocations(wired.segqueue) <= Allocations(kmap.segqueue)
      && Backed(wired.segqueue, mapped)
      && OneFrameEach(mapped) && frames == mapped.Values
    }

    ghost function View(): VmView
      reads this, kmap, wired
    {
      VmView(Allocations(wired.segqueue), Allocations(kmap.segqueue), mapped)
    }

    /** Valid except that the pages of `s`, allocated in the kernel map, are mapped but not yet known
        to the wired arena. */
    ghost predicate Importing(s: Seg)
      reads this, kmap, wired
    {
      && kmap != wired && kmap.Valid() && wired.Valid()
      && Paired(wired.segqueue) && PageSized(wired.segqueue)
      && Allocations(wired.segqueue) + multiset{s} <= Allocations(kmap.segqueue)
      && BackedBut(wired.segqueue, s, mapped)
      && OneFrameEach(mapped) && frames == mapped.Values
    }

    /** `vm_kernel_init`. */
    constructor (hash: nat -> nat, base: nat, size: nat)
      requires 0 < size && base + size < ADDR_LIMIT
      ensures Valid() && fresh(reserve) && fresh(kmap) && fresh(wired)
      ensures wired.segqueue == [] && mapped == map[]
      ensures kmap.segqueue == [Seg(Span, base, size), Seg(Free, base, size)]
      ensures reserve.nfreesegs == BOOT_TAGS
    {
      reserve := new TagReserve(RESERVE_LOW);
      kmap := new Arena(hash);
      wired := new Arena(hash);
      mapped, frames := map[], {};
      new;
      var _ := kmap.AddInternal(reserve, Span, base, size);
      assert kmap.segqueue == [Seg(Span, base, size), Seg(Free, base, size)];
    }

    /** `vm_pagealloc` on the kernel memory queue. */
    method PageAlloc() returns (frame: nat)
      modifies `frames
      ensures frame !in old(frames) && frames == old(frames) + {frame}
    {
      FreshNat(frames);
      frame :| frame !in frames;
      frames := frames + {frame};
    }

    /** The mapping loop of `internal_allocwired`. */
    method MapPages(base: nat, size: nat)
      requires 0 < size < INT_LIMIT && size % PGSIZE == 0
      requires forall v | v in mapped :: !PageOf(Wired(base, size), v)
      requires OneFrameEach(mapped) && frames == mapped.Values
      modifies `mapped, `frames
      ensures forall v :: v in mapped <==> v in old(mapped) || PageOf(Wired(base, size), v)
      ensures forall v | v in old(mapped) :: mapped[v] == old(mapped)[v]
      ensures OneFrameEach(mapped) && frames == mapped.Values
    {
      var i := 0;
      while i + 1 < size
        invariant i <= size && i % PGSIZE == 0
        invariant forall v :: v in mapped <==> v in old(mapped) || PageOf(Wired(base, i), v)
        invariant forall v | v in old(mapped) :: mapped[v] == old(mapped)[v]
        invariant OneFrameEach(mapped) && frames == mapped.Values
      {
        var page := PageAlloc();
        ghost var m := mapped;
        assert base + i !in m by {
          assert PageOf(Wired(base, size), base + i);
        }
        mapped := mapped[base + i := page];
        NextPage(base, i);
        AddedFrame(m, base + i, page);
        i := i + PGSIZE;
      }
    }

    /** The unmapping loop of `internal_freewired`; each frame goes back to the free queue. */
    method UnmapPages(base: nat, size: nat)
      requires size < INT_LIMIT && size % PGSIZE == 0
      requires forall v | PageOf(Wired(base, size), v) :: v in mapped
      requires OneFrameEach(mapped) && frames == mapped.Values
      modifies `mapped, `frames
      ensures forall v :: v in mapped <==> v in old(mapped) && !PageOf(Wired(base, size), v)
      ensures forall v | v in mapped :: mapped[v] == old(mapped)[v]
      ensures OneFrameEach(mapped) && frames == mapped.Values
    {
      var i := 0;
      while i < size
        invariant i % PGSIZE == 0 && i <= size
        invariant forall v :: v in mapped <==> v in old(mapped) && !PageOf(Wired(base, i), v)
        invariant forall v | v in mapped :: mapped[v] == old(mapped)[v]
        invariant OneFrameEach(mapped) && frames == mapped.Values
      {
        ghost var m := mapped;
        assert base + i in m by {
          assert PageOf(Wired(base, size), base + i) && !PageOf(Wired(base, i), base + i);
        }
        var page := mapped[base + i];
        mapped := mapped - {base + i};
        frames := frames - {page};
        RemovedFrame(m, base + i);
        NextPage(base, i);
        i := i + PGSIZE;
      }
    }

    /** `vmem_xalloc` on the kernel map's arena. */
    method XAllocKmap(size: nat, bootstrap: bool) returns (r: Option<nat>)
      requires Valid() && 0 < size && (if bootstrap then 2 else PEAK) <= reserve.nfreesegs
      modifies this, kmap, wired, reserve
      ensures r.None? ==> Exhausted(kmap.segqueue, size) || Exhausted(kmap.segqueue, PGSIZE)
      ensures r.Some? ==> Valid() && Grows(old(View()), View())
      ensures r.Some? ==> var s := Wired(r.value, size);
              && old(Allocations(kmap.segqueue)) + multiset{s} <= Allocations(kmap.segqueue)
              && s !in Allocations(wired.segqueue)
      ensures bootstrap && r.Some? ==>
                && wired.segqueue == old(wired.segqueue) && mapped == old(mapped)
                && Allocations(kmap.segqueue) == old(Allocations(kmap.segqueue)) + multiset{Wired(r.value, size)}
      ensures r.Some? ==> KmapStep(old(reserve.nfreesegs), bootstrap, reserve.nfreesegs)
      decreases !bootstrap, 1
    {
      hide Chain, Indexed, Paired, Filter, Allocations, Backed, OneFrameEach;
      if !bootstrap {
        var ok := SegRefill();
        if !ok { return None; }
      }
      ghost var q := kmap.segqueue;
      ghost var i;
      r, i := kmap.XAlloc(reserve, size, 0, false);
      if r.Some? {
        FirstFit(q, i, r.value, size, kmap.segqueue);
      }
    }

    /** `seg_refill`. */
    method SegRefill() returns (ok: bool)
      requires Valid() && PEAK <= reserve.nfreesegs
      modifies this, kmap, wired, reserve
      ensures ok ==> Valid() && Grows(old(View()), View())
      ensures !ok ==> Exhausted(kmap.segqueue, PGSIZE)
      ensures old(reserve.nfreesegs) >= RESERVE_LOW ==> ok && View() == old(View())
      ensures ok ==> Refill(old(reserve.nfreesegs), reserve.nfreesegs)
      decreases true, 0
    {
      hide Chain, Indexed, Paired, Filter, Allocations, Backed, OneFrameEach;
      if reserve.nfreesegs >= RESERVE_LOW {
        return true;
      }
      var block := VmKalloc(1, true);
      if block.None? {
        return false;
      }
      ghost var n := reserve.nfreesegs;
      for i := 0 to TAGS_PER_BLOCK
        modifies reserve
        invariant reserve.nfreesegs == n + i
      {
        reserve.SegFree();
      }
      return true;
    }

    /** `internal_allocwired`. */
    method InternalAllocWired(size: nat, bootstrap: bool) returns (r: Option<nat>)
      requires Valid() && 0 < size < INT_LIMIT && size % PGSIZE == 0 && (if bootstrap then 2 else PEAK) <= reserve.nfreesegs
      modifies this, kmap, wired, reserve
      ensures r.None? ==> Exhausted(kmap.segqueue, size) || Exhausted(kmap.segqueue, PGSIZE)
      ensures r.Some? ==>
                && Importing(Wired(r.value, size)) && Grows(old(View()), View())
                && (forall v | PageOf(Wired(r.value, size), v) :: v in mapped && v !in old(mapped))
                && old(Allocations(kmap.segqueue)) + multiset{Wired(r.value, size)} <= Allocations(kmap.segqueue)
                && CanAdd(wired.segqueue, SpanImported, r.value, size)
      ensures bootstrap && r.Some? ==>
                && wired.segqueue == old(wired.segqueue)
                && Allocations(kmap.segqueue) == old(Allocations(kmap.segqueue)) + multiset{Wired(r.value, size)}
                && forall v :: v in mapped <==> v in old(mapped) || PageOf(Wired(r.value, size), v)
      ensures r.Some? ==> KmapStep(old(reserve.nfreesegs), bootstrap, reserve.nfreesegs)
      decreases !bootstrap, 2, 0
    {
      hide Chain, Indexed, Paired, Filter, Allocations;
      r := XAllocKmap(size, bootstrap);
      if r.None? {
        return;
      }
      ImportIsNew(kmap.segqueue, wired.segqueue, Wired(r.value, size), mapped);
      MapPages(r.value, size);
    }

    /** `vmem_xalloc` on the wired arena: no segment there is ever free, so it always imports. */
    method XAllocWired(size: nat, bootstrap: bool) returns (r: Option<nat>)
      requires Valid() && 0 < size < INT_LIMIT && size % PGSIZE == 0 && PEAK <= reserve.nfreesegs
      modifies this, kmap, wired, reserve
      ensures r.None? ==> Exhausted(kmap.segqueue, size) || Exhausted(kmap.segqueue, PGSIZE)
      ensures r.Some? ==> Valid() && Grows(old(View()), View())
      ensures r.Some? ==> Extended(old(View()), View(), Wired(r.value, size))
      ensures bootstrap && r.Some? ==> ExtendedOnly(old(View()), View(), Wired(r.value, size))
      ensures bootstrap && r.Some? ==> old(reserve.nfreesegs) - 3 <= reserve.nfreesegs <= old(reserve.nfreesegs) - 2
      ensures !bootstrap && r.Some? ==> TagStep(old(reserve.nfreesegs), Kalloc, reserve.nfreesegs)
      decreases !bootstrap, 3
    {
      hide TagStep, KmapStep, Grows, Extended, ExtendedOnly, Chain, Indexed, Paired, Filter, Allocations, OneFrameEach, Backed;
      if !bootstrap {
        var ok := SegRefill();
        if !ok { return None; }
      }
      ghost var m, v := reserve.nfreesegs, View();
      reserve.SegAlloc();
      reserve.SegAlloc();
      var found := wired.Search(size, 0, false);
      PairedHasNoFree(wired.segqueue);
      r := TryImport(size, bootstrap);
      if r.Some? {
        KallocLeaves(old(reserve.nfreesegs), bootstrap, m, reserve.nfreesegs);
        if !bootstrap {
          GrowsThenExtends(old(View()), v, View(), Wired(r.value, size));
        }
      }
    }

    /** `try_import` and the split of the new span, which the request fills. */
    method TryImport(size: nat, bootstrap: bool) returns (r: Option<nat>)
      requires Valid() && 0 < size < INT_LIMIT && size % PGSIZE == 0 && (if bootstrap then 3 else PEAK) <= reserve.nfreesegs
      modifies this, kmap, wired, reserve
      ensures r.None? ==> Exhausted(kmap.segqueue, size) || Exhausted(kmap.segqueue, PGSIZE)
      ensures r.Some? ==> Valid() && Grows(old(View()), View())
      ensures r.Some? ==> Extended(old(View()), View(), Wired(r.value, size))
      ensures bootstrap && r.Some? ==> ExtendedOnly(old(View()), View(), Wired(r.value, size))
      ensures r.Some? ==> KmapStep(old(reserve.nfreesegs), bootstrap, reserve.nfreesegs)
      decreases !bootstrap, 2, 1
    {
      hide KmapStep, Chain, Indexed, Paired, Filter, Allocations, Fits, AfterAdd, AfterSplit, InsertPoint, Backed, PageSized, OneFrameEach;
      hide Grows, Extended, ExtendedOnly, Exhausted;
      r := InternalAllocWired(size, bootstrap);
      if r.None? {
        return;
      }
      KmapLeaves(old(reserve.nfreesegs), bootstrap, reserve.nfreesegs);
      ghost var q, s, v := wired.segqueue, Wired(r.value, size), View();
      var freeseg := wired.AddInternal(reserve, SpanImported, r.value, size);
      ghost var i := wired.SplitSeg(reserve, freeseg, r.value, size);
      ImportPaired(q, r.value, size, i);
      ImportAllocates(q, r.value, size, wired.segqueue);
      ImportBacked(q, wired.segqueue, s, mapped);
      ImportExtends(old(View()), v, s, View());
    }

    /** `vm_kalloc`. */
    method VmKalloc(npages: nat, bootstrap: bool) returns (r: Option<nat>)
      requires Valid() && 0 < npages && npages * PGSIZE < INT_LIMIT && PEAK <= reserve.nfreesegs
      modifies this, kmap, wired, reserve
      ensures r.None? ==> Exhausted(kmap.segqueue, npages * PGSIZE) || Exhausted(kmap.segqueue, PGSIZE)
      ensures r.Some? ==> Valid() && Grows(old(View()), View())
      ensures r.Some? ==> Extended(old(View()), View(), Wired(r.value, npages * PGSIZE))
      ensures bootstrap && r.Some? ==> ExtendedOnly(old(View()), View(), Wired(r.value, npages * PGSIZE))
      ensures bootstrap && r.Some? ==> old(reserve.nfreesegs) - 3 <= reserve.nfreesegs <= old(reserve.nfreesegs) - 2
      ensures !bootstrap && r.Some? ==> TagStep(old(reserve.nfreesegs), Kalloc, reserve.nfreesegs)
      decreases !bootstrap, 4
    {
      r := XAllocWired(npages * PGSIZE, bootstrap);
    }

    /** `vm_kfree`. Freeing an address no wired allocation starts at is fatal (`None`). Otherwise the
        range leaves both arenas, exactly its pages are unmapped and their frames go back. */
    method VmKfree(addr: nat) returns (freed: Option<nat>)
      requires Valid()
      modifies this, kmap, wired, reserve
      ensures Valid()
      ensures freed.None? <==> forall s | s in old(wired.segqueue) :: !(s.typ.Allocated? && s.base == addr)
      ensures freed.None? ==> View() == old(View())
      ensures freed.Some? ==> var s := Wired(addr, freed.value);
              && old(View().wired) == View().wired + multiset{s}
              && old(View().kmap) == View().kmap + multiset{s}
              && (forall v :: v in mapped <==> v in old(mapped) && !PageOf(s, v))
              && (forall v | v in mapped :: mapped[v] == old(mapped)[v])
      ensures TagStep(old(reserve.nfreesegs), Release, reserve.nfreesegs)
    {
      hide Chain, Indexed, Paired, Filter, Allocations, Fits, AfterFree, OneFrameEach;
      ghost var q := wired.segqueue;
      var released;
      ghost var i;
      freed, released, i := wired.XFree(reserve, addr);
      if freed.None? {
        return;
      }
      WiredFree(q, i, kmap.segqueue, mapped);
      InternalFreeWired(released.value.base, released.value.size);
      StillBacked(q, wired.segqueue, q[i], mapped, old(mapped));
      LessOnBothSides(Allocations(wired.segqueue), Allocations(kmap.segqueue), Wired(addr, freed.value));
      assert kmap.Valid() && wired.Valid();
    }

    /** `internal_freewired`: the kernel map lets go of the range, then its pages are unmapped. */
    method InternalFreeWired(base: nat, size: nat)
      requires kmap.Valid() && Wired(base, size) in kmap.segqueue
      requires size < INT_LIMIT && size % PGSIZE == 0
      requires forall v | PageOf(Wired(base, size), v) :: v in mapped
      requires OneFrameEach(mapped) && frames == mapped.Values
      modifies this, kmap, reserve
      ensures kmap.Valid() && old(Allocations(kmap.segqueue)) == Allocations(kmap.segqueue) + multiset{Wired(base, size)}
      ensures forall v :: v in mapped <==> v in old(mapped) && !PageOf(Wired(base, size), v)
      ensures forall v | v in mapped :: mapped[v] == old(mapped)[v]
      ensures OneFrameEach(mapped) && frames == mapped.Values
      ensures reserve.nfreesegs >= old(reserve.nfreesegs)
    {
      hide Chain, Indexed, Filter, Allocations, Fits, AfterFree, OneFrameEach;
      ghost var q := kmap.segqueue;
      var r, _, i := kmap.XFree(reserve, base);
      KmapFree(q, i, Wired(base, size));
      UnmapPages(base, size);
    }
  }

  lemma AllocatedBaseUnique(q: seq<Seg>, s: Seg, t: Seg)
    requires Chain(q, ORIGIN) && s in q && t in q && s.typ.Allocated? && t.typ.Allocated? && s.base == t.base
    ensures s == t
  {
    if s != t {
      AllocationsDisjoint(q, s, t);
      SegmentSizes(q, PositionOf(q, s));
      SegmentSizes(q, PositionOf(q, t));
    }
  }

  lemma KmapFree(q: seq<Seg>, i: nat, s: Seg)
    requires Chain(q, ORIGIN) && i < |q| && q[i].typ.Allocated? && s in q && s.typ.Allocated? && s.base == q[i].base && Anchored(q[..i])
    ensures q[i] == s
    ensures Allocations(q) == Allocations(AfterFree(q[..i], q[i], q[i + 1..]).queue) + multiset{s}
    ensures |AfterFree(q[..i], q[i], q[i + 1..]).queue| <= |q|
  {
    AllocatedBaseUnique(q, q[i], s);
    assert q == q[..i] + [q[i]] + q[i + 1..];
    FreeReleasesOne(q[..i], q[i], q[i + 1..]);
  }

  /** What a free in the wired arena hands to the kernel map. */
  lemma WiredFree(q: seq<Seg>, i: nat, kq: seq<Seg>, mapped: map<nat, nat>)
    requires Chain(q, ORIGIN) && Paired(q) && PageSized(q) && i < |q| && q[i].typ.Allocated? && Anchored(q[..i])
    requires Chain(kq, ORIGIN) && Allocations(q) <= Allocations(kq) && Backed(q, mapped)
    ensures var r := AfterFree(q[..i], q[i], q[i + 1..]);
            && r.released == Some(Seg(SpanImported, q[i].base, q[i].size))
            && Paired(r.queue) && PageSized(r.queue)
            && Allocations(q) == Allocations(r.queue) + multiset{q[i]}
            && |r.queue| <= |q|
    ensures q[i] in kq && 0 < q[i].size < INT_LIMIT && q[i].size % PGSIZE == 0
    ensures forall v | PageOf(q[i], v) :: v in mapped
  {
    hide Paired, Chain, Filter, AfterFree, Allocations;
    FreePaired(q, i);
    assert q == q[..i] + [q[i]] + q[i + 1..];
    FreeReleasesOne(q[..i], q[i], q[i + 1..]);
    AllocationMember(q, q[i]);
    AllocationMember(kq, q[i]);
    RestInQueue(q, i);
  }

  lemma RestInQueue(q: seq<Seg>, i: nat)
    requires 0 < i < |q|
    ensures forall s | s in q[..i - 1] + q[i + 1..] :: s in q
  {}

  lemma LessOnBothSides(x: multiset<Seg>, y: multiset<Seg>, s: Seg)
    requires x + multiset{s} <= y + multiset{s}
    ensures x <= y
  {
    forall t: Seg ensures x[t] <= y[t] {
      assert (x + multiset{s})[t] <= (y + multiset{s})[t];
    }
  }

  lemma StillBacked(q: seq<Seg>, q': seq<Seg>, s: Seg, mapped: map<nat, nat>, before: map<nat, nat>)
    requires Chain(q, ORIGIN) && Chain(q', ORIGIN) && s.typ.Allocated?
    requires Allocations(q) == Allocations(q') + multiset{s} && Backed(q, before)
    requires forall v :: v in mapped <==> v in before && !PageOf(s, v)
    ensures Backed(q', mapped)
  {
    forall t: Seg | t.typ.Allocated? ensures t in q' <==> t in q && t != s {
      AllocationMember(q, t);
      AllocationMember(q', t);
    }
    AllocationMember(q, s);
    forall t | t in q' && t.typ.Allocated? ensures t.End() <= s.base || s.End() <= t.base {
      AllocationsDisjoint(q, s, t);
    }
  }

  /** An allocation anywhere adds one range that was not live before, and at most one segment. */
  lemma FirstFit(q: seq<Seg>, i: nat, addr: nat, size: nat, q': seq<Seg>)
    requires i < |q| && Suits(q[i], size, 0, false) && addr == PlaceIn(q[i], 0, false) && 0 < size
    requires Chain(q', ORIGIN) && q' == AfterSplit(q[..i], q[i], q[i + 1..], addr, size)
    ensures Allocations(q') == Allocations(q) + multiset{Wired(addr, size)}
    ensures Wired(addr, size) !in Allocations(q)
    ensures |q| <= |q'| <= |q| + 1
  {
    hide Chain, Filter;
    assert q == q[..i] + [q[i]] + q[i + 1..];
    SplitAllocatesOne(q[..i], q[i], q[i + 1..], addr, size);
    AllocationMember(q', Wired(addr, size));
  }

  lemma PairedHasNoFree(q: seq<Seg>)
    requires Paired(q)
    ensures forall s | s in q :: !s.typ.Free?
  {
    forall i | 0 <= i < |q| ensures !q[i].typ.Free? { PairedAt(q, i); }
  }

  /** A fresh allocation of the kernel map can be imported: it touches no wired span, and none of its
      pages is mapped. */
  lemma ImportIsNew(kq: seq<Seg>, wq: seq<Seg>, s: Seg, mapped: map<nat, nat>)
    requires Chain(kq, ORIGIN) && Chain(wq, ORIGIN) && Paired(wq) && s.typ.Allocated?
    requires Allocations(wq) <= Allocations(kq) && s in Allocations(kq) && s !in Allocations(wq)
    requires Backed(wq, mapped)
    ensures CanAdd(wq, SpanImported, s.base, s.size)
    ensures forall v | v in mapped :: !PageOf(s, v)
  {
    AllocationMember(kq, s);
    var n := PositionOf(kq, s);
    SegmentSizes(kq, n);
    forall t | t in wq && t.typ.Allocated? ensures t.End() <= s.base || s.End() <= t.base {
      AllocationMember(wq, t);
      AllocationMember(kq, t);
      AllocationsDisjoint(kq, s, t);
    }
    forall t | t in wq && t.IsSpan() ensures !t.Overlaps(s.base, s.End()) {
      var i := PositionOf(wq, t);
      PairedAt(wq, i);
      assert wq[i + 1] in wq;
    }
  }

  lemma ImportAllocates(q: seq<Seg>, base: nat, size: nat, q': seq<Seg>)
    requires var p := InsertPoint(q, base);
             q' == q[..p] + [Seg(SpanImported, base, size), Wired(base, size)] + q[p..]
    ensures Allocations(q') == Allocations(q) + multiset{Wired(base, size)}
    ensures forall s: Seg | s.typ.Allocated? :: s in q' <==> s in q || s == Wired(base, size)
  {
    hide Filter;
    var p, f := InsertPoint(q, base), IsOf(Allocated);
    var span, own := Seg(SpanImported, base, size), Wired(base, size);
    assert q == q[..p] + q[p..];
    assert q' == (q[..p] + [span]) + [own] + q[p..];
    FilterInsert(q[..p] + [span], own, q[p..], f);
    FilterInsert(q[..p], span, q[p..], f);
    assert q[..p] + [span] + q[p..] == (q[..p] + [span]) + q[p..];
    Members(q[..p], span, own, q[p..]);
  }

  lemma ImportBacked(q: seq<Seg>, q': seq<Seg>, s: Seg, mapped: map<nat, nat>)
    requires BackedBut(q, s, mapped) && PageSized(q) && s.typ.Allocated? && 0 < s.size < INT_LIMIT && s.size % PGSIZE == 0
    requires forall t: Seg | t.typ.Allocated? :: t in q' <==> t in q || t == s
    ensures Backed(q', mapped) && PageSized(q')
  {}

  lemma Members(a: seq<Seg>, x: Seg, y: Seg, b: seq<Seg>)
    ensures forall s :: s in a + [x, y] + b <==> s in a + b || s == x || s == y
  {
    assert forall s :: s in [x, y] <==> s == x || s == y;
  }

  lemma NextPage(base: nat, i: nat)
    requires i % PGSIZE == 0
    ensures forall v :: PageOf(Wired(base, i + PGSIZE), v) <==> PageOf(Wired(base, i), v) || v == base + i
  {}

  lemma AddedFrame(m: map<nat, nat>, v: nat, f: nat)
    requires OneFrameEach(m) && f !in m.Values && v !in m
    ensures OneFrameEach(m[v := f]) && m[v := f].Values == m.Values + {f}
  {
    var m' := m[v := f];
    forall x | x in m.Values + {f} ensures x in m'.Values {
      if x == f {
        assert m'[v] == f;
      } else {
        var w :| w in m && m[w] == x;
        assert m'[w] == x;
      }
    }
    forall w | w in m ensures m[w] != f {
      assert m[w] in m.Values;
    }
  }

  lemma RemovedFrame(m: map<nat, nat>, v: nat)
    requires OneFrameEach(m) && v in m
    ensures OneFrameEach(m - {v}) && (m - {v}).Values == m.Values - {m[v]}
  {
    var m' := m - {v};
    forall x | x in m.Values - {m[v]} ensures x in m'.Values {
      var w :| w in m && m[w] == x;
      assert w in m' && m'[w] == x;
    }
  }
}
