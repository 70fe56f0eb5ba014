/** Address-space layout: map entries over a map's own arena, and fork (kernel-3/vm/vm.c). */
module VmMap {
  import opened Common
  import opened VmemSegments
  import opened VmemEdits
  import opened VmemLedger
  import opened VmemIndex
  import opened Vmem
  import opened VmKernel
  import opened VmReserve

  const USER_BASE: nat := 0x1000
  const USER_SIZE: nat := 0x1_0000_0000

  /** `end` is exclusive; the object is named by a number. */
  datatype Entry = Entry(start: nat, end: nat, offset: nat, obj: nat)

  function RangeOf(e: Entry): Seg { Wired(e.start, if e.start <= e.end then e.end - e.start else 0) }

  function Ranges(es: seq<Entry>): (r: seq<Seg>)
    ensures |r| == |es| && forall i | 0 <= i < |es| :: r[i] == RangeOf(es[i])
  {
    seq(|es|, i requires 0 <= i < |es| => RangeOf(es[i]))
  }

  // ---------------------------------------------------------------------------------
  // Tilings: an arena that has only ever been allocated from
  // ---------------------------------------------------------------------------------

  /** Segments without gaps from `lo` to `hi`, no two free ones side by side; `free` says whether
      the segment before them is free. */
  predicate Tiles(r: seq<Seg>, lo: nat, free: bool, hi: nat) {
    if r == [] then lo == hi
    else
      && r[0].base == lo && 0 < r[0].size && !r[0].IsSpan() && !(free && r[0].typ.Free?)
      && Tiles(r[1..], r[0].End(), r[0].typ.Free?, hi)
  }

  function TileEnd(r: seq<Seg>, lo: nat): nat { if r == [] then lo else Last(r).End() }

  predicate EndsFree(r: seq<Seg>, free: bool) { if r == [] then free else Last(r).typ.Free? }

  lemma {:induction false} TilesConcat(a: seq<Seg>, b: seq<Seg>, lo: nat, free: bool, hi: nat)
    ensures Tiles(a + b, lo, free, hi)
       <==> Tiles(a, lo, free, TileEnd(a, lo)) && Tiles(b, TileEnd(a, lo), EndsFree(a, free), hi)
  {
    if a == [] {
      assert a + b == b;
    } else {
      assert (a + b)[1..] == a[1..] + b;
      TilesConcat(a[1..], b, a[0].End(), a[0].typ.Free?, hi);
    }
  }

  lemma SplitTiles(s: Seg, addr: nat, size: nat)
    requires Holds(s, addr, size)
    ensures Tiles(LeftRest(s, addr) + [Seg(Allocated, addr, size)] + RightRest(s, addr, size), s.base, false, s.End())
  {
    var l, t, r := LeftRest(s, addr), Seg(Allocated, addr, size), RightRest(s, addr, size);
    assert r != [] ==> r[1..] == [];
    assert ([t] + r)[1..] == r;
    assert Tiles([t] + r, addr, l != [], s.End());
    if l == [] {
      assert l + [t] + r == [t] + r;
    } else {
      assert (l + [t] + r)[1..] == [t] + r;
    }
  }

  /** Splitting a free tile leaves a tiling. */
  lemma TilesSplit(a: seq<Seg>, s: Seg, b: seq<Seg>, addr: nat, size: nat, lo: nat, hi: nat)
    requires Tiles(a + [s] + b, lo, false, hi) && Holds(s, addr, size)
    ensures Tiles(AfterSplit(a, s, b, addr, size), lo, false, hi)
  {
    TilesConcat(a + [s], b, lo, false, hi);
    TilesConcat(a, [s], lo, false, s.End());
    var l, t, r := LeftRest(s, addr), Seg(Allocated, addr, size), RightRest(s, addr, size);
    var m := l + [t] + r;
    SplitTiles(s, addr, size);
    assert !EndsFree(a, false);
    TilesConcat(a, m, lo, false, s.End());
    assert Tiles(b, s.End(), EndsFree(a + m, false), hi);
    TilesConcat(a + m, b, lo, false, hi);
  }

  /** In a tiling, a range that meets no allocation lies inside one free tile. */
  lemma {:induction false} HoleExists(r: seq<Seg>, lo: nat, free: bool, hi: nat, x: nat, y: nat) returns (i: nat)
    requires Tiles(r, lo, free, hi) && lo <= x < y <= hi
    requires forall s | s in r && s.typ.Allocated? :: !s.Overlaps(x, y)
    ensures i < |r| && r[i].typ.Free? && r[i].base <= x && y <= r[i].End()
  {
    assert r[0] in r;
    if r[0].End() <= x {
      assert forall s | s in r[1..] :: s in r;
      i := HoleExists(r[1..], r[0].End(), r[0].typ.Free?, hi, x, y);
      i := i + 1;
    } else {
      i := 0;
      if r[0].End() < y {
        assert r[1] in r && r[1].Overlaps(x, y);
      }
    }
  }

  /** An arena with the one span [base, base + size), tiled. */
  ghost predicate OneTiledSpan(q: seq<Seg>, base: nat, size: nat) {
    && q != [] && q[0] == Seg(Span, base, size)
    && Tiles(q[1..], base, false, base + size)
  }

  lemma OneTiledSpanSplit(q: seq<Seg>, i: nat, addr: nat, size: nat, ubase: nat, usize: nat)
    requires OneTiledSpan(q, ubase, usize) && i < |q| && Holds(q[i], addr, size)
    ensures OneTiledSpan(AfterSplit(q[..i], q[i], q[i + 1..], addr, size), ubase, usize)
  {
    var r, j := q[1..], i - 1;
    assert r == r[..j] + [r[j]] + r[j + 1..];
    TilesSplit(r[..j], r[j], r[j + 1..], addr, size, ubase, ubase + usize);
    var q' := AfterSplit(q[..i], q[i], q[i + 1..], addr, size);
    assert q[..i] == [q[0]] + r[..j] && q[i + 1..] == r[j + 1..];
    assert q' == [q[0]] + AfterSplit(r[..j], r[j], r[j + 1..], addr, size);
    assert q'[1..] == AfterSplit(r[..j], r[j], r[j + 1..], addr, size);
  }

  // ---------------------------------------------------------------------------------
  // Entries and the arena
  // ---------------------------------------------------------------------------------

  /** The arena holds exactly the ranges of the entries, all inside one span. */
  ghost predicate LaidOut(q: seq<Seg>, es: seq<Entry>, base: nat, size: nat) {
    && Chain(q, ORIGIN) && Filter(q, IsMarker()) == [Seg(Span, base, size)]
    && Allocations(q) == multiset(Ranges(es))
  }

  /** Entries of one map never overlap and stay inside the map. */
  lemma EntriesDisjoint(q: seq<Seg>, es: seq<Entry>, i: nat, base: nat, size: nat)
    requires LaidOut(q, es, base, size) && i < |es|
    ensures es[i].start < es[i].end && base <= es[i].start && es[i].end <= base + size
    ensures forall j | 0 <= j < |es| && j != i :: !RangeOf(es[j]).Overlaps(es[i].start, es[i].end)
  {
    var s := RangeOf(es[i]);
    assert Ranges(es)[i] == s;
    AllocationMember(q, s);
    assert s in multiset(Ranges(es));
    var n := PositionOf(q, s);
    SegmentSizes(q, n);
    var m := InsideSpan(q, n);
    FilterMember(q, IsMarker(), q[m]);
    forall j | 0 <= j < |es| && j != i ensures !RangeOf(es[j]).Overlaps(es[i].start, es[i].end) {
      var t := RangeOf(es[j]);
      assert Ranges(es)[j] == t;
      AllocationMember(q, t);
      assert t in multiset(Ranges(es));
      if t == s {
        TwiceInSeq(Ranges(es), i, j);
      } else {
        AllocationsDisjoint(q, s, t);
      }
    }
  }

  lemma TwiceInSeq(l: seq<Seg>, i: nat, j: nat)
    requires i < |l| && j < |l| && i != j && l[i] == l[j]
    ensures multiset(l)[l[i]] >= 2
  {
    var a, b := if i < j then i else j, if i < j then j else i;
    assert l == l[..a] + [l[a]] + l[a + 1..b] + [l[b]] + l[b + 1..];
  }

  /** The value of a size_t returned through an int. */
  function ToInt(x: nat): int {
    var m := x % 0x1_0000_0000;
    if m < 0x8000_0000 then m else m - 0x1_0000_0000
  }

  /** What the assertion of `unmap_entry` comes to: the low word of the entry's size is below 2^31. */
  predicate Unmappable(e: Entry) { RangeOf(e).size % 0x1_0000_0000 < 0x8000_0000 }

  datatype MapResult = Mapped(addr: nat) | NoSpace | Halted

  class AddressSpace {
    const vmem: Arena
    var entries: seq<Entry>

    ghost predicate Valid()
      reads this, vmem
    {
      vmem.Valid() && LaidOut(vmem.segqueue, entries, USER_BASE, USER_SIZE)
    }

    /** `vm_map_new`: the arena takes its first two tags without refilling the reserve. */
    constructor (hash: nat -> nat, reserve: TagReserve)
      requires 2 <= reserve.nfreesegs
      modifies reserve
      ensures Valid() && fresh(vmem) && entries == []
      ensures OneTiledSpan(vmem.segqueue, USER_BASE, USER_SIZE)
      ensures TagStep(old(reserve.nfreesegs), InitMap, reserve.nfreesegs)
    {
      vmem := new Arena(hash);
      entries := [];
      new;
      var _ := vmem.AddInternal(reserve, Span, USER_BASE, USER_SIZE);
      FreshLayout(vmem.segqueue);
    }

    /** `vm_map_object`, for a given address or for any. It fails only if the arena has no room; the
        kernel halts only if the reserve could not be refilled. */
    method MapObject(kernel: KernelVm, vaddr: Option<nat>, size: nat, offset: nat, obj: nat)
      returns (r: MapResult, ghost i: nat)
      requires Valid() && kernel.Valid() && vmem != kernel.kmap && vmem != kernel.wired
      requires 0 < size && PEAK <= kernel.reserve.nfreesegs
      modifies this, vmem, kernel, kernel.kmap, kernel.wired, kernel.reserve
      ensures r.Halted? ==> Exhausted(kernel.kmap.segqueue, PGSIZE) && old(kernel.reserve.nfreesegs) < RESERVE_LOW
      ensures !r.Halted? ==> Valid() && kernel.Valid() && Grows(old(kernel.View()), kernel.View())
      ensures !r.Halted? ==> TagStep(old(kernel.reserve.nfreesegs), TagOp.MapObject, kernel.reserve.nfreesegs)
      ensures !r.Halted? ==> var min := if vaddr.Some? then vaddr.value else 0;
              (r.NoSpace? <==> forall s | s in old(vmem.segqueue) :: !Suits(s, size, min, vaddr.Some?))
      ensures r.NoSpace? ==> entries == old(entries) && vmem.segqueue == old(vmem.segqueue)
      ensures r.Mapped? ==>
                && entries == old(entries) + [Entry(r.addr, r.addr + size, offset, obj)]
                && (vaddr.Some? ==> r.addr == vaddr.value)
      ensures r.Mapped? ==> var q := old(vmem.segqueue);
              i < |q| && Holds(q[i], r.addr, size) && vmem.segqueue == AfterSplit(q[..i], q[i], q[i + 1..], r.addr, size)
    {
      hide Chain, Indexed, Filter, Allocations, Paired, LaidOut, Backed, OneFrameEach, PageSized;
      i := 0;
      var ok := kernel.SegRefill();
      if !ok {
        return Halted, 0;
      }
      ghost var q := vmem.segqueue;
      var addr;
      addr, i := vmem.XAlloc(kernel.reserve, size, if vaddr.Some? then vaddr.value else 0, vaddr.Some?);
      if addr.None? {
        return NoSpace, 0;
      }
      var entry := Entry(addr.value, addr.value + size, offset, obj);
      MappedLayout(q, i, addr.value, size, entries, entry, USER_BASE, USER_SIZE);
      entries := entries + [entry];
      return Mapped(addr.value), i;
    }

    /** `unmap_entry`, up to the page table work. Its assertion reads the freed size through an int,
        so it holds exactly for sizes whose low 32 bits are below 2^31. */
    method UnmapEntry(reserve: TagReserve, i: nat) returns (asserted: bool)
      requires Valid() && i < |entries|
      modifies this, vmem, reserve
      ensures Valid() && entries == old(entries)[..i] + old(entries)[i + 1..]
      ensures var e := old(entries)[i];
              e.start < e.end && (asserted <==> (e.end - e.start) % 0x1_0000_0000 < 0x8000_0000)
      ensures TagStep(old(reserve.nfreesegs), TagOp.Release, reserve.nfreesegs)
    {
      hide Chain, Indexed, Filter, LaidOut, AfterFree;
      var entry := entries[i];
      ghost var q := vmem.segqueue;
      EntryAllocated(q, entries, i, USER_BASE, USER_SIZE);
      var freed, _, n := vmem.XFree(reserve, entry.start);
      UnmappedLayout(q, n, entries, i, USER_BASE, USER_SIZE);
      asserted := ToInt(freed.value) >= 0;
      entries := entries[..i] + entries[i + 1..];
    }

    /** `vm_map_release` up to the page tables: every entry is unmapped, then the arena gives all its tags
        back. It completes if and only if every entry's size passes the assertion of `unmap_entry`. */
    method Release(reserve: TagReserve) returns (ok: bool)
      requires Valid()
      modifies this, vmem, reserve
      ensures forall e | e in old(entries) :: e.start < e.end
      ensures ok <==> forall e | e in old(entries) :: (e.end - e.start) % 0x1_0000_0000 < 0x8000_0000
      ensures ok ==> old(reserve.nfreesegs) < reserve.nfreesegs
    {
      hide Chain, Indexed, LaidOut;
      ghost var es := entries;
      EntriesProper(vmem.segqueue, entries, USER_BASE, USER_SIZE);
      var n := 0;
      while entries != []
        invariant Valid() && old(reserve.nfreesegs) <= reserve.nfreesegs
        invariant n + |entries| == |es| && entries == es[n..]
        invariant forall k | 0 <= k < n :: Unmappable(es[k])
        decreases |entries|
      {
        var asserted := UnmapEntry(reserve, 0);
        assert es[n] in es;
        if !asserted {
          return false;
        }
        n := n + 1;
      }
      BareLayout(vmem.segqueue, USER_BASE, USER_SIZE);
      var empty := vmem.Destroy(reserve);
      return true;
    }

    lemma HasRoom(size: nat)
      requires Valid() && entries == [] && OneTiledSpan(vmem.segqueue, USER_BASE, USER_SIZE) && 0 < size <= USER_SIZE
      ensures exists s :: s in vmem.segqueue && Suits(s, size, 0, false)
    {
      NewMapHasRoom(vmem.segqueue, size);
    }

    /** A new map with a mapping of 2 GiB: unmapping it fails the assertion. */
    method UnmapTwoGiB(kernel: KernelVm, obj: nat) returns (asserted: bool)
      requires Valid() && kernel.Valid() && vmem != kernel.kmap && vmem != kernel.wired && entries == []
      requires RESERVE_LOW <= kernel.reserve.nfreesegs && OneTiledSpan(vmem.segqueue, USER_BASE, USER_SIZE)
      modifies this, vmem, kernel, kernel.kmap, kernel.wired, kernel.reserve
      ensures !asserted
    {
      hide Valid, LaidOut, Chain, Indexed, Filter, Grows, Paired, AfterSplit, Holds, TagStep, OneTiledSpan, Unmappable, Exhausted;
      var size := 0x8000_0000;
      HasRoom(size);
      var r, i := MapObject(kernel, None, size, 0, obj);
      TwoGiBFails(r.addr, obj);
      asserted := UnmapEntry(kernel.reserve, 0);
    }

    /** `vm_map_fork`: every entry is mapped at its own address in a new map, with a copy of its
        object. The assertion that each mapping succeeds always holds; only the refill, or the copy of an
        object that halts (`copy` gives nothing), can stop it. */
    method Fork(kernel: KernelVm, hash: nat -> nat, copy: nat -> Option<nat>) returns (child: Option<AddressSpace>)
      requires Valid() && kernel.Valid() && vmem != kernel.kmap && vmem != kernel.wired
      requires PEAK + 2 <= kernel.reserve.nfreesegs
      modifies kernel, kernel.kmap, kernel.wired, kernel.reserve
      ensures child.None? ==> Exhausted(kernel.kmap.segqueue, PGSIZE) || exists e :: e in entries && copy(e.obj).None?
      ensures child.Some? ==> fresh(child.value) && fresh(child.value.vmem)
      ensures child.Some? ==> Valid() && child.value.Valid() && kernel.Valid()
      ensures child.Some? ==>
                && |child.value.entries| == |entries|
                && forall k | 0 <= k < |entries| ::
                     copy(entries[k].obj).Some? && child.value.entries[k] == entries[k].(obj := copy(entries[k].obj).value)
    {
      hide Chain, Indexed, Filter, Allocations, Paired, LaidOut, Backed, OneFrameEach, PageSized, OneTiledSpan;
      var newmap := new AddressSpace(hash, kernel.reserve);
      var k := 0;
      while k < |entries|
        modifies newmap, newmap.vmem, kernel, kernel.kmap, kernel.wired, kernel.reserve
        invariant k <= |entries| && newmap.Valid() && kernel.Valid()
        invariant PEAK <= kernel.reserve.nfreesegs
        invariant OneTiledSpan(newmap.vmem.segqueue, USER_BASE, USER_SIZE)
        invariant |newmap.entries| == k
        invariant forall j | 0 <= j < k ::
            copy(entries[j].obj).Some? && newmap.entries[j] == entries[j].(obj := copy(entries[j].obj).value)
      {
        var ent := entries[k];
        ghost var q := newmap.vmem.segqueue;
        var copied := copy(ent.obj);
        if copied.None? {
          return None;
        }
        ForkRoom(vmem.segqueue, entries, k, newmap.vmem.segqueue, newmap.entries, USER_BASE, USER_SIZE);
        var r, i := newmap.MapObject(kernel, Some(ent.start), ent.end - ent.start, ent.offset, copied.value);
        if r.Halted? {
          return None;
        }
        assert r.Mapped?;
        OneTiledSpanSplit(q, i, r.addr, ent.end - ent.start, USER_BASE, USER_SIZE);
        k := k + 1;
      }
      return Some(newmap);
    }
  }

  lemma EntriesProper(q: seq<Seg>, es: seq<Entry>, base: nat, size: nat)
    requires LaidOut(q, es, base, size)
    ensures forall e | e in es :: e.start < e.end
  {
    hide LaidOut;
    forall i | 0 <= i < |es| ensures es[i].start < es[i].end {
      EntryAllocated(q, es, i, base, size);
    }
  }

  lemma TwoGiBFails(a: nat, obj: nat)
    ensures !Unmappable(Entry(a, a + 0x8000_0000, 0, obj))
  {}

  /** An arena without entries holds no allocation and still its span's marker. */
  lemma BareLayout(q: seq<Seg>, base: nat, size: nat)
    requires LaidOut(q, [], base, size)
    ensures q != [] && forall s | s in q :: !s.typ.Allocated?
  {
    hide Chain, Filter;
    assert Ranges([]) == [];
    forall s | s in q ensures !s.typ.Allocated? {
      AllocationMember(q, s);
    }
    FilterMember(q, IsMarker(), Seg(Span, base, size));
    assert Seg(Span, base, size) in [Seg(Span, base, size)];
  }

  /** In a map with nothing mapped any size up to the whole suits. */
  lemma NewMapHasRoom(q: seq<Seg>, size: nat)
    requires LaidOut(q, [], USER_BASE, USER_SIZE) && OneTiledSpan(q, USER_BASE, USER_SIZE) && 0 < size <= USER_SIZE
    ensures exists s :: s in q && Suits(s, size, 0, false)
  {
    BareLayout(q, USER_BASE, USER_SIZE);
    var i := HoleExists(q[1..], USER_BASE, false, USER_BASE + USER_SIZE, USER_BASE, USER_BASE + size);
    assert q[1..][i] in q;
    assert Suits(q[1..][i], size, 0, false);
  }

  lemma FreshLayout(q: seq<Seg>)
    requires Chain(q, ORIGIN) && q == AfterAdd([], Span, USER_BASE, USER_SIZE)
    ensures LaidOut(q, [], USER_BASE, USER_SIZE) && OneTiledSpan(q, USER_BASE, USER_SIZE)
  {
    var span, free := Seg(Span, USER_BASE, USER_SIZE), Seg(Free, USER_BASE, USER_SIZE);
    assert q == [span, free] && q[1..] == [free];
    FilterTwo(span, free, IsMarker());
    FilterTwo(span, free, IsOf(Allocated));
  }

  lemma MappedLayout(q: seq<Seg>, i: nat, addr: nat, size: nat, es: seq<Entry>, e: Entry, base: nat, usize: nat)
    requires LaidOut(q, es, base, usize) && i < |q| && Holds(q[i], addr, size)
    requires e.start == addr && e.end == addr + size
    requires Chain(AfterSplit(q[..i], q[i], q[i + 1..], addr, size), ORIGIN)
    ensures LaidOut(AfterSplit(q[..i], q[i], q[i + 1..], addr, size), es + [e], base, usize)
  {
    var a, s, b := q[..i], q[i], q[i + 1..];
    assert q == a + [s] + b;
    SplitAllocatesOne(a, s, b, addr, size);
    assert Ranges(es + [e]) == Ranges(es) + [RangeOf(e)];
    FilterAround(a, [s], b, IsMarker());
    FilterOne(s, IsMarker());
    FilterAround(a, SplitOf(s, addr, size), b, IsMarker());
    FilterSplit(s, addr, size, IsMarker());
    FilterRests(s, addr, size, IsMarker());
  }

  lemma EntryAllocated(q: seq<Seg>, es: seq<Entry>, i: nat, base: nat, size: nat)
    requires LaidOut(q, es, base, size) && i < |es|
    ensures RangeOf(es[i]) in q && es[i].start < es[i].end
  {
    EntriesDisjoint(q, es, i, base, size);
    assert Ranges(es)[i] in multiset(Ranges(es));
    AllocationMember(q, RangeOf(es[i]));
  }

  lemma UnmappedLayout(q: seq<Seg>, n: nat, es: seq<Entry>, i: nat, base: nat, size: nat)
    requires LaidOut(q, es, base, size) && i < |es| && n < |q| && Anchored(q[..n])
    requires q[n].typ.Allocated? && q[n].base == es[i].start
    requires Chain(AfterFree(q[..n], q[n], q[n + 1..]).queue, ORIGIN)
    ensures q[n] == RangeOf(es[i]) && es[i].start < es[i].end
    ensures LaidOut(AfterFree(q[..n], q[n], q[n + 1..]).queue, es[..i] + es[i + 1..], base, size)
    ensures |AfterFree(q[..n], q[n], q[n + 1..]).queue| <= |q|
  {
    hide Chain, Filter, AfterFree, Allocations;
    EntryAllocated(q, es, i, base, size);
    KmapFree(q, n, RangeOf(es[i]));
    RemoveRange(es, i);
    var q' := AfterFree(q[..n], q[n], q[n + 1..]).queue;
    Cancel(Allocations(q'), multiset(Ranges(es[..i] + es[i + 1..])), q[n]);
    assert q == q[..n] + [q[n]] + q[n + 1..];
    FreeKeepsMarkers(q[..n], q[n], q[n + 1..], Seg(Span, base, size));
  }

  lemma RemoveRange(es: seq<Entry>, i: nat)
    requires i < |es|
    ensures multiset(Ranges(es)) == multiset(Ranges(es[..i] + es[i + 1..])) + multiset{RangeOf(es[i])}
  {
    var l := Ranges(es);
    assert l == l[..i] + [l[i]] + l[i + 1..];
    assert Ranges(es[..i] + es[i + 1..]) == l[..i] + l[i + 1..];
  }

  /** Coalescing touches no marker. */
  lemma NeighboursAreNoMarkers(a: seq<Seg>, b: seq<Seg>)
    requires Anchored(a)
    ensures Filter(Before(a), IsMarker()) == Filter(a, IsMarker())
    ensures Filter(Beyond(b), IsMarker()) == Filter(b, IsMarker())
  {
    if JoinsLeft(a) {
      assert a == Before(a) + [Last(a)];
      FilterConcat(Before(a), [Last(a)], IsMarker());
      FilterOne(Last(a), IsMarker());
    }
  }

  /** In a map no span is imported, so a free leaves every marker in place. */
  lemma FreeKeepsMarkers(a: seq<Seg>, s: Seg, b: seq<Seg>, span: Seg)
    requires Filter(a + [s] + b, IsMarker()) == [span] && span.typ.Span? && s.typ.Allocated? && Anchored(a)
    ensures Filter(AfterFree(a, s, b).queue, IsMarker()) == [span]
  {
    hide Filter;
    NeighboursAreNoMarkers(a, b);
    FilterInsert(a, s, b, IsMarker());
    FilterInsert(Before(a), Coalesced(a, s, b), Beyond(b), IsMarker());
    var left := Last(Before(a));
    FilterMember(Before(a), IsMarker(), left);
    assert !left.typ.SpanImported? by {
      assert left in Before(a);
      assert forall t | t in Filter(a, IsMarker()) :: t in Filter(a, IsMarker()) + Filter(b, IsMarker());
    }
  }

  /** The next entry of the parent always fits into the child as it stands. */
  lemma ForkRoom(pq: seq<Seg>, es: seq<Entry>, k: nat, q: seq<Seg>, copied: seq<Entry>, base: nat, size: nat)
    requires LaidOut(pq, es, base, size) && k < |es| && |copied| == k
    requires forall j | 0 <= j < k :: copied[j].start == es[j].start && copied[j].end == es[j].end
    requires LaidOut(q, copied, base, size) && OneTiledSpan(q, base, size)
    ensures es[k].start < es[k].end
    ensures exists s :: s in q && Suits(s, es[k].end - es[k].start, es[k].start, true)
  {
    hide Chain, Filter;
    EntriesDisjoint(pq, es, k, base, size);
    var x, y, r := es[k].start, es[k].end, q[1..];
    forall s | s in r && s.typ.Allocated? ensures !s.Overlaps(x, y) {
      assert s in q;
      AllocationMember(q, s);
      assert s in multiset(Ranges(copied));
      var j :| 0 <= j < k && Ranges(copied)[j] == s;
      assert s == RangeOf(es[j]);
    }
    var i := HoleExists(r, base, false, base + size, x, y);
    assert r[i] in q;
    assert Suits(r[i], y - x, x, true);
  }
}
