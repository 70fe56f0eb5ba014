/** The slab allocator of kernel-3/kern/kmem_slab.c: zones of equal-sized objects, small slabs with
    the header inside their page, and large slabs whose header and list entries are slab objects. */
module Slab {
  import opened Common

  type Addr = int

  const PGSIZE: nat := 4096
  const HEADER: nat := 32            // sizeof(struct kmem_slab)
  const SMALL_MAX: nat := 256
  const GENERAL: nat := 32           // the zones of kmem_alloc
  const SLAB_ZONE: nat := 32         // headers of large slabs
  const BUFCTL_ZONE: nat := 33       // list entries of large slabs
  const ZONES: nat := 34

  /** Object sizes, zone by zone. */
  const SIZES: seq<nat> := [
    8, 16, 24, 32, 40, 48, 56, 64, 80, 96, 112, 128, 160, 192, 224, 256,
    320, 384, 448, 512, 640, 768, 896, 1024, 1280, 1536, 1792, 2048, 2560, 3072, 3584, 4096,
    40, 24]

  function ZoneSize(z: nat): (s: nat)
    requires z < ZONES
    ensures 8 <= s <= 4096
    ensures z == SLAB_ZONE || z == BUFCTL_ZONE ==> s <= SMALL_MAX
  {
    SIZES[z]
  }

  function RoundUp(n: nat, align: nat): nat
    requires align > 0
  {
    (n + align - 1) / align * align
  }

  function RoundDown(a: Addr): Addr { a / PGSIZE * PGSIZE }

  function ZoneNum(size: nat): int {
    if size <= 64 then RoundUp(size, 8) / 8 - 1
    else if size <= 128 then RoundUp(size - 64, 16) / 16 + 7
    else if size <= 256 then RoundUp(size - 128, 32) / 32 + 11
    else if size <= 512 then RoundUp(size - 256, 64) / 64 + 15
    else if size <= 1024 then RoundUp(size - 512, 128) / 128 + 19
    else if size <= 2048 then RoundUp(size - 1024, 256) / 256 + 23
    else if size <= 4096 then RoundUp(size - 2048, 512) / 512 + 27
    else -1
  }

  /** The table of sizes, band by band. */
  lemma Bands(z: nat)
    requires z < GENERAL
    ensures ZoneSize(z) ==
            if z < 8 then 8 * (z + 1) else if z < 12 then 64 + 16 * (z - 7) else if z < 16 then 128 + 32 * (z - 11)
            else if z < 20 then 256 + 64 * (z - 15) else if z < 24 then 512 + 128 * (z - 19)
            else if z < 28 then 1024 + 256 * (z - 23) else 2048 + 512 * (z - 27)
  {}

  lemma Increasing(y: nat, z: nat)
    requires y < z < GENERAL
    ensures ZoneSize(y) < ZoneSize(z)
  {
    hide ZoneSize;
    Bands(y);
    Bands(z);
  }

  lemma ZoneNumFits(size: nat)
    requires 0 < size <= PGSIZE
    ensures 0 <= ZoneNum(size) < GENERAL && size <= ZoneSize(ZoneNum(size))
    ensures ZoneNum(size) > 0 ==> ZoneSize(ZoneNum(size) - 1) < size
  {
    hide ZoneSize;
    var n := ZoneNum(size);
    if size <= 64 {
      assert n == (size + 7) / 8 - 1;
    } else if size <= 128 {
      assert n == (size - 64 + 15) / 16 + 7;
    } else if size <= 256 {
      assert n == (size - 128 + 31) / 32 + 11;
    } else if size <= 512 {
      assert n == (size - 256 + 63) / 64 + 15;
    } else if size <= 1024 {
      assert n == (size - 512 + 127) / 128 + 19;
    } else if size <= 2048 {
      assert n == (size - 1024 + 255) / 256 + 23;
    } else {
      assert n == (size - 2048 + 511) / 512 + 27;
    }
    hide ZoneNum;
    Bands(n);
    if n > 0 {
      Bands(n - 1);
    }
  }

  /** The zone chosen for a size is the one with the smallest objects that hold it; none for more than a page. */
  lemma ZoneNumIsTightest(size: nat, z: nat)
    requires 0 < size && z < GENERAL
    ensures ZoneNum(size) == -1 <==> size > PGSIZE
    ensures size <= PGSIZE ==> 0 <= ZoneNum(size) < GENERAL && size <= ZoneSize(ZoneNum(size))
    ensures size <= ZoneSize(z) ==> 0 <= ZoneNum(size) <= z
  {
    if size <= PGSIZE {
      ZoneNumFits(size);
      hide ZoneNum, ZoneSize;
      var n := ZoneNum(size);
      if z < n - 1 {
        Increasing(z, n - 1);
      }
    }
  }

  function SlabBytes(z: nat): (n: nat)
    requires z < ZONES
    ensures n % PGSIZE == 0 && n > 0
  {
    if ZoneSize(z) <= SMALL_MAX then PGSIZE else RoundUp(ZoneSize(z) * 16, PGSIZE)
  }

  function Capacity(z: nat): (n: nat)
    requires z < ZONES
    ensures n > 0
  {
    if ZoneSize(z) <= SMALL_MAX then (SlabBytes(z) - HEADER) / ZoneSize(z) else SlabBytes(z) / ZoneSize(z)
  }

  lemma RoundUpLeast(n: nat, align: nat)
    requires align > 0
    ensures RoundUp(n, align) % align == 0 && n <= RoundUp(n, align) < n + align
  {
    var m := n + align - 1;
    assert m == m / align * align + m % align;
    Remainder(m / align * align, m / align, 0, align);
  }

  /** A slab holds as many objects as go into its bytes, less the header where it is inline; a large one has
      the fewest pages that hold 16. */
  lemma CapacityIsMost(z: nat)
    requires z < ZONES
    ensures var room := if Small(z) then PGSIZE - HEADER else SlabBytes(z);
            Capacity(z) * ZoneSize(z) <= room < (Capacity(z) + 1) * ZoneSize(z)
    ensures if Small(z) then SlabBytes(z) == PGSIZE else 16 * ZoneSize(z) <= SlabBytes(z) < 16 * ZoneSize(z) + PGSIZE
  {
    hide RoundUp;
    RoundUpLeast(ZoneSize(z) * 16, PGSIZE);
    hide ZoneSize;
    var room := if Small(z) then PGSIZE - HEADER else SlabBytes(z);
    assert room == room / ZoneSize(z) * ZoneSize(z) + room % ZoneSize(z);
    assert (Capacity(z) + 1) * ZoneSize(z) == Capacity(z) * ZoneSize(z) + ZoneSize(z);
  }

  /** Where the k-th object of a slab is. */
  function Slot(z: nat, base: Addr, k: nat): Addr
    requires z < ZONES
  {
    base + k * ZoneSize(z)
  }

  lemma SlotsAre(z: nat, base: Addr, free: seq<Entry>)
    requires z < ZONES && forall k | 0 <= k < |free| :: free[k].base == Slot(z, base, k)
    ensures forall k | 0 <= k < |free| :: free[k].base == base + k * ZoneSize(z)
  {}

  lemma Quotient(n: nat, s: nat, k: nat)
    requires s > 0 && k < n / s
    ensures k * s + s <= n
  {
    assert (k + 1) * s <= n / s * s;
    assert (k + 1) * s == k * s + s;
  }

  /** Objects lie inside their slab, clear of an inline header, and apart from each other. */
  lemma SlotBounds(z: nat, base: Addr, k: nat)
    requires z < ZONES && k < Capacity(z)
    ensures base <= Slot(z, base, k) && Slot(z, base, k) + ZoneSize(z) <= base + SlabBytes(z)
    ensures ZoneSize(z) <= SMALL_MAX ==> Slot(z, base, k) + ZoneSize(z) <= base + PGSIZE - HEADER
  {
    hide ZoneSize, RoundUp;
    var s, c := ZoneSize(z), Capacity(z);
    if s <= SMALL_MAX {
      Quotient(SlabBytes(z) - HEADER, s, k);
    } else {
      Quotient(SlabBytes(z), s, k);
    }
  }

  lemma SlotsApart(z: nat, base: Addr, j: nat, k: nat)
    requires z < ZONES && j < k
    ensures Slot(z, base, j) + ZoneSize(z) <= Slot(z, base, k)
  {
    var s := ZoneSize(z);
    assert (j + 1) * s <= k * s;
    assert (j + 1) * s == j * s + s;
  }

  /** Rounding a small object's address down to its page finds its slab. */
  lemma SmallSlabFound(z: nat, base: Addr, k: nat)
    requires z < ZONES && k < Capacity(z) && ZoneSize(z) <= SMALL_MAX && base % PGSIZE == 0
    ensures RoundDown(Slot(z, base, k)) == base
  {
    SlotBounds(z, base, k);
  }

  // ---------------------------------------------------------------------------------
  // Slabs and zones
  // ---------------------------------------------------------------------------------

  /** A free-list entry: in a small slab the free object itself, in a large one a bufctl. */
  datatype Entry = Entry(addr: Addr, base: Addr)

  datatype Slab = Slab(hdr: Addr, base: Addr, nfree: int, free: seq<Entry>)

  datatype Bufctl = Bufctl(entry: Entry, slab: Addr)

  datatype Zone = Zone(slabs: seq<Slab>, bufctls: seq<Bufctl>)

  /** Pages from `vm_kalloc` and the zone they went to, -1 for a caller of `kmem_alloc`. */
  datatype Run = Run(pages: int, zone: int)

  /** Who a header or a bufctl describes: a zone, and the slab's or the object's address. */
  type Roles = map<Addr, (int, Addr)>

  predicate Small(z: nat)
    requires z < ZONES
  {
    ZoneSize(z) <= SMALL_MAX
  }

  predicate IsSlot(z: nat, base: Addr, a: Addr)
    requires z < ZONES
  {
    exists k: nat :: k < Capacity(z) && a == Slot(z, base, k)
  }

  function Bases(free: seq<Entry>): set<Addr> { set e | e in free :: e.base }

  predicate Different(free: seq<Entry>) { forall i, j | 0 <= i < j < |free| :: free[i].base != free[j].base }

  /** Each object of a slab is either live or free, not both, and `nfree` counts the free ones. */
  ghost predicate SlabOk(z: nat, s: Slab, live: set<Addr>)
    requires z < ZONES
  {
    && s.nfree == |s.free| && Different(s.free)
    && (forall e | e in s.free :: IsSlot(z, s.base, e.base) && e.base !in live && (Small(z) ==> e.addr == e.base))
    && (forall a | IsSlot(z, s.base, a) :: a in live || a in Bases(s.free))
  }

  /** A slab has pages of its own; its header is at their end, or is an object of its own. */
  predicate Placed(z: nat, s: Slab, runs: map<Addr, Run>, heads: Roles)
    requires z < ZONES
  {
    && s.base in runs && runs[s.base] == Run(SlabBytes(z) / PGSIZE, z)
    && if Small(z) then s.hdr == s.base + PGSIZE - HEADER else s.hdr in heads && heads[s.hdr] == (z, s.base)
  }

  predicate Describes(z: nat, e: Entry, metas: Roles) { e.addr in metas && metas[e.addr] == (z, e.base) }

  ghost predicate InSlab(z: nat, slabs: seq<Slab>, hdr: Addr, a: Addr)
    requires z < ZONES
  {
    exists i :: 0 <= i < |slabs| && slabs[i].hdr == hdr && IsSlot(z, slabs[i].base, a)
  }

  ghost predicate AllOk(z: nat, slabs: seq<Slab>, live: set<Addr>, runs: map<Addr, Run>, heads: Roles)
    requires z < ZONES
  {
    forall i | 0 <= i < |slabs| :: SlabOk(z, slabs[i], live) && Placed(z, slabs[i], runs, heads)
  }

  predicate Apart(slabs: seq<Slab>) {
    forall i, j | 0 <= i < j < |slabs| :: slabs[i].base != slabs[j].base && slabs[i].hdr != slabs[j].hdr
  }

  ghost predicate Housed(z: nat, slabs: seq<Slab>, live: set<Addr>)
    requires z < ZONES
  {
    forall a | a in live :: exists hdr :: InSlab(z, slabs, hdr, a)
  }

  ghost predicate SlabsOk(z: nat, slabs: seq<Slab>, live: set<Addr>, runs: map<Addr, Run>, heads: Roles)
    requires z < ZONES
  {
    AllOk(z, slabs, live, runs, heads) && Apart(slabs) && Housed(z, slabs, live)
  }

  /** The bufctls of a large zone describe its live objects, each once; those on free lists the free ones. */
  ghost predicate BufctlsOk(z: nat, zn: Zone, live: set<Addr>)
    requires z < ZONES
  {
    && (forall b | b in zn.bufctls :: b.entry.base in live && InSlab(z, zn.slabs, b.slab, b.entry.base))
    && (forall i, j | 0 <= i < j < |zn.bufctls| :: zn.bufctls[i].entry.base != zn.bufctls[j].entry.base)
    && (forall a | a in live :: exists b :: b in zn.bufctls && b.entry.base == a)
  }

  predicate Described(z: nat, zn: Zone, metas: Roles) {
    && (forall b | b in zn.bufctls :: Describes(z, b.entry, metas))
    && (forall i, e | 0 <= i < |zn.slabs| && e in zn.slabs[i].free :: Describes(z, e, metas))
  }

  ghost predicate ZoneOk(z: nat, zn: Zone, live: set<Addr>, runs: map<Addr, Run>, heads: Roles, metas: Roles)
    requires z < ZONES
  {
    && SlabsOk(z, zn.slabs, live, runs, heads)
    && if Small(z) then zn.bufctls == [] else BufctlsOk(z, zn, live) && Described(z, zn, metas)
  }

  predicate RunsOk(runs: map<Addr, Run>) {
    && (forall b | b in runs :: b % PGSIZE == 0 && runs[b].pages > 0)
    && (forall b, c | b in runs && c in runs && b < c :: b + runs[b].pages * PGSIZE <= c)
  }

  /** An object lies in its slab's pages. */
  lemma SlotInRun(z: nat, s: Slab, runs: map<Addr, Run>, heads: Roles, a: Addr)
    requires z < ZONES && Placed(z, s, runs, heads) && IsSlot(z, s.base, a)
    ensures s.base <= a && a + ZoneSize(z) <= s.base + runs[s.base].pages * PGSIZE
    ensures Small(z) ==> a + ZoneSize(z) <= s.hdr
  {
    hide ZoneSize, Capacity, Slot;
    var k: nat :| k < Capacity(z) && a == Slot(z, s.base, k);
    SlotBounds(z, s.base, k);
  }

  /** An address is an object of one slab at most. */
  lemma OneSlab(z: nat, s: Slab, y: nat, t: Slab, runs: map<Addr, Run>, heads: Roles, a: Addr)
    requires z < ZONES && y < ZONES && RunsOk(runs) && Placed(z, s, runs, heads) && Placed(y, t, runs, heads)
    requires IsSlot(z, s.base, a) && IsSlot(y, t.base, a)
    ensures s.base == t.base && z == y
  {
    hide ZoneSize, IsSlot, SlabBytes;
    SlotInRun(z, s, runs, heads, a);
    SlotInRun(y, t, runs, heads, a);
  }

  // ---------------------------------------------------------------------------------
  // What the operations do to a zone
  // ---------------------------------------------------------------------------------

  /** The first slab gives its first free object; when that was the last, it goes to the tail. */
  function Taken(z: nat, zn: Zone): Zone
    requires z < ZONES && zn.slabs != [] && zn.slabs[0].free != []
  {
    var s := zn.slabs[0];
    var s' := s.(nfree := s.nfree - 1, free := s.free[1..]);
    var slabs := zn.slabs[0 := s'];
    Zone(if s'.free == [] then slabs[1..] + [slabs[0]] else slabs,
         if Small(z) then zn.bufctls else [Bufctl(s.free[0], s.hdr)] + zn.bufctls)
  }

  /** The i-th slab takes an object back at the head of its free list. */
  function Given(zn: Zone, i: nat, e: Entry, bufctls: seq<Bufctl>): Zone
    requires i < |zn.slabs|
  {
    var s := zn.slabs[i];
    Zone(zn.slabs[i := s.(nfree := s.nfree + 1, free := [e] + s.free)], bufctls)
  }

  /** The first slab's first free object is gone; a slab without another one is now the last. */
  predicate FirstGave(slabs: seq<Slab>, slabs': seq<Slab>) {
    slabs != [] && slabs[0].free != [] &&
    var s := slabs[0].(nfree := slabs[0].nfree - 1, free := slabs[0].free[1..]);
    slabs' == if |slabs[0].free| == 1 then slabs[1..] + [s] else [s] + slabs[1..]
  }

  lemma TakenIs(z: nat, zn: Zone)
    requires z < ZONES && zn.slabs != [] && zn.slabs[0].free != []
    ensures FirstGave(zn.slabs, Taken(z, zn).slabs)
  {}

  /** A new slab has objects left after its first. */
  lemma NewGave(z: nat, slabs: seq<Slab>, slabs': seq<Slab>)
    requires z < ZONES && slabs != [] && FirstGave(slabs, slabs') && |slabs[0].free| == Capacity(z)
    requires slabs[0].free[0].base == slabs[0].base + 0 * ZoneSize(z)
    ensures |slabs'| == |slabs| && slabs'[1..] == slabs[1..] && slabs'[0].base == slabs[0].base == slabs[0].free[0].base
  {
    hide ZoneSize, RoundUp, Capacity;
    CapacityIsMost(z);
    AtMostTwice(Capacity(z), ZoneSize(z));
  }

  lemma AtMostTwice(c: nat, s: nat)
    ensures c <= 1 ==> (c + 1) * s <= 2 * s
  {}

  lemma TakenSlab(z: nat, s: Slab, live: set<Addr>)
    requires z < ZONES && SlabOk(z, s, live) && s.free != []
    ensures SlabOk(z, s.(nfree := s.nfree - 1, free := s.free[1..]), live + {s.free[0].base})
    ensures IsSlot(z, s.base, s.free[0].base) && s.free[0].base !in live
  {
    hide IsSlot, ZoneSize;
    var rest := s.free[1..];
    assert s.free == [s.free[0]] + rest;
    assert s.free[0] in s.free;
    forall e | e in rest ensures e in s.free && e.base != s.free[0].base {
      var i :| 0 <= i < |rest| && rest[i] == e;
      assert s.free[i + 1] == e;
    }
    assert Bases(s.free) == {s.free[0].base} + Bases(rest);
  }

  lemma GivenIs(zn: Zone, i: nat, e: Entry)
    requires i < |zn.slabs|
    ensures var s := zn.slabs[i]; Given(zn, i, e, []).slabs == zn.slabs[i := s.(nfree := s.nfree + 1, free := [e] + s.free)]
  {}

  lemma GivenSlab(z: nat, s: Slab, live: set<Addr>, e: Entry)
    requires z < ZONES && SlabOk(z, s, live) && e.base in live && IsSlot(z, s.base, e.base) && (Small(z) ==> e.addr == e.base)
    ensures SlabOk(z, s.(nfree := s.nfree + 1, free := [e] + s.free), live - {e.base})
  {
    hide IsSlot, ZoneSize;
    assert Bases([e] + s.free) == {e.base} + Bases(s.free);
    forall i | 0 <= i < |s.free| ensures s.free[i].base != e.base {
      assert s.free[i] in s.free;
    }
  }

  /** An object taken from or given to one slab does not concern another. */
  lemma OtherSlab(z: nat, s: Slab, t: Slab, live: set<Addr>, live': set<Addr>, runs: map<Addr, Run>, heads: Roles, a: Addr)
    requires z < ZONES && RunsOk(runs) && SlabOk(z, s, live) && Placed(z, s, runs, heads) && Placed(z, t, runs, heads)
    requires s.base != t.base && IsSlot(z, t.base, a) && (live' == live + {a} || live' == live - {a})
    ensures SlabOk(z, s, live')
  {
    if IsSlot(z, s.base, a) {
      OneSlab(z, s, z, t, runs, heads, a);
    }
    hide IsSlot, ZoneSize, RunsOk, Placed;
  }

  /** A slab with the same header and base is in the list. */
  ghost predicate HasTwin(slabs: seq<Slab>, s: Slab) {
    exists j :: 0 <= j < |slabs| && slabs[j].hdr == s.hdr && slabs[j].base == s.base
  }

  ghost predicate Covers(slabs: seq<Slab>, slabs': seq<Slab>) {
    forall i | 0 <= i < |slabs| :: HasTwin(slabs', slabs[i])
  }

  lemma StillInSlab(z: nat, slabs: seq<Slab>, slabs': seq<Slab>, hdr: Addr, a: Addr)
    requires z < ZONES && Covers(slabs, slabs') && InSlab(z, slabs, hdr, a)
    ensures InSlab(z, slabs', hdr, a)
  {
    hide IsSlot, ZoneSize;
    var i :| 0 <= i < |slabs| && slabs[i].hdr == hdr && IsSlot(z, slabs[i].base, a);
    assert HasTwin(slabs', slabs[i]);
    var j :| 0 <= j < |slabs'| && slabs'[j].hdr == slabs[i].hdr && slabs'[j].base == slabs[i].base;
  }

  /** Moving slabs about, or changing what is free in them, leaves every object in its slab. */
  lemma StillHoused(z: nat, slabs: seq<Slab>, slabs': seq<Slab>, live: set<Addr>)
    requires z < ZONES && Covers(slabs, slabs') && Housed(z, slabs, live)
    ensures Housed(z, slabs', live)
  {
    hide InSlab, Covers, ZoneSize;
    forall a | a in live ensures exists hdr :: InSlab(z, slabs', hdr, a) {
      var hdr :| InSlab(z, slabs, hdr, a);
      StillInSlab(z, slabs, slabs', hdr, a);
    }
  }

  lemma StillListed(z: nat, slabs: seq<Slab>, slabs': seq<Slab>, bufctls: seq<Bufctl>, live: set<Addr>)
    requires z < ZONES && Covers(slabs, slabs') && BufctlsOk(z, Zone(slabs, bufctls), live)
    ensures BufctlsOk(z, Zone(slabs', bufctls), live)
  {
    hide InSlab, Covers, ZoneSize;
    forall b | b in bufctls ensures InSlab(z, slabs', b.slab, b.entry.base) {
      StillInSlab(z, slabs, slabs', b.slab, b.entry.base);
    }
  }

  lemma CoversUpdate(slabs: seq<Slab>, i: nat, s: Slab)
    requires i < |slabs| && s.hdr == slabs[i].hdr && s.base == slabs[i].base
    ensures Covers(slabs, slabs[i := s])
  {
    var slabs' := slabs[i := s];
    forall k | 0 <= k < |slabs| ensures HasTwin(slabs', slabs[k]) {
      assert slabs'[k].base == slabs[k].base;
    }
  }

  lemma CoversMore(slabs: seq<Slab>, slabs': seq<Slab>)
    requires |slabs'| == |slabs| + 1 && slabs'[1..] == slabs
    ensures Covers(slabs, slabs')
  {
    forall i | 0 <= i < |slabs| ensures HasTwin(slabs', slabs[i]) {
      assert slabs'[i + 1] == slabs'[1..][i];
    }
  }

  lemma CoversRotated(slabs: seq<Slab>)
    requires slabs != []
    ensures Covers(slabs, slabs[1..] + [slabs[0]])
  {
    var slabs' := slabs[1..] + [slabs[0]];
    forall i | 0 <= i < |slabs| ensures HasTwin(slabs', slabs[i]) {
      assert slabs'[if i == 0 then |slabs| - 1 else i - 1] == slabs[i];
    }
  }

  lemma RotatedSlabs(z: nat, slabs: seq<Slab>, live: set<Addr>, runs: map<Addr, Run>, heads: Roles)
    requires z < ZONES && slabs != [] && SlabsOk(z, slabs, live, runs, heads)
    ensures SlabsOk(z, slabs[1..] + [slabs[0]], live, runs, heads)
  {
    hide SlabOk, Placed, ZoneSize, Covers;
    CoversRotated(slabs);
    StillHoused(z, slabs, slabs[1..] + [slabs[0]], live);
    hide Housed;
  }

  lemma RotatedDescribed(z: nat, slabs: seq<Slab>, bufctls: seq<Bufctl>, metas: Roles)
    requires slabs != [] && Described(z, Zone(slabs, bufctls), metas)
    ensures Described(z, Zone(slabs[1..] + [slabs[0]], bufctls), metas)
  {
    hide Describes;
  }

  /** One slab changes by one object: the others do not. */
  lemma UpdatedSlabs(z: nat, slabs: seq<Slab>, i: nat, s: Slab, live: set<Addr>, live': set<Addr>, runs: map<Addr, Run>,
      heads: Roles, a: Addr)
    requires z < ZONES && RunsOk(runs) && i < |slabs| && SlabsOk(z, slabs, live, runs, heads)
    requires s.hdr == slabs[i].hdr && s.base == slabs[i].base && IsSlot(z, s.base, a)
    requires SlabOk(z, s, live') && (live' == live + {a} || live' == live - {a})
    ensures SlabsOk(z, slabs[i := s], live', runs, heads)
  {
    hide SlabOk, IsSlot, ZoneSize, RunsOk, SlabBytes;
    var slabs' := slabs[i := s];
    forall j | 0 <= j < |slabs'| ensures SlabOk(z, slabs'[j], live') && Placed(z, slabs'[j], runs, heads) {
      if j != i {
        OtherSlab(z, slabs[j], s, live, live', runs, heads, a);
      }
    }
    CoversUpdate(slabs, i, s);
    StillHoused(z, slabs, slabs', live);
    assert InSlab(z, slabs', s.hdr, a);
  }

  lemma TakenBufctls(z: nat, zn: Zone, i: nat, live: set<Addr>, e: Entry)
    requires z < ZONES && BufctlsOk(z, zn, live) && i < |zn.slabs| && IsSlot(z, zn.slabs[i].base, e.base) && e.base !in live
    ensures BufctlsOk(z, zn.(bufctls := [Bufctl(e, zn.slabs[i].hdr)] + zn.bufctls), live + {e.base})
  {
    hide IsSlot, ZoneSize;
    var bs, live' := [Bufctl(e, zn.slabs[i].hdr)] + zn.bufctls, live + {e.base};
    assert InSlab(z, zn.slabs, zn.slabs[i].hdr, e.base);
    hide InSlab;
    assert bs[0] in bs;
    assert forall j | 0 <= j < |zn.bufctls| :: zn.bufctls[j] in zn.bufctls;
    forall a | a in live' ensures exists b :: b in bs && b.entry.base == a {
      if a in live {
        var b :| b in zn.bufctls && b.entry.base == a;
        assert b in bs;
      }
    }
  }

  lemma TakenDescribed(z: nat, zn: Zone, metas: Roles, s: Slab, bs: seq<Bufctl>)
    requires z < ZONES && Described(z, zn, metas) && zn.slabs != [] && zn.slabs[0].free != []
    requires s.free == zn.slabs[0].free[1..] && bs == [Bufctl(zn.slabs[0].free[0], zn.slabs[0].hdr)] + zn.bufctls
    ensures Described(z, Zone(zn.slabs[0 := s], bs), metas)
  {
    hide Describes;
    assert zn.slabs[0].free[0] in zn.slabs[0].free;
    assert forall e | e in s.free :: e in zn.slabs[0].free;
  }

  lemma GivenDescribed(z: nat, zn: Zone, metas: Roles, i: nat, s: Slab, j: nat)
    requires z < ZONES && Described(z, zn, metas) && i < |zn.slabs| && j < |zn.bufctls|
    requires s.free == [zn.bufctls[j].entry] + zn.slabs[i].free
    ensures Described(z, Zone(zn.slabs[i := s], zn.bufctls[..j] + zn.bufctls[j + 1..]), metas)
  {
    hide Describes;
    assert zn.bufctls[j] in zn.bufctls;
    assert forall b | b in zn.bufctls[..j] + zn.bufctls[j + 1..] :: b in zn.bufctls;
  }

  /** Taking an object keeps the zone sound, and the object was not live. */
  lemma TakenKeeps(z: nat, zn: Zone, live: set<Addr>, runs: map<Addr, Run>, heads: Roles, metas: Roles)
    requires z < ZONES && RunsOk(runs) && ZoneOk(z, zn, live, runs, heads, metas) && zn.slabs != [] && zn.slabs[0].free != []
    ensures zn.slabs[0].free[0].base !in live
    ensures ZoneOk(z, Taken(z, zn), live + {zn.slabs[0].free[0].base}, runs, heads, metas)
  {
    var s, e := zn.slabs[0], zn.slabs[0].free[0];
    var s', live' := s.(nfree := s.nfree - 1, free := s.free[1..]), live + {e.base};
    var slabs := zn.slabs[0 := s'];
    assert SlabOk(z, s, live);
    hide SlabOk, IsSlot, ZoneSize, RunsOk, SlabsOk, BufctlsOk, Described, Covers, Small;
    TakenSlab(z, s, live);
    UpdatedSlabs(z, zn.slabs, 0, s', live, live', runs, heads, e.base);
    CoversUpdate(zn.slabs, 0, s');
    var bs := Taken(z, zn).bufctls;
    if !Small(z) {
      StillListed(z, zn.slabs, slabs, zn.bufctls, live);
      TakenBufctls(z, Zone(slabs, zn.bufctls), 0, live, e);
      TakenDescribed(z, zn, metas, s', bs);
    }
    if s'.free == [] {
      RotatedSlabs(z, slabs, live', runs, heads);
      CoversRotated(slabs);
      if !Small(z) {
        StillListed(z, slabs, slabs[1..] + [slabs[0]], bs, live');
        RotatedDescribed(z, slabs, bs, metas);
      }
    }
  }

  lemma StillIn(bs: seq<Bufctl>, j: nat, b: Bufctl)
    requires j < |bs| && b in bs && b != bs[j]
    ensures b in bs[..j] + bs[j + 1..]
  {
    var i :| 0 <= i < |bs| && bs[i] == b;
    assert b == (bs[..j] + bs[j + 1..])[if i < j then i else i - 1];
  }

  /** What giving an object back leaves of the bufctl list. */
  lemma GivenBufctls(z: nat, zn: Zone, live: set<Addr>, j: nat)
    requires z < ZONES && BufctlsOk(z, zn, live) && j < |zn.bufctls|
    ensures BufctlsOk(z, zn.(bufctls := zn.bufctls[..j] + zn.bufctls[j + 1..]), live - {zn.bufctls[j].entry.base})
  {
    hide InSlab, ZoneSize;
    var bs, base := zn.bufctls[..j] + zn.bufctls[j + 1..], zn.bufctls[j].entry.base;
    forall b | b in bs ensures b in zn.bufctls && b.entry.base != base {
      var i :| 0 <= i < |bs| && bs[i] == b;
      assert b == zn.bufctls[if i < j then i else i + 1];
    }
    forall a | a in live - {base} ensures exists b :: b in bs && b.entry.base == a {
      var b :| b in zn.bufctls && b.entry.base == a;
      StillIn(zn.bufctls, j, b);
    }
  }

  /** Giving an object back keeps the zone sound. */
  lemma GivenKeeps(z: nat, zn: Zone, live: set<Addr>, runs: map<Addr, Run>, heads: Roles, metas: Roles, i: nat, e: Entry, j: nat)
    requires z < ZONES && RunsOk(runs) && ZoneOk(z, zn, live, runs, heads, metas) && i < |zn.slabs|
    requires IsSlot(z, zn.slabs[i].base, e.base) && e.base in live
    requires if Small(z) then e.addr == e.base else j < |zn.bufctls| && zn.bufctls[j].entry == e
    ensures var bs := if Small(z) then [] else zn.bufctls[..j] + zn.bufctls[j + 1..];
            ZoneOk(z, Given(zn, i, e, bs), live - {e.base}, runs, heads, metas)
  {
    var s, live' := zn.slabs[i], live - {e.base};
    var s' := s.(nfree := s.nfree + 1, free := [e] + s.free);
    assert SlabOk(z, s, live);
    hide SlabOk, IsSlot, ZoneSize, RunsOk, SlabsOk, BufctlsOk, Described, Covers, Small;
    GivenSlab(z, s, live, e);
    UpdatedSlabs(z, zn.slabs, i, s', live, live', runs, heads, e.base);
    if !Small(z) {
      CoversUpdate(zn.slabs, i, s');
      StillListed(z, zn.slabs, zn.slabs[i := s'], zn.bufctls, live);
      GivenDescribed(z, zn, metas, i, s', j);
      GivenBufctls(z, Zone(zn.slabs[i := s'], zn.bufctls), live, j);
    }
  }

  /** A new slab has pages and a header no other slab has, and all its objects free. */
  ghost predicate NewSlab(z: nat, zn: Zone, s: Slab)
    requires z < ZONES
  {
    && s.nfree == |s.free| && Different(s.free)
    && (forall e | e in s.free :: IsSlot(z, s.base, e.base) && (Small(z) ==> e.addr == e.base))
    && (forall a | IsSlot(z, s.base, a) :: a in Bases(s.free))
    && (forall i | 0 <= i < |zn.slabs| :: zn.slabs[i].base != s.base && zn.slabs[i].hdr != s.hdr)
  }

  lemma NewSlabKeeps(z: nat, zn: Zone, live: set<Addr>, runs: map<Addr, Run>, heads: Roles, metas: Roles, s: Slab)
    requires z < ZONES && RunsOk(runs) && ZoneOk(z, zn, live, runs, heads, metas) && NewSlab(z, zn, s) && Placed(z, s, runs, heads)
    requires !Small(z) ==> forall e | e in s.free :: Describes(z, e, metas)
    ensures ZoneOk(z, zn.(slabs := [s] + zn.slabs), live, runs, heads, metas)
  {
    hide ZoneSize, RunsOk, SlabBytes, Describes, IsSlot;
    var slabs' := [s] + zn.slabs;
    forall e | e in s.free ensures e.base !in live {
      if e.base in live {
        var hdr :| InSlab(z, zn.slabs, hdr, e.base);
        var i :| 0 <= i < |zn.slabs| && zn.slabs[i].hdr == hdr && IsSlot(z, zn.slabs[i].base, e.base);
        OneSlab(z, zn.slabs[i], z, s, runs, heads, e.base);
      }
    }
    assert SlabOk(z, s, live);
    hide SlabOk, NewSlab, InSlab, Placed;
    CoversMore(zn.slabs, slabs');
    StillHoused(z, zn.slabs, slabs', live);
    if !Small(z) {
      StillListed(z, zn.slabs, slabs', zn.bufctls, live);
    }
    hide Covers, Housed, BufctlsOk;
  }

  lemma DescribedFrame(z: nat, zn: Zone, metas: Roles, metas': Roles)
    requires Described(z, zn, metas) && forall m | m in metas :: m in metas' && metas'[m] == metas[m]
    ensures Described(z, zn, metas')
  {
    forall b | b in zn.bufctls ensures Describes(z, b.entry, metas') {
      assert Describes(z, b.entry, metas);
    }
    forall i, e | 0 <= i < |zn.slabs| && e in zn.slabs[i].free ensures Describes(z, e, metas') {
      assert Describes(z, e, metas);
    }
  }

  /** More pages, headers and bufctls elsewhere do not concern a zone. */
  lemma ZoneFrame(z: nat, zn: Zone, live: set<Addr>, runs: map<Addr, Run>, heads: Roles, metas: Roles,
      runs': map<Addr, Run>, heads': Roles, metas': Roles)
    requires z < ZONES && ZoneOk(z, zn, live, runs, heads, metas)
    requires forall b | b in runs && runs[b].zone == z :: b in runs' && runs'[b] == runs[b]
    requires forall h | h in heads :: h in heads' && heads'[h] == heads[h]
    requires forall m | m in metas :: m in metas' && metas'[m] == metas[m]
    ensures ZoneOk(z, zn, live, runs', heads', metas')
  {
    hide ZoneSize, SlabOk, Housed, BufctlsOk, SlabBytes, Apart;
    forall i | 0 <= i < |zn.slabs| ensures SlabOk(z, zn.slabs[i], live) && Placed(z, zn.slabs[i], runs', heads') {
      assert Placed(z, zn.slabs[i], runs, heads);
    }
    assert SlabsOk(z, zn.slabs, live, runs', heads');
    if !Small(z) {
      DescribedFrame(z, zn, metas, metas');
    }
  }

  // ---------------------------------------------------------------------------------
  // All the zones
  // ---------------------------------------------------------------------------------

  ghost predicate ZonesOk(zones: seq<Zone>, live: seq<set<Addr>>, runs: map<Addr, Run>, heads: Roles, metas: Roles): (r: bool)
    ensures r ==> |zones| == |live| == ZONES && RunsOk(runs)
    ensures r ==> heads.Keys <= live[SLAB_ZONE] && metas.Keys <= live[BUFCTL_ZONE]
  {
    && |zones| == |live| == ZONES && RunsOk(runs)
    && (forall z | 0 <= z < ZONES :: ZoneOk(z, zones[z], live[z], runs, heads, metas))
    && heads.Keys <= live[SLAB_ZONE] && metas.Keys <= live[BUFCTL_ZONE]
  }

  ghost predicate Extends(runs: map<Addr, Run>, runs': map<Addr, Run>) {
    forall b | b in runs :: b in runs' && runs'[b] == runs[b]
  }

  ghost predicate RolesExtend(roles: Roles, roles': Roles) {
    forall b | b in roles :: b in roles' && roles'[b] == roles[b]
  }

  /** One zone changes soundly, and pages and roles are added. */
  lemma ZonesUpdate(zones: seq<Zone>, live: seq<set<Addr>>, runs: map<Addr, Run>, heads: Roles, metas: Roles,
      z: nat, zn: Zone, l: set<Addr>, runs': map<Addr, Run>, heads': Roles, metas': Roles)
    requires ZonesOk(zones, live, runs, heads, metas) && z < ZONES && RunsOk(runs')
    requires Extends(runs, runs') && RolesExtend(heads, heads') && RolesExtend(metas, metas')
    requires ZoneOk(z, zn, l, runs', heads', metas')
    requires heads'.Keys <= live[z := l][SLAB_ZONE] && metas'.Keys <= live[z := l][BUFCTL_ZONE]
    ensures ZonesOk(zones[z := zn], live[z := l], runs', heads', metas')
  {
    var zones', live' := zones[z := zn], live[z := l];
    forall y | 0 <= y < ZONES ensures ZoneOk(y, zones'[y], live'[y], runs', heads', metas') {
      if y != z {
        ZoneFrame(y, zones[y], live[y], runs, heads, metas, runs', heads', metas');
      }
    }
  }

  /** Only pages and roles are added. */
  lemma ZonesExtend(zones: seq<Zone>, live: seq<set<Addr>>, runs: map<Addr, Run>, heads: Roles, metas: Roles,
      runs': map<Addr, Run>, heads': Roles, metas': Roles)
    requires ZonesOk(zones, live, runs, heads, metas) && RunsOk(runs')
    requires Extends(runs, runs') && RolesExtend(heads, heads') && RolesExtend(metas, metas')
    requires heads'.Keys <= live[SLAB_ZONE] && metas'.Keys <= live[BUFCTL_ZONE]
    ensures ZonesOk(zones, live, runs', heads', metas')
  {
    forall y | 0 <= y < ZONES ensures ZoneOk(y, zones[y], live[y], runs', heads', metas') {
      ZoneFrame(y, zones[y], live[y], runs, heads, metas, runs', heads', metas');
    }
  }

  /** A slab at pages no slab has, under a header no slab has, is new. */
  lemma IsNew(z: nat, zn: Zone, live: set<Addr>, runs: map<Addr, Run>, heads: Roles, metas: Roles, s: Slab)
    requires z < ZONES && ZoneOk(z, zn, live, runs, heads, metas) && s.base !in runs
    requires if Small(z) then s.hdr == s.base + PGSIZE - HEADER else s.hdr !in heads
    requires |s.free| == Capacity(z) == s.nfree
    requires forall k | 0 <= k < |s.free| :: s.free[k].base == Slot(z, s.base, k) && (Small(z) ==> s.free[k].addr == s.free[k].base)
    ensures NewSlab(z, zn, s)
  {
    hide ZoneSize, Capacity, Slot, SlabOk, SlabBytes;
    forall i | 0 <= i < |zn.slabs| ensures zn.slabs[i].base != s.base && zn.slabs[i].hdr != s.hdr {
      assert Placed(z, zn.slabs[i], runs, heads);
    }
    hide ZoneOk, Placed;
    forall i, j | 0 <= i < j < |s.free| ensures s.free[i].base != s.free[j].base {
      SlotsApart(z, s.base, i, j);
    }
    forall a | IsSlot(z, s.base, a) ensures a in Bases(s.free) {
      var k: nat :| k < Capacity(z) && a == Slot(z, s.base, k);
      assert s.free[k] in s.free;
    }
  }

  datatype Book = Book(zones: seq<Zone>, live: seq<set<Addr>>, runs: map<Addr, Run>, heads: Roles, metas: Roles)

  /** What allocating in zone `z` may do elsewhere: in the zones of headers and bufctls only, if `z` is large. */
  ghost predicate Grows(z: nat, b: Book, b': Book)
    requires z < ZONES
  {
    && |b.zones| == |b'.zones| == |b.live| == |b'.live| == ZONES
    && Extends(b.runs, b'.runs) && RolesExtend(b.heads, b'.heads) && RolesExtend(b.metas, b'.metas)
    && (Small(z) ==> b'.heads == b.heads && b'.metas == b.metas)
    && (forall y | 0 <= y < ZONES :: b.live[y] <= b'.live[y])
    && (forall y | 0 <= y < ZONES && y != z && (Small(z) || (y != SLAB_ZONE && y != BUFCTL_ZONE)) ::
          b'.zones[y] == b.zones[y] && b'.live[y] == b.live[y])
  }

  lemma GrowsOn(z: nat, b: Book, b': Book, b'': Book)
    requires z < ZONES && Grows(z, b, b') && Grows(z, b', b'')
    ensures Grows(z, b, b'')
  {
    hide Small;
  }

  /** A small zone of headers or bufctls grows on behalf of a large zone, with new roles. */
  lemma GrowsFor(z: nat, y: nat, b: Book, b': Book, b'': Book)
    requires z < ZONES && !Small(z) && (y == SLAB_ZONE || y == BUFCTL_ZONE) && Small(y) && Grows(y, b, b')
    requires b''.zones == b'.zones && b''.live == b'.live && Extends(b'.runs, b''.runs)
    requires RolesExtend(b'.heads, b''.heads) && RolesExtend(b'.metas, b''.metas)
    ensures GrowsBeside(z, b, b'')
  {
    hide Small;
  }

  /** The large zone itself is not touched while its slab is prepared. */
  ghost predicate GrowsBeside(z: nat, b: Book, b': Book)
    requires z < ZONES
  {
    Grows(z, b, b') && b'.zones[z] == b.zones[z] && b'.live[z] == b.live[z]
  }

  /** The first bufctls of a new slab, in the order of its objects. */
  predicate Listed(z: nat, base: Addr, free: seq<Entry>, metas: Roles)
    requires z < ZONES
  {
    forall k | 0 <= k < |free| :: free[k].base == Slot(z, base, k) && Describes(z, free[k], metas)
  }

  lemma Unlisted(z: nat, base: Addr, metas: Roles)
    requires z < ZONES
    ensures Listed(z, base, [], metas)
  {}

  lemma GrowsListed(z: nat, b: Book, b': Book, b'': Book, base: Addr, free: seq<Entry>, e: Entry)
    requires z < ZONES && GrowsBeside(z, b, b') && GrowsBeside(z, b', b'') && Listed(z, base, free, b'.metas)
    requires e.base == Slot(z, base, |free|) && Describes(z, e, b''.metas)
    ensures GrowsBeside(z, b, b'') && Listed(z, base, free + [e], b''.metas)
  {
    hide Small, Slot;
    GrowsOn(z, b, b', b'');
    forall k | 0 <= k < |free| ensures Describes(z, free[k], b''.metas) {
      assert Describes(z, free[k], b'.metas);
    }
  }

  /** The large zone gets the slab. */
  lemma GrowsAt(z: nat, b: Book, b': Book, b'': Book, s: Slab)
    requires z < ZONES && GrowsBeside(z, b, b') && GrowsBeside(z, b', b'') && s.base in b'.runs && Listed(z, s.base, s.free, b''.metas)
    ensures |b''.zones| == |b''.live| == ZONES && s.base in b''.runs && b''.runs[s.base] == b'.runs[s.base]
    ensures b''.zones[z] == b.zones[z] && b''.live[z] == b.live[z]
    ensures Grows(z, b, b''.(zones := b''.zones[z := b''.zones[z].(slabs := [s] + b''.zones[z].slabs)]))
    ensures forall k | 0 <= k < |s.free| :: s.free[k].base == Slot(z, s.base, k)
    ensures forall e | e in s.free :: Describes(z, e, b''.metas)
  {
    hide Small, Slot, Describes;
    GrowsOn(z, b, b', b'');
  }

  class Kmem {
    var zones: seq<Zone>
    var runs: map<Addr, Run>
    var top: Addr
    ghost var live: seq<set<Addr>>
    ghost var heads: Roles
    ghost var metas: Roles

    ghost predicate Valid()
      reads this
    {
      && ZonesOk(zones, live, runs, heads, metas)
      && top % PGSIZE == 0 && forall b | b in runs :: b + runs[b].pages * PGSIZE <= top
    }

    constructor ()
      ensures Valid() && live == seq(ZONES, z => {})
    {
      zones, runs, top := seq(ZONES, z => Zone([], [])), map[], PGSIZE;
      live, heads, metas := seq(ZONES, z => {}), map[], map[];
    }

    /** Stands for `vm_kalloc`: whole pages that nobody has. */
    method PageAlloc(pages: int, zone: int) returns (base: Addr)
      requires Valid() && pages > 0
      modifies `runs, `top
      ensures Valid() && base !in old(runs) && runs == old(runs)[base := Run(pages, zone)]
    {
      hide ZoneOk;
      base := top;
      ghost var runs0 := runs;
      runs := runs[base := Run(pages, zone)];
      top := top + pages * PGSIZE;
      ZonesExtend(zones, live, runs0, heads, metas, runs, heads, metas);
    }

    /** `small_slab_new`: the header at the end of the page, every object on the free list in order. */
    method SmallSlabNew(z: nat)
      requires Valid() && z < ZONES && Small(z)
      modifies `zones, `runs, `top
      ensures Valid() && Extends(old(runs), runs)
      ensures zones[z].slabs != [] && zones[z].slabs[0].free != [] && zones == old(zones)[z := zones[z]]
      ensures zones[z].slabs[1..] == old(zones)[z].slabs && zones[z].slabs[0].base !in old(runs)
      ensures var s := zones[z].slabs[0];
              && s.hdr == s.base + PGSIZE - HEADER && s.nfree == |s.free| == Capacity(z)
              && forall k | 0 <= k < |s.free| :: s.free[k].base == s.base + k * ZoneSize(z)
    {
      assert ZoneOk(z, zones[z], live[z], runs, heads, metas) && SlabBytes(z) / PGSIZE == 1;
      hide ZoneOk, ZonesOk, ZoneSize, Capacity, SlabBytes, Slot;
      ghost var runs0 := runs;
      var base := PageAlloc(1, z);
      var free: seq<Entry> := [];
      var i: nat := 0;
      while i < Capacity(z)
        invariant i == |free| <= Capacity(z)
        invariant forall k | 0 <= k < i :: free[k] == Entry(Slot(z, base, k), Slot(z, base, k))
      {
        free := free + [Entry(Slot(z, base, i), Slot(z, base, i))];
        i := i + 1;
      }
      var s := Slab(base + PGSIZE - HEADER, base, Capacity(z), free);
      IsNew(z, zones[z], live[z], runs0, heads, metas, s);
      AddSlab(zones, live, runs, heads, metas, z, s);
      SlotsAre(z, base, free);
      zones := zones[z := zones[z].(slabs := [s] + zones[z].slabs)];
    }

    /** The header and the pages of a large slab. */
    method LargeHeader(z: nat) returns (hdr: Addr, base: Addr)
      requires Valid() && z < ZONES && !Small(z)
      modifies this
      ensures Valid() && GrowsBeside(z, old(View()), View())
      ensures hdr !in old(heads) && hdr in heads && heads[hdr] == (z, base)
      ensures base !in old(runs) && base in runs && runs[base] == Run(SlabBytes(z) / PGSIZE, z)
      decreases 1, 0
    {
      assert Small(SLAB_ZONE) && Small(BUFCTL_ZONE);
      hide ZoneOk, ZonesOk, ZoneSize, Capacity, SlabBytes, Slot;
      hdr := ZoneAlloc(SLAB_ZONE);
      ghost var after := View();
      assert hdr !in old(heads) && heads == old(heads);
      hide Grows, GrowsBeside;
      base := PageAlloc(SlabBytes(z) / PGSIZE, z);
      ghost var heads1 := heads;
      heads := heads[hdr := (z, base)];
      ZonesExtend(zones, live, runs, heads1, metas, runs, heads, metas);
      GrowsFor(z, SLAB_ZONE, old(View()), after, View());
    }

    /** A bufctl for the object at `a` of a large zone. */
    method NewBufctl(z: nat, a: Addr) returns (e: Entry)
      requires Valid() && z < ZONES && !Small(z)
      modifies this
      ensures Valid() && GrowsBeside(z, old(View()), View()) && heads == old(heads)
      ensures e.addr !in old(metas) && e.base == a && Describes(z, e, metas)
      decreases 1, 0
    {
      assert Small(SLAB_ZONE) && Small(BUFCTL_ZONE);
      hide ZoneOk, ZonesOk, ZoneSize, Capacity, SlabBytes, Slot;
      var b := ZoneAlloc(BUFCTL_ZONE);
      e := Entry(b, a);
      ghost var metas1, after := metas, View();
      assert b !in old(metas) && metas == old(metas) && heads == old(heads);
      hide Grows, GrowsBeside;
      metas := metas[b := (z, a)];
      ZonesExtend(zones, live, runs, heads, metas1, runs, heads, metas);
      GrowsFor(z, BUFCTL_ZONE, old(View()), after, View());
    }

    /** The bufctls of a new large slab, in the order of their objects. */
    method LargeBufctls(z: nat, base: Addr) returns (free: seq<Entry>)
      requires Valid() && z < ZONES && !Small(z)
      modifies this
      ensures Valid() && GrowsBeside(z, old(View()), View()) && heads == old(heads)
      ensures |free| == Capacity(z) && Listed(z, base, free, metas)
      decreases 1, 1
    {
      assert GrowsBeside(z, View(), View());
      hide *;
      free := [];
      var i: nat := 0;
      Unlisted(z, base, metas);
      while i < Capacity(z)
        invariant Valid() && GrowsBeside(z, old(View()), View()) && heads == old(heads)
        invariant i == |free| <= Capacity(z) && Listed(z, base, free, metas)
      {
        ghost var before := View();
        var e := NewBufctl(z, Slot(z, base, i));
        GrowsListed(z, old(View()), before, View(), base, free, e);
        free := free + [e];
        i := i + 1;
      }
    }

    /** `large_slab_new`: the header and one bufctl per object come from the slab allocator itself. */
    method LargeSlabNew(z: nat)
      requires Valid() && z < ZONES && !Small(z)
      modifies this
      ensures Valid() && Grows(z, old(View()), View())
      ensures zones[z].slabs != [] && zones[z].slabs[0].free != [] && live[z] == old(live)[z]
      ensures zones[z] == old(zones)[z].(slabs := [zones[z].slabs[0]] + old(zones)[z].slabs) && zones[z].slabs[0].base !in old(runs)
      ensures var s := zones[z].slabs[0];
              s.nfree == |s.free| == Capacity(z) && forall k | 0 <= k < |s.free| :: s.free[k].base == s.base + k * ZoneSize(z)
      decreases 1, 2
    {
      assert ZoneOk(z, zones[z], live[z], runs, heads, metas);
      assert |zones| == |live| == ZONES;
      hide *;
      ghost var before, zn, l := View(), zones[z], live[z];
      var hdr, base := LargeHeader(z);
      ghost var headed := View();
      var free := LargeBufctls(z, base);
      var s := Slab(hdr, base, Capacity(z), free);
      GrowsAt(z, before, headed, View(), s);
      IsNew(z, zn, l, before.runs, before.heads, before.metas, s);
      AddSlab(zones, live, runs, heads, metas, z, s);
      SlotsAre(z, base, free);
      zones := zones[z := zones[z].(slabs := [s] + zones[z].slabs)];
    }

    ghost function View(): Book
      reads this
    {
      Book(zones, live, runs, heads, metas)
    }

    /** `kmem_zonealloc`. A new slab is made when the first one is missing or full. */
    method ZoneAlloc(z: nat) returns (a: Addr)
      requires Valid() && z < ZONES
      modifies this
      ensures Valid() && Grows(z, old(View()), View())
      ensures a !in old(live)[z] && live[z] == old(live)[z] + {a}
      ensures if old(zones)[z].slabs != [] && old(zones)[z].slabs[0].nfree != 0
              then old(zones)[z].slabs[0].free != [] && a == old(zones)[z].slabs[0].free[0].base && zones[z] == Taken(z, old(zones)[z])
                   && FirstGave(old(zones)[z].slabs, zones[z].slabs)
                   && runs == old(runs) && zones == old(zones)[z := zones[z]] && live == old(live)[z := live[z]]
              else |zones[z].slabs| == |old(zones)[z].slabs| + 1 && zones[z].slabs[1..] == old(zones)[z].slabs
                   && a == zones[z].slabs[0].base && a !in old(runs)
      decreases if Small(z) then 0 else 2, 0
    {
      hide ZoneOk, ZonesOk, ZoneSize, Capacity, SlabBytes, Slot, Taken, FirstGave;
      ghost var made := false;
      if zones[z].slabs == [] || zones[z].slabs[0].nfree == 0 {
        if Small(z) {
          SmallSlabNew(z);
        } else {
          LargeSlabNew(z);
        }
        made := true;
      }
      FirstHasFree(zones, live, runs, heads, metas, z);
      ghost var slabs := zones[z].slabs;
      a := TakeFirst(z);
      if made {
        NewGave(z, slabs, zones[z].slabs);
      }
    }

    /** The first object of the first slab is given out; a slab with none left goes to the end. */
    method TakeFirst(z: nat) returns (a: Addr)
      requires Valid() && z < ZONES && |zones| == |live| == ZONES && zones[z].slabs != [] && zones[z].slabs[0].free != []
      modifies `zones, `live
      ensures Valid() && a == old(zones)[z].slabs[0].free[0].base && a !in old(live)[z]
      ensures zones == old(zones)[z := Taken(z, old(zones)[z])] && live == old(live)[z := old(live)[z] + {a}]
      ensures FirstGave(old(zones)[z].slabs, zones[z].slabs)
    {
      hide ZoneOk, ZonesOk, ZoneSize, Capacity, SlabBytes, Slot, Taken, FirstGave;
      TakenIs(z, zones[z]);
      TakeOne(zones, live, runs, heads, metas, z);
      a := zones[z].slabs[0].free[0].base;
      zones := zones[z := Taken(z, zones[z])];
      live := live[z := live[z] + {a}];
    }

    /** Finds the slab a header address names. */
    method FindSlab(z: nat, hdr: Addr) returns (i: nat)
      requires z < |zones| && exists k :: 0 <= k < |zones[z].slabs| && zones[z].slabs[k].hdr == hdr
      ensures i < |zones[z].slabs| && zones[z].slabs[i].hdr == hdr
    {
      i := 0;
      while zones[z].slabs[i].hdr != hdr
        invariant i < |zones[z].slabs| && forall k | 0 <= k < i :: zones[z].slabs[k].hdr != hdr
        decreases |zones[z].slabs| - i
      {
        i := i + 1;
      }
    }

    /** Finds the bufctl of a live object of a large zone. */
    method FindBufctl(z: nat, ptr: Addr) returns (j: nat)
      requires z < |zones| && exists b :: b in zones[z].bufctls && b.entry.base == ptr
      ensures j < |zones[z].bufctls| && zones[z].bufctls[j].entry.base == ptr
    {
      j := 0;
      while zones[z].bufctls[j].entry.base != ptr
        invariant j < |zones[z].bufctls| && forall k | 0 <= k < j :: zones[z].bufctls[k].entry.base != ptr
        decreases |zones[z].bufctls| - j
      {
        j := j + 1;
      }
    }

    /** `kmem_zonefree`: the object goes to the head of the free list of the slab it came from. */
    method ZoneFree(z: nat, ptr: Addr) returns (ghost i: nat, ghost e: Entry)
      requires Valid() && z < GENERAL && ptr in live[z]
      modifies `zones, `live
      ensures Valid() && live == old(live)[z := old(live)[z] - {ptr}] && zones == old(zones)[z := zones[z]]
      ensures i < |old(zones)[z].slabs| && IsSlot(z, old(zones)[z].slabs[i].base, ptr) && e.base == ptr
      ensures zones[z].slabs == Given(old(zones)[z], i, e, []).slabs
      ensures var s := old(zones)[z].slabs[i];
              zones[z].slabs == old(zones)[z].slabs[i := s.(nfree := s.nfree + 1, free := [e] + s.free)]
      ensures !Small(z) ==> old(zones)[z].bufctls != [] && |zones[z].bufctls| == |old(zones)[z].bufctls| - 1
    {
      Homes(zones, live, runs, heads, metas, z, ptr);
      hide ZoneOk, ZonesOk, ZoneSize, Capacity, SlabBytes, Slot, IsSlot, Given;
      ghost var zn := zones[z];
      if Small(z) {
        var k := FindSlab(z, RoundDown(ptr) + PGSIZE - HEADER);
        i, e := k, Entry(ptr, ptr);
        GiveOne(zones, live, runs, heads, metas, z, i, e, 0);
        zones := zones[z := Given(zones[z], k, Entry(ptr, ptr), [])];
      } else {
        var j := FindBufctl(z, ptr);
        assert zones[z].bufctls[j] in zones[z].bufctls;
        var k := FindSlab(z, zones[z].bufctls[j].slab);
        i, e := k, zones[z].bufctls[j].entry;
        var bs := zones[z].bufctls[..j] + zones[z].bufctls[j + 1..];
        GiveOne(zones, live, runs, heads, metas, z, i, e, j);
        GivenSlabs(zones[z], k, e, bs);
        zones := zones[z := Given(zones[z], k, zones[z].bufctls[j].entry, bs)];
      }
      live := live[z := live[z] - {ptr}];
      GivenIs(old(zones)[z], i, e);
    }

    /** What was freed last into the first slab is given out next. */
    method FreeThenAlloc(z: nat, ptr: Addr) returns (a: Addr, ghost i: nat)
      requires Valid() && z < GENERAL && ptr in live[z]
      modifies this
      ensures Valid() && (i == 0 ==> a == ptr && live[z] == old(live)[z])
      ensures i < |old(zones)[z].slabs| && IsSlot(z, old(zones)[z].slabs[i].base, ptr)
    {
      hide ZoneOk, ZoneSize, IsSlot, Capacity, Given, Taken, Grows;
      ghost var e;
      i, e := ZoneFree(z, ptr);
      FirstHasFree(zones, live, runs, heads, metas, z);
      a := ZoneAlloc(z);
    }

    /** `kmem_alloc`: an object of the tightest zone, or whole pages. */
    method KmemAlloc(size: nat) returns (a: Addr)
      requires Valid() && size > 0
      modifies this
      ensures Valid()
      ensures size <= PGSIZE ==>
                var z := ZoneNum(size);
                && 0 <= z < GENERAL && size <= ZoneSize(z)
                && Grows(z, old(View()), View()) && a !in old(live)[z] && live[z] == old(live)[z] + {a}
      ensures size > PGSIZE ==>
                && View() == old(View()).(runs := runs) && a !in old(runs) && a in runs && runs == old(runs)[a := runs[a]]
                && runs[a].zone == -1 && size <= runs[a].pages * PGSIZE < size + PGSIZE
                && runs[a] == Run(RoundUp(size, PGSIZE) / PGSIZE, -1)
    {
      var z := ZoneNum(size);
      ZoneNumIsTightest(size, 0);
      hide Valid, ZoneNum, ZoneSize, Grows;
      if z == -1 {
        RoundUpLeast(size, PGSIZE);
        a := PageAlloc(RoundUp(size, PGSIZE) / PGSIZE, -1);
      } else {
        a := ZoneAlloc(z);
      }
    }

    /** What `kmem_free` may be called with. */
    ghost predicate Allocated(ptr: Addr, size: nat)
      requires Valid() && size > 0
      reads this
    {
      if size <= PGSIZE then
        ZoneNumFits(size);
        ptr in live[ZoneNum(size)]
      else ptr in runs && runs[ptr] == Run(RoundUp(size, PGSIZE) / PGSIZE, -1)
    }

    /** `kmem_free`: the size alone leads back to the zone, or to the pages. */
    method KmemFree(ptr: Addr, size: nat)
      requires Valid() && size > 0 && Allocated(ptr, size)
      modifies `zones, `live, `runs
      ensures Valid()
      ensures size <= PGSIZE ==> 0 <= ZoneNum(size) < GENERAL && runs == old(runs)
                                 && live == old(live)[ZoneNum(size) := old(live)[ZoneNum(size)] - {ptr}]
      ensures size > PGSIZE ==> View() == old(View()).(runs := old(runs) - {ptr})
    {
      var z := ZoneNum(size);
      ZoneNumIsTightest(size, 0);
      hide ZoneNum, ZoneSize, ZoneOk;
      if z == -1 {
        PagesBack(zones, live, runs, heads, metas, ptr);
        runs := runs - {ptr};
      } else {
        hide ZonesOk;
        ghost var i, e := ZoneFree(z, ptr);
      }
    }

    /** Allocating and freeing the same size leaves every general object as it was. */
    method AllocThenFree(size: nat)
      requires Valid() && size > 0
      modifies this
      ensures Valid() && |live| == |old(live)| == ZONES && forall z | 0 <= z < GENERAL :: live[z] == old(live)[z]
      ensures size > PGSIZE ==> View() == old(View())
    {
      hide Valid, ZonesOk, ZoneOk, ZoneNum, ZoneSize;
      assert |live| == ZONES by { Lengths(this); }
      var a := KmemAlloc(size);
      KmemFree(a, size);
      assert size > PGSIZE ==> runs == old(runs);
    }
  }

  lemma FirstHasFree(zones: seq<Zone>, live: seq<set<Addr>>, runs: map<Addr, Run>, heads: Roles, metas: Roles, z: nat)
    requires ZonesOk(zones, live, runs, heads, metas) && z < ZONES && zones[z].slabs != []
    ensures zones[z].slabs[0].nfree == |zones[z].slabs[0].free|
  {
    assert SlabOk(z, zones[z].slabs[0], live[z]);
  }

  lemma TakeOne(zones: seq<Zone>, live: seq<set<Addr>>, runs: map<Addr, Run>, heads: Roles, metas: Roles, z: nat)
    requires ZonesOk(zones, live, runs, heads, metas) && z < ZONES && zones[z].slabs != [] && zones[z].slabs[0].free != []
    ensures var a := zones[z].slabs[0].free[0].base;
            && a !in live[z]
            && ZonesOk(zones[z := Taken(z, zones[z])], live[z := live[z] + {a}], runs, heads, metas)
  {
    hide ZoneOk, ZoneSize, RunsOk, Taken;
    var a := zones[z].slabs[0].free[0].base;
    TakenKeeps(z, zones[z], live[z], runs, heads, metas);
    ZonesUpdate(zones, live, runs, heads, metas, z, Taken(z, zones[z]), live[z] + {a}, runs, heads, metas);
  }

  /** A new slab joins its zone. */
  lemma AddSlab(zones: seq<Zone>, live: seq<set<Addr>>, runs: map<Addr, Run>, heads: Roles, metas: Roles, z: nat, s: Slab)
    requires ZonesOk(zones, live, runs, heads, metas) && z < ZONES && NewSlab(z, zones[z], s) && Placed(z, s, runs, heads)
    requires !Small(z) ==> forall e | e in s.free :: Describes(z, e, metas)
    ensures ZonesOk(zones[z := zones[z].(slabs := [s] + zones[z].slabs)], live, runs, heads, metas)
  {
    hide ZoneOk, ZoneSize, RunsOk, Placed, NewSlab, Describes, Small;
    var zn := zones[z].(slabs := [s] + zones[z].slabs);
    NewSlabKeeps(z, zones[z], live[z], runs, heads, metas, s);
    ZonesUpdate(zones, live, runs, heads, metas, z, zn, live[z], runs, heads, metas);
    assert live[z := live[z]] == live;
  }

  lemma Lengths(k: Kmem)
    requires k.Valid()
    ensures |k.live| == |k.zones| == ZONES
  {}

  lemma GivenSlabs(zn: Zone, i: nat, e: Entry, bs: seq<Bufctl>)
    requires i < |zn.slabs|
    ensures Given(zn, i, e, bs).slabs == Given(zn, i, e, []).slabs && Given(zn, i, e, bs).bufctls == bs
  {}

  /** A live object's slab: by rounding its address down, or through its bufctl. */
  lemma Homes(zones: seq<Zone>, live: seq<set<Addr>>, runs: map<Addr, Run>, heads: Roles, metas: Roles, z: nat, ptr: Addr)
    requires ZonesOk(zones, live, runs, heads, metas) && z < ZONES && ptr in live[z]
    ensures var zn := zones[z];
            if Small(z) then
              && (exists k :: 0 <= k < |zn.slabs| && zn.slabs[k].hdr == RoundDown(ptr) + PGSIZE - HEADER)
              && (forall k | 0 <= k < |zn.slabs| && zn.slabs[k].hdr == RoundDown(ptr) + PGSIZE - HEADER :: IsSlot(z, zn.slabs[k].base, ptr))
            else
              && (exists b :: b in zn.bufctls && b.entry.base == ptr)
              && (forall b | b in zn.bufctls && b.entry.base == ptr ::
                    && (exists k :: 0 <= k < |zn.slabs| && zn.slabs[k].hdr == b.slab)
                    && (forall k | 0 <= k < |zn.slabs| && zn.slabs[k].hdr == b.slab :: IsSlot(z, zn.slabs[k].base, ptr)))
  {
    hide ZoneSize, SlabOk, IsSlot, SlabBytes, RoundDown, InSlab, Placed;
    var zn := zones[z];
    if Small(z) {
      var hdr :| InSlab(z, zn.slabs, hdr, ptr);
      OnlyHome(z, zn.slabs, hdr, ptr);
      SmallHeader(z, zn.slabs, live[z], runs, heads, hdr, ptr);
    } else {
      forall b | b in zn.bufctls && b.entry.base == ptr
        ensures exists k :: 0 <= k < |zn.slabs| && zn.slabs[k].hdr == b.slab
        ensures forall k | 0 <= k < |zn.slabs| && zn.slabs[k].hdr == b.slab :: IsSlot(z, zn.slabs[k].base, ptr)
      {
        OnlyHome(z, zn.slabs, b.slab, ptr);
      }
    }
  }

  /** The slab an object is in is the only one with its header. */
  lemma OnlyHome(z: nat, slabs: seq<Slab>, hdr: Addr, ptr: Addr)
    requires z < ZONES && Apart(slabs) && InSlab(z, slabs, hdr, ptr)
    ensures exists k :: 0 <= k < |slabs| && slabs[k].hdr == hdr
    ensures forall k | 0 <= k < |slabs| && slabs[k].hdr == hdr :: IsSlot(z, slabs[k].base, ptr)
  {
    hide IsSlot, ZoneSize;
    var i :| 0 <= i < |slabs| && slabs[i].hdr == hdr && IsSlot(z, slabs[i].base, ptr);
    assert forall k | 0 <= k < |slabs| && slabs[k].hdr == hdr :: k == i;
  }

  lemma SmallHeader(z: nat, slabs: seq<Slab>, live: set<Addr>, runs: map<Addr, Run>, heads: Roles, hdr: Addr, ptr: Addr)
    requires z < ZONES && Small(z) && RunsOk(runs) && AllOk(z, slabs, live, runs, heads) && InSlab(z, slabs, hdr, ptr)
    ensures hdr == RoundDown(ptr) + PGSIZE - HEADER
  {
    hide IsSlot, ZoneSize, SlabOk, RoundDown, SlabBytes;
    var i :| 0 <= i < |slabs| && slabs[i].hdr == hdr && IsSlot(z, slabs[i].base, ptr);
    assert Placed(z, slabs[i], runs, heads);
    RoundsTo(z, slabs[i].base, ptr);
  }

  /** Rounding down finds the base of a small object's slab. */
  lemma RoundsTo(z: nat, base: Addr, a: Addr)
    requires z < ZONES && Small(z) && IsSlot(z, base, a) && base % PGSIZE == 0
    ensures RoundDown(a) == base
  {
    var k: nat :| k < Capacity(z) && a == Slot(z, base, k);
    SmallSlabFound(z, base, k);
  }

  lemma GiveOne(zones: seq<Zone>, live: seq<set<Addr>>, runs: map<Addr, Run>, heads: Roles, metas: Roles, z: nat, i: nat,
      e: Entry, j: nat)
    requires ZonesOk(zones, live, runs, heads, metas) && z < GENERAL && i < |zones[z].slabs|
    requires IsSlot(z, zones[z].slabs[i].base, e.base) && e.base in live[z]
    requires if Small(z) then e.addr == e.base else j < |zones[z].bufctls| && zones[z].bufctls[j].entry == e
    ensures var bs := if Small(z) then [] else zones[z].bufctls[..j] + zones[z].bufctls[j + 1..];
            ZonesOk(zones[z := Given(zones[z], i, e, bs)], live[z := live[z] - {e.base}], runs, heads, metas)
  {
    hide ZoneOk, ZoneSize, RunsOk, Small, IsSlot;
    var bs := if Small(z) then [] else zones[z].bufctls[..j] + zones[z].bufctls[j + 1..];
    GivenKeeps(z, zones[z], live[z], runs, heads, metas, i, e, j);
    ZonesUpdate(zones, live, runs, heads, metas, z, Given(zones[z], i, e, bs), live[z] - {e.base}, runs, heads, metas);
  }

  /** Pages that belong to no zone can go back. */
  lemma PagesBack(zones: seq<Zone>, live: seq<set<Addr>>, runs: map<Addr, Run>, heads: Roles, metas: Roles, base: Addr)
    requires ZonesOk(zones, live, runs, heads, metas) && base in runs && runs[base].zone == -1
    ensures ZonesOk(zones, live, runs - {base}, heads, metas)
  {
    hide ZoneOk, ZoneSize;
    forall y | 0 <= y < ZONES ensures ZoneOk(y, zones[y], live[y], runs - {base}, heads, metas) {
      ZoneFrame(y, zones[y], live[y], runs, heads, metas, runs - {base}, heads, metas);
    }
  }

  // ---------------------------------------------------------------------------------
  // What a client sees
  // ---------------------------------------------------------------------------------

  /** Live objects never overlap each other, nor any slab's inline header, nor pages of another zone. */
  lemma LiveApart(k: Kmem, y: nat, a: Addr, z: nat, b: Addr)
    requires k.Valid() && y < ZONES && z < ZONES && a in k.live[y] && b in k.live[z] && (y, a) != (z, b)
    ensures a + ZoneSize(y) <= b || b + ZoneSize(z) <= a
  {
    var s := HomeOf(k, y, a);
    var t := HomeOf(k, z, b);
    hide ZoneSize, IsSlot, SlabBytes, ZoneOk, Slot;
    SlotInRun(y, s, k.runs, k.heads, a);
    SlotInRun(z, t, k.runs, k.heads, b);
    if s.base == t.base {
      SameSlabApart(y, s.base, a, b);
    }
  }

  lemma HomeOf(k: Kmem, z: nat, a: Addr) returns (s: Slab)
    requires k.Valid() && z < ZONES && a in k.live[z]
    ensures s in k.zones[z].slabs && Placed(z, s, k.runs, k.heads) && IsSlot(z, s.base, a)
    ensures Small(z) ==> a + ZoneSize(z) <= s.hdr
  {
    hide ZoneSize, IsSlot, SlabBytes, SlabOk;
    assert ZoneOk(z, k.zones[z], k.live[z], k.runs, k.heads, k.metas);
    var hdr :| InSlab(z, k.zones[z].slabs, hdr, a);
    var i :| 0 <= i < |k.zones[z].slabs| && k.zones[z].slabs[i].hdr == hdr && IsSlot(z, k.zones[z].slabs[i].base, a);
    s := k.zones[z].slabs[i];
    SlotInRun(z, s, k.runs, k.heads, a);
  }

  lemma SameSlabApart(z: nat, base: Addr, a: Addr, b: Addr)
    requires z < ZONES && IsSlot(z, base, a) && IsSlot(z, base, b) && a != b
    ensures a + ZoneSize(z) <= b || b + ZoneSize(z) <= a
  {
    hide ZoneSize, Capacity, Slot;
    var i: nat :| i < Capacity(z) && a == Slot(z, base, i);
    var j: nat :| j < Capacity(z) && b == Slot(z, base, j);
    if i < j {
      SlotsApart(z, base, i, j);
    } else {
      SlotsApart(z, base, j, i);
    }
  }

  function FirstSlots(z: nat, base: Addr, n: nat): set<Addr>
    requires z < ZONES
  {
    if n == 0 then {} else FirstSlots(z, base, n - 1) + {Slot(z, base, n - 1)}
  }

  lemma {:induction false} SlotCount(z: nat, base: Addr, n: nat)
    requires z < ZONES
    ensures |FirstSlots(z, base, n)| == n
    ensures forall a :: a in FirstSlots(z, base, n) <==> exists k: nat :: k < n && a == Slot(z, base, k)
  {
    hide ZoneSize, Slot;
    if n > 0 {
      SlotCount(z, base, n - 1);
      forall k: nat | k < n - 1 ensures Slot(z, base, k) != Slot(z, base, n - 1) {
        SlotsApart(z, base, k, n - 1);
      }
    }
  }

  lemma {:induction false} BaseCount(free: seq<Entry>)
    requires Different(free)
    ensures |Bases(free)| == |free|
  {
    if free != [] {
      BaseCount(free[1..]);
      assert free == [free[0]] + free[1..];
      assert Bases(free) == {free[0].base} + Bases(free[1..]);
      forall e | e in free[1..] ensures e.base != free[0].base {
        var i :| 0 <= i < |free[1..]| && free[1..][i] == e;
        assert free[i + 1] == e;
      }
    } else {
      assert Bases(free) == {};
    }
  }

  /** In every slab the live objects and the free ones together are its capacity. */
  lemma LivePlusFree(z: nat, s: Slab, live: set<Addr>)
    requires z < ZONES && SlabOk(z, s, live)
    ensures |set a | a in live && IsSlot(z, s.base, a)| + s.nfree == Capacity(z)
  {
    hide ZoneSize, Slot, Capacity;
    var out := set a | a in live && IsSlot(z, s.base, a);
    SlotCount(z, s.base, Capacity(z));
    BaseCount(s.free);
    forall a ensures a in FirstSlots(z, s.base, Capacity(z)) <==> IsSlot(z, s.base, a) {}
    forall a | a in Bases(s.free) ensures IsSlot(z, s.base, a) {
      var e :| e in s.free && e.base == a;
    }
    hide IsSlot;
    var all := FirstSlots(z, s.base, Capacity(z));
    forall a | a in all ensures a in out + Bases(s.free) {
      assert IsSlot(z, s.base, a);
    }
    assert out + Bases(s.free) == all;
    assert out !! Bases(s.free);
  }
}
