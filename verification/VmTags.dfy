/** The tag reserve over whole runs: when every operation finds the tags it needs, and when not. Besides
    the reserve it depends on the zone address spaces come from, because a map that finds no free object
    there makes the slab allocator take pages, and that refills the reserve (kernel-3/vm/vm.c:287-342 over
    kernel-3/kern/kmem_slab.c:302-362). */
module VmTags {
  import opened VmReserve
  import Slab

  const MAP_BYTES: nat := 848       // sizeof(vm_map_t)
  const MAPS: nat := 18             // maps in one slab

  /** The zone of maps is one of large slabs, of 18 objects each. */
  lemma MapZone()
    ensures Slab.ZoneNum(MAP_BYTES) == 22 && !Slab.Small(22) && Slab.Capacity(22) == MAPS
  {}

  /** The state: the reserve, and how many objects are free in each slab of the maps' zone, in the order of its list. */
  datatype Kernel = Kernel(tags: nat, zone: seq<nat>)

  function Boot(): Kernel { Kernel(BOOT_TAGS, []) }

  // ---------------------------------------------------------------------------------
  // The zone
  // ---------------------------------------------------------------------------------

  predicate HasFree(zone: seq<nat>) { zone != [] && zone[0] != 0 }

  /** An object is taken from the first slab; once empty that slab goes to the tail. */
  function TakeOne(zone: seq<nat>): seq<nat>
    requires HasFree(zone)
  {
    if zone[0] == 1 then zone[1..] + [0] else [zone[0] - 1] + zone[1..]
  }

  function Grown(zone: seq<nat>): seq<nat> { if HasFree(zone) then zone else [MAPS] + zone }

  /** How many objects can be taken before a new slab is made. */
  function Reachable(zone: seq<nat>): nat { if HasFree(zone) then zone[0] + Reachable(zone[1..]) else 0 }

  function Counts(slabs: seq<Slab.Slab>): (r: seq<nat>)
    ensures |r| == |slabs| && forall i | 0 <= i < |slabs| :: r[i] == |slabs[i].free|
  {
    seq(|slabs|, i requires 0 <= i < |slabs| => |slabs[i].free|)
  }

  /** This is what the slab allocator does to its list. */
  lemma TakesAsTheZoneDoes(z: nat, zn: Slab.Zone)
    requires z < Slab.ZONES && zn.slabs != [] && zn.slabs[0].free != []
    ensures HasFree(Counts(zn.slabs)) && Counts(Slab.Taken(z, zn).slabs) == TakeOne(Counts(zn.slabs))
  {
    var s := zn.slabs[0];
    var left := zn.slabs[0 := s.(nfree := s.nfree - 1, free := s.free[1..])];
    if |s.free| == 1 {
      assert Slab.Taken(z, zn).slabs == left[1..] + [left[0]];
    } else {
      assert Slab.Taken(z, zn).slabs == left;
    }
  }

  lemma {:induction false} ReachableEmptied(zone: seq<nat>)
    ensures Reachable(zone + [0]) == Reachable(zone)
  {
    if zone != [] && zone[0] != 0 {
      assert (zone + [0])[1..] == zone[1..] + [0];
      ReachableEmptied(zone[1..]);
    }
  }

  /** Each taken object is one less to take. */
  lemma ReachableTaken(zone: seq<nat>)
    requires HasFree(zone)
    ensures Reachable(TakeOne(zone)) == Reachable(zone) - 1
  {
    if zone[0] == 1 {
      ReachableEmptied(zone[1..]);
    } else {
      assert TakeOne(zone)[1..] == zone[1..];
    }
  }

  lemma ReachableGrown(zone: seq<nat>)
    requires !HasFree(zone)
    ensures Reachable(Grown(zone)) == MAPS && Reachable(zone) == 0
  {
    assert Grown(zone)[1..] == zone;
  }

  // ---------------------------------------------------------------------------------
  // Runs
  // ---------------------------------------------------------------------------------

  /** `Page` is a sleeping `vm_kalloc`, `Map` a `vm_map_object`. `CreateMap` is `vm_map_new` or the start of
      `vm_map_fork`, and `TakeObject` another allocation in the zone; `pages` counts the pages taken on the
      way by other zones (the page table's, and with a new slab those of its header and buffer controls).
      `ReleaseMap` and `GiveObject` return an object to the given slab. */
  datatype Op = Page | Map | Unmap | CreateMap(pages: nat) | ReleaseMap(slab: nat)
              | TakeObject(pages: nat) | GiveObject(slab: nat)

  predicate Returns(op: Op) { op.ReleaseMap? || op.GiveObject? }

  /** How often `vm_kalloc` is called for an object of the zone. */
  function Pages(zone: seq<nat>, others: nat): nat { if HasFree(zone) then others else others + 1 }

  /** What several calls of `vm_kalloc` may leave. */
  ghost predicate Paged(n: nat, pages: nat, n': nat)
    decreases pages
  {
    if pages == 0 then n' == n else exists m: nat :: PEAK <= n && TagStep(n, Kalloc, m) && Paged(m, pages - 1, n')
  }

  /** What the reserve must hold for every `seg_alloc` of the operation to find a tag. */
  predicate Ready(k: Kernel, op: Op) {
    match op
    case Page => PEAK <= k.tags
    case Map => PEAK <= k.tags
    case Unmap => true
    case CreateMap(p) => (if Pages(k.zone, p) == 0 then 2 else PEAK) <= k.tags
    case ReleaseMap(_) => true
    case TakeObject(p) => Pages(k.zone, p) == 0 || PEAK <= k.tags
    case GiveObject(_) => true
  }

  /** What the operation may leave. */
  ghost predicate Next(k: Kernel, op: Op, k': Kernel) {
    match op
    case Page => k'.zone == k.zone && TagStep(k.tags, Kalloc, k'.tags)
    case Map => k'.zone == k.zone && TagStep(k.tags, MapObject, k'.tags)
    case Unmap => k'.zone == k.zone && TagStep(k.tags, Release, k'.tags)
    case CreateMap(p) =>
      && k'.zone == TakeOne(Grown(k.zone))
      && Paged(k.tags, Pages(k.zone, p), k'.tags + 2) && TagStep(k'.tags + 2, InitMap, k'.tags)
    case ReleaseMap(i) =>
      k.tags < k'.tags && i < |k.zone| && k.zone[i] < MAPS && k'.zone == k.zone[i := k.zone[i] + 1]
    case TakeObject(p) => k'.zone == TakeOne(Grown(k.zone)) && Paged(k.tags, Pages(k.zone, p), k'.tags)
    case GiveObject(i) =>
      k.tags == k'.tags && i < |k.zone| && k.zone[i] < MAPS && k'.zone == k.zone[i := k.zone[i] + 1]
  }

  /** An operation and the state it leaves. */
  datatype Move = Move(op: Op, to: Kernel)

  ghost predicate Runs(k: Kernel, run: seq<Move>)
    decreases |run|
  {
    run == [] || (Ready(k, run[0].op) && Next(k, run[0].op, run[0].to) && Runs(run[0].to, run[1..]))
  }

  function End(k: Kernel, run: seq<Move>): Kernel
    decreases |run|
  {
    if run == [] then k else End(run[0].to, run[1..])
  }

  predicate NoReturns(run: seq<Move>) { forall m | m in run :: !Returns(m.op) }

  lemma {:induction false} RunsOn(k: Kernel, a: seq<Move>, b: seq<Move>)
    requires Runs(k, a) && Runs(End(k, a), b)
    ensures Runs(k, a + b) && End(k, a + b) == End(End(k, a), b)
    decreases |a|
  {
    if a == [] {
      assert a + b == b;
    } else {
      assert (a + b)[1..] == a[1..] + b && (a + b)[0] == a[0];
      RunsOn(a[0].to, a[1..], b);
    }
  }

  lemma OneMove(k: Kernel, m: Move)
    requires Ready(k, m.op) && Next(k, m.op, m.to)
    ensures Runs(k, [m]) && End(k, [m]) == m.to
  {
    assert [m][1..] == [];
  }

  /** Pages leave at least this much of the reserve. */
  lemma {:induction false} PagedFloor(n: nat, pages: nat, n': nat)
    requires 0 < pages && Paged(n, pages, n')
    ensures RESERVE_LOW - 6 <= n' && (70 <= n ==> RESERVE_LOW - 1 <= n')
    decreases pages
  {
    var m: nat :| PEAK <= n && TagStep(n, Kalloc, m) && Paged(m, pages - 1, n');
    if pages > 1 {
      PagedFloor(m, pages - 1, n');
    }
  }

  lemma {:induction false} PagesCome(n: nat, pages: nat) returns (n': nat)
    requires PEAK <= n
    ensures Paged(n, pages, n')
    decreases pages
  {
    n' := n;
    if pages > 0 {
      var m := if RESERVE_LOW + 2 <= n then n - 3 else if 70 <= n then n + 58 else n + 118;
      assert TagStep(n, Kalloc, m);
      n' := PagesCome(m, pages - 1);
    }
  }

  /** A map can be created, or an object taken, with these tags and with no fewer. */
  lemma ReadyIff(k: Kernel, p: nat)
    ensures Ready(k, CreateMap(p)) <==> exists k' :: Next(k, CreateMap(p), k')
    ensures Ready(k, TakeObject(p)) <==> exists k' :: Next(k, TakeObject(p), k')
  {
    var pages, zone := Pages(k.zone, p), TakeOne(Grown(k.zone));
    if pages == 0 {
      if 2 <= k.tags {
        assert Next(k, CreateMap(p), Kernel(k.tags - 2, zone));
      }
      assert Next(k, TakeObject(p), Kernel(k.tags, zone));
    } else if PEAK <= k.tags {
      var n := PagesCome(k.tags, pages);
      PagedFloor(k.tags, pages, n);
      assert Next(k, CreateMap(p), Kernel(n - 2, zone));
      assert Next(k, TakeObject(p), Kernel(n, zone));
    }
  }

  // ---------------------------------------------------------------------------------
  // When the reserve lasts
  // ---------------------------------------------------------------------------------

  /** There are tags for every map the free objects in reach can make, and for the refill after them. */
  predicate Lasting(k: Kernel) { PEAK + 2 * Reachable(k.zone) <= k.tags }

  /** And there always will be: the reserve is refilled when it falls below 128. */
  predicate Covered(k: Kernel) { Lasting(k) && 2 * Reachable(k.zone) <= RESERVE_LOW - 2 - PEAK }

  lemma CoveredStep(k: Kernel, op: Op, k': Kernel)
    requires Covered(k) && Next(k, op, k') && !Returns(op)
    ensures Covered(k')
  {
    if op.CreateMap? || op.TakeObject? {
      if !HasFree(k.zone) {
        ReachableGrown(k.zone);
      }
      ReachableTaken(Grown(k.zone));
      if Pages(k.zone, op.pages) > 0 {
        PagedFloor(k.tags, Pages(k.zone, op.pages), k'.tags + if op.CreateMap? then 2 else 0);
      }
    }
  }

  /** Whatever is allocated, mapped, unmapped and created in whatever order: if every return of an object
      to the maps' zone leaves few enough objects in reach for the tags there are, every operation finds
      the tags it needs. */
  lemma {:induction false} ReserveLasts(k: Kernel, run: seq<Move>, op: Op)
    requires Covered(k) && Runs(k, run)
    requires forall m | m in run && Returns(m.op) :: Covered(m.to)
    ensures Ready(End(k, run), op)
    decreases |run|
  {
    if run != [] {
      assert run[0] in run && forall m | m in run[1..] :: m in run;
      if !Returns(run[0].op) {
        CoveredStep(k, run[0].op, run[0].to);
      }
      ReserveLasts(run[0].to, run[1..], op);
    }
  }

  /** In particular the reserve never runs dry in a run from boot that returns no map. */
  lemma ReserveNeverRunsDry(run: seq<Move>, op: Op)
    requires Runs(Boot(), run) && NoReturns(run)
    ensures Ready(End(Boot(), run), op)
  {
    ReserveLasts(Boot(), run, op);
  }

  /** No run from here that returns nothing to the zone runs dry. */
  ghost predicate NeverDry(k: Kernel) {
    forall run, op | Runs(k, run) && NoReturns(run) :: Ready(End(k, run), op)
  }

  /** With too few tags for the objects in reach, creating maps runs into an empty reserve. */
  lemma {:induction false} Drains(k: Kernel) returns (run: seq<Move>)
    requires !Lasting(k)
    ensures Runs(k, run) && NoReturns(run) && !Ready(End(k, run), CreateMap(0))
    decreases Reachable(k.zone)
  {
    if Ready(k, CreateMap(0)) {
      ReachableTaken(k.zone);
      var k' := Kernel(k.tags - 2, TakeOne(k.zone));
      var rest := Drains(k');
      run := [Move(CreateMap(0), k')] + rest;
      assert run[1..] == rest;
    } else {
      run := [];
    }
  }

  /** Mappings bring the reserve down to 126: from 128 up each takes up to two tags and refills nothing. */
  lemma {:induction false} Spend(k: Kernel) returns (run: seq<Move>)
    requires RESERVE_LOW - 2 <= k.tags
    ensures Runs(k, run) && End(k, run) == Kernel(RESERVE_LOW - 2, k.zone) && NoReturns(run)
    decreases k.tags % 2, k.tags
  {
    if k.tags == RESERVE_LOW - 2 {
      run := [];
    } else {
      var n := if k.tags % 2 == 0 then k.tags - 2 else if k.tags < RESERVE_LOW then k.tags + 59 else k.tags - 1;
      var k' := Kernel(n, k.zone);
      var rest := Spend(k');
      run := [Move(Map, k')] + rest;
      assert run[1..] == rest;
    }
  }

  lemma RunsDry(k: Kernel) returns (run: seq<Move>)
    requires !Covered(k)
    ensures Runs(k, run) && NoReturns(run) && !Ready(End(k, run), CreateMap(0))
  {
    if Lasting(k) {
      hide Runs, End, Reachable;
      run := Spend(k);
      var more := Drains(Kernel(RESERVE_LOW - 2, k.zone));
      RunsOn(k, run, more);
      run := run + more;
    } else {
      run := Drains(k);
    }
  }

  /** Until an object returns to the maps' zone the reserve lasts if and only if the free objects in reach
      are at most 60 and the tags cover them. */
  lemma NeverDryIff(k: Kernel)
    ensures NeverDry(k) <==> Reachable(k.zone) <= 60 && PEAK + 2 * Reachable(k.zone) <= k.tags
  {
    if Covered(k) {
      forall run, op | Runs(k, run) && NoReturns(run) ensures Ready(End(k, run), op) {
        ReserveLasts(k, run, op);
      }
    } else {
      var run := RunsDry(k);
    }
  }

  // ---------------------------------------------------------------------------------
  // A run from boot that empties the reserve
  // ---------------------------------------------------------------------------------

  function Slabs(n: nat, free: nat): seq<nat> { seq(n, i => free) }

  function ZoneAfter(maps: nat): seq<nat> {
    if maps == 0 then [] else TakeOne(Grown(ZoneAfter(maps - 1)))
  }

  /** Maps created one after another fill slab after slab. */
  lemma {:induction false} SlabsFill(n: nat, j: nat)
    requires j < MAPS
    ensures ZoneAfter(MAPS * n + j) == if j == 0 then Slabs(n, 0) else [MAPS - j] + Slabs(n, 0)
    decreases n, j
  {
    if j > 0 {
      SlabsFill(n, j - 1);
      assert Grown(ZoneAfter(MAPS * n + j - 1)) == [MAPS - (j - 1)] + Slabs(n, 0);
    } else if n > 0 {
      SlabsFill(n - 1, MAPS - 1);
      assert ZoneAfter(MAPS * n - 1)[1..] + [0] == Slabs(n, 0);
    }
  }

  /** From a covered state a map can be created, whatever pages it needs besides. */
  lemma OneMap(k: Kernel, pages: nat) returns (m: Move)
    requires Covered(k)
    ensures m.op == CreateMap(pages) && Ready(k, m.op) && Next(k, m.op, m.to)
    ensures Covered(m.to) && m.to.zone == TakeOne(Grown(k.zone))
  {
    var n := PagesCome(k.tags, Pages(k.zone, pages));
    if Pages(k.zone, pages) > 0 {
      PagedFloor(k.tags, Pages(k.zone, pages), n);
    } else {
      ReachableTaken(k.zone);
    }
    m := Move(CreateMap(pages), Kernel(n - 2, TakeOne(Grown(k.zone))));
    CoveredStep(k, m.op, m.to);
  }

  /** Any number of maps can be created from boot. */
  lemma {:induction false} CreateMaps(maps: nat, pages: nat -> nat) returns (run: seq<Move>)
    ensures Runs(Boot(), run) && |run| == maps && forall i | 0 <= i < maps :: run[i].op == CreateMap(pages(i))
    ensures Covered(End(Boot(), run)) && End(Boot(), run).zone == ZoneAfter(maps)
  {
    run := [];
    if maps > 0 {
      run := CreateMaps(maps - 1, pages);
      hide Runs, End, Covered, Ready, Next;
      var k := End(Boot(), run);
      var m := OneMap(k, pages(maps - 1));
      OneMove(k, m);
      RunsOn(Boot(), run, [m]);
      run := run + [m];
    }
  }

  /** Maps of the i-th slab are released, each giving its two tags back. */
  lemma {:induction false} ReleaseSlab(k: Kernel, i: nat, m: nat) returns (run: seq<Move>)
    requires i < |k.zone| && k.zone[i] + m == MAPS
    ensures Runs(k, run) && End(k, run) == Kernel(k.tags + 2 * m, k.zone[i := MAPS])
    ensures |run| == m && forall r | r in run :: r.op == ReleaseMap(i)
    decreases m
  {
    run := [];
    if m > 0 {
      var k' := Kernel(k.tags + 2, k.zone[i := k.zone[i] + 1]);
      var rest := ReleaseSlab(k', i, m - 1);
      run := [Move(ReleaseMap(i), k')] + rest;
      assert run[1..] == rest && k'.zone[i := MAPS] == k.zone[i := MAPS];
    }
  }

  lemma {:induction false} AllInReach(n: nat)
    ensures Reachable(Slabs(n, MAPS)) == n * MAPS
  {
    if n > 0 {
      AllInReach(n - 1);
      assert Slabs(n, MAPS)[1..] == Slabs(n - 1, MAPS);
    }
  }

  lemma ReleaseFourSlabs(k: Kernel) returns (run: seq<Move>)
    requires k.zone == Slabs(4, 0)
    ensures Runs(k, run) && End(k, run).zone == Slabs(4, MAPS)
    ensures |run| == 4 * MAPS && forall r | r in run :: r.op.ReleaseMap?
  {
    run := [];
    var k' := k;
    var i: nat := 0;
    while i < 4
      invariant i <= 4 && Runs(k, run) && End(k, run) == k'
      invariant |run| == i * MAPS && forall r | r in run :: r.op.ReleaseMap?
      invariant |k'.zone| == 4 && forall j | 0 <= j < 4 :: k'.zone[j] == if j < i then MAPS else 0
    {
      var more := ReleaseSlab(k', i, MAPS);
      hide Runs, End;
      RunsOn(k, run, more);
      run := run + more;
      k' := Kernel(k'.tags + 2 * MAPS, k'.zone[i := MAPS]);
      i := i + 1;
    }
    assert k'.zone == Slabs(4, MAPS);
  }

  /** 72 maps are created and released, and then nothing returns to their zone any more: a `seg_alloc`
      finds the reserve empty. It happens whatever pages the first 72 maps needed besides their own. */
  lemma ReusedMapsDrainReserve(pages: nat -> nat) returns (run: seq<Move>)
    ensures Runs(Boot(), run) && !Ready(End(Boot(), run), CreateMap(0))
    ensures 8 * MAPS <= |run| && forall i | 0 <= i < 4 * MAPS :: run[i].op == CreateMap(pages(i))
    ensures forall i | 4 * MAPS <= i < 8 * MAPS :: run[i].op.ReleaseMap?
    ensures forall i | 8 * MAPS <= i < |run| :: !Returns(run[i].op)
  {
    hide Runs, End, Reachable, ZoneAfter;
    var a := CreateMaps(4 * MAPS, pages);
    var k := End(Boot(), a);
    SlabsFill(4, 0);
    var b := ReleaseFourSlabs(k);
    AllInReach(4);
    var c := RunsDry(End(k, b));
    RunsOn(Boot(), a, b);
    RunsOn(Boot(), a + b, c);
    run := a + b + c;
  }
}
