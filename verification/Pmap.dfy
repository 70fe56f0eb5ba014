/** Four-level page tables (kernel-3/x86_64/vm.c), proved to behave as one flat map from page
    addresses to leaf entries, with the kernel half shared by every map. */
module Pmap {
  import opened Common

  const ENTRIES: nat := 512
  const KERNEL_FIRST: nat := 255     // first top-level slot shared by all maps
  const INIT_LAST: nat := 511        // x64_vm_init fills the slots below this one

  /** A table entry: flags and frame number. */
  datatype Tte = Tte(present: bool, write: bool, user: bool, frame: nat)

  const ABSENT := Tte(false, false, false, 0)

  type Table = t: seq<Tte> | |t| == ENTRIES witness seq(ENTRIES, _ => ABSENT)

  function EmptyTable(): Table { seq(ENTRIES, _ => ABSENT) }

  // ---------------------------------------------------------------------------------
  // Addresses
  // ---------------------------------------------------------------------------------

  /** The four table indexes of a page. */
  datatype VPage = VPage(pml4: nat, pdpt: nat, pd: nat, pt: nat) {
    predicate Ok() { pml4 < ENTRIES && pdpt < ENTRIES && pd < ENTRIES && pt < ENTRIES }

    function Path(): seq<nat> { [pml4, pdpt, pd] }
  }

  function IndexesOf(virt: nat): (v: VPage)
    ensures v.Ok()
  {
    VPage(virt / 0x80_0000_0000 % 512, virt / 0x4000_0000 % 512, virt / 0x20_0000 % 512, virt / 0x1000 % 512)
  }

  /** Two addresses share all four indexes exactly when they lie in the same page of the 48-bit space. */
  lemma SamePage(a: nat, b: nat)
    ensures IndexesOf(a) == IndexesOf(b) <==> a / 0x1000 % 0x10_0000_0000 == b / 0x1000 % 0x10_0000_0000
  {
    hide IndexesOf;
    Digits(a);
    Digits(b);
    SameDigits(IndexesOf(a), IndexesOf(b));
  }

  lemma SameDigits(v: VPage, w: VPage)
    requires v.Ok() && w.Ok()
    ensures ((v.pml4 * 512 + v.pdpt) * 512 + v.pd) * 512 + v.pt == ((w.pml4 * 512 + w.pdpt) * 512 + w.pd) * 512 + w.pt <==> v == w
  {
    var x, y := (v.pml4 * 512 + v.pdpt) * 512 + v.pd, (w.pml4 * 512 + w.pdpt) * 512 + w.pd;
    if x * 512 + v.pt == y * 512 + w.pt {
      assert x == y;
      assert v.pml4 * 512 + v.pdpt == w.pml4 * 512 + w.pdpt;
    }
  }

  lemma Digits(a: nat)
    ensures var v := IndexesOf(a);
            a / 0x1000 % 0x10_0000_0000 == ((v.pml4 * 512 + v.pdpt) * 512 + v.pd) * 512 + v.pt
  {
    var p := a / 0x1000;
    assert a / 0x20_0000 == p / 512;
    assert a / 0x4000_0000 == p / 512 / 512;
    assert a / 0x80_0000_0000 == p / 512 / 512 / 512;
  }

  // ---------------------------------------------------------------------------------
  // Trees
  // ---------------------------------------------------------------------------------

  /** Which table a frame is: the top of map `map_`, or what hangs below a path of indexes. Below a
      kernel slot the map does not matter. */
  datatype Space = Own(map_: nat) | Shared
  datatype Node = Node(space: Space, path: seq<nat>)

  function Top(root: nat): Node { Node(Own(root), []) }

  function Child(n: Node, i: nat): Node {
    Node(if n.path == [] && KERNEL_FIRST <= i then Shared else n.space, n.path + [i])
  }

  function Below(n: Node, path: seq<nat>): Node
    decreases |path|
  {
    if path == [] then n else Below(Child(n, path[0]), path[1..])
  }

  type Tables = map<nat, Table>

  /** Every table is at one place of one tree, or of the shared kernel half, and entries lead to the
      tables one level down. */
  ghost predicate Tree(tables: Tables, owner: map<nat, Node>, roots: set<nat>) {
    && owner.Keys == tables.Keys && 0 !in tables && roots <= tables.Keys
    && (forall f, g | f in owner && g in owner && owner[f] == owner[g] :: f == g)
    && (forall r | r in roots :: owner[r] == Top(r))
    && (forall f | f in owner && owner[f].path == [] :: f in roots)
    && (forall h | h in owner && owner[h].path != [] :: HasParent(owner, h))
    && (forall f, i | f in tables && |owner[f].path| < 3 && 0 <= i < ENTRIES ::
          Linked(tables, owner, f, i))
  }

  ghost predicate Linked(tables: Tables, owner: map<nat, Node>, f: nat, i: nat)
    requires f in tables && f in owner && i < ENTRIES
  {
    if tables[f][i].present
    then tables[f][i].frame in owner && owner[tables[f][i].frame] == Child(owner[f], i)
    else tables[f][i].frame == 0 && NoTable(owner, Child(owner[f], i))
  }

  ghost predicate HasParent(owner: map<nat, Node>, h: nat)
    requires h in owner
  {
    exists f, i: nat :: f in owner && owner[h] == Child(owner[f], i)
  }

  ghost predicate NoTable(owner: map<nat, Node>, n: Node) { forall h | h in owner :: owner[h] != n }

  /** Every map has a table in every kernel slot. */
  ghost predicate KernelHalf(tables: Tables, roots: set<nat>) {
    forall r, i | r in roots && r in tables && KERNEL_FIRST <= i < ENTRIES :: tables[r][i].present
  }

  /** The table that `path` leads to from table `f`, if all entries on the way are present. */
  function Leaf(tables: Tables, f: nat, path: seq<nat>): Option<nat>
    decreases |path|
  {
    if f !in tables then None
    else if path == [] then Some(f)
    else if path[0] < ENTRIES && tables[f][path[0]].present then Leaf(tables, tables[f][path[0]].frame, path[1..])
    else None
  }

  /** What the processor finds for a page: the flat map the tree stands for. */
  function Flat(tables: Tables, root: nat, v: VPage): Tte {
    var t := Leaf(tables, root, v.Path());
    if t.Some? && t.value in tables && v.pt < ENTRIES then tables[t.value][v.pt] else ABSENT
  }

  /** The table a walk ends in sits where the path says. */
  lemma {:induction false} LeafOwner(tables: Tables, owner: map<nat, Node>, roots: set<nat>, f: nat, path: seq<nat>)
    requires Tree(tables, owner, roots) && f in tables && |owner[f].path| + |path| <= 3
    ensures Leaf(tables, f, path).Some? ==>
              Leaf(tables, f, path).value in tables && owner[Leaf(tables, f, path).value] == Below(owner[f], path)
    decreases |path|
  {
    if path != [] && path[0] < ENTRIES && tables[f][path[0]].present {
      assert Linked(tables, owner, f, path[0]);
      LeafOwner(tables, owner, roots, tables[f][path[0]].frame, path[1..]);
    }
  }

  lemma BelowTop(root: nat, v: VPage)
    ensures Below(Top(root), v.Path()) == Node(if KERNEL_FIRST <= v.pml4 then Shared else Own(root), v.Path())
  {
    var p := v.Path();
    var n1 := Child(Top(root), v.pml4);
    var n2 := Child(n1, v.pdpt);
    var n3 := Child(n2, v.pd);
    assert p[1..] == [v.pdpt, v.pd] && p[1..][1..] == [v.pd] && p[1..][1..][1..] == [];
    assert Below(n2, [v.pd]) == Below(n3, []) == n3;
    assert Below(n1, [v.pdpt, v.pd]) == Below(n2, [v.pd]);
    assert Below(Top(root), p) == Below(n1, p[1..]);
    assert n1.path == [v.pml4] && n2.path == [v.pml4, v.pdpt] && n3.path == p;
  }

  // ---------------------------------------------------------------------------------
  // Changing a leaf entry
  // ---------------------------------------------------------------------------------

  predicate SameSlot(root: nat, v: VPage, r: nat, w: VPage) {
    v == w && (root == r || KERNEL_FIRST <= v.pml4)
  }

  lemma {:induction false} LeafAfterSet(tables: Tables, owner: map<nat, Node>, roots: set<nat>, t: nat, table: Table, f: nat, path: seq<nat>)
    requires Tree(tables, owner, roots) && f in tables && |owner[f].path| + |path| <= 3
    requires t in tables && |owner[t].path| == 3
    ensures Leaf(tables[t := table], f, path) == Leaf(tables, f, path)
    decreases |path|
  {
    if path != [] && path[0] < ENTRIES && tables[f][path[0]].present {
      assert Linked(tables, owner, f, path[0]);
      LeafAfterSet(tables, owner, roots, t, table, tables[f][path[0]].frame, path[1..]);
    }
  }

  /** Writing one leaf entry changes the flat map at one page address: in the one map, or, for a
      kernel address, in all. */
  lemma SetOneEntry(tables: Tables, owner: map<nat, Node>, roots: set<nat>, root: nat, v: VPage, e: Tte, r: nat, w: VPage)
    requires Tree(tables, owner, roots) && root in roots && r in roots && v.Ok() && w.Ok()
    requires Leaf(tables, root, v.Path()).Some?
    ensures var t := Leaf(tables, root, v.Path()).value;
            && t in tables
            && Flat(tables[t := tables[t][v.pt := e]], r, w)
               == (if w == v && Leaf(tables, r, w.Path()) == Some(t) then e else Flat(tables, r, w))
            && (Leaf(tables, r, w.Path()) == Some(t) ==> (w.Path() == v.Path() && (r == root || KERNEL_FIRST <= v.pml4)))
  {
    LeafOwner(tables, owner, roots, root, v.Path());
    LeafOwner(tables, owner, roots, r, w.Path());
    BelowTop(root, v);
    BelowTop(r, w);
    var t := Leaf(tables, root, v.Path()).value;
    LeafAfterSet(tables, owner, roots, t, tables[t][v.pt := e], r, w.Path());
    if w.Path() == v.Path() {
      assert w.Path()[0] == v.Path()[0] && w.Path()[1] == v.Path()[1] && w.Path()[2] == v.Path()[2];
    }
  }

  lemma SetKeepsTree(tables: Tables, owner: map<nat, Node>, roots: set<nat>, t: nat, table: Table)
    requires Tree(tables, owner, roots) && KernelHalf(tables, roots) && t in tables && |owner[t].path| == 3
    ensures Tree(tables[t := table], owner, roots) && KernelHalf(tables[t := table], roots)
  {
    var tables' := tables[t := table];
    forall f, i | f in tables' && |owner[f].path| < 3 && 0 <= i < ENTRIES ensures Linked(tables', owner, f, i) {
      assert Linked(tables, owner, f, i);
    }
  }

  // ---------------------------------------------------------------------------------
  // Adding a table
  // ---------------------------------------------------------------------------------

  function Hung(tables: Tables, f: nat, i: nat, g: nat): Tables
    requires f in tables && i < ENTRIES
  {
    tables[f := tables[f][i := Tte(true, true, true, g)]][g := EmptyTable()]
  }

  /** A slot may get a new table if no other table shares the slot. */
  ghost predicate Sole(owner: map<nat, Node>, roots: set<nat>, f: nat, i: nat)
    requires f in owner
  {
    owner[f].path != [] || i < KERNEL_FIRST || roots == {f}
  }

  /** A new node below `f` takes no node's parent away. */
  lemma ParentsAfter(owner: map<nat, Node>, g: nat, n: Node, f: nat, i: nat)
    requires g !in owner && f in owner && (n.path == [] || n == Child(owner[f], i))
    requires forall h | h in owner && owner[h].path != [] :: HasParent(owner, h)
    ensures var owner' := owner[g := n]; forall h | h in owner' && owner'[h].path != [] :: HasParent(owner', h)
  {
    hide Child;
    var owner' := owner[g := n];
    forall h | h in owner' && owner'[h].path != [] ensures HasParent(owner', h) {
      if h == g {
        assert owner'[f] == owner[f];
      } else {
        assert HasParent(owner, h);
        var e, j: nat :| e in owner && owner[h] == Child(owner[e], j);
        assert owner'[e] == owner[e];
      }
    }
  }

  lemma NodesDiffer(owner: map<nat, Node>, g: nat, n: Node)
    requires g !in owner && NoTable(owner, n)
    requires forall f, h | f in owner && h in owner && owner[f] == owner[h] :: f == h
    ensures var owner' := owner[g := n]; forall f, h | f in owner' && h in owner' && owner'[f] == owner'[h] :: f == h
  {}

  lemma SlotIsFree(tables: Tables, owner: map<nat, Node>, roots: set<nat>, f: nat, i: nat)
    requires Tree(tables, owner, roots) && f in tables && i < ENTRIES && |owner[f].path| < 3 && !tables[f][i].present
    ensures NoTable(owner, Child(owner[f], i)) && Child(owner[f], i).path != []
  {
    assert Linked(tables, owner, f, i);
  }

  lemma HangLinked(tables: Tables, owner: map<nat, Node>, roots: set<nat>, f: nat, i: nat, g: nat)
    requires Tree(tables, owner, roots) && f in tables && i < ENTRIES
    requires |owner[f].path| < 3 && !tables[f][i].present && g !in tables && g != 0 && Sole(owner, roots, f, i)
    ensures var tables', owner' := Hung(tables, f, i, g), owner[g := Child(owner[f], i)];
            && owner'.Keys == tables'.Keys == tables.Keys + {g}
            && forall h, j | h in tables' && |owner'[h].path| < 3 && 0 <= j < ENTRIES :: Linked(tables', owner', h, j)
  {
    hide HasParent, Child, Linked, Sole;
    var tables', owner' := Hung(tables, f, i, g), owner[g := Child(owner[f], i)];
    forall h, j | h in tables' && |owner'[h].path| < 3 && 0 <= j < ENTRIES ensures Linked(tables', owner', h, j) {
      if h == g {
        NewIsEmpty(tables, owner, roots, f, i, g, j);
      } else {
        OldStaysLinked(tables, owner, roots, f, i, g, h, j);
      }
    }
  }

  lemma HangKeepsTree(tables: Tables, owner: map<nat, Node>, roots: set<nat>, f: nat, i: nat, g: nat)
    requires Tree(tables, owner, roots) && f in tables && i < ENTRIES
    requires |owner[f].path| < 3 && !tables[f][i].present && g !in tables && g != 0 && Sole(owner, roots, f, i)
    ensures Tree(Hung(tables, f, i, g), owner[g := Child(owner[f], i)], roots)
  {
    hide HasParent, Child, NoTable, Linked, Sole, Hung;
    var n := Child(owner[f], i);
    SlotIsFree(tables, owner, roots, f, i);
    NodesDiffer(owner, g, n);
    ParentsAfter(owner, g, n, f, i);
    HangLinked(tables, owner, roots, f, i, g);
  }

  lemma NewIsEmpty(tables: Tables, owner: map<nat, Node>, roots: set<nat>, f: nat, i: nat, g: nat, j: nat)
    requires Tree(tables, owner, roots) && f in tables && i < ENTRIES && g !in tables && j < ENTRIES
    requires |owner[f].path| < 3 && !tables[f][i].present
    ensures Linked(Hung(tables, f, i, g), owner[g := Child(owner[f], i)], g, j)
  {
    var n := Child(owner[f], i);
    assert Linked(tables, owner, f, i);
    NoGrandchild(tables, owner, roots, n, j);
    hide Tree;
    assert |Child(n, j).path| == |n.path| + 1;
    assert !Hung(tables, f, i, g)[g][j].present;
  }

  lemma OldStaysLinked(tables: Tables, owner: map<nat, Node>, roots: set<nat>, f: nat, i: nat, g: nat, h: nat, j: nat)
    requires Tree(tables, owner, roots) && f in tables && i < ENTRIES && g !in tables && j < ENTRIES
    requires |owner[f].path| < 3 && !tables[f][i].present && Sole(owner, roots, f, i)
    requires h in tables && |owner[h].path| < 3
    ensures Linked(Hung(tables, f, i, g), owner[g := Child(owner[f], i)], h, j)
  {
    assert Linked(tables, owner, h, j);
    if !(h == f && j == i) {
      ChildrenDiffer(tables, owner, roots, f, i, h, j);
    }
    hide Tree, Sole;
  }

  /** Where there is no table, there is none below it either. */
  lemma NoGrandchild(tables: Tables, owner: map<nat, Node>, roots: set<nat>, n: Node, j: nat)
    requires Tree(tables, owner, roots) && NoTable(owner, n) && n.path != []
    ensures NoTable(owner, Child(n, j))
  {
    forall h | h in owner ensures owner[h] != Child(n, j) {
      if owner[h].path != [] {
        assert HasParent(owner, h);
        var f, i: nat :| f in owner && owner[h] == Child(owner[f], i);
        assert owner[f] != n;
        ChildInjective(owner[f], i, n, j);
      }
    }
  }

  lemma ChildInjective(a: Node, i: nat, b: Node, j: nat)
    ensures Child(a, i) == Child(b, j) ==> i == j && a.path == b.path && (a == b || a.path == [])
    ensures Child(a, i) == Child(b, j) && i < KERNEL_FIRST ==> a == b
  {
    var p, q := Child(a, i).path, Child(b, j).path;
    assert p[|p| - 1] == i && q[|q| - 1] == j;
    assert p[..|p| - 1] == a.path && q[..|q| - 1] == b.path;
  }

  lemma ChildrenDiffer(tables: Tables, owner: map<nat, Node>, roots: set<nat>, f: nat, i: nat, h: nat, j: nat)
    requires Tree(tables, owner, roots) && f in tables && h in tables && Sole(owner, roots, f, i) && !(h == f && j == i)
    ensures Child(owner[h], j) != Child(owner[f], i)
  {
    ChildInjective(owner[h], j, owner[f], i);
  }

  /** A walk over the new, empty table finds what it found before: nothing. */
  lemma {:induction false} LeafAfterHang(tables: Tables, owner: map<nat, Node>, roots: set<nat>, f: nat, i: nat, g: nat, h: nat, path: seq<nat>)
    requires Tree(tables, owner, roots) && h in tables && |owner[h].path| + |path| <= 3
    requires f in tables && i < ENTRIES && |owner[f].path| < 3 && !tables[f][i].present && g !in tables
    ensures var l := Leaf(Hung(tables, f, i, g), h, path);
            l == Leaf(tables, h, path) || (Leaf(tables, h, path).None? && l == Some(g))
    ensures Leaf(tables, h, path) != Some(g)
    decreases |path|
  {
    var tables' := Hung(tables, f, i, g);
    if path != [] && path[0] < ENTRIES {
      if tables[h][path[0]].present {
        assert Linked(tables, owner, h, path[0]);
        LeafAfterHang(tables, owner, roots, f, i, g, tables[h][path[0]].frame, path[1..]);
      } else if h == f && path[0] == i {
        assert tables'[h][path[0]].frame == g && tables'[g] == EmptyTable();
        EmptyLeaf(tables', g, path[1..]);
      } else {
        assert !tables'[h][path[0]].present;
      }
    }
  }

  lemma EmptyLeaf(tables: Tables, g: nat, path: seq<nat>)
    requires g in tables && tables[g] == EmptyTable()
    ensures Leaf(tables, g, path) == if path == [] then Some(g) else None
  {}

  lemma HangKeepsFlat(tables: Tables, owner: map<nat, Node>, roots: set<nat>, f: nat, i: nat, g: nat, r: nat, w: VPage)
    requires Tree(tables, owner, roots) && r in roots && w.Ok()
    requires f in tables && i < ENTRIES && |owner[f].path| < 3 && !tables[f][i].present && g !in tables
    ensures Flat(Hung(tables, f, i, g), r, w) == Flat(tables, r, w)
  {
    LeafAfterHang(tables, owner, roots, f, i, g, r, w.Path());
    LeafOwner(tables, owner, roots, r, w.Path());
    var l := Leaf(tables, r, w.Path());
    if l.Some? {
      assert |Below(owner[r], w.Path()).path| == 3 by { BelowTop(r, w); }
      assert l.value != f;
    }
  }

  // ---------------------------------------------------------------------------------
  // Permissions on the way
  // ---------------------------------------------------------------------------------

  /** Every entry from table `f` along `path` is present and gives all permissions. */
  predicate Open(tables: Tables, f: nat, path: seq<nat>)
    decreases |path|
  {
    path == [] || (f in tables && path[0] < ENTRIES && var e := tables[f][path[0]];
                   e.present && e.write && e.user && Open(tables, e.frame, path[1..]))
  }

  /** What the processor lets user code do with a page: the permissions of all four levels together. */
  predicate UserReads(tables: Tables, root: nat, v: VPage) {
    Open(tables, root, v.Path()) && Flat(tables, root, v).present && Flat(tables, root, v).user
  }

  predicate UserWrites(tables: Tables, root: nat, v: VPage) { UserReads(tables, root, v) && Flat(tables, root, v).write }

  /** The entries a table of a map's own has for the tables below it give all permissions. The boot
      loader's tables are excepted, and the kernel half, which may be the boot loader's. */
  ghost predicate Opened(tables: Tables, owner: map<nat, Node>, kroot: nat) {
    forall f, i | f in tables && f in owner && owner[f].space.Own? && owner[f].space.map_ != kroot && |owner[f].path| < 3 && 0 <= i < ENTRIES ::
      tables[f][i].present ==> tables[f][i].write && tables[f][i].user
  }

  /** A table belongs to a map there is, or to the shared half. */
  lemma {:induction false} SpaceIs(tables: Tables, owner: map<nat, Node>, roots: set<nat>, f: nat)
    requires Tree(tables, owner, roots) && f in owner
    ensures owner[f].space.Own? ==> owner[f].space.map_ in roots
    decreases |owner[f].path|
  {
    if owner[f].path != [] {
      assert HasParent(owner, f);
      var e, i: nat :| e in owner && owner[f] == Child(owner[e], i);
      assert |owner[f].path| == |owner[e].path| + 1;
      SpaceIs(tables, owner, roots, e);
    } else {
      assert f in roots;
    }
  }

  lemma BootOpened(tables: Tables, owner: map<nat, Node>, kroot: nat)
    requires Tree(tables, owner, {kroot})
    ensures Opened(tables, owner, kroot)
  {
    forall f | f in owner && owner[f].space.Own? ensures owner[f].space.map_ == kroot {
      SpaceIs(tables, owner, {kroot}, f);
    }
  }

  lemma HangOpened(tables: Tables, owner: map<nat, Node>, kroot: nat, f: nat, i: nat, g: nat)
    requires Opened(tables, owner, kroot) && owner.Keys == tables.Keys && f in tables && i < ENTRIES && g !in tables
    ensures Opened(Hung(tables, f, i, g), owner[g := Child(owner[f], i)], kroot)
  {
    hide Child;
  }

  lemma SetOpened(tables: Tables, owner: map<nat, Node>, kroot: nat, t: nat, table: Table)
    requires Opened(tables, owner, kroot) && t in tables && t in owner && |owner[t].path| == 3
    ensures Opened(tables[t := table], owner, kroot)
  {}

  lemma NewRootOpened(tables: Tables, owner: map<nat, Node>, kroot: nat, root: nat, top: Table)
    requires Opened(tables, owner, kroot) && root !in tables
    requires forall j | 0 <= j < ENTRIES :: top[j].present ==> top[j].write && top[j].user
    ensures Opened(tables[root := top], owner[root := Top(root)], kroot)
  {}

  /** Where a walk through a map's own half gets, its permissions are all there. */
  lemma {:induction false} WalkOpen(tables: Tables, owner: map<nat, Node>, roots: set<nat>, kroot: nat, f: nat, path: seq<nat>)
    requires Tree(tables, owner, roots) && Opened(tables, owner, kroot) && f in tables
    requires owner[f].space.Own? && owner[f].space.map_ != kroot && |owner[f].path| + |path| <= 3
    requires owner[f].path == [] && path != [] ==> path[0] < KERNEL_FIRST
    requires Leaf(tables, f, path).Some?
    ensures Open(tables, f, path)
    decreases |path|
  {
    if path != [] {
      assert Linked(tables, owner, f, path[0]);
      WalkOpen(tables, owner, roots, kroot, tables[f][path[0]].frame, path[1..]);
    }
  }

  // ---------------------------------------------------------------------------------
  // The physical map
  // ---------------------------------------------------------------------------------

  datatype Prot = Prot(read: bool, write: bool, execute: bool)

  /** `vm_prot_to_i386` and `pte_set`: execute permission has no bit of its own. */
  function LeafEntry(frame: nat, prot: Prot): Tte { Tte(prot.read, prot.write, true, frame) }

  const DEFAULT_PROT := Prot(true, true, true)

  class PhysicalMap {
    const kroot: nat
    var tables: Tables
    ghost var owner: map<nat, Node>
    ghost var roots: set<nat>

    ghost predicate Valid()
      reads this
    {
      Tree(tables, owner, roots) && KernelHalf(tables, roots) && kroot in roots && Opened(tables, owner, kroot)
    }

    ghost function View(r: nat, w: VPage): Tte
      reads this
    {
      Flat(tables, r, w)
    }

    /** `x64_vm_init`: starts from the boot loader's tables, whose top-level slot 511 holds the kernel
        image, and puts a table into every kernel slot below it. */
    constructor (boot: nat, tables: Tables, ghost owner: map<nat, Node>)
      requires Tree(tables, owner, {boot}) && tables[boot][INIT_LAST].present
      ensures Valid() && kroot == boot && roots == {boot}
      ensures forall w: VPage | w.Ok() :: View(boot, w) == Flat(tables, boot, w)
    {
      kroot := boot;
      this.tables, this.owner, roots := tables, owner, {boot};
      new;
      hide Tree, Flat, Opened;
      TopInTables(this.tables, this.owner, roots, boot);
      var i := KERNEL_FIRST;
      while i < INIT_LAST
        invariant boot in this.tables && KERNEL_FIRST <= i <= INIT_LAST
        invariant Tree(this.tables, this.owner, roots) && roots == {boot}
        invariant this.tables[boot][INIT_LAST].present
        invariant forall j | KERNEL_FIRST <= j < i :: this.tables[boot][j].present
        invariant forall w: VPage | w.Ok() :: View(boot, w) == Flat(tables, boot, w)
      {
        FillKernelSlot(boot, i);
        i := i + 1;
      }
      BootOpened(this.tables, this.owner, boot);
    }

    /** One round of `x64_vm_init`. */
    method FillKernelSlot(boot: nat, i: nat)
      requires Tree(tables, owner, roots) && roots == {boot} && boot in tables && KERNEL_FIRST <= i < INIT_LAST
      modifies `tables, `owner
      ensures Tree(tables, owner, roots) && boot in tables && tables[boot][i].present
      ensures forall j | 0 <= j < ENTRIES && j != i :: tables[boot][j] == old(tables)[boot][j]
      ensures forall w: VPage | w.Ok() :: View(boot, w) == old(View(boot, w))
    {
      hide Tree, Flat;
      SlotEmptyOrLinked(tables, owner, roots, boot, i);
      if tables[boot][i].frame == 0 {
        var page := PageAlloc();
        HangKeepsTree(tables, owner, roots, boot, i, page);
        forall w: VPage | w.Ok() ensures Flat(Hung(tables, boot, i, page), boot, w) == View(boot, w) {
          HangKeepsFlat(tables, owner, roots, boot, i, page, boot, w);
        }
        tables, owner := Hung(tables, boot, i, page), owner[page := Child(owner[boot], i)];
      }
    }

    /** `vm_pagealloc` for a page table: a frame not in use as one. */
    method PageAlloc() returns (g: nat)
      requires 0 !in tables
      ensures g !in tables && g != 0
    {
      FreshNat(tables.Keys + {0});
      g :| g !in tables && g != 0;
    }

    /** `pmap_descend`. Making a table changes nothing any map translates. */
    method Descend(table: nat, index: nat, alloc: bool) returns (addr: Option<nat>)
      requires Valid() && table in tables && table in owner && |owner[table].path| < 3 && index < ENTRIES
      modifies this
      ensures Valid() && roots == old(roots)
      ensures forall f | f in old(owner) :: f in owner && owner[f] == old(owner)[f]
      ensures forall f | f in old(tables) :: f in tables
      ensures forall r, w: VPage | r in roots && w.Ok() :: View(r, w) == old(View(r, w))
      ensures addr.Some? ==> addr.value in tables && addr.value in owner && owner[addr.value] == Child(owner[table], index)
      ensures addr.Some? <==> alloc || old(tables)[table][index].present
      ensures addr.Some? ==> tables[table][index].present && tables[table][index].frame == addr.value
      ensures forall f, j | f in old(tables) && 0 <= j < ENTRIES && old(tables)[f][j].present :: tables[f][j] == old(tables)[f][j]
      ensures !alloc ==> tables == old(tables) && owner == old(owner)
    {
      hide Tree, Opened;
      LinkedAt(tables, owner, roots, table, index);
      if tables[table][index].present {
        addr := Some(tables[table][index].frame);
      } else if alloc {
        var page := PageAlloc();
        HangKeepsTree(tables, owner, roots, table, index, page);
        HangKeepsHalf(tables, roots, table, index, page);
        HangOpened(tables, owner, kroot, table, index, page);
        forall r, w: VPage | r in roots && w.Ok() ensures Flat(Hung(tables, table, index, page), r, w) == View(r, w) {
          HangKeepsFlat(tables, owner, roots, table, index, page, r, w);
        }
        tables, owner := Hung(tables, table, index, page), owner[page := Child(owner[table], index)];
        addr := Some(page);
      } else {
        addr := None;
      }
    }

    /** `pmap_enter_kern`: exactly the addressed page changes, in the one map or (for a kernel
        address) in all of them. Its entry has the frame and the permissions given; user code may have it.
        So one entered without write permission is writable in none of them. */
    method EnterKern(root: nat, v: VPage, frame: nat, prot: Prot)
      requires Valid() && root in roots && v.Ok()
      modifies this
      ensures Valid() && roots == old(roots)
      ensures forall r, w: VPage | r in roots && w.Ok() && !SameSlot(root, v, r, w) :: View(r, w) == old(View(r, w))
      ensures forall r, w: VPage | r in roots && w.Ok() && SameSlot(root, v, r, w) ::
                var e := View(r, w); e.present == prot.read && e.write == prot.write && e.user && e.frame == frame
      ensures !prot.write ==> forall r | r in roots && (r == root || KERNEL_FIRST <= v.pml4) :: !UserWrites(tables, r, v)
    {
      hide Tree, KernelHalf, Flat, Opened;
      RootDepth(tables, owner, roots, root);
      var pdpt := Descend(root, v.pml4, true);
      var pd := Descend(pdpt.value, v.pdpt, true);
      var pt := Descend(pd.value, v.pd, true);
      WalkIs(tables, root, v, pdpt.value, pd.value, pt.value);
      RootDepth(tables, owner, roots, root);
      SetLeaf(root, v, pt.value, LeafEntry(frame, prot));
    }

    /** `pte_set` on the leaf entry of a page. */
    method SetLeaf(root: nat, v: VPage, t: nat, e: Tte)
      requires Valid() && root in roots && v.Ok() && Leaf(tables, root, v.Path()) == Some(t)
      modifies `tables
      ensures Valid()
      ensures forall r, w: VPage | r in roots && w.Ok() ::
                View(r, w) == if SameSlot(root, v, r, w) then e else old(View(r, w))
    {
      hide Tree, KernelHalf, Flat, Opened;
      ghost var tables0 := tables;
      LeafDepth(tables, owner, roots, root, v);
      SetKeepsTree(tables, owner, roots, t, tables[t][v.pt := e]);
      SetOpened(tables, owner, kroot, t, tables[t][v.pt := e]);
      forall r, w: VPage | r in roots && w.Ok()
        ensures Flat(tables[t := tables[t][v.pt := e]], r, w) == if SameSlot(root, v, r, w) then e else Flat(tables, r, w)
      {
        SetOneEntry(tables, owner, roots, root, v, e, r, w);
        if SameSlot(root, v, r, w) {
          SharedLeaf(tables, owner, roots, root, v, r);
        }
      }
      tables := tables[t := tables[t][v.pt := e]];
    }

    /** `pmap_fully_descend`: the table that holds the leaf entry, if there is one. */
    method FullyDescend(root: nat, v: VPage) returns (t: Option<nat>)
      requires Valid() && root in roots && v.Ok()
      modifies this
      ensures Valid() && tables == old(tables) && owner == old(owner) && roots == old(roots)
      ensures t == Leaf(tables, root, v.Path())
    {
      hide Tree, KernelHalf, Flat, Opened;
      RootDepth(tables, owner, roots, root);
      LeafStep(tables, root, v.Path());
      PathIs(v);
      var pdpt := Descend(root, v.pml4, false);
      if pdpt.None? { return None; }
      LeafStep(tables, pdpt.value, [v.pdpt, v.pd]);
      var pd := Descend(pdpt.value, v.pdpt, false);
      if pd.None? { return None; }
      LeafStep(tables, pd.value, [v.pd]);
      t := Descend(pd.value, v.pd, false);
    }

    /** `pmap_unenter_kern`: the page must be mapped; exactly its entry is cleared. */
    method UnenterKern(root: nat, v: VPage) returns (frame: nat)
      requires Valid() && root in roots && v.Ok() && View(root, v) != ABSENT
      modifies this
      ensures Valid() && roots == old(roots) && frame == old(View(root, v)).frame
      ensures forall r, w: VPage | r in roots && w.Ok() ::
                View(r, w) == if SameSlot(root, v, r, w) then Tte(false, false, false, 0) else old(View(r, w))
    {
      hide Tree, KernelHalf, Opened;
      var t := FullyDescend(root, v);
      frame := tables[t.value][v.pt].frame;
      SetLeaf(root, v, t.value, ABSENT);
    }

    /** `pmap_new`: an empty lower half and the kernel's own tables above. */
    method New() returns (root: nat)
      requires Valid()
      modifies this
      ensures Valid() && root !in old(roots) && roots == old(roots) + {root}
      ensures forall r, w: VPage | r in old(roots) && w.Ok() :: View(r, w) == old(View(r, w))
      ensures forall w: VPage | w.Ok() :: View(root, w) == if KERNEL_FIRST <= w.pml4 then View(kroot, w) else ABSENT
    {
      hide Tree, KernelHalf, Flat, Opened;
      TopInTables(tables, owner, roots, kroot);
      root := PageAlloc();
      var top := EmptyTable();
      var i := KERNEL_FIRST;
      while i < ENTRIES
        invariant KERNEL_FIRST <= i <= ENTRIES && |top| == ENTRIES
        invariant forall j | 0 <= j < ENTRIES ::
                    top[j] == if KERNEL_FIRST <= j < i then LeafEntry(tables[kroot][j].frame, DEFAULT_PROT) else ABSENT
      {
        top := top[i := LeafEntry(tables[kroot][i].frame, DEFAULT_PROT)];
        i := i + 1;
      }
      NewRootKeepsTree(tables, owner, roots, kroot, root, top);
      NewRootOpened(tables, owner, kroot, root, top);
      forall r, w: VPage | r in roots && w.Ok() ensures Flat(tables[root := top], r, w) == Flat(tables, r, w) {
        NewRootKeepsFlat(tables, owner, roots, root, top, r, w);
      }
      forall w: VPage | w.Ok()
        ensures Flat(tables[root := top], root, w) == if KERNEL_FIRST <= w.pml4 then Flat(tables, kroot, w) else ABSENT
      {
        NewRootFlat(tables, owner, roots, kroot, root, top, w);
      }
      tables, owner, roots := tables[root := top], owner[root := Top(root)], roots + {root};
    }

    /** In a map made since boot, a user page may be read or written exactly as its leaf entry says. */
    lemma UserAccess(r: nat, v: VPage)
      requires Valid() && r in roots && r != kroot && v.Ok() && v.pml4 < KERNEL_FIRST
      ensures UserReads(tables, r, v) <==> View(r, v).present && View(r, v).user
      ensures UserWrites(tables, r, v) <==> View(r, v).present && View(r, v).user && View(r, v).write
    {
      if View(r, v).present {
        WalkOpen(tables, owner, roots, kroot, r, v.Path());
      }
    }

    /** All maps agree on every kernel address, always. */
    lemma KernelAgrees(r: nat, w: VPage)
      requires Valid() && r in roots && w.Ok() && KERNEL_FIRST <= w.pml4
      ensures View(r, w) == View(kroot, w)
    {
      SharedSlot(tables, owner, roots, kroot, r, w);
    }
  }

  lemma HangKeepsHalf(tables: Tables, roots: set<nat>, f: nat, i: nat, g: nat)
    requires KernelHalf(tables, roots) && f in tables && i < ENTRIES && g !in tables && roots <= tables.Keys
    ensures KernelHalf(Hung(tables, f, i, g), roots)
  {}

  lemma SlotEmptyOrLinked(tables: Tables, owner: map<nat, Node>, roots: set<nat>, boot: nat, i: nat)
    requires Tree(tables, owner, roots) && roots == {boot} && boot in tables && i < ENTRIES
    ensures 0 !in tables && owner.Keys == tables.Keys && boot in owner && owner[boot] == Top(boot)
    ensures tables[boot][i].present <==> tables[boot][i].frame != 0
    ensures Sole(owner, roots, boot, i)
  {
    assert Linked(tables, owner, boot, i);
  }

  lemma LinkedAt(tables: Tables, owner: map<nat, Node>, roots: set<nat>, f: nat, i: nat)
    requires Tree(tables, owner, roots) && KernelHalf(tables, roots) && f in tables && f in owner && |owner[f].path| < 3 && i < ENTRIES
    ensures Linked(tables, owner, f, i) && 0 !in tables && owner.Keys == tables.Keys && roots <= tables.Keys
    ensures !tables[f][i].present ==> Sole(owner, roots, f, i)
  {}

  lemma RootDepth(tables: Tables, owner: map<nat, Node>, roots: set<nat>, r: nat)
    requires Tree(tables, owner, roots) && r in roots
    ensures r in tables && r in owner && owner[r].path == [] && owner.Keys == tables.Keys
  {}

  lemma TopInTables(tables: Tables, owner: map<nat, Node>, roots: set<nat>, r: nat)
    requires Tree(tables, owner, roots) && r in roots
    ensures r in tables && 0 !in tables && roots <= tables.Keys
  {}

  lemma LeafDepth(tables: Tables, owner: map<nat, Node>, roots: set<nat>, root: nat, v: VPage)
    requires Tree(tables, owner, roots) && root in roots && Leaf(tables, root, v.Path()).Some?
    ensures var t := Leaf(tables, root, v.Path()).value; t in tables && t in owner && |owner[t].path| == 3
  {
    LeafOwner(tables, owner, roots, root, v.Path());
    BelowTop(root, v);
  }

  lemma PathIs(v: VPage)
    ensures v.Path()[1..] == [v.pdpt, v.pd] && v.Path()[1..][1..] == [v.pd] && v.Path()[1..][1..][1..] == []
  {}

  lemma LeafStep(tables: Tables, f: nat, path: seq<nat>)
    requires f in tables && path != [] && path[0] < ENTRIES
    ensures Leaf(tables, f, path) == if tables[f][path[0]].present then Leaf(tables, tables[f][path[0]].frame, path[1..]) else None
    ensures Leaf(tables, f, []) == Some(f)
    ensures forall g | g in tables :: Leaf(tables, g, []) == Some(g)
  {}

  lemma WalkIs(tables: Tables, root: nat, v: VPage, pdpt: nat, pd: nat, pt: nat)
    requires v.Ok() && root in tables && pdpt in tables && pd in tables && pt in tables
    requires tables[root][v.pml4].present && tables[root][v.pml4].frame == pdpt
    requires tables[pdpt][v.pdpt].present && tables[pdpt][v.pdpt].frame == pd
    requires tables[pd][v.pd].present && tables[pd][v.pd].frame == pt
    ensures Leaf(tables, root, v.Path()) == Some(pt)
  {
    PathIs(v);
    assert Leaf(tables, pt, []) == Some(pt);
    assert Leaf(tables, pd, [v.pd]) == Some(pt);
    assert Leaf(tables, pdpt, [v.pdpt, v.pd]) == Some(pt);
  }

  /** Two maps walk to the same table for a kernel address. */
  lemma SharedSlot(tables: Tables, owner: map<nat, Node>, roots: set<nat>, k: nat, r: nat, w: VPage)
    requires Tree(tables, owner, roots) && KernelHalf(tables, roots) && k in roots && r in roots && w.Ok() && KERNEL_FIRST <= w.pml4
    ensures Leaf(tables, r, w.Path()) == Leaf(tables, k, w.Path())
    ensures Flat(tables, r, w) == Flat(tables, k, w)
  {
    assert Linked(tables, owner, k, w.pml4) && Linked(tables, owner, r, w.pml4);
    assert tables[k][w.pml4].frame == tables[r][w.pml4].frame;
    PathIs(w);
  }

  lemma SharedLeaf(tables: Tables, owner: map<nat, Node>, roots: set<nat>, root: nat, v: VPage, r: nat)
    requires Tree(tables, owner, roots) && KernelHalf(tables, roots) && root in roots && r in roots && v.Ok()
    requires root == r || KERNEL_FIRST <= v.pml4
    ensures Leaf(tables, r, v.Path()) == Leaf(tables, root, v.Path())
  {
    if root != r {
      SharedSlot(tables, owner, roots, root, r, v);
    }
  }

  lemma NewRootKeepsTree(tables: Tables, owner: map<nat, Node>, roots: set<nat>, k: nat, root: nat, top: Table)
    requires Tree(tables, owner, roots) && KernelHalf(tables, roots) && k in roots && root !in tables && root != 0
    requires k in tables && forall j | 0 <= j < ENTRIES ::
               top[j] == if KERNEL_FIRST <= j then LeafEntry(tables[k][j].frame, DEFAULT_PROT) else ABSENT
    ensures Tree(tables[root := top], owner[root := Top(root)], roots + {root})
    ensures KernelHalf(tables[root := top], roots + {root})
  {
    var tables', owner' := tables[root := top], owner[root := Top(root)];
    NodesDiffer(owner, root, Top(root));
    ParentsAfter(owner, root, Top(root), k, 0);
    hide HasParent, Child, NoTable, Linked;
    forall f, i | f in tables' && |owner'[f].path| < 3 && 0 <= i < ENTRIES ensures Linked(tables', owner', f, i) {
      if f == root {
        NewRootLinked(tables, owner, roots, k, root, top, i);
      } else {
        OldLinkedBeside(tables, owner, roots, root, top, f, i);
      }
    }
  }

  lemma OldLinkedBeside(tables: Tables, owner: map<nat, Node>, roots: set<nat>, root: nat, top: Table, f: nat, i: nat)
    requires Tree(tables, owner, roots) && root !in tables && f in tables && i < ENTRIES && |owner[f].path| < 3
    ensures Linked(tables[root := top], owner[root := Top(root)], f, i)
  {
    assert Linked(tables, owner, f, i);
  }

  /** The new root shares the kernel half's tables and has none of its own. */
  lemma NewRootLinked(tables: Tables, owner: map<nat, Node>, roots: set<nat>, k: nat, root: nat, top: Table, i: nat)
    requires Tree(tables, owner, roots) && KernelHalf(tables, roots) && k in roots && root !in tables && root != 0 && i < ENTRIES
    requires k in tables && forall j | 0 <= j < ENTRIES ::
               top[j] == if KERNEL_FIRST <= j then LeafEntry(tables[k][j].frame, DEFAULT_PROT) else ABSENT
    ensures Linked(tables[root := top], owner[root := Top(root)], root, i)
  {
    if KERNEL_FIRST <= i {
      assert Linked(tables, owner, k, i);
    } else {
      forall h | h in owner ensures owner[h] != Child(Top(root), i) {
        if owner[h] == Child(Top(root), i) {
          assert HasParent(owner, h);
          var g, j: nat :| g in owner && owner[h] == Child(owner[g], j);
          ChildInjective(Top(root), i, owner[g], j);
        }
      }
      hide Tree, KernelHalf;
    }
  }

  lemma {:induction false} LeafAfterNewRoot(tables: Tables, owner: map<nat, Node>, roots: set<nat>, root: nat, top: Table, f: nat, path: seq<nat>)
    requires Tree(tables, owner, roots) && f in tables && root !in tables && |owner[f].path| + |path| <= 3
    ensures Leaf(tables[root := top], f, path) == Leaf(tables, f, path)
    decreases |path|
  {
    if path != [] && path[0] < ENTRIES && tables[f][path[0]].present {
      assert Linked(tables, owner, f, path[0]);
      LeafAfterNewRoot(tables, owner, roots, root, top, tables[f][path[0]].frame, path[1..]);
    }
  }

  lemma NewRootKeepsFlat(tables: Tables, owner: map<nat, Node>, roots: set<nat>, root: nat, top: Table, r: nat, w: VPage)
    requires Tree(tables, owner, roots) && r in roots && root !in tables
    ensures Flat(tables[root := top], r, w) == Flat(tables, r, w)
  {
    LeafAfterNewRoot(tables, owner, roots, root, top, r, w.Path());
    LeafOwner(tables, owner, roots, r, w.Path());
  }

  lemma NewRootFlat(tables: Tables, owner: map<nat, Node>, roots: set<nat>, k: nat, root: nat, top: Table, w: VPage)
    requires Tree(tables, owner, roots) && KernelHalf(tables, roots) && k in roots && root !in tables && w.Ok()
    requires k in tables && forall j | 0 <= j < ENTRIES ::
               top[j] == if KERNEL_FIRST <= j then LeafEntry(tables[k][j].frame, DEFAULT_PROT) else ABSENT
    ensures Flat(tables[root := top], root, w) == if KERNEL_FIRST <= w.pml4 then Flat(tables, k, w) else ABSENT
  {
    var tables' := tables[root := top];
    PathIs(w);
    if KERNEL_FIRST <= w.pml4 {
      assert Linked(tables, owner, k, w.pml4);
      var g := tables[k][w.pml4].frame;
      LeafAfterNewRoot(tables, owner, roots, root, top, g, w.Path()[1..]);
      LeafOwner(tables, owner, roots, k, w.Path());
    }
  }
}
