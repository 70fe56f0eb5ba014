/** What each elementary change to anonymous memory keeps. */
module CowSteps {
  import opened Common
  import opened CowState

  // ---------------------------------------------------------------------------------
  // Growing an amap
  // ---------------------------------------------------------------------------------

  /** Objects that differ only in how much room their amaps have. */
  ghost predicate SameSlots(objects: Objects, objects': Objects) {
    && objects.Keys == objects'.Keys
    && (forall o | o in objects :: objects'[o].refcnt == objects[o].refcnt)
    && (forall o: nat, p: nat :: SlotOf(objects', o, p) == SlotOf(objects, o, p))
  }

  lemma GrowKeeps(objects: Objects, objects': Objects, anons: Anons, mem: Memory, entries: seq<Entry>, ptes: PageTable,
                  holders: Holders, priv: Private)
    requires SameSlots(objects, objects')
    requires Counted(objects, anons, holders) && Mapped(objects, anons, entries, ptes)
    requires Entered(objects, entries) && Agrees(objects, anons, mem, priv)
    ensures Counted(objects', anons, holders) && Mapped(objects', anons, entries, ptes)
    ensures Entered(objects', entries) && Agrees(objects', anons, mem, priv)
  {
    forall va | va in ptes ensures Translates(objects', anons, entries, va, ptes[va]) {
      assert Translates(objects, anons, entries, va, ptes[va]);
    }
    forall o: nat, p: nat | o in objects' ensures p in priv[o] && priv[o][p] == Contents(objects', anons, mem, o, p) {
      assert Contents(objects', anons, mem, o, p) == Contents(objects, anons, mem, o, p);
    }
  }

  // ---------------------------------------------------------------------------------
  // Putting an anon into a slot
  // ---------------------------------------------------------------------------------

  function WithSlot(objects: Objects, o: nat, p: nat, a: nat): (r: Objects)
    requires o in objects && HasSlot(objects[o].amap, p)
    ensures r.Keys == objects.Keys && forall n | n in objects :: r[n].refcnt == objects[n].refcnt
    ensures forall n: nat, q: nat :: SlotOf(r, n, q) == if n == o && q == p then Some(a) else SlotOf(objects, n, q)
    ensures forall n: nat, q: nat :: n in objects ==> (HasSlot(r[n].amap, q) <==> HasSlot(objects[n].amap, q))
  {
    objects[o := objects[o].(amap := SetSlot(objects[o].amap, p, a))]
  }

  function Moved(holders: Holders, a: nat, h: (nat, nat), b: nat): Holders
    requires a in holders
  {
    holders[a := holders[a] - {h}][b := {h}]
  }

  lemma Singleton<T>(s: set<T>, x: T)
    requires |s| == 1 && x in s
    ensures s == {x}
  {
    assert |s - {x}| == 0;
  }

  /** A fresh anon in an empty slot. */
  lemma FreshCounted(objects: Objects, anons: Anons, holders: Holders, o: nat, p: nat, b: nat, g: nat)
    requires Counted(objects, anons, holders) && b !in anons
    requires o in objects && HasSlot(objects[o].amap, p) && SlotOf(objects, o, p).None?
    ensures Counted(WithSlot(objects, o, p, b), anons[b := Anon(1, g)], holders[b := {(o, p)}])
  {
    var h' := holders[b := {(o, p)}];
    var objects' := WithSlot(objects, o, p, b);
    forall a: nat, h: (nat, nat) | a in h' && h in h'[a] ensures SlotOf(objects', h.0, h.1) == Some(a) {
      if a != b { assert SlotOf(objects, h.0, h.1) == Some(a); }
    }
    forall n: nat, q: nat | SlotOf(objects', n, q).Some?
      ensures SlotOf(objects', n, q).value in h' && (n, q) in h'[SlotOf(objects', n, q).value]
    {
      if !(n == o && q == p) { assert SlotOf(objects, n, q).Some?; }
    }
  }

  /** A private copy in a slot that shared its anon. */
  lemma CopyCounted(objects: Objects, anons: Anons, holders: Holders, o: nat, p: nat, a: nat, b: nat, g: nat)
    requires Counted(objects, anons, holders) && b !in anons
    requires o in objects && HasSlot(objects[o].amap, p) && SlotOf(objects, o, p) == Some(a) && 1 < anons[a].refcnt
    ensures a in holders
    ensures Counted(WithSlot(objects, o, p, b), anons[a := Anon(anons[a].refcnt - 1, anons[a].page)][b := Anon(1, g)],
                    Moved(holders, a, (o, p), b))
  {
    var h' := Moved(holders, a, (o, p), b);
    var objects' := WithSlot(objects, o, p, b);
    assert |h'[a]| == |holders[a]| - 1;
    forall c: nat, h: (nat, nat) | c in h' && h in h'[c] ensures SlotOf(objects', h.0, h.1) == Some(c) {
      if c != b { assert h in holders[c] && SlotOf(objects, h.0, h.1) == Some(c); }
    }
    forall n: nat, q: nat | SlotOf(objects', n, q).Some?
      ensures SlotOf(objects', n, q).value in h' && (n, q) in h'[SlotOf(objects', n, q).value]
    {
      if !(n == o && q == p) { assert SlotOf(objects, n, q).Some?; }
    }
  }

  lemma CopyFramed(anons: Anons, mem: Memory, a: nat, n: nat, b: nat, g: nat, content: Page)
    requires Framed(anons, mem) && a in anons && b !in anons && g !in mem
    ensures Framed(anons[a := Anon(n, anons[a].page)][b := Anon(1, g)], mem[g := content])
  {
    FramesKept(anons, anons[a := Anon(n, anons[a].page)]);
    var anons' := anons[a := Anon(n, anons[a].page)][b := Anon(1, g)];
    FramesKept(anons[a := Anon(n, anons[a].page)], anons');
    assert anons'[b].page == g;
  }

  /** Anons that keep their frames account for the same frames, and for those of new anons. */
  lemma FramesKept(anons: Anons, anons': Anons)
    requires forall a | a in anons :: a in anons' && anons'[a].page == anons[a].page
    ensures FramesOf(anons) <= FramesOf(anons')
    ensures forall a | a in anons' :: anons'[a].page in FramesOf(anons')
  {}

  /** Giving (o, p) a page of its own moves nobody else's translation. */
  lemma CopyMapped(objects: Objects, anons: Anons, entries: seq<Entry>, ptes: PageTable, va: Va, o: nat, p: nat, b: nat, g: nat,
                   anons': Anons)
    requires Mapped(objects, anons, entries, ptes) && Entered(objects, entries) && b !in anons
    requires o in objects && HasSlot(objects[o].amap, p)
    requires EntryAt(entries, va).Some? && EntryAt(entries, va).value.obj == o && EntryAt(entries, va).value.ObjectPage(va) == p
    requires forall c | c in anons :: c in anons' && anons'[c].page == anons[c].page && (anons[c].refcnt == 1 ==> anons'[c].refcnt == 1)
    ensures Mapped(WithSlot(objects, o, p, b), anons', entries, ptes - {va})
    ensures b in anons' && anons'[b] == Anon(1, g) ==> Translates(WithSlot(objects, o, p, b), anons', entries, va, Pte(g, true))
  {
    forall vb | vb in ptes && vb != va ensures Translates(WithSlot(objects, o, p, b), anons', entries, vb, ptes[vb]) {
      assert Translates(objects, anons, entries, vb, ptes[vb]);
      var e := EntryAt(entries, vb).value;
      if e.obj == o && e.ObjectPage(vb) == p {
        OneAddress(objects, entries, va, vb);
      }
    }
  }

  lemma MappedPlus(objects: Objects, anons: Anons, entries: seq<Entry>, ptes: PageTable, va: Va, pte: Pte)
    requires Mapped(objects, anons, entries, ptes) && Translates(objects, anons, entries, va, pte)
    ensures Mapped(objects, anons, entries, ptes[va := pte])
  {}

  lemma CopyAgrees(objects: Objects, anons: Anons, mem: Memory, priv: Private, o: nat, p: nat, b: nat, g: nat, anons': Anons, holders: Holders)
    requires Agrees(objects, anons, mem, priv) && Framed(anons, mem) && Counted(objects, anons, holders)
    requires b !in anons && g !in mem && o in objects && HasSlot(objects[o].amap, p)
    requires forall c | c in anons :: c in anons' && anons'[c].page == anons[c].page
    requires b in anons' && anons'[b].page == g
    ensures Agrees(WithSlot(objects, o, p, b), anons', mem[g := Contents(objects, anons, mem, o, p)], priv)
  {
    hide Counted, Framed, Contents;
    var mem' := mem[g := Contents(objects, anons, mem, o, p)];
    var objects' := WithSlot(objects, o, p, b);
    forall n: nat, q: nat | n in objects' ensures q in priv[n] && priv[n][q] == Contents(objects', anons', mem', n, q) {
      CopyPoint(objects, anons, mem, o, p, b, g, anons', holders, n, q);
    }
  }

  lemma CopyPoint(objects: Objects, anons: Anons, mem: Memory, o: nat, p: nat, b: nat, g: nat, anons': Anons, holders: Holders,
                  n: nat, q: nat)
    requires Framed(anons, mem) && Counted(objects, anons, holders)
    requires b !in anons && g !in mem && o in objects && HasSlot(objects[o].amap, p)
    requires forall c | c in anons :: c in anons' && anons'[c].page == anons[c].page
    requires b in anons' && anons'[b].page == g
    ensures Contents(WithSlot(objects, o, p, b), anons', mem[g := Contents(objects, anons, mem, o, p)], n, q)
         == Contents(objects, anons, mem, n, q)
  {
    if !(n == o && q == p) && SlotOf(objects, n, q).Some? {
      assert SlotOf(objects, n, q).value in anons;
    }
  }

  // ---------------------------------------------------------------------------------
  // Sharing a slot with a copy
  // ---------------------------------------------------------------------------------

  /** Slot `p` of the unmapped object `n` comes to hold the anon of slot `p` of `o`. */
  lemma ShareCounted(objects: Objects, anons: Anons, holders: Holders, n: nat, p: nat, a: nat)
    requires Counted(objects, anons, holders) && a in anons
    requires n in objects && HasSlot(objects[n].amap, p) && SlotOf(objects, n, p).None?
    ensures Counted(WithSlot(objects, n, p, a), anons[a := Anon(anons[a].refcnt + 1, anons[a].page)],
                    holders[a := holders[a] + {(n, p)}])
  {
    var h' := holders[a := holders[a] + {(n, p)}];
    var objects' := WithSlot(objects, n, p, a);
    assert (n, p) !in holders[a];
    assert |h'[a]| == |holders[a]| + 1;
    forall c: nat, h: (nat, nat) | c in h' && h in h'[c] ensures SlotOf(objects', h.0, h.1) == Some(c) {
      if h != (n, p) || c != a {
        assert h in holders[c] && SlotOf(objects, h.0, h.1) == Some(c);
      }
    }
    forall m: nat, q: nat | SlotOf(objects', m, q).Some?
      ensures SlotOf(objects', m, q).value in h' && (m, q) in h'[SlotOf(objects', m, q).value]
    {
      if !(m == n && q == p) { assert SlotOf(objects, m, q).Some?; }
    }
  }

  lemma ShareMapped(objects: Objects, anons: Anons, mem: Memory, entries: seq<Entry>, ptes: PageTable, n: nat, p: nat, a: nat)
    requires Mapped(objects, anons, entries, ptes) && Framed(anons, mem) && a in anons
    requires n in objects && HasSlot(objects[n].amap, p) && forall e | e in entries :: e.obj != n
    requires forall va | va in ptes && ptes[va].frame == anons[a].page :: !ptes[va].writable
    ensures Mapped(WithSlot(objects, n, p, a), anons[a := Anon(anons[a].refcnt + 1, anons[a].page)], entries, ptes)
  {
    forall va | va in ptes
      ensures Translates(WithSlot(objects, n, p, a), anons[a := Anon(anons[a].refcnt + 1, anons[a].page)], entries, va, ptes[va])
    {
      assert Translates(objects, anons, entries, va, ptes[va]);
    }
  }

  lemma SharePoint(objects: Objects, anons: Anons, mem: Memory, o: nat, n: nat, p: nat, a: nat, m: nat, q: nat)
    requires SlotOf(objects, o, p) == Some(a) && a in anons && n in objects && HasSlot(objects[n].amap, p)
    ensures Contents(WithSlot(objects, n, p, a), anons[a := Anon(anons[a].refcnt + 1, anons[a].page)], mem, m, q)
         == if m == n && q == p then Contents(objects, anons, mem, o, p) else Contents(objects, anons, mem, m, q)
  {}

  lemma ShareAgrees(objects: Objects, anons: Anons, mem: Memory, priv: Private, o: nat, n: nat, p: nat, a: nat)
    requires Agrees(objects, anons, mem, priv) && SlotOf(objects, o, p) == Some(a) && a in anons
    requires n in objects && HasSlot(objects[n].amap, p) && o in objects
    ensures Agrees(WithSlot(objects, n, p, a), anons[a := Anon(anons[a].refcnt + 1, anons[a].page)], mem,
                   PutPage(priv, n, p, priv[o][p]))
  {
    hide Contents;
    var objects', anons' := WithSlot(objects, n, p, a), anons[a := Anon(anons[a].refcnt + 1, anons[a].page)];
    var priv' := PutPage(priv, n, p, priv[o][p]);
    forall m: nat, q: nat | m in objects' ensures q in priv'[m] && priv'[m][q] == Contents(objects', anons', mem, m, q) {
      SharePoint(objects, anons, mem, o, n, p, a, m, q);
    }
  }

  // ---------------------------------------------------------------------------------
  // Letting go of a slot
  // ---------------------------------------------------------------------------------

  function WithoutSlot(objects: Objects, o: nat, p: nat): (r: Objects)
    requires o in objects && HasSlot(objects[o].amap, p)
    ensures r.Keys == objects.Keys && forall n | n in objects :: r[n].refcnt == objects[n].refcnt
    ensures forall n: nat, q: nat :: SlotOf(r, n, q) == if n == o && q == p then None else SlotOf(objects, n, q)
    ensures |r[o].amap| == |objects[o].amap| && forall q: nat :: HasSlot(r[o].amap, q) <==> HasSlot(objects[o].amap, q)
  {
    objects[o := objects[o].(amap := ClearSlot(objects[o].amap, p))]
  }

  /** The anons left when one holder of `a` lets go: the last one takes the anon with it. */
  function AfterDrop(anons: Anons, a: nat): Anons
    requires a in anons && 0 < anons[a].refcnt
  {
    if anons[a].refcnt == 1 then anons - {a} else anons[a := Anon(anons[a].refcnt - 1, anons[a].page)]
  }

  function HoldersAfterDrop(anons: Anons, holders: Holders, a: nat, h: (nat, nat)): Holders
    requires a in anons && a in holders
  {
    if anons[a].refcnt == 1 then holders - {a} else holders[a := holders[a] - {h}]
  }

  function MemoryAfterDrop(anons: Anons, mem: Memory, a: nat): Memory
    requires a in anons
  {
    if anons[a].refcnt == 1 then mem - {anons[a].page} else mem
  }

  lemma DropCounted(objects: Objects, anons: Anons, holders: Holders, o: nat, p: nat, a: nat)
    requires Counted(objects, anons, holders)
    requires o in objects && HasSlot(objects[o].amap, p) && SlotOf(objects, o, p) == Some(a)
    ensures a in anons && 0 < anons[a].refcnt
    ensures Counted(WithoutSlot(objects, o, p), AfterDrop(anons, a), HoldersAfterDrop(anons, holders, a, (o, p)))
  {
    var h' := HoldersAfterDrop(anons, holders, a, (o, p));
    var objects' := WithoutSlot(objects, o, p);
    if anons[a].refcnt == 1 {
      Singleton(holders[a], (o, p));
    } else {
      assert |h'[a]| == |holders[a]| - 1;
    }
    forall c: nat, h: (nat, nat) | c in h' && h in h'[c] ensures SlotOf(objects', h.0, h.1) == Some(c) {
      assert h in holders[c] && SlotOf(objects, h.0, h.1) == Some(c);
    }
    forall m: nat, q: nat | SlotOf(objects', m, q).Some?
      ensures SlotOf(objects', m, q).value in h' && (m, q) in h'[SlotOf(objects', m, q).value]
    {
      assert SlotOf(objects, m, q).Some?;
    }
  }

  lemma DropFramed(anons: Anons, mem: Memory, a: nat)
    requires Framed(anons, mem) && a in anons && 0 < anons[a].refcnt
    ensures Framed(AfterDrop(anons, a), MemoryAfterDrop(anons, mem, a))
  {
    var anons' := AfterDrop(anons, a);
    forall f | f in MemoryAfterDrop(anons, mem, a) ensures f in FramesOf(anons') {
      assert f in FramesOf(anons);
      var c :| c in anons && anons[c].page == f;
      assert c in anons' && anons'[c].page == f;
    }
  }

  /** The freed frame of a last holder that no entry maps has no translation left. */
  lemma DropMapped(objects: Objects, anons: Anons, mem: Memory, entries: seq<Entry>, ptes: PageTable, holders: Holders,
                   o: nat, p: nat, a: nat)
    requires Mapped(objects, anons, entries, ptes) && Counted(objects, anons, holders) && Framed(anons, mem)
    requires o in objects && HasSlot(objects[o].amap, p) && SlotOf(objects, o, p) == Some(a)
    requires a in anons && 0 < anons[a].refcnt && forall e | e in entries :: e.obj != o
    ensures Mapped(WithoutSlot(objects, o, p), AfterDrop(anons, a), entries, ptes)
    ensures anons[a].refcnt == 1 ==> forall va | va in ptes :: ptes[va].frame != anons[a].page
  {
    forall va | va in ptes
      ensures Translates(WithoutSlot(objects, o, p), AfterDrop(anons, a), entries, va, ptes[va])
      ensures anons[a].refcnt == 1 ==> ptes[va].frame != anons[a].page
    {
      assert Translates(objects, anons, entries, va, ptes[va]);
      var e := EntryAt(entries, va).value;
      if anons[a].refcnt == 1 {
        SoleHolder(objects, anons, mem, holders, o, p, a, e.obj, e.ObjectPage(va));
      }
    }
  }

  lemma DropPoint(objects: Objects, anons: Anons, mem: Memory, holders: Holders, o: nat, p: nat, a: nat, n: nat, q: nat)
    requires Framed(anons, mem) && Counted(objects, anons, holders)
    requires o in objects && HasSlot(objects[o].amap, p) && SlotOf(objects, o, p) == Some(a) && a in anons && 0 < anons[a].refcnt
    ensures Contents(WithoutSlot(objects, o, p), AfterDrop(anons, a), MemoryAfterDrop(anons, mem, a), n, q)
         == if n == o && q == p then ZeroPage() else Contents(objects, anons, mem, n, q)
  {
    hide Counted;
    if !(n == o && q == p) && anons[a].refcnt == 1 {
      SoleHolder(objects, anons, mem, holders, o, p, a, n, q);
    }
  }

  lemma DropAgrees(objects: Objects, anons: Anons, mem: Memory, holders: Holders, priv: Private, o: nat, p: nat, a: nat)
    requires Agrees(objects, anons, mem, priv) && Framed(anons, mem) && Counted(objects, anons, holders)
    requires o in objects && HasSlot(objects[o].amap, p) && SlotOf(objects, o, p) == Some(a) && a in anons && 0 < anons[a].refcnt
    ensures Agrees(WithoutSlot(objects, o, p), AfterDrop(anons, a), MemoryAfterDrop(anons, mem, a), PutPage(priv, o, p, ZeroPage()))
  {
    hide Contents, Counted, Framed;
    var objects', priv' := WithoutSlot(objects, o, p), PutPage(priv, o, p, ZeroPage());
    forall n: nat, q: nat | n in objects'
      ensures q in priv'[n] && priv'[n][q] == Contents(objects', AfterDrop(anons, a), MemoryAfterDrop(anons, mem, a), n, q)
    {
      DropPoint(objects, anons, mem, holders, o, p, a, n, q);
    }
  }

  /** An object with nothing in its slots can be forgotten. */
  lemma ForgetKeeps(objects: Objects, anons: Anons, mem: Memory, entries: seq<Entry>, ptes: PageTable, holders: Holders,
                    priv: Private, o: nat)
    requires Counted(objects, anons, holders) && Mapped(objects, anons, entries, ptes)
    requires Entered(objects, entries) && Agrees(objects, anons, mem, priv)
    requires o in objects && (forall p: nat :: SlotOf(objects, o, p).None?) && forall e | e in entries :: e.obj != o
    ensures Counted(objects - {o}, anons, holders) && Mapped(objects - {o}, anons, entries, ptes)
    ensures Entered(objects - {o}, entries) && Agrees(objects - {o}, anons, mem, priv - {o})
  {
    var objects' := objects - {o};
    assert forall n: nat, p: nat :: SlotOf(objects', n, p) == SlotOf(objects, n, p);
    forall va | va in ptes ensures Translates(objects', anons, entries, va, ptes[va]) {
      assert Translates(objects, anons, entries, va, ptes[va]);
    }
    forall n: nat, p: nat | n in objects' ensures p in priv[n] && priv[n][p] == Contents(objects', anons, mem, n, p) {
      assert Contents(objects', anons, mem, n, p) == Contents(objects, anons, mem, n, p);
    }
  }

  // ---------------------------------------------------------------------------------
  // Writing through a translation
  // ---------------------------------------------------------------------------------

  /** An unshared anon's frame shows in one slot only. */
  lemma SoleHolder(objects: Objects, anons: Anons, mem: Memory, holders: Holders, o: nat, p: nat, a: nat, n: nat, q: nat)
    requires Framed(anons, mem) && Counted(objects, anons, holders)
    requires SlotOf(objects, o, p) == Some(a) && a in anons && anons[a].refcnt == 1 && (n, q) != (o, p)
    ensures SlotOf(objects, n, q).Some? ==>
              SlotOf(objects, n, q).value in anons && anons[SlotOf(objects, n, q).value].page != anons[a].page
  {
    Singleton(holders[a], (o, p));
    if SlotOf(objects, n, q).Some? {
      assert (n, q) in holders[SlotOf(objects, n, q).value];
    }
  }

  lemma WritePoint(objects: Objects, anons: Anons, mem: Memory, holders: Holders, o: nat, p: nat, a: nat, page: Page, n: nat, q: nat)
    requires Framed(anons, mem) && Counted(objects, anons, holders)
    requires SlotOf(objects, o, p) == Some(a) && a in anons && anons[a].refcnt == 1
    ensures Contents(objects, anons, mem[anons[a].page := page], n, q)
         == if (n, q) == (o, p) then page else Contents(objects, anons, mem, n, q)
  {
    hide Counted;
    if (n, q) != (o, p) {
      SoleHolder(objects, anons, mem, holders, o, p, a, n, q);
    }
  }

  /** A write the page table permits reaches one page of one object only. */
  lemma WriteAgrees(objects: Objects, anons: Anons, mem: Memory, entries: seq<Entry>, holders: Holders, priv: Private,
                    va: Va, pte: Pte, page: Page)
    requires Agrees(objects, anons, mem, priv) && Framed(anons, mem) && Counted(objects, anons, holders)
    requires Translates(objects, anons, entries, va, pte) && pte.writable
    ensures var e := EntryAt(entries, va).value;
            e.obj in objects && Agrees(objects, anons, mem[pte.frame := page], PutPage(priv, e.obj, e.ObjectPage(va), page))
  {
    hide Counted, Framed, Contents;
    var e := EntryAt(entries, va).value;
    var o, p := e.obj, e.ObjectPage(va);
    var a := SlotOf(objects, o, p).value;
    var mem', priv' := mem[pte.frame := page], PutPage(priv, o, p, page);
    forall n: nat, q: nat | n in objects ensures q in priv'[n] && priv'[n][q] == Contents(objects, anons, mem', n, q) {
      WritePoint(objects, anons, mem, holders, o, p, a, page, n, q);
    }
  }

  /** A read through any translation sees the object's own bytes. */
  lemma ReadAgrees(objects: Objects, anons: Anons, mem: Memory, entries: seq<Entry>, priv: Private, va: Va, pte: Pte)
    requires Agrees(objects, anons, mem, priv) && Framed(anons, mem) && Translates(objects, anons, entries, va, pte)
    ensures var e := EntryAt(entries, va).value;
            && e.obj in objects && pte.frame in mem && mem[pte.frame] == priv[e.obj][e.ObjectPage(va)]
  {
    var e := EntryAt(entries, va).value;
    assert priv[e.obj][e.ObjectPage(va)] == Contents(objects, anons, mem, e.obj, e.ObjectPage(va));
  }
}
