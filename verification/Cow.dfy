/** Copy-on-write anonymous memory as the kernel runs it: page faults, object copies, unmapping and
    release, each proved against a memory in which every copy is made eagerly. */
module Cow {
  import opened Common
  import opened CowState
  import opened CowSteps

  // ---------------------------------------------------------------------------------
  // Reverse maps
  // ---------------------------------------------------------------------------------

  lemma EnterReversed(ptes: PageTable, pv: Reverse, va: Va, pte: Pte)
    requires Reversed(ptes, pv) && va !in ptes && pte.frame in pv
    ensures Reversed(ptes[va := pte], pv[pte.frame := [va] + pv[pte.frame]])
  {}

  lemma ReenterReversed(ptes: PageTable, pv: Reverse, va: Va, pte: Pte)
    requires Reversed(ptes, pv) && va in ptes && ptes[va].frame == pte.frame
    ensures Reversed(ptes[va := pte], pv)
  {}

  lemma UnenterReversed(ptes: PageTable, pv: Reverse, va: Va, i: nat)
    requires Reversed(ptes, pv) && va in ptes && ptes[va].frame in pv && i < |pv[ptes[va].frame]| && pv[ptes[va].frame][i] == va
    ensures var f := ptes[va].frame; Reversed(ptes - {va}, pv[f := pv[f][..i] + pv[f][i + 1..]])
  {
    var f := ptes[va].frame;
    var l := pv[f][..i] + pv[f][i + 1..];
    forall vb ensures vb in l <==> vb in pv[f] && vb != va {
      if vb in pv[f] && vb != va {
        var j :| 0 <= j < |pv[f]| && pv[f][j] == vb;
        assert l[if j < i then j else j - 1] == vb;
      }
    }
  }

  lemma Absent(ptes: PageTable, va: Va)
    ensures va !in ptes ==> ptes - {va} == ptes
  {}

  lemma FrameReversed(ptes: PageTable, pv: Reverse, f: nat)
    requires Reversed(ptes, pv)
    ensures f !in pv ==> Reversed(ptes, pv[f := []])
    ensures (forall va | va in ptes :: ptes[va].frame != f) ==> Reversed(ptes, pv - {f})
  {}

  ghost function ZeroAt(p: nat): Page { ZeroPage() }

  ghost function ZeroPages(): imap<nat, Page> { imap p: nat :: ZeroAt(p) }

  // ---------------------------------------------------------------------------------
  // The machine
  // ---------------------------------------------------------------------------------

  class AnonMemory {
    var objects: Objects
    var anons: Anons
    var mem: Memory
    var ptes: PageTable
    var pv: Reverse
    var entries: seq<Entry>
    ghost var holders: Holders
    ghost var priv: Private

    ghost predicate Valid()
      reads this
    {
      && Counted(objects, anons, holders) && Framed(anons, mem)
      && Mapped(objects, anons, entries, ptes) && Reversed(ptes, pv) && pv.Keys == mem.Keys
      && Entered(objects, entries) && Agrees(objects, anons, mem, priv)
    }

    constructor ()
      ensures Valid() && objects == map[] && entries == [] && priv == map[]
    {
      objects, anons, mem, ptes, pv, entries := map[], map[], map[], map[], map[], [];
      holders, priv := map[], map[];
    }

    // ------ physical map ------

    /** `pmap_enter`: a new, tracked translation. */
    method PmapEnter(va: Va, frame: nat, writable: bool)
      requires Reversed(ptes, pv) && va !in ptes && frame in pv
      modifies `ptes, `pv
      ensures ptes == old(ptes)[va := Pte(frame, writable)]
      ensures Reversed(ptes, pv) && pv.Keys == old(pv.Keys)
    {
      EnterReversed(ptes, pv, va, Pte(frame, writable));
      ptes := ptes[va := Pte(frame, writable)];
      pv := pv[frame := [va] + pv[frame]];
    }

    /** `pmap_reenter`: only the permissions of an existing translation change. */
    method PmapReenter(va: Va, frame: nat, writable: bool)
      requires Reversed(ptes, pv) && va in ptes && ptes[va].frame == frame
      modifies `ptes
      ensures ptes == old(ptes)[va := Pte(frame, writable)] && Reversed(ptes, pv)
    {
      ReenterReversed(ptes, pv, va, Pte(frame, writable));
      ptes := ptes[va := Pte(frame, writable)];
    }

    /** `pmap_unenter`; its search of the reverse map never falls through to the fatal call. */
    method PmapUnenter(va: Va)
      requires Reversed(ptes, pv)
      modifies `ptes, `pv
      ensures ptes == old(ptes) - {va}
      ensures Reversed(ptes, pv) && pv.Keys == old(pv.Keys)
    {
      if va !in ptes {
        return;
      }
      var frame := ptes[va].frame;
      ghost var was := ptes;
      var list := pv[frame];
      var i := 0;
      while list[i] != va
        invariant i < |list| && va in list[i..]
        decreases |list| - i
      {
        i := i + 1;
      }
      UnenterReversed(ptes, pv, va, i);
      ptes := ptes - {va};
      pv := pv[frame := list[..i] + list[i + 1..]];
    }

    /** `pmap_reenter_all_readonly`. */
    method PmapReenterAllReadonly(frame: nat)
      requires Reversed(ptes, pv) && frame in pv
      modifies `ptes
      ensures Reversed(ptes, pv) && ptes.Keys == old(ptes).Keys
      ensures forall va | va in ptes :: ptes[va] == if old(ptes)[va].frame == frame then Pte(frame, false) else old(ptes)[va]
    {
      var list := pv[frame];
      var i := 0;
      while i < |list|
        invariant i <= |list| && Reversed(ptes, pv) && ptes.Keys == old(ptes).Keys
        invariant forall va | va in ptes :: ptes[va] == if va in list[..i] then Pte(frame, false) else old(ptes)[va]
      {
        assert list[i] in ptes && ptes[list[i]].frame == frame;
        PmapReenter(list[i], frame, false);
        assert list[..i + 1] == list[..i] + [list[i]];
        i := i + 1;
      }
      assert list[..i] == list;
    }

    // ------ anons ------

    /** `vm_pagealloc`: a fresh zeroed page. */
    method PageAlloc() returns (frame: nat)
      requires Reversed(ptes, pv) && pv.Keys == mem.Keys
      modifies `mem, `pv
      ensures frame !in old(mem) && mem == old(mem)[frame := ZeroPage()]
      ensures Reversed(ptes, pv) && pv.Keys == mem.Keys
    {
      FreshNat(mem.Keys);
      frame :| frame !in mem;
      FrameReversed(ptes, pv, frame);
      mem, pv := mem[frame := ZeroPage()], pv[frame := []];
    }

    /** `anon_new`. */
    method AnonNew() returns (a: nat)
      requires Reversed(ptes, pv) && pv.Keys == mem.Keys
      modifies `anons, `mem, `pv
      ensures a !in old(anons) && a in anons && anons == old(anons)[a := Anon(1, anons[a].page)]
      ensures anons[a].page !in old(mem) && mem == old(mem)[anons[a].page := ZeroPage()]
      ensures Reversed(ptes, pv) && pv.Keys == mem.Keys
    {
      FreshNat(anons.Keys);
      a :| a !in anons;
      var frame := PageAlloc();
      anons := anons[a := Anon(1, frame)];
    }

    /** `anon_copy`. */
    method AnonCopy(from: nat) returns (a: nat)
      requires Reversed(ptes, pv) && pv.Keys == mem.Keys && from in anons && anons[from].page in mem
      modifies `anons, `mem, `pv
      ensures a !in old(anons) && a in anons && anons == old(anons)[a := Anon(1, anons[a].page)]
      ensures anons[a].page !in old(mem) && mem == old(mem)[anons[a].page := old(mem)[old(anons)[from].page]]
      ensures Reversed(ptes, pv) && pv.Keys == mem.Keys
    {
      a := AnonNew();
      mem := mem[anons[a].page := mem[anons[from].page]];
    }

    // ------ faults ------

    /** `amap_anon_at`: the amap grows just far enough to have the slot. */
    method AmapAnonAt(o: nat, p: nat) returns (slot: Option<nat>)
      requires Valid() && o in objects
      modifies `objects
      ensures Valid() && SameSlots(old(objects), objects)
      ensures HasSlot(objects[o].amap, p) && slot == SlotOf(objects, o, p)
      ensures var n := |old(objects)[o].amap|; |objects[o].amap| == if n <= p / CHUNK_PAGES then p / CHUNK_PAGES + 1 else n
      ensures forall m | m in objects && m != o :: objects[m] == old(objects)[m]
    {
      ghost var was := objects;
      objects := objects[o := objects[o].(amap := Grown(objects[o].amap, p))];
      assert SameSlots(was, objects);
      GrowKeeps(was, objects, anons, mem, entries, ptes, holders, priv);
      slot := SlotOf(objects, o, p);
    }

    /** `fault_aobj`. The flags are those the MMU delivers: a fault on a present page is a write the
        translation forbids. Nothing any object holds changes, and afterwards the access is allowed: the
        address leads to the frame of its slot, and may be written if and only if no other slot shares it.
        A new anon is made exactly for an empty slot and for a write to a shared page. */
    method FaultAobj(va: Va, o: nat, p: nat, present: bool, write: bool)
      requires Valid()
      requires EntryAt(entries, va).Some? && EntryAt(entries, va).value.obj == o && EntryAt(entries, va).value.ObjectPage(va) == p
      requires present == (va in ptes) && (present ==> write && !ptes[va].writable)
      modifies this
      ensures Valid() && priv == old(priv) && entries == old(entries)
      ensures objects.Keys == old(objects).Keys && forall n | n in objects :: objects[n].refcnt == old(objects)[n].refcnt
      ensures va in ptes && (write ==> ptes[va].writable)
      ensures ptes - {va} == old(ptes) - {va}
      ensures CopiedIfNeeded(old(objects), old(anons), old(mem), objects, anons, mem, o, p, write)
      ensures ptes[va] == Pte(anons[SlotOf(objects, o, p).value].page, anons[SlotOf(objects, o, p).value].refcnt == 1)
      ensures forall n: nat, q: nat | n != o || q != p :: SlotOf(objects, n, q) == SlotOf(old(objects), n, q)
    {
      hide Counted, Framed, Mapped, Reversed, Entered, Agrees, EntryAt;
      EntryLive(objects, entries, va);
      var slot := AmapAnonAt(o, p);
      if slot.Some? {
        var a := slot.value;
        SlotFacts(objects, anons, mem, entries, ptes, holders, va, o, p, a);
        if anons[a].refcnt > 1 {
          if write {
            WriteShared(va, o, p, a, present);
          } else {
            assert !present;
            MapSlot(va, a, false);
          }
        } else if present {
          assert write;
          ghost var was := ptes;
          PmapReenter(va, anons[a].page, true);
          MappedPlus(objects, anons, entries, was, va, Pte(anons[a].page, true));
        } else {
          MapSlot(va, a, true);
        }
      } else {
        NotPresent(objects, anons, entries, ptes, va);
        FillSlot(va, o, p);
      }
    }

    /** A not-present fault on a page the object already has. */
    method MapSlot(va: Va, a: nat, writable: bool)
      requires Valid() && va !in ptes && a in anons && anons[a].page in mem
      requires Translates(objects, anons, entries, va, Pte(anons[a].page, writable))
      modifies `ptes, `pv
      ensures Valid() && ptes == old(ptes)[va := Pte(anons[a].page, writable)]
    {
      hide Counted, Framed, Mapped, Reversed, Entered, Agrees, Translates;
      MappedPlus(objects, anons, entries, ptes, va, Pte(anons[a].page, writable));
      PmapEnter(va, anons[a].page, writable);
    }

    /** A write to a shared page: the slot gets a copy of its own, mapped writable. */
    method WriteShared(va: Va, o: nat, p: nat, a: nat, present: bool)
      requires Valid() && o in objects && HasSlot(objects[o].amap, p) && SlotOf(objects, o, p) == Some(a)
      requires EntryAt(entries, va).Some? && EntryAt(entries, va).value.obj == o && EntryAt(entries, va).value.ObjectPage(va) == p
      requires a in anons && anons[a].refcnt > 1 && anons[a].page in mem && present == (va in ptes)
      modifies this
      ensures Valid() && priv == old(priv) && entries == old(entries)
      ensures objects.Keys == old(objects).Keys && forall n | n in objects :: objects[n].refcnt == old(objects)[n].refcnt
      ensures va in ptes && ptes[va].writable && ptes - {va} == old(ptes) - {va}
      ensures TookAnon(old(objects), old(anons), objects, anons, o, p, ptes[va])
    {
      hide Counted, Framed, Mapped, Reversed, Entered, Agrees, EntryAt, Translates, SlotOf, Slot, HasSlot, SetSlot, Moved, WithSlot, Contents, TookAnon, FramesOf, ZeroPage;
      ghost var objects0, anons0, mem0, ptes0, holders0 := objects, anons, mem, ptes, holders;
      anons := anons[a := Anon(anons[a].refcnt - 1, anons[a].page)];
      var b := AnonCopy(a);
      ghost var g := anons[b].page;
      AnonTaken(objects, anons0, o, p, b, anons);
      objects := WithSlot(objects, o, p, b);
      Absent(ptes, va);
      if present {
        PmapUnenter(va);
      }
      CopyKeeps(objects0, objects, anons0, anons, mem0, mem, entries, ptes0, holders0, priv, va, o, p, a, b, g);
      holders := Moved(holders, a, (o, p), b);
      MapSlot(va, b, true);
    }

    /** First touch of a page: a fresh zeroed page, mapped writable. */
    method FillSlot(va: Va, o: nat, p: nat)
      requires Valid() && o in objects && HasSlot(objects[o].amap, p) && SlotOf(objects, o, p).None? && va !in ptes
      requires EntryAt(entries, va).Some? && EntryAt(entries, va).value.obj == o && EntryAt(entries, va).value.ObjectPage(va) == p
      modifies this
      ensures Valid() && priv == old(priv) && entries == old(entries)
      ensures objects.Keys == old(objects).Keys && forall n | n in objects :: objects[n].refcnt == old(objects)[n].refcnt
      ensures va in ptes && ptes[va].writable && ptes - {va} == old(ptes) - {va}
      ensures TookAnon(old(objects), old(anons), objects, anons, o, p, ptes[va])
    {
      hide Counted, Framed, Mapped, Reversed, Entered, Agrees, EntryAt, Translates, SlotOf, HasSlot, Moved, WithSlot, TookAnon;
      ghost var objects0, anons0, mem0, ptes0, holders0 := objects, anons, mem, ptes, holders;
      var b := AnonNew();
      ghost var g := anons[b].page;
      objects := WithSlot(objects, o, p, b);
      FreshCounted(objects0, anons0, holders0, o, p, b, g);
      FreshFramed(anons0, mem0, b, g);
      CopyMapped(objects0, anons0, entries, ptes0, va, o, p, b, g, anons);
      CopyAgrees(objects0, anons0, mem0, priv, o, p, b, g, anons, holders0);
      assert ptes == ptes0 - {va};
      holders := holders[b := {(o, p)}];
      EnteredSame(objects0, objects, entries);
      MapSlot(va, b, true);
      AnonTaken(objects0, anons0, o, p, b, anons);
    }

    /** `vm_fault`: fails exactly on an address no entry covers. */
    method Fault(va: Va, present: bool, write: bool) returns (handled: bool)
      requires Valid()
      requires present == (va in ptes) && (present ==> write && !ptes[va].writable)
      modifies this
      ensures Valid() && priv == old(priv) && entries == old(entries) && objects.Keys == old(objects).Keys
      ensures handled == EntryAt(entries, va).Some?
      ensures handled ==> va in ptes && (write ==> ptes[va].writable)
      ensures handled ==> var e := EntryAt(entries, va).value;
                CopiedIfNeeded(old(objects), old(anons), old(mem), objects, anons, mem, e.obj, e.ObjectPage(va), write)
      ensures !handled ==> ptes == old(ptes) && objects == old(objects) && anons == old(anons) && mem == old(mem)
    {
      hide Counted, Framed, Mapped, Reversed, Entered, Agrees, CopiedIfNeeded;
      var ent := EntryAt(entries, va);
      if ent.None? {
        return false;
      }
      FaultAobj(va, ent.value.obj, ent.value.ObjectPage(va), present, write);
      return true;
    }

    // ------ what the processor does through the page table ------

    method HwRead(va: Va, off: nat) returns (b: Byte)
      requires Valid() && va in ptes && off < PGSIZE
      ensures EntryAt(entries, va).Some?
      ensures var e := EntryAt(entries, va).value;
              && e.obj in priv && e.ObjectPage(va) in priv[e.obj]
              && b == priv[e.obj][e.ObjectPage(va)][off]
    {
      assert Translates(objects, anons, entries, va, ptes[va]);
      ReadAgrees(objects, anons, mem, entries, priv, va, ptes[va]);
      b := mem[ptes[va].frame][off];
    }

    method HwWrite(va: Va, off: nat, b: Byte)
      requires Valid() && va in ptes && ptes[va].writable && off < PGSIZE
      modifies `mem, `priv
      ensures Valid() && EntryAt(entries, va).Some?
      ensures var e := EntryAt(entries, va).value; var p := e.ObjectPage(va);
              && e.obj in old(priv) && p in old(priv)[e.obj]
              && priv == PutPage(old(priv), e.obj, p, old(priv)[e.obj][p][off := b])
    {
      hide Counted, Mapped, Reversed, Entered, EntryAt, Contents;
      TranslatesAt(objects, anons, entries, ptes, va);
      ghost var e := EntryAt(entries, va).value;
      ReadAgrees(objects, anons, mem, entries, priv, va, ptes[va]);
      var page: Page := mem[ptes[va].frame][off := b];
      WriteAgrees(objects, anons, mem, entries, holders, priv, va, ptes[va], page);
      priv := PutPage(priv, e.obj, e.ObjectPage(va), page);
      mem := mem[ptes[va].frame := page];
    }

    /** The byte that is at an address, if it is mapped: the object's own, had every copy been eager. */
    ghost function Cell(va: Va, off: nat): Option<Byte>
      reads `entries, `priv
    {
      CellOf(entries, priv, va, off)
    }

    /** A store instruction, faults and all. It changes the byte at its own offset of its own page of one
        object: no other byte of that page, no other page and no other object, whatever pages they share.
        So of all mapped addresses exactly the stored one reads differently. A page is made exactly for an
        empty slot and for a shared one. */
    method Store(va: Va, off: nat, b: Byte) returns (ok: bool)
      requires Valid() && off < PGSIZE
      modifies this
      ensures Valid() && entries == old(entries) && ok == EntryAt(entries, va).Some?
      ensures !ok ==> priv == old(priv)
      ensures ok ==> var e := EntryAt(entries, va).value; OneByteWritten(old(priv), priv, e.obj, va.page - e.start + e.offset, off, b)
      ensures forall vb: Va, i: nat | i < PGSIZE :: Cell(vb, i) == if ok && vb == va && i == off then Some(b) else old(Cell(vb, i))
      ensures ok ==> var e := EntryAt(entries, va).value; var p := va.page - e.start + e.offset;
                if Unshared(old(objects), old(anons), e.obj, p) then anons == old(anons)
                else SlotOf(objects, e.obj, p).Some? && SlotOf(objects, e.obj, p).value !in old(anons)
    {
      hide Counted, Framed, Mapped, Reversed, Entered, Agrees;
      if va !in ptes || !ptes[va].writable {
        ok := Fault(va, va in ptes, true);
        if !ok { return; }
      } else {
        WritableUnshared(objects, anons, entries, ptes, va);
      }
      HwWrite(va, off, b);
      ok := true;
      StoredCells(objects, anons, mem, entries, old(priv), priv, va, off, b);
    }

    /** A load instruction sees the byte at its address. It makes a page for an empty slot only. */
    method Load(va: Va, off: nat) returns (r: Option<Byte>)
      requires Valid() && off < PGSIZE
      modifies this
      ensures Valid() && priv == old(priv) && entries == old(entries)
      ensures r.Some? == EntryAt(entries, va).Some?
      ensures r.Some? ==> var e := EntryAt(entries, va).value; var p := va.page - e.start + e.offset;
              && e.obj in priv && p in priv[e.obj] && r.value == priv[e.obj][p][off]
      ensures r == Cell(va, off)
      ensures r.Some? ==> var e := EntryAt(entries, va).value;
                SlotOf(old(objects), e.obj, va.page - e.start + e.offset).Some? ==> anons == old(anons) && mem == old(mem)
    {
      hide Counted, Framed, Mapped, Reversed, Entered, Agrees;
      if va !in ptes {
        var ok := Fault(va, false, false);
        if !ok { return None; }
      }
      var b := HwRead(va, off);
      return Some(b);
    }

    /** What was stored is what is loaded, and a load from any other address is as it was before. */
    method StoreThenLoad(va: Va, off: nat, b: Byte, vb: Va, i: nat) returns (before: Option<Byte>, ok: bool, after: Option<Byte>)
      requires Valid() && off < PGSIZE && i < PGSIZE
      modifies this
      ensures Valid() && ok == EntryAt(entries, va).Some?
      ensures after == if ok && vb == va && i == off then Some(b) else before
    {
      hide Valid, EntryAt, OneByteWritten;
      before := Load(vb, i);
      ok := Store(va, off, b);
      after := Load(vb, i);
    }

    // ------ objects ------

    /** `vm_aobj_new`. */
    method NewObject() returns (o: nat)
      requires Valid()
      modifies `objects, `priv
      ensures Valid() && o !in old(objects) && objects == old(objects)[o := VmObject(1, [])]
      ensures priv == old(priv)[o := ZeroPages()]
    {
      FreshNat(objects.Keys);
      o :| o !in objects;
      BlankKeeps(objects, anons, mem, entries, ptes, holders, priv, o, VmObject(1, []));
      objects := objects[o := VmObject(1, [])];
      priv := priv[o := ZeroPages()];
    }

    /** `vm_object_copy`: afterwards the new object reads as the old one does, page by page. Copying an
        object that was never touched halts the kernel (`None`). */
    method ObjectCopy(o: nat) returns (copy: Option<nat>)
      requires Valid() && o in objects
      modifies this
      ensures Valid() && entries == old(entries)
      ensures copy.None? <==> old(objects)[o].amap == []
      ensures copy.Some? ==> var n := copy.value;
              && n !in old(objects) && objects.Keys == old(objects).Keys + {n}
              && (forall m | m in old(objects) :: objects[m] == old(objects)[m])
              && objects[n].refcnt == 1 && objects[n].amap != []
              && priv == old(priv)[n := old(priv)[o]]
    {
      hide Counted, Framed, Mapped, Reversed, Entered, Agrees, SlotOf, HasSlot, CopiedUpTo;
      ghost var objects0, priv0 := objects, priv;
      FreshNat(objects.Keys);
      var n :| n !in objects;
      var room := Empties(|objects[o].amap|);
      EmptySlots(objects, anons, mem, priv, o);
      UnmappedObject(objects, entries, n);
      BlankKeeps(objects, anons, mem, entries, ptes, holders, priv, n, VmObject(1, room));
      objects := objects[n := VmObject(1, room)];
      priv := priv[n := ZeroPages()];
      NothingCopied(objects0, priv0, o, n);
      var copied := AmapCopy(o, n, objects0, priv0);
      if !copied {
        return None;
      }
      AllCopied(objects0, priv0, objects, priv, o, n);
      return Some(n);
    }

    /** `amap_copy`: chunk by chunk, slot by slot. With no chunk at all it asks the allocator for zero
        bytes, which that asserts against: the copy never happens. */
    method AmapCopy(o: nat, n: nat, ghost objects0: Objects, ghost priv0: Private) returns (ok: bool)
      requires Valid() && CopiedUpTo(objects0, priv0, objects, priv, o, n, 0)
      requires ZeroWhereEmpty(objects0, priv0, o) && forall e | e in entries :: e.obj != n
      modifies this
      ensures Valid() && entries == old(entries)
      ensures ok <==> objects0[o].amap != []
      ensures ok ==> CopiedUpTo(objects0, priv0, objects, priv, o, n, |objects0[o].amap| * CHUNK_PAGES)
    {
      hide Counted, Framed, Mapped, Reversed, Entered, Agrees, SlotOf, HasSlot, CopiedUpTo;
      if objects[o].amap == [] {
        return false;
      }
      var i := 0;
      while i < |objects[o].amap|
        invariant Valid() && entries == old(entries)
        invariant CopiedUpTo(objects0, priv0, objects, priv, o, n, i * CHUNK_PAGES)
        invariant i <= |objects0[o].amap|
      {
        if objects[o].amap[i].None? {
          ChunkSkipped(objects0, priv0, objects, priv, o, n, i);
        } else {
          AddChunk(o, n, i, objects0, priv0);
          var j := 0;
          while j < CHUNK_PAGES
            invariant j <= CHUNK_PAGES && Valid() && entries == old(entries)
            invariant CopiedUpTo(objects0, priv0, objects, priv, o, n, i * CHUNK_PAGES + j)
            invariant i < |objects[n].amap| && objects[n].amap[i].Some?
          {
            ChunkSlot(objects[n].amap, i, j);
            CopySlot(o, n, i * CHUNK_PAGES + j, objects0, priv0);
            j := j + 1;
          }
        }
        i := i + 1;
      }
      return true;
    }

    /** A zeroed chunk for the copy. */
    method AddChunk(o: nat, n: nat, i: nat, ghost objects0: Objects, ghost priv0: Private)
      requires Valid() && CopiedUpTo(objects0, priv0, objects, priv, o, n, i * CHUNK_PAGES) && i < |objects0[o].amap|
      modifies `objects
      ensures Valid() && CopiedUpTo(objects0, priv0, objects, priv, o, n, i * CHUNK_PAGES)
      ensures i < |objects[n].amap| && objects[n].amap[i].Some?
    {
      hide Counted, Framed, Mapped, Reversed, Entered, Agrees;
      ghost var was := objects;
      objects := objects[n := objects[n].(amap := objects[n].amap[i := Some(EmptyChunk())])];
      ChunkAdded(was, objects, objects0, priv0, priv, o, n, i);
      GrowKeeps(was, objects, anons, mem, entries, ptes, holders, priv);
    }

    /** The body of the copy loop: share the anon, count the new holder, write-protect its page. */
    method CopySlot(o: nat, n: nat, p: nat, ghost objects0: Objects, ghost priv0: Private)
      requires Valid() && CopiedUpTo(objects0, priv0, objects, priv, o, n, p) && HasSlot(objects[n].amap, p)
      requires ZeroWhereEmpty(objects0, priv0, o) && forall e | e in entries :: e.obj != n
      modifies this
      ensures Valid() && entries == old(entries) && CopiedUpTo(objects0, priv0, objects, priv, o, n, p + 1)
      ensures |objects[n].amap| == |old(objects)[n].amap|
      ensures forall c | 0 <= c < |objects[n].amap| && old(objects)[n].amap[c].Some? :: objects[n].amap[c].Some?
    {
      hide Counted, Framed, Mapped, Reversed, Entered, Agrees, SlotOf, HasSlot, CopiedUpTo, WithSlot, ZeroWhereEmpty;
      var slot := SlotOf(objects, o, p);
      if slot.None? {
        SlotSkipped(objects0, priv0, objects, priv, o, n, p);
        return;
      }
      ghost var objects1, priv1 := objects, priv;
      NotCopiedYet(objects0, priv0, objects1, priv1, o, n, p);
      AnonOfSlot(objects, anons, mem, priv, holders, o, p, slot.value);
      WithSlotShape(objects, n, p, slot.value);
      ShareSlot(o, n, p, slot.value);
      SlotCopied(objects0, priv0, objects1, priv1, o, n, p, slot.value);
    }

    /** The slot of the copy takes the anon; its count goes up and its page is write-protected. */
    method ShareSlot(o: nat, n: nat, p: nat, a: nat)
      requires Valid() && o in objects && n in objects && SlotOf(objects, o, p) == Some(a)
      requires HasSlot(objects[n].amap, p) && SlotOf(objects, n, p).None? && forall e | e in entries :: e.obj != n
      modifies this
      ensures Valid() && entries == old(entries) && objects == WithSlot(old(objects), n, p, a)
      ensures o in old(priv) && n in old(priv) && p in old(priv)[o] && priv == PutPage(old(priv), n, p, old(priv)[o][p])
    {
      hide Counted, Framed, Mapped, Reversed, Entered, Agrees, SlotOf, HasSlot, WithSlot;
      ghost var objects1, anons1, ptes1, holders1, priv1 := objects, anons, ptes, holders, priv;
      AnonOfSlot(objects, anons, mem, priv, holders, o, p, a);
      objects := WithSlot(objects, n, p, a);
      anons := anons[a := Anon(anons[a].refcnt + 1, anons[a].page)];
      PmapReenterAllReadonly(anons[a].page);
      holders := holders[a := holders[a] + {(n, p)}];
      priv := PutPage(priv, n, p, priv[o][p]);
      ShareKeeps(objects1, anons1, mem, entries, ptes1, ptes, holders1, priv1, o, n, p, a);
    }

    /** `vm_object_release`, by a holder other than a map entry. The last one frees the amap. */
    method ObjectRelease(o: nat)
      requires Valid() && o in objects && 0 < objects[o].refcnt
      requires (exists e :: e in entries && e.obj == o) ==> 1 < objects[o].refcnt
      modifies this
      ensures Valid() && entries == old(entries) && ptes == old(ptes)
      ensures objects.Keys == if old(objects)[o].refcnt == 1 then old(objects).Keys - {o} else old(objects).Keys
      ensures forall m | m in objects :: objects[m].refcnt == if m == o then old(objects)[o].refcnt - 1 else old(objects)[m].refcnt
      ensures priv == if old(objects)[o].refcnt == 1 then old(priv) - {o} else old(priv)
      ensures 1 < old(objects)[o].refcnt ==> forall m | m in objects && m != o :: objects[m] == old(objects)[m]
    {
      hide Counted, Framed, Mapped, Reversed, Agrees, SlotOf;
      var rest := objects[o].refcnt - 1;
      if rest > 0 {
        ghost var was := objects;
        objects := objects[o := objects[o].(refcnt := rest)];
        RecountKeeps(was, objects, anons, mem, entries, ptes, holders, priv);
        return;
      }
      AmapRelease(o);
      ForgetKeeps(objects, anons, mem, entries, ptes, holders, priv, o);
      objects := objects - {o};
      priv := priv - {o};
    }

    /** `amap_release`; clearing a slot stands for freeing the chunk it is in. */
    method AmapRelease(o: nat)
      requires Valid() && o in objects && forall e | e in entries :: e.obj != o
      modifies this
      ensures Valid() && entries == old(entries) && ptes == old(ptes)
      ensures objects.Keys == old(objects).Keys && priv - {o} == old(priv) - {o}
      ensures forall m | m in objects :: objects[m].refcnt == old(objects)[m].refcnt
      ensures forall p: nat :: SlotOf(objects, o, p).None?
    {
      hide Counted, Framed, Mapped, Reversed, Entered, Agrees, SlotOf, HasSlot;
      ghost var priv0 := priv;
      var i := 0;
      while i < |objects[o].amap|
        invariant Valid() && entries == old(entries) && ptes == old(ptes) && objects.Keys == old(objects).Keys
        invariant priv - {o} == priv0 - {o} && forall m | m in objects :: objects[m].refcnt == old(objects)[m].refcnt
        invariant ClearedUpTo(objects, o, i * CHUNK_PAGES) && |objects[o].amap| == |old(objects)[o].amap|
      {
        if objects[o].amap[i].None? {
          ChunkIsClear(objects, o, i);
        } else {
          var j := 0;
          while j < CHUNK_PAGES
            invariant j <= CHUNK_PAGES && Valid() && entries == old(entries) && ptes == old(ptes) && objects.Keys == old(objects).Keys
            invariant priv - {o} == priv0 - {o} && forall m | m in objects :: objects[m].refcnt == old(objects)[m].refcnt
            invariant ClearedUpTo(objects, o, i * CHUNK_PAGES + j) && |objects[o].amap| == |old(objects)[o].amap|
            invariant objects[o].amap[i].Some?
          {
            ChunkSlot(objects[o].amap, i, j);
            var slot := SlotOf(objects, o, i * CHUNK_PAGES + j);
            if slot.Some? {
              ReleaseSlot(o, i * CHUNK_PAGES + j, slot.value);
            }
            j := j + 1;
          }
        }
        i := i + 1;
      }
      BeyondAmap(objects, o);
    }

    /** `anon_release` on the anon of one slot: the last holder gives the page back. */
    method ReleaseSlot(o: nat, p: nat, a: nat)
      requires Valid() && o in objects && HasSlot(objects[o].amap, p) && SlotOf(objects, o, p) == Some(a)
      requires forall e | e in entries :: e.obj != o
      modifies this
      ensures Valid() && entries == old(entries) && ptes == old(ptes)
      ensures objects == WithoutSlot(old(objects), o, p)
      ensures o in old(priv) && priv == PutPage(old(priv), o, p, ZeroPage())
    {
      hide Counted, Framed, Mapped, Reversed, Entered, Agrees, SlotOf, HasSlot, WithoutSlot;
      ghost var objects0, anons0, mem0, holders0, priv0 := objects, anons, mem, holders, priv;
      AnonOfSlot(objects, anons, mem, priv, holders, o, p, a);
      DropKeeps(objects, anons, mem, entries, ptes, pv, holders, priv, o, p, a);
      holders := HoldersAfterDrop(anons, holders, a, (o, p));
      if anons[a].refcnt > 1 {
        anons := anons[a := Anon(anons[a].refcnt - 1, anons[a].page)];
      } else {
        var frame := anons[a].page;
        mem, pv := mem - {frame}, pv - {frame};
        anons := anons - {a};
      }
      objects := WithoutSlot(objects, o, p);
      priv := PutPage(priv, o, p, ZeroPage());
    }

    // ------ map entries ------

    /** The bookkeeping of `vm_map_object` once the arena has chosen the range: retain, and add an
        entry at the tail. The object must not be mapped already. */
    method MapObject(e: Entry)
      requires Valid() && e.obj in objects && (forall f | f in entries :: f.obj != e.obj)
      requires forall f, va: Va | f in entries && f.Covers(va) :: !e.Covers(va)
      modifies `objects, `entries
      ensures Valid() && entries == old(entries) + [e]
      ensures objects == old(objects)[e.obj := old(objects)[e.obj].(refcnt := old(objects)[e.obj].refcnt + 1)]
    {
      hide Counted, Framed, Reversed, Agrees, SlotOf;
      ghost var was := objects;
      AppendMapped(objects, anons, entries, ptes, e);
      objects := objects[e.obj := objects[e.obj].(refcnt := objects[e.obj].refcnt + 1)];
      AppendEntered(was, objects, entries, e);
      RecountKeeps(was, objects, anons, mem, entries + [e], ptes, holders, priv);
      entries := entries + [e];
    }

    /** `unmap_entry`: every translation of the range goes, then the entry and its reference. */
    method UnmapEntry(i: nat)
      requires Valid() && i < |entries|
      modifies this
      ensures Valid() && entries == old(entries)[..i] + old(entries)[i + 1..]
      ensures var o := old(entries)[i].obj;
              && o in old(objects)
              && priv == if old(objects)[o].refcnt == 1 then old(priv) - {o} else old(priv)
      ensures forall va :: va in ptes <==> va in old(ptes) && !old(entries)[i].Covers(va)
    {
      hide Counted, Framed, Mapped, Reversed, Agrees, Entered;
      var e := entries[i];
      ghost var ptes0 := ptes;
      var v := e.start;
      while v < e.end
        modifies `ptes, `pv
        invariant Reversed(ptes, pv) && pv.Keys == mem.Keys
        invariant e.start <= v && ptes.Keys <= ptes0.Keys
        invariant forall va | va in ptes :: ptes[va] == ptes0[va]
        invariant forall va :: va in ptes <==> va in ptes0 && !(va.map_ == e.map_ && e.start <= va.page < v && va.page < e.end)
        decreases e.end - v
      {
        PmapUnenter(Va(e.map_, v));
        v := v + 1;
      }
      RemovalKeeps(objects, anons, entries, ptes0, ptes, i);
      entries := entries[..i] + entries[i + 1..];
      ObjectRelease(e.obj);
    }

    /** Some object mapped in `parent` was never touched, so its amap has no chunk. */
    ghost predicate MapsUntouched(parent: nat)
      requires Valid()
      reads this
    {
      exists e :: e in entries && e.map_ == parent && objects[e.obj].amap == []
    }

    /** The object side of `vm_map_fork`: every entry of `parent` is copied into `child` at its own
        address, and each child object reads as its original did when the fork began. So at every address
        the child reads what the parent read, and every other map what it read itself. The fork halts the
        kernel exactly when some object mapped in the parent was never touched. */
    method Fork(parent: nat, child: nat) returns (halted: bool)
      requires Valid() && parent != child && forall e | e in entries :: e.map_ != child
      modifies this
      ensures halted <==> old(MapsUntouched(parent))
      ensures Valid() && |entries| >= |old(entries)| && entries[..|old(entries)|] == old(entries)
      ensures !halted ==> forall o | o in old(priv) :: o in priv && priv[o] == old(priv)[o]
      ensures !halted ==> forall e | e in old(entries) && e.map_ == parent :: Forked(old(priv), priv, entries, e, child)
      ensures !halted ==> forall va: Va, i: nat | i < PGSIZE ::
                Cell(va, i) == old(Cell(if va.map_ == child then Va(parent, va.page) else va, i))
    {
      ghost var entries0, objects0, priv0 := entries, objects, priv;
      hide Counted, Framed, Mapped, Reversed, Agrees, Entered, Forked;
      UnmappedObjects(objects, anons, mem, entries, priv);
      var n := |entries|;
      var i := 0;
      while i < n
        invariant i <= n == |entries0|
        invariant Valid() && ForkedSoFar(entries0, priv0, entries, priv, i, parent, child)
        invariant forall m | m in objects0 :: m in objects && objects[m] == objects0[m]
        invariant forall e | e in entries0[..i] && e.map_ == parent :: objects0[e.obj].amap != []
      {
        var e := entries[i];
        assert entries0[..i + 1] == entries0[..i] + [entries0[i]];
        assert e == entries0[i] && e in entries0;
        if e.map_ == parent {
          var ok := ForkEntry(e, child, i, entries0, priv0);
          if !ok {
            return true;
          }
        }
        i := i + 1;
      }
      assert entries0[..n] == entries0;
      ForkCells(objects0, objects, entries0, priv0, entries, priv, parent, child);
      return false;
    }

    /** One round of the fork: copy, map, and let go of the copy's first reference. */
    method ForkEntry(e: Entry, child: nat, ghost i: nat, ghost entries0: seq<Entry>, ghost priv0: Private) returns (ok: bool)
      requires Valid() && ForkedSoFar(entries0, priv0, entries, priv, i, e.map_, child)
      requires i < |entries0| && entries0[i] == e && e.obj in priv0 && forall f | f in entries0 :: f.map_ != child
      modifies this
      ensures Valid() && e.obj in old(objects) && (ok <==> old(objects)[e.obj].amap != [])
      ensures if ok then ForkedSoFar(entries0, priv0, entries, priv, i + 1, e.map_, child) else entries == old(entries)
      ensures ok ==> forall m | m in old(objects) :: m in objects && objects[m] == old(objects)[m]
    {
      hide Counted, Framed, Mapped, Reversed, Forked, Agrees, Entered, ForkedSoFar, EntryAt;
      ghost var es, priv1 := entries, priv;
      UnmappedObjects(objects, anons, mem, entries, priv);
      ForkRangeFree(objects, es, entries0, priv0, priv, i, e, child);
      ghost var n;
      ok, n := MapCopy(e, child);
      if ok {
        ForkAdvance(entries0, priv0, es, priv1, i, e, child, Entry(child, e.start, e.end, e.offset, n), priv);
      }
    }

    /** A copy of an entry's object, mapped at the same place in another map and held by that entry only. */
    method MapCopy(e: Entry, child: nat) returns (ok: bool, ghost n: nat)
      requires Valid() && e.obj in objects
      requires forall f, va: Va | f in entries && f.Covers(va) :: !Entry(child, e.start, e.end, e.offset, 0).Covers(va)
      modifies this
      ensures Valid() && (ok <==> old(objects)[e.obj].amap != [])
      ensures !ok ==> entries == old(entries)
      ensures ok ==>
                && entries == old(entries) + [Entry(child, e.start, e.end, e.offset, n)]
                && e.obj in old(priv) && priv == old(priv)[n := old(priv)[e.obj]] && n !in old(priv)
                && forall m | m in old(objects) :: m in objects && objects[m] == old(objects)[m]
    {
      hide Counted, Framed, Mapped, Reversed, Agrees, Entered;
      UnmappedObjects(objects, anons, mem, entries, priv);
      n := 0;
      var copied := ObjectCopy(e.obj);
      if copied.None? {
        return false, n;
      }
      var entry := Entry(child, e.start, e.end, e.offset, copied.value);
      assert forall va: Va :: entry.Covers(va) <==> Entry(child, e.start, e.end, e.offset, 0).Covers(va);
      MapObject(entry);
      ObjectRelease(copied.value);
      return true, copied.value;
    }

    /** Fresh memory reads as zeroes. */
    method MapThenLoad(e: Entry, page: nat, i: nat) returns (r: Option<Byte>)
      requires Valid() && (forall f, va: Va | f in entries && f.Covers(va) :: !e.Covers(va))
      requires e.start <= page < e.end && i < PGSIZE
      modifies this
      ensures Valid() && r == Some(0)
    {
      hide Counted, Framed, Mapped, Reversed, Agrees;
      var o := NewObject();
      MapObject(e.(obj := o));
      EntryFound(entries, e.(obj := o), Va(e.map_, page));
      r := Load(Va(e.map_, page), i);
    }

    /** Mapping a new object and forking before anything touches it: the fork halts. */
    method ForkUntouched(parent: nat, child: nat, start: nat, end: nat) returns (halted: bool)
      requires Valid() && parent != child && forall e | e in entries :: e.map_ != child && e.map_ != parent
      modifies this
      ensures halted
    {
      hide Counted, Framed, Mapped, Reversed, Agrees;
      var o := NewObject();
      MapObject(Entry(parent, start, end, 0, o));
      assert entries[|entries| - 1].obj == o && entries[|entries| - 1] in entries;
      halted := Fork(parent, child);
    }
  }

  /** An access makes a new anon exactly for an empty slot and for a write to a shared one; otherwise it
      leaves anons and pages alone. */
  ghost predicate CopiedIfNeeded(objects: Objects, anons: Anons, mem: Memory, objects': Objects, anons': Anons, mem': Memory,
                                 o: nat, p: nat, write: bool): (r: bool)
    ensures r ==> SlotOf(objects', o, p).Some? && SlotOf(objects', o, p).value in anons'
  {
    var s, s' := SlotOf(objects, o, p), SlotOf(objects', o, p);
    && s'.Some? && s'.value in anons' && (s.Some? ==> s.value in anons)
    && if s.None? || (write && !Unshared(objects, anons, o, p)) then s'.value !in anons && |anons'| == |anons| + 1
       else s' == s && anons' == anons && mem' == mem
  }

  predicate Unshared(objects: Objects, anons: Anons, o: nat, p: nat) {
    var s := SlotOf(objects, o, p);
    s.Some? && s.value in anons && anons[s.value].refcnt == 1
  }

  lemma WritableUnshared(objects: Objects, anons: Anons, entries: seq<Entry>, ptes: PageTable, va: Va)
    requires Mapped(objects, anons, entries, ptes) && va in ptes && ptes[va].writable
    ensures EntryAt(entries, va).Some?
    ensures var e := EntryAt(entries, va).value; Unshared(objects, anons, e.obj, e.ObjectPage(va))
  {
    assert Translates(objects, anons, entries, va, ptes[va]);
  }

  /** One slot has an anon of its own now, new and unshared, and `pte` leads to it; no other slot changed. */
  ghost predicate TookAnon(objects: Objects, anons: Anons, objects': Objects, anons': Anons, o: nat, p: nat, pte: Pte) {
    var s := SlotOf(objects', o, p);
    && s.Some? && s.value !in anons && s.value in anons' && anons'[s.value].refcnt == 1
    && |anons'| == |anons| + 1 && pte == Pte(anons'[s.value].page, true)
    && forall n: nat, q: nat | n != o || q != p :: SlotOf(objects', n, q) == SlotOf(objects, n, q)
  }

  lemma AnonTaken(objects: Objects, anons: Anons, o: nat, p: nat, b: nat, anons': Anons)
    requires o in objects && HasSlot(objects[o].amap, p) && b !in anons && b in anons' && anons'[b].refcnt == 1
    requires anons'.Keys == anons.Keys + {b}
    ensures TookAnon(objects, anons, WithSlot(objects, o, p, b), anons', o, p, Pte(anons'[b].page, true))
  {
    hide SlotOf, HasSlot;
    assert |anons'.Keys| == |anons.Keys| + 1;
  }

  /** How far a fork has come: the first `i` entries are done. */
  ghost predicate ForkedSoFar(entries0: seq<Entry>, priv0: Private, entries: seq<Entry>, priv: Private, i: nat, parent: nat, child: nat) {
    && i <= |entries0| <= |entries| && entries[..|entries0|] == entries0
    && (forall o | o in priv0 :: o in priv && priv[o] == priv0[o])
    && (forall g | g in entries[|entries0|..] :: g.map_ == child && exists f :: f in entries0[..i] && f.map_ == parent && SameRange(g, f))
    && (forall e | e in entries0[..i] && e.map_ == parent :: Forked(priv0, priv, entries, e, child))
  }

  lemma ForkAdvance(entries0: seq<Entry>, priv0: Private, entries: seq<Entry>, priv: Private, i: nat, e: Entry, child: nat,
                    entry: Entry, priv': Private)
    requires ForkedSoFar(entries0, priv0, entries, priv, i, e.map_, child) && i < |entries0| && entries0[i] == e
    requires entry.map_ == child && SameRange(entry, e) && e.obj in priv0
    requires forall o | o in priv :: o in priv' && priv'[o] == priv[o]
    requires entry.obj in priv' && priv'[entry.obj] == priv[e.obj]
    ensures ForkedSoFar(entries0, priv0, entries + [entry], priv', i + 1, e.map_, child)
  {
    hide Forked;
    var n, es := |entries0|, entries + [entry];
    assert entries0[..i + 1] == entries0[..i] + [e];
    assert es[..n] == entries0 && es[n..] == entries[n..] + [entry];
    assert e in entries0[..i + 1];
    forall f | f in entries0[..i + 1] && f.map_ == e.map_ ensures Forked(priv0, priv', es, f, child) {
      if f in entries0[..i] {
        ForkedKeeps(priv0, priv, priv', entries, es, f, child);
      } else {
        ForkedNow(priv0, priv', es, |entries|, e, child);
      }
    }
  }

  predicate SameRange(e: Entry, f: Entry) {
    e.start == f.start && e.end == f.end && e.offset == f.offset
  }

  /** The child has an entry like `e` whose object reads as the object of `e` did before. */
  ghost predicate Forked(before: Private, after: Private, entries: seq<Entry>, e: Entry, child: nat) {
    exists f :: f in entries && f.map_ == child && SameRange(f, e)
                && e.obj in before && f.obj in after && after[f.obj] == before[e.obj]
  }

  /** The entry that covers an address is the one found for it. */
  lemma {:induction false} EntryFound(entries: seq<Entry>, e: Entry, va: Va)
    requires e in entries && e.Covers(va)
    requires forall i, j, vb | 0 <= i < j < |entries| && entries[i].Covers(vb) :: !entries[j].Covers(vb)
    ensures EntryAt(entries, va) == Some(e)
  {
    if entries[0] != e {
      var k :| 0 < k < |entries| && entries[k] == e;
      assert !entries[0].Covers(va) && entries[1..][k - 1] == e;
      EntryFound(entries[1..], e, va);
    }
  }

  lemma EntryIs(objects: Objects, entries: seq<Entry>, e: Entry, va: Va)
    requires Entered(objects, entries) && e in entries && e.Covers(va)
    ensures EntryAt(entries, va) == Some(e)
  {
    EntryFound(entries, e, va);
  }

  lemma ForkCells(objects0: Objects, objects: Objects, entries0: seq<Entry>, priv0: Private, entries: seq<Entry>, priv: Private,
                  parent: nat, child: nat)
    requires Entered(objects, entries) && priv0.Keys == objects0.Keys && forall e | e in entries0 :: e.obj in objects0 && e.map_ != child
    requires ForkedSoFar(entries0, priv0, entries, priv, |entries0|, parent, child)
    ensures forall va: Va, i: nat | i < PGSIZE ::
              CellOf(entries, priv, va, i) == CellOf(entries0, priv0, if va.map_ == child then Va(parent, va.page) else va, i)
  {
    hide CellOf, EntryAt, Forked, Entered;
    assert entries0[..|entries0|] == entries0 && entries == entries0 + entries[|entries0|..];
    forall va: Va, i: nat | i < PGSIZE
      ensures CellOf(entries, priv, va, i) == CellOf(entries0, priv0, if va.map_ == child then Va(parent, va.page) else va, i)
    {
      if va.map_ == child {
        ChildCell(objects, entries0, priv0, entries[|entries0|..], priv, parent, va, i);
      } else {
        OtherCell(objects, entries0, priv0, entries[|entries0|..], priv, child, va, i);
      }
    }
  }

  /** What the other maps read is as it was. */
  lemma OtherCell(objects: Objects, entries0: seq<Entry>, priv0: Private, added: seq<Entry>, priv: Private, child: nat, va: Va, i: nat)
    requires Entered(objects, entries0 + added) && (forall e | e in entries0 :: e.obj in priv0) && forall g | g in added :: g.map_ == child
    requires (forall o | o in priv0 :: o in priv && priv[o] == priv0[o]) && va.map_ != child
    ensures CellOf(entries0 + added, priv, va, i) == CellOf(entries0, priv0, va, i)
  {
    hide EntryAt, Entered, Forked;
    var was := EntryAt(entries0, va);
    if was.Some? {
      EntryIs(objects, entries0 + added, was.value, va);
    }
  }

  /** The child reads what the parent read. */
  lemma ChildCell(objects: Objects, entries0: seq<Entry>, priv0: Private, added: seq<Entry>, priv: Private, parent: nat, va: Va, i: nat)
    requires Entered(objects, entries0 + added) && forall e | e in entries0 :: e.obj in priv0 && e.map_ != va.map_
    requires forall g | g in added :: exists f :: f in entries0 && f.map_ == parent && SameRange(g, f)
    requires forall e | e in entries0 && e.map_ == parent :: Forked(priv0, priv, entries0 + added, e, va.map_)
    ensures CellOf(entries0 + added, priv, va, i) == CellOf(entries0, priv0, Va(parent, va.page), i)
  {
    hide EntryAt, Entered, Forked;
    var was := EntryAt(entries0, Va(parent, va.page));
    if was.Some? {
      ChildTwin(objects, priv0, entries0 + added, priv, was.value, Va(parent, va.page), va);
    } else {
      NoTwin(entries0, added, parent, va);
    }
  }

  lemma NoTwin(entries0: seq<Entry>, added: seq<Entry>, parent: nat, va: Va)
    requires EntryAt(entries0, Va(parent, va.page)).None? && forall e | e in entries0 :: e.map_ != va.map_
    requires forall g | g in added :: exists f :: f in entries0 && f.map_ == parent && SameRange(g, f)
    ensures EntryAt(entries0 + added, va).None?
  {
    hide EntryAt;
    forall e | e in entries0 + added ensures !e.Covers(va) {
      if e in added {
        var f :| f in entries0 && f.map_ == parent && SameRange(e, f);
        assert !f.Covers(Va(parent, va.page));
      }
    }
  }

  lemma ChildTwin(objects: Objects, priv0: Private, entries: seq<Entry>, priv: Private, e: Entry, vb: Va, va: Va)
    requires Entered(objects, entries) && e.Covers(vb) && va.page == vb.page && Forked(priv0, priv, entries, e, va.map_)
    ensures EntryAt(entries, va).Some?
    ensures var f := EntryAt(entries, va).value;
            SameRange(f, e) && e.obj in priv0 && f.obj in priv && priv[f.obj] == priv0[e.obj]
  {
    hide EntryAt, Entered;
    var f :| f in entries && f.map_ == va.map_ && SameRange(f, e) && e.obj in priv0 && f.obj in priv && priv[f.obj] == priv0[e.obj];
    EntryIs(objects, entries, f, va);
  }

  lemma UnmappedObjects(objects: Objects, anons: Anons, mem: Memory, entries: seq<Entry>, priv: Private)
    requires Entered(objects, entries) && Agrees(objects, anons, mem, priv)
    ensures priv.Keys == objects.Keys && forall e | e in entries :: e.obj in objects
  {}

  /** A range the parent maps is free in the child until its own turn. */
  lemma ForkRange(objects: Objects, entries: seq<Entry>, entries0: seq<Entry>, i: nat, e: Entry, f: Entry, va: Va, child: nat)
    requires Entered(objects, entries) && i < |entries0| <= |entries| && entries[..|entries0|] == entries0 && entries0[i] == e
    requires f in entries && f.Covers(va)
    requires forall g | g in entries0 :: g.map_ != child
    requires forall g | g in entries[|entries0|..] :: g.map_ == child && exists h :: h in entries0[..i] && h.map_ == e.map_ && SameRange(g, h)
    ensures !(va.map_ == child && e.start <= va.page < e.end)
  {
    var k := |entries0|;
    assert entries == entries[..k] + entries[k..];
    if va.map_ == child {
      assert f in entries[k..];
      var h :| h in entries0[..i] && h.map_ == e.map_ && SameRange(f, h);
      var j :| 0 <= j < i && entries0[j] == h;
      var vb := Va(e.map_, va.page);
      assert entries[j] == h && entries[i] == e && h.Covers(vb);
      assert !e.Covers(vb);
    }
  }

  lemma ForkRangeFree(objects: Objects, entries: seq<Entry>, entries0: seq<Entry>, priv0: Private, priv: Private, i: nat, e: Entry, child: nat)
    requires Entered(objects, entries) && ForkedSoFar(entries0, priv0, entries, priv, i, e.map_, child)
    requires i < |entries0| && entries0[i] == e && e.obj in priv0 && forall f | f in entries0 :: f.map_ != child
    ensures e in entries && e.obj in priv
    ensures forall f, va: Va | f in entries && f.Covers(va) :: !Entry(child, e.start, e.end, e.offset, 0).Covers(va)
  {
    hide Entered, Forked;
    assert entries[i] == e;
    forall f, va: Va | f in entries && f.Covers(va) ensures !Entry(child, e.start, e.end, e.offset, 0).Covers(va) {
      ForkRange(objects, entries, entries0, i, e, f, va, child);
    }
  }

  lemma ForkedKeeps(before: Private, after: Private, after': Private, entries: seq<Entry>, entries': seq<Entry>, e: Entry, child: nat)
    requires Forked(before, after, entries, e, child)
    requires |entries| <= |entries'| && entries'[..|entries|] == entries
    requires forall o | o in after :: o in after' && after'[o] == after[o]
    ensures Forked(before, after', entries', e, child)
  {
    var f :| f in entries && f.map_ == child && SameRange(f, e) && e.obj in before && f.obj in after && after[f.obj] == before[e.obj];
    assert f in entries'[..|entries|];
  }

  lemma ForkedNow(before: Private, after: Private, entries: seq<Entry>, n: nat, e: Entry, child: nat)
    requires n < |entries| && entries[n].map_ == child && SameRange(entries[n], e)
    requires e.obj in before && e.obj in after && after[e.obj] == before[e.obj]
    requires entries[n].obj in after && after[entries[n].obj] == after[e.obj]
    ensures Forked(before, after, entries, e, child)
  {
    assert entries[n] in entries;
  }

  // ---------------------------------------------------------------------------------
  // Releasing and unmapping
  // ---------------------------------------------------------------------------------

  lemma RecountKeeps(objects: Objects, objects': Objects, anons: Anons, mem: Memory, entries: seq<Entry>, ptes: PageTable,
                     holders: Holders, priv: Private)
    requires Counted(objects, anons, holders) && Mapped(objects, anons, entries, ptes) && Agrees(objects, anons, mem, priv)
    requires objects'.Keys == objects.Keys && forall o | o in objects :: objects'[o].amap == objects[o].amap
    ensures Counted(objects', anons, holders) && Mapped(objects', anons, entries, ptes) && Agrees(objects', anons, mem, priv)
  {
    assert forall o: nat, p: nat :: SlotOf(objects', o, p) == SlotOf(objects, o, p);
    forall va | va in ptes ensures Translates(objects', anons, entries, va, ptes[va]) {
      assert Translates(objects, anons, entries, va, ptes[va]);
    }
    forall o: nat, p: nat | o in objects' ensures p in priv[o] && priv[o][p] == Contents(objects', anons, mem, o, p) {
      assert Contents(objects', anons, mem, o, p) == Contents(objects, anons, mem, o, p);
    }
  }

  ghost predicate ClearedUpTo(objects: Objects, o: nat, k: nat) {
    forall p: nat | p < k :: SlotOf(objects, o, p).None?
  }

  lemma ChunkIsClear(objects: Objects, o: nat, i: nat)
    requires o in objects && i < |objects[o].amap| && objects[o].amap[i].None? && ClearedUpTo(objects, o, i * CHUNK_PAGES)
    ensures ClearedUpTo(objects, o, (i + 1) * CHUNK_PAGES)
  {
    forall p: nat | i * CHUNK_PAGES <= p < (i + 1) * CHUNK_PAGES ensures SlotOf(objects, o, p).None? {
      assert p / CHUNK_PAGES == i;
    }
  }

  lemma BeyondAmap(objects: Objects, o: nat)
    requires o in objects && ClearedUpTo(objects, o, |objects[o].amap| * CHUNK_PAGES)
    ensures forall p: nat :: SlotOf(objects, o, p).None?
  {}

  /** One slot let go, as one change of state. */
  lemma DropKeeps(objects: Objects, anons: Anons, mem: Memory, entries: seq<Entry>, ptes: PageTable, pv: Reverse,
                  holders: Holders, priv: Private, o: nat, p: nat, a: nat)
    requires Counted(objects, anons, holders) && Framed(anons, mem) && Mapped(objects, anons, entries, ptes)
    requires Reversed(ptes, pv) && Entered(objects, entries) && Agrees(objects, anons, mem, priv)
    requires o in objects && HasSlot(objects[o].amap, p) && SlotOf(objects, o, p) == Some(a)
    requires a in anons && a in holders && 0 < anons[a].refcnt && o in priv && forall e | e in entries :: e.obj != o
    ensures var objects', anons', mem' := WithoutSlot(objects, o, p), AfterDrop(anons, a), MemoryAfterDrop(anons, mem, a);
            && Counted(objects', anons', HoldersAfterDrop(anons, holders, a, (o, p))) && Framed(anons', mem')
            && Mapped(objects', anons', entries, ptes) && Entered(objects', entries)
            && Agrees(objects', anons', mem', PutPage(priv, o, p, ZeroPage()))
    ensures anons[a].refcnt == 1 ==> Reversed(ptes, pv - {anons[a].page})
  {
    hide Counted, Framed, Mapped, Reversed, Entered, Agrees, SlotOf, HasSlot, WithoutSlot;
    DropCounted(objects, anons, holders, o, p, a);
    DropFramed(anons, mem, a);
    DropMapped(objects, anons, mem, entries, ptes, holders, o, p, a);
    DropAgrees(objects, anons, mem, holders, priv, o, p, a);
    EnteredSame(objects, WithoutSlot(objects, o, p), entries);
    FrameReversed(ptes, pv, anons[a].page);
  }

  lemma {:induction false} EntryAtAppend(entries: seq<Entry>, e: Entry, va: Va)
    requires EntryAt(entries, va).Some?
    ensures EntryAt(entries + [e], va) == EntryAt(entries, va)
  {
    assert (entries + [e])[0] == entries[0];
    if !entries[0].Covers(va) {
      assert (entries + [e])[1..] == entries[1..] + [e];
      EntryAtAppend(entries[1..], e, va);
    }
  }

  lemma AppendMapped(objects: Objects, anons: Anons, entries: seq<Entry>, ptes: PageTable, e: Entry)
    requires Mapped(objects, anons, entries, ptes)
    ensures Mapped(objects, anons, entries + [e], ptes)
  {
    forall va | va in ptes ensures Translates(objects, anons, entries + [e], va, ptes[va]) {
      assert Translates(objects, anons, entries, va, ptes[va]);
      EntryAtAppend(entries, e, va);
    }
  }

  lemma AppendEntered(objects: Objects, objects': Objects, entries: seq<Entry>, e: Entry)
    requires Entered(objects, entries) && e.obj in objects && (forall f | f in entries :: f.obj != e.obj)
    requires forall f, va: Va | f in entries && f.Covers(va) :: !e.Covers(va)
    requires objects' == objects[e.obj := objects[e.obj].(refcnt := objects[e.obj].refcnt + 1)]
    ensures Entered(objects', entries + [e])
  {
    var es := entries + [e];
    forall i, j | 0 <= i < j < |es| ensures es[i].obj != es[j].obj {
      assert es[i] == entries[i] && entries[i] in entries;
    }
    forall i, j, va | 0 <= i < j < |es| && es[i].Covers(va) ensures !es[j].Covers(va) {
      assert es[i] == entries[i] && entries[i] in entries;
    }
  }

  lemma {:induction false} EntryAtRemove(entries: seq<Entry>, i: nat, va: Va)
    requires i < |entries| && !entries[i].Covers(va)
    ensures EntryAt(entries[..i] + entries[i + 1..], va) == EntryAt(entries, va)
  {
    if i == 0 {
      assert entries[..i] + entries[i + 1..] == entries[1..];
    } else {
      var r := entries[..i] + entries[i + 1..];
      assert r[0] == entries[0] && r[1..] == entries[1..][..i - 1] + entries[1..][i..];
      EntryAtRemove(entries[1..], i - 1, va);
    }
  }

  /** With its translations gone, an entry can leave the list. */
  lemma RemovalKeeps(objects: Objects, anons: Anons, entries: seq<Entry>, ptes0: PageTable, ptes: PageTable, i: nat)
    requires Mapped(objects, anons, entries, ptes0) && Entered(objects, entries) && i < |entries|
    requires forall va | va in ptes :: va in ptes0 && ptes[va] == ptes0[va] && !entries[i].Covers(va)
    ensures var es := entries[..i] + entries[i + 1..];
            && Mapped(objects, anons, es, ptes) && Entered(objects, es)
            && entries[i].obj in objects && 0 < objects[entries[i].obj].refcnt
            && forall e | e in es :: e.obj != entries[i].obj
  {
    var es := entries[..i] + entries[i + 1..];
    forall va | va in ptes ensures Translates(objects, anons, es, va, ptes[va]) {
      assert Translates(objects, anons, entries, va, ptes0[va]);
      EntryAtRemove(entries, i, va);
    }
    assert forall n | 0 <= n < |es| :: es[n] == entries[if n < i then n else n + 1];
  }

  /** One byte of one page of one object was written, and nothing else. */
  ghost predicate OneByteWritten(was: Private, priv: Private, o: nat, p: int, off: nat, b: Byte) {
    && priv.Keys == was.Keys && o in priv && 0 <= p && p in was[o] && p in priv[o]
    && (forall i | 0 <= i < PGSIZE :: priv[o][p][i] == if i == off then b else was[o][p][i])
    && forall n, q: nat | n in priv && (n != o || q != p) ::
         (q in priv[n] <==> q in was[n]) && (q in priv[n] ==> priv[n][q] == was[n][q])
  }

  ghost function CellOf(entries: seq<Entry>, priv: Private, va: Va, off: nat): Option<Byte> {
    var e := EntryAt(entries, va);
    if e.None? then None
    else
      var o, p := e.value.obj, va.page - e.value.start + e.value.offset;
      if o in priv && p in priv[o] && off < PGSIZE then Some(priv[o][p][off]) else None
  }

  lemma StoredCells(objects: Objects, anons: Anons, mem: Memory, entries: seq<Entry>, was: Private, priv: Private, va: Va, off: nat, b: Byte)
    requires Entered(objects, entries) && EntryAt(entries, va).Some? && off < PGSIZE
    requires var e := EntryAt(entries, va).value; var p := e.ObjectPage(va);
             e.obj in was && p in was[e.obj] && priv == PutPage(was, e.obj, p, was[e.obj][p][off := b])
    ensures var e := EntryAt(entries, va).value; OneByteWritten(was, priv, e.obj, va.page - e.start + e.offset, off, b)
    ensures forall vb: Va, i: nat | i < PGSIZE ::
              CellOf(entries, priv, vb, i) == if vb == va && i == off then Some(b) else CellOf(entries, was, vb, i)
  {
    hide Entered, EntryAt;
    forall vb: Va, i: nat | i < PGSIZE
      ensures CellOf(entries, priv, vb, i) == if vb == va && i == off then Some(b) else CellOf(entries, was, vb, i)
    {
      if EntryAt(entries, vb).Some? && vb != va {
        var e, f := EntryAt(entries, va).value, EntryAt(entries, vb).value;
        if e.obj == f.obj && e.ObjectPage(va) == f.ObjectPage(vb) {
          OneAddress(objects, entries, va, vb);
        }
      }
    }
  }

  lemma TranslatesAt(objects: Objects, anons: Anons, entries: seq<Entry>, ptes: PageTable, va: Va)
    requires Mapped(objects, anons, entries, ptes) && va in ptes
    ensures Translates(objects, anons, entries, va, ptes[va]) && EntryAt(entries, va).Some?
  {
    assert Translates(objects, anons, entries, va, ptes[va]);
  }

  // ---------------------------------------------------------------------------------
  // Copying an object
  // ---------------------------------------------------------------------------------

  /** A new object with empty slots reads as zeroes. */
  lemma BlankKeeps(objects: Objects, anons: Anons, mem: Memory, entries: seq<Entry>, ptes: PageTable, holders: Holders,
                   priv: Private, n: nat, blank: VmObject)
    requires Counted(objects, anons, holders) && Mapped(objects, anons, entries, ptes)
    requires Entered(objects, entries) && Agrees(objects, anons, mem, priv)
    requires n !in objects && forall p: nat :: Slot(blank.amap, p).None?
    ensures Counted(objects[n := blank], anons, holders) && Mapped(objects[n := blank], anons, entries, ptes)
    ensures Entered(objects[n := blank], entries) && Agrees(objects[n := blank], anons, mem, priv[n := ZeroPages()])
  {
    var objects', priv' := objects[n := blank], priv[n := ZeroPages()];
    assert forall m: nat, p: nat :: SlotOf(objects', m, p) == SlotOf(objects, m, p);
    forall va | va in ptes ensures Translates(objects', anons, entries, va, ptes[va]) {
      assert Translates(objects, anons, entries, va, ptes[va]);
    }
    forall m: nat, p: nat | m in objects' ensures p in priv'[m] && priv'[m][p] == Contents(objects', anons, mem, m, p) {
      assert Contents(objects', anons, mem, m, p) == Contents(objects, anons, mem, m, p);
      if m == n { assert ZeroAt(p) == ZeroPage(); }
    }
  }

  lemma UnmappedObject(objects: Objects, entries: seq<Entry>, n: nat)
    requires Entered(objects, entries) && n !in objects
    ensures forall e | e in entries :: e.obj != n
  {}

  ghost predicate ZeroWhereEmpty(objects: Objects, priv: Private, o: nat) {
    o in objects && o in priv && forall p: nat :: p in priv[o] && (SlotOf(objects, o, p).None? ==> priv[o][p] == ZeroPage())
  }

  lemma EmptySlots(objects: Objects, anons: Anons, mem: Memory, priv: Private, o: nat)
    requires Agrees(objects, anons, mem, priv) && o in objects
    ensures ZeroWhereEmpty(objects, priv, o) && priv.Keys == objects.Keys
    ensures forall p: nat :: Slot(Empties(|objects[o].amap|), p).None?
  {
    forall p: nat ensures p in priv[o] && (SlotOf(objects, o, p).None? ==> priv[o][p] == ZeroPage()) {
      assert priv[o][p] == Contents(objects, anons, mem, o, p);
    }
  }

  /** How far a copy has come: below page `k` the new object `n` has the slots and the contents of
      `o`, from there on it has none; everything else is as it was. */
  ghost predicate CopiedUpTo(objects0: Objects, priv0: Private, objects: Objects, priv: Private, o: nat, n: nat, k: nat): (r: bool)
    ensures r ==> o in objects0 && o in objects && n in objects && objects[o] == objects0[o]
    ensures r ==> |objects[n].amap| == |objects0[o].amap|
  {
    && o in objects0 && n !in objects0 && o in priv0 && n !in priv0
    && objects.Keys == objects0.Keys + {n} && priv.Keys == priv0.Keys + {n}
    && (forall m | m in objects0 :: objects[m] == objects0[m]) && (forall m | m in priv0 :: priv[m] == priv0[m])
    && objects[n].refcnt == 1 && |objects[n].amap| == |objects0[o].amap|
    && (forall p: nat :: SlotOf(objects, n, p) == if p < k then SlotOf(objects0, o, p) else None)
    && (forall p: nat :: p in priv[n] && priv[n][p] == if p < k && p in priv0[o] then priv0[o][p] else ZeroPage())
  }

  lemma NothingCopied(objects0: Objects, priv0: Private, o: nat, n: nat)
    requires o in objects0 && n !in objects0 && o in priv0 && n !in priv0
    requires forall p: nat :: Slot(Empties(|objects0[o].amap|), p).None?
    ensures CopiedUpTo(objects0, priv0, objects0[n := VmObject(1, Empties(|objects0[o].amap|))], priv0[n := ZeroPages()], o, n, 0)
  {
    forall p: nat ensures p in ZeroPages() && ZeroPages()[p] == ZeroPage() {
      assert ZeroAt(p) == ZeroPage();
    }
  }

  lemma AllCopied(objects0: Objects, priv0: Private, objects: Objects, priv: Private, o: nat, n: nat)
    requires ZeroWhereEmpty(objects0, priv0, o)
    requires CopiedUpTo(objects0, priv0, objects, priv, o, n, |objects0[o].amap| * CHUNK_PAGES)
    ensures priv == priv0[n := priv0[o]]
    ensures objects.Keys == objects0.Keys + {n} && objects[n].refcnt == 1 && forall m | m in objects0 :: objects[m] == objects0[m]
  {
    forall p: nat ensures p in priv[n] && p in priv0[o] && priv[n][p] == priv0[o][p] {
      if p >= |objects0[o].amap| * CHUNK_PAGES {
        assert SlotOf(objects0, o, p).None?;
      }
    }
    assert priv[n] == priv0[o];
  }

  lemma ChunkSkipped(objects0: Objects, priv0: Private, objects: Objects, priv: Private, o: nat, n: nat, i: nat)
    requires CopiedUpTo(objects0, priv0, objects, priv, o, n, i * CHUNK_PAGES) && ZeroWhereEmpty(objects0, priv0, o)
    requires i < |objects0[o].amap| && objects0[o].amap[i].None?
    ensures CopiedUpTo(objects0, priv0, objects, priv, o, n, (i + 1) * CHUNK_PAGES)
  {
    forall p: nat | i * CHUNK_PAGES <= p < (i + 1) * CHUNK_PAGES ensures SlotOf(objects0, o, p).None? {
      assert p / CHUNK_PAGES == i;
    }
  }

  lemma SlotSkipped(objects0: Objects, priv0: Private, objects: Objects, priv: Private, o: nat, n: nat, p: nat)
    requires CopiedUpTo(objects0, priv0, objects, priv, o, n, p) && ZeroWhereEmpty(objects0, priv0, o)
    requires SlotOf(objects, o, p).None?
    ensures CopiedUpTo(objects0, priv0, objects, priv, o, n, p + 1)
  {
    assert SlotOf(objects0, o, p).None?;
  }

  lemma ChunkSlot(amap: Amap, i: nat, j: nat)
    requires i < |amap| && amap[i].Some? && j < CHUNK_PAGES
    ensures HasSlot(amap, i * CHUNK_PAGES + j)
  {
    assert (i * CHUNK_PAGES + j) / CHUNK_PAGES == i;
  }

  lemma ChunkAdded(was: Objects, objects: Objects, objects0: Objects, priv0: Private, priv: Private, o: nat, n: nat, i: nat)
    requires CopiedUpTo(objects0, priv0, was, priv, o, n, i * CHUNK_PAGES) && i < |objects0[o].amap|
    requires objects == was[n := was[n].(amap := was[n].amap[i := Some(EmptyChunk())])]
    ensures SameSlots(was, objects)
    ensures CopiedUpTo(objects0, priv0, objects, priv, o, n, i * CHUNK_PAGES)
  {
    forall m: nat, p: nat ensures SlotOf(objects, m, p) == SlotOf(was, m, p) {
      if m == n && p / CHUNK_PAGES == i {
        assert i * CHUNK_PAGES <= p;
        assert SlotOf(was, n, p).None?;
      }
    }
  }

  lemma AnonOfSlot(objects: Objects, anons: Anons, mem: Memory, priv: Private, holders: Holders, o: nat, p: nat, a: nat)
    requires Counted(objects, anons, holders) && Framed(anons, mem) && SlotOf(objects, o, p) == Some(a)
    requires Agrees(objects, anons, mem, priv)
    ensures o in priv && p in priv[o] && priv.Keys == objects.Keys
    ensures a in anons && a in holders && 0 < anons[a].refcnt && anons[a].page in mem
  {}

  lemma NotCopiedYet(objects0: Objects, priv0: Private, objects: Objects, priv: Private, o: nat, n: nat, p: nat)
    requires CopiedUpTo(objects0, priv0, objects, priv, o, n, p)
    ensures SlotOf(objects, n, p).None? && n in objects && o in objects && o in priv && n in priv
  {}

  lemma ReadonlyMapped(objects: Objects, anons: Anons, entries: seq<Entry>, ptes: PageTable, ptes': PageTable, frame: nat)
    requires Mapped(objects, anons, entries, ptes) && ptes'.Keys == ptes.Keys
    requires forall va | va in ptes :: ptes'[va] == if ptes[va].frame == frame then Pte(frame, false) else ptes[va]
    ensures Mapped(objects, anons, entries, ptes')
    ensures forall va | va in ptes' && ptes'[va].frame == frame :: !ptes'[va].writable
  {
    forall va | va in ptes' ensures Translates(objects, anons, entries, va, ptes'[va]) {
      assert Translates(objects, anons, entries, va, ptes[va]);
    }
  }

  lemma WithSlotShape(objects: Objects, n: nat, p: nat, a: nat)
    requires n in objects && HasSlot(objects[n].amap, p)
    ensures var r := WithSlot(objects, n, p, a);
            && n in r && |r[n].amap| == |objects[n].amap|
            && forall c | 0 <= c < |objects[n].amap| && objects[n].amap[c].Some? :: r[n].amap[c].Some?
  {}

  /** One shared slot, as one change of state. */
  lemma ShareKeeps(objects: Objects, anons: Anons, mem: Memory, entries: seq<Entry>, ptes: PageTable, ptes': PageTable,
                   holders: Holders, priv: Private, o: nat, n: nat, p: nat, a: nat)
    requires Counted(objects, anons, holders) && Framed(anons, mem) && Mapped(objects, anons, entries, ptes)
    requires Entered(objects, entries) && Agrees(objects, anons, mem, priv)
    requires SlotOf(objects, o, p) == Some(a) && o in objects && a in anons && a in holders && o in priv && p in priv[o] && n in priv
    requires n in objects && HasSlot(objects[n].amap, p) && SlotOf(objects, n, p).None? && forall e | e in entries :: e.obj != n
    requires ptes'.Keys == ptes.Keys
    requires forall va | va in ptes :: ptes'[va] == if ptes[va].frame == anons[a].page then Pte(anons[a].page, false) else ptes[va]
    ensures var objects', anons' := WithSlot(objects, n, p, a), anons[a := Anon(anons[a].refcnt + 1, anons[a].page)];
            && Counted(objects', anons', holders[a := holders[a] + {(n, p)}]) && Framed(anons', mem)
            && Mapped(objects', anons', entries, ptes') && Entered(objects', entries)
            && Agrees(objects', anons', mem, PutPage(priv, n, p, priv[o][p]))
  {
    hide Counted, Framed, Mapped, Entered, Agrees, SlotOf, HasSlot, WithSlot;
    ShareCounted(objects, anons, holders, n, p, a);
    ReadonlyMapped(objects, anons, entries, ptes, ptes', anons[a].page);
    ShareMapped(objects, anons, mem, entries, ptes', n, p, a);
    ShareFramed(anons, mem, a);
    ShareAgrees(objects, anons, mem, priv, o, n, p, a);
    EnteredSame(objects, WithSlot(objects, n, p, a), entries);
  }

  lemma ShareFramed(anons: Anons, mem: Memory, a: nat)
    requires Framed(anons, mem) && a in anons
    ensures Framed(anons[a := Anon(anons[a].refcnt + 1, anons[a].page)], mem)
  {
    FramesKept(anons, anons[a := Anon(anons[a].refcnt + 1, anons[a].page)]);
  }

  lemma SlotCopied(objects0: Objects, priv0: Private, objects: Objects, priv: Private, o: nat, n: nat, p: nat, a: nat)
    requires CopiedUpTo(objects0, priv0, objects, priv, o, n, p) && HasSlot(objects[n].amap, p)
    requires SlotOf(objects, o, p) == Some(a) && o in priv && p in priv[o]
    ensures CopiedUpTo(objects0, priv0, WithSlot(objects, n, p, a), PutPage(priv, n, p, priv[o][p]), o, n, p + 1)
  {
    var objects', priv' := WithSlot(objects, n, p, a), PutPage(priv, n, p, priv[o][p]);
    forall m | m in objects0 ensures objects'[m] == objects0[m] {}
    assert |objects'[n].amap| == |objects[n].amap|;
  }

  /** The private copy of a shared page, as one change of state. */
  lemma CopyKeeps(objects: Objects, objects': Objects, anons: Anons, anons': Anons, mem: Memory, mem': Memory, entries: seq<Entry>,
                  ptes: PageTable, holders: Holders, priv: Private, va: Va, o: nat, p: nat, a: nat, b: nat, g: nat)
    requires o in objects && HasSlot(objects[o].amap, p) && objects' == WithSlot(objects, o, p, b)
    requires a in anons && b !in anons && anons[a].refcnt > 1 && anons' == anons[a := Anon(anons[a].refcnt - 1, anons[a].page)][b := Anon(1, g)]
    requires anons[a].page in mem && g !in mem && mem' == mem[g := mem[anons[a].page]]
    requires EntryAt(entries, va).Some? && EntryAt(entries, va).value.obj == o && EntryAt(entries, va).value.ObjectPage(va) == p
    requires Counted(objects, anons, holders) && Framed(anons, mem) && Mapped(objects, anons, entries, ptes)
    requires Entered(objects, entries) && Agrees(objects, anons, mem, priv) && SlotOf(objects, o, p) == Some(a)
    ensures a in holders && Counted(objects', anons', Moved(holders, a, (o, p), b)) && Framed(anons', mem')
    ensures Mapped(objects', anons', entries, ptes - {va}) && Entered(objects', entries) && Agrees(objects', anons', mem', priv)
    ensures Translates(objects', anons', entries, va, Pte(g, true))
  {
    hide Counted, Framed, Mapped, Entered, Agrees, EntryAt, Translates, HasSlot, Moved, WithSlot;
    CopyCounted(objects, anons, holders, o, p, a, b, g);
    CopyFramed(anons, mem, a, anons[a].refcnt - 1, b, g, mem[anons[a].page]);
    CopyMapped(objects, anons, entries, ptes, va, o, p, b, g, anons');
    CopyAgrees(objects, anons, mem, priv, o, p, b, g, anons', holders);
    EnteredSame(objects, objects', entries);
  }

  lemma FreshFramed(anons: Anons, mem: Memory, b: nat, g: nat)
    requires Framed(anons, mem) && b !in anons && g !in mem
    ensures Framed(anons[b := Anon(1, g)], mem[g := ZeroPage()])
  {
    FramesKept(anons, anons[b := Anon(1, g)]);
    assert anons[b := Anon(1, g)][b].page == g;
  }

  lemma EnteredSame(objects: Objects, objects': Objects, entries: seq<Entry>)
    requires Entered(objects, entries) && objects.Keys == objects'.Keys
    requires forall n | n in objects :: objects[n].refcnt == objects'[n].refcnt
    ensures Entered(objects', entries)
  {}

  /** What the invariants say about a filled slot and the address it shows at. */
  lemma SlotFacts(objects: Objects, anons: Anons, mem: Memory, entries: seq<Entry>, ptes: PageTable, holders: Holders,
                  va: Va, o: nat, p: nat, a: nat)
    requires Counted(objects, anons, holders) && Framed(anons, mem) && Mapped(objects, anons, entries, ptes)
    requires EntryAt(entries, va).Some? && EntryAt(entries, va).value.obj == o && EntryAt(entries, va).value.ObjectPage(va) == p
    requires SlotOf(objects, o, p) == Some(a)
    ensures a in anons && 0 < anons[a].refcnt && anons[a].page in mem
    ensures va in ptes ==> ptes[va].frame == anons[a].page
    ensures Translates(objects, anons, entries, va, Pte(anons[a].page, false))
    ensures anons[a].refcnt == 1 ==> Translates(objects, anons, entries, va, Pte(anons[a].page, true))
  {
    if va in ptes {
      assert Translates(objects, anons, entries, va, ptes[va]);
    }
  }

  lemma NotPresent(objects: Objects, anons: Anons, entries: seq<Entry>, ptes: PageTable, va: Va)
    requires Mapped(objects, anons, entries, ptes) && EntryAt(entries, va).Some?
    requires SlotOf(objects, EntryAt(entries, va).value.obj, EntryAt(entries, va).value.ObjectPage(va)).None?
    ensures va !in ptes
  {
    assert va in ptes ==> Translates(objects, anons, entries, va, ptes[va]);
  }

  lemma EntryLive(objects: Objects, entries: seq<Entry>, va: Va)
    requires Entered(objects, entries) && EntryAt(entries, va).Some?
    ensures EntryAt(entries, va).value.obj in objects
  {}
}
