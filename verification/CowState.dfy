/** State of anonymous memory: objects, their amaps, shared pages, page table and reverse maps
    (kernel-3/vm/vm.c over kernel-3/x86_64/vm.c), and the invariants that tie them together. */
module CowState {
  import opened Common

  const CHUNK_PAGES: nat := 32      // kAMapChunkNPages
  const PGSIZE: nat := 4096

  newtype Byte = x: int | 0 <= x < 256
  type Page = s: seq<Byte> | |s| == PGSIZE witness seq(PGSIZE, _ => 0)

  function ZeroPage(): Page { seq(PGSIZE, _ => 0) }

  // ---------------------------------------------------------------------------------
  // Amaps
  // ---------------------------------------------------------------------------------

  type Chunk = c: seq<Option<nat>> | |c| == CHUNK_PAGES witness seq(CHUNK_PAGES, _ => None)

  function EmptyChunk(): Chunk { seq(CHUNK_PAGES, _ => None) }

  /** A sparse array of chunks of anon slots. */
  type Amap = seq<Option<Chunk>>

  function Slot(amap: Amap, page: nat): Option<nat> {
    var c := page / CHUNK_PAGES;
    if c < |amap| && amap[c].Some? then amap[c].value[page % CHUNK_PAGES] else None
  }

  predicate HasSlot(amap: Amap, page: nat) {
    page / CHUNK_PAGES < |amap| && amap[page / CHUNK_PAGES].Some?
  }

  function Empties(n: nat): Amap { seq(n, _ => None) }

  /** `amap_anon_at`: room for the slot of `page`, nothing else. */
  function Grown(amap: Amap, page: nat): (r: Amap)
    ensures HasSlot(r, page)
    ensures forall p: nat :: Slot(r, p) == Slot(amap, p)
    ensures |r| == if |amap| <= page / CHUNK_PAGES then page / CHUNK_PAGES + 1 else |amap|
    ensures forall c | 0 <= c < |r| && c != page / CHUNK_PAGES :: r[c] == if c < |amap| then amap[c] else None
  {
    var c := page / CHUNK_PAGES;
    var wide := if |amap| <= c then amap + Empties(c + 1 - |amap|) else amap;
    if wide[c].None? then wide[c := Some(EmptyChunk())] else wide
  }

  function SetSlot(amap: Amap, page: nat, anon: nat): (r: Amap)
    requires HasSlot(amap, page)
    ensures |r| == |amap| && forall q: nat :: HasSlot(r, q) <==> HasSlot(amap, q)
    ensures forall q: nat :: Slot(r, q) == if q == page then Some(anon) else Slot(amap, q)
  {
    var c := page / CHUNK_PAGES;
    SlotIndex(page);
    amap[c := Some(amap[c].value[page % CHUNK_PAGES := Some(anon)])]
  }

  function ClearSlot(amap: Amap, page: nat): (r: Amap)
    requires HasSlot(amap, page)
    ensures |r| == |amap| && forall q: nat :: HasSlot(r, q) <==> HasSlot(amap, q)
    ensures forall q: nat :: Slot(r, q) == if q == page then None else Slot(amap, q)
  {
    var c := page / CHUNK_PAGES;
    SlotIndex(page);
    amap[c := Some(amap[c].value[page % CHUNK_PAGES := None])]
  }

  lemma SlotIndex(page: nat)
    ensures forall q: nat :: q / CHUNK_PAGES == page / CHUNK_PAGES && q % CHUNK_PAGES == page % CHUNK_PAGES ==> q == page
  {}

  // ---------------------------------------------------------------------------------
  // The rest of the state
  // ---------------------------------------------------------------------------------

  datatype VmObject = VmObject(refcnt: nat, amap: Amap)
  datatype Anon = Anon(refcnt: nat, page: nat)

  /** A page of some map's address space. */
  datatype Va = Va(map_: nat, page: nat)
  datatype Pte = Pte(frame: nat, writable: bool)

  /** A map entry, in pages; `end` is exclusive. */
  datatype Entry = Entry(map_: nat, start: nat, end: nat, offset: nat, obj: nat) {
    predicate Covers(va: Va) { va.map_ == map_ && start <= va.page < end }

    function ObjectPage(va: Va): nat
      requires Covers(va)
    {
      va.page - start + offset
    }
  }

  type Objects = map<nat, VmObject>
  type Anons = map<nat, Anon>
  type Memory = map<nat, Page>
  type PageTable = map<Va, Pte>
  type Reverse = map<nat, seq<Va>>
  type Holders = map<nat, set<(nat, nat)>>

  /** What each object would hold had every copy been made page by page. */
  type Private = map<nat, imap<nat, Page>>

  ghost function PutPage(priv: Private, o: nat, p: nat, page: Page): (r: Private)
    requires o in priv
  {
    var m: imap<nat, Page> := imap q: nat | q in priv[o] || q == p :: if q == p then page else priv[o][q];
    priv[o := m]
  }

  /** `map_entry_for_addr`. */
  function EntryAt(entries: seq<Entry>, va: Va): (r: Option<Entry>)
    ensures r.Some? ==> r.value in entries && r.value.Covers(va)
    ensures r.None? ==> forall e | e in entries :: !e.Covers(va)
  {
    if entries == [] then None
    else if entries[0].Covers(va) then Some(entries[0])
    else EntryAt(entries[1..], va)
  }

  function SlotOf(objects: Objects, o: nat, p: nat): Option<nat> {
    if o in objects then Slot(objects[o].amap, p) else None
  }

  // ---------------------------------------------------------------------------------
  // Invariants
  // ---------------------------------------------------------------------------------

  /** An anon's count is the number of amap slots that hold it. */
  ghost predicate Counted(objects: Objects, anons: Anons, holders: Holders) {
    && holders.Keys == anons.Keys
    && (forall o: nat, p: nat :: SlotOf(objects, o, p).Some? ==>
          SlotOf(objects, o, p).value in anons && (o, p) in holders[SlotOf(objects, o, p).value])
    && (forall a, h | a in holders && h in holders[a] :: SlotOf(objects, h.0, h.1) == Some(a))
    && (forall a | a in anons :: anons[a].refcnt == |holders[a]| && 0 < anons[a].refcnt)
  }

  ghost function FramesOf(anons: Anons): set<nat> { set a | a in anons :: anons[a].page }

  /** Every anon owns a frame of its own, and no frame is without an anon: none is lost. */
  ghost predicate Framed(anons: Anons, mem: Memory) {
    && (forall a | a in anons :: anons[a].page in mem)
    && (forall a, b | a in anons && b in anons && a != b :: anons[a].page != anons[b].page)
    && mem.Keys <= FramesOf(anons)
  }

  /** A present translation leads to the page its slot holds now, and only an unshared page may be
      written through one. */
  ghost predicate Translates(objects: Objects, anons: Anons, entries: seq<Entry>, va: Va, pte: Pte) {
    var e := EntryAt(entries, va);
    e.Some? &&
    var s := SlotOf(objects, e.value.obj, e.value.ObjectPage(va));
    s.Some? && s.value in anons && pte.frame == anons[s.value].page && (pte.writable ==> anons[s.value].refcnt == 1)
  }

  ghost predicate Mapped(objects: Objects, anons: Anons, entries: seq<Entry>, ptes: PageTable) {
    forall va | va in ptes :: Translates(objects, anons, entries, va, ptes[va])
  }

  /** A frame's reverse map lists exactly the translations to it, each once. */
  ghost predicate Reversed(ptes: PageTable, pv: Reverse) {
    && (forall va | va in ptes :: ptes[va].frame in pv && va in pv[ptes[va].frame])
    && (forall f, va | f in pv && va in pv[f] :: va in ptes && ptes[va].frame == f)
    && (forall f, i, j | f in pv && 0 <= i < j < |pv[f]| :: pv[f][i] != pv[f][j])
  }

  /** Entries map live, referenced objects; no address twice and no object twice. */
  ghost predicate Entered(objects: Objects, entries: seq<Entry>) {
    && (forall e | e in entries :: e.obj in objects && 0 < objects[e.obj].refcnt)
    && (forall i, j | 0 <= i < j < |entries| :: entries[i].obj != entries[j].obj)
    && (forall i, j, va | 0 <= i < j < |entries| && entries[i].Covers(va) :: !entries[j].Covers(va))
  }

  function Contents(objects: Objects, anons: Anons, mem: Memory, o: nat, p: nat): Page {
    var s := SlotOf(objects, o, p);
    if s.Some? && s.value in anons && anons[s.value].page in mem then mem[anons[s.value].page] else ZeroPage()
  }

  ghost predicate Agrees(objects: Objects, anons: Anons, mem: Memory, priv: Private) {
    && priv.Keys == objects.Keys
    && forall o, p: nat | o in objects :: p in priv[o] && priv[o][p] == Contents(objects, anons, mem, o, p)
  }

  /** An object page has one address at most. */
  lemma OneAddress(objects: Objects, entries: seq<Entry>, va: Va, vb: Va)
    requires Entered(objects, entries)
    requires EntryAt(entries, va).Some? && EntryAt(entries, vb).Some?
    requires var e, f := EntryAt(entries, va).value, EntryAt(entries, vb).value;
             e.obj == f.obj && e.ObjectPage(va) == f.ObjectPage(vb)
    ensures va == vb
  {
    var e, f := EntryAt(entries, va).value, EntryAt(entries, vb).value;
    var i, j :| 0 <= i < |entries| && entries[i] == e && 0 <= j < |entries| && entries[j] == f;
    assert i == j;
  }
}
