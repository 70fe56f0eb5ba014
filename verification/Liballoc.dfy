/** The first-fit heap of kernel-3/kern/liballoc.c: majors obtained from the page hook, each holding
    an address-ordered list of minors. */
module Liballoc {
  import opened Common
  import opened Links

  const PAGE_SIZE: nat := 4096
  const PAGE_COUNT: nat := 16       // pages a major has at least
  const MAJOR_HDR: nat := 40
  const MINOR_HDR: nat := 40
  const ALIGNMENT: nat := 16
  const ALIGN_INFO: nat := 16
  const UINT_LIMIT: nat := 0x1_0000_0000

  /** An allocation: its header's address, the bytes behind the header, the bytes asked for, which a
      later `realloc` may have made fewer. */
  datatype Minor = Minor(addr: nat, size: nat, req: nat) {
    function Body(): nat { addr + MINOR_HDR }

    function End(): nat { addr + MINOR_HDR + size }
  }

  datatype Major = Major(addr: nat, pages: nat, size: nat, usage: nat, minors: seq<Minor>) {
    function Lo(): nat { addr + MAJOR_HDR }

    function Hi(): nat { addr + size }
  }

  // ---------------------------------------------------------------------------------
  // Alignment
  // ---------------------------------------------------------------------------------

  /** The pointer `ALIGN` makes of the start of a body. */
  function Aligned(body: nat): (p: nat)
    ensures p >= ALIGN_INFO
  {
    var p := body + ALIGN_INFO;
    if p % ALIGNMENT == 0 then p else p + (ALIGNMENT - p % ALIGNMENT)
  }

  /** `UNALIGN`, given the byte stored in front of the pointer. */
  function Unaligned(p: nat, info: nat): nat {
    if info < ALIGNMENT + ALIGN_INFO && info <= p then p - info else p
  }

  /** An aligned pointer leaves room for its information byte, and that byte leads back. A byte no alignment
      could have stored leaves the pointer as it is. */
  lemma AlignRoundTrip(body: nat)
    ensures var p := Aligned(body);
            && p % ALIGNMENT == 0 && body <= p - ALIGN_INFO && p < body + ALIGNMENT + ALIGN_INFO
            && Unaligned(p, p - body) == body
            && forall info: nat | info >= ALIGNMENT + ALIGN_INFO :: Unaligned(p, info) == p
  {}

  // ---------------------------------------------------------------------------------
  // One major
  // ---------------------------------------------------------------------------------

  /** Minors in address order, disjoint, between `lo` and `hi`. */
  predicate Ordered(ms: seq<Minor>, lo: nat, hi: nat) {
    if ms == [] then lo <= hi
    else lo <= ms[0].addr && ms[0].req + ALIGNMENT + ALIGN_INFO <= ms[0].size && Ordered(ms[1..], ms[0].End(), hi)
  }

  function Used(ms: seq<Minor>): nat {
    if ms == [] then 0 else ms[0].size + MINOR_HDR + Used(ms[1..])
  }

  function Sizes(ms: seq<Minor>): nat {
    if ms == [] then 0 else ms[0].size + Sizes(ms[1..])
  }

  predicate Sound(m: Major) {
    && m.size == m.pages * PAGE_SIZE && PAGE_COUNT <= m.pages && m.size < UINT_LIMIT
    && Ordered(m.minors, m.Lo(), m.Hi())
    && m.usage == MAJOR_HDR + Used(m.minors)
  }

  /** Where the k-th gap starts, and where it ends. */
  function GapStart(ms: seq<Minor>, k: nat, lo: nat): nat
    requires k <= |ms|
  {
    if k == 0 then lo else ms[k - 1].End()
  }

  function GapEnd(ms: seq<Minor>, k: nat, hi: nat): nat
    requires k <= |ms|
  {
    if k == |ms| then hi else ms[k].addr
  }

  predicate Fits(m: Major, k: nat, need: nat) {
    k <= |m.minors| && GapStart(m.minors, k, m.Lo()) + need <= GapEnd(m.minors, k, m.Hi())
  }

  lemma {:induction false} OrderedConcat(a: seq<Minor>, b: seq<Minor>, lo: nat, hi: nat)
    ensures Ordered(a + b, lo, hi) <==> Ordered(a, lo, GapStart(a, |a|, lo)) && Ordered(b, GapStart(a, |a|, lo), hi)
    ensures Used(a + b) == Used(a) + Used(b) && Sizes(a + b) == Sizes(a) + Sizes(b)
  {
    if a == [] {
      assert a + b == b;
    } else {
      assert (a + b)[1..] == a[1..] + b;
      OrderedConcat(a[1..], b, a[0].End(), hi);
      assert GapStart(a, |a|, lo) == GapStart(a[1..], |a| - 1, a[0].End());
    }
  }

  lemma {:induction false} OrderedSpan(ms: seq<Minor>, lo: nat, hi: nat)
    requires Ordered(ms, lo, hi)
    ensures lo + Used(ms) <= GapStart(ms, |ms|, lo) <= hi
  {
    if ms != [] {
      OrderedSpan(ms[1..], ms[0].End(), hi);
      assert GapStart(ms, |ms|, lo) == GapStart(ms[1..], |ms| - 1, ms[0].End());
    }
  }

  /** No gap is larger than all the unused bytes together. */
  lemma GapBound(m: Major, k: nat, need: nat)
    requires Sound(m) && Fits(m, k, need)
    ensures m.usage + need <= m.size
  {
    var ms := m.minors;
    var a, b := ms[..k], ms[k..];
    assert ms == a + b;
    OrderedConcat(a, b, m.Lo(), m.Hi());
    OrderedSpan(a, m.Lo(), GapStart(a, |a|, m.Lo()));
    if b != [] {
      OrderedSpan(b, b[0].addr, m.Hi());
    }
  }

  function Inserted(m: Major, k: nat, n: Minor): Major
    requires k <= |m.minors|
  {
    m.(minors := m.minors[..k] + [n] + m.minors[k..], usage := m.usage + n.size + MINOR_HDR)
  }

  /** A new minor at the start of a gap that fits keeps the major sound. */
  lemma InsertSound(m: Major, k: nat, n: Minor)
    requires Sound(m) && n.req + ALIGNMENT + ALIGN_INFO <= n.size && Fits(m, k, n.size + MINOR_HDR)
    requires n.addr == GapStart(m.minors, k, m.Lo())
    ensures Sound(Inserted(m, k, n))
    ensures Sizes(Inserted(m, k, n).minors) == Sizes(m.minors) + n.size
  {
    var a, b := m.minors[..k], m.minors[k..];
    assert m.minors == a + b;
    OrderedConcat(a, b, m.Lo(), m.Hi());
    assert [n][1..] == [];
    OrderedConcat(a, [n], m.Lo(), n.End());
    OrderedConcat(a + [n], b, m.Lo(), m.Hi());
    assert GapStart(a + [n], |a| + 1, m.Lo()) == n.End();
  }

  function Removed(m: Major, k: nat): Major
    requires k < |m.minors| && m.minors[k].size + MINOR_HDR <= m.usage
  {
    m.(minors := m.minors[..k] + m.minors[k + 1..], usage := m.usage - (m.minors[k].size + MINOR_HDR))
  }

  lemma {:induction false} OrderedWider(ms: seq<Minor>, lo: nat, lo': nat, hi: nat)
    requires Ordered(ms, lo, hi) && lo' <= lo
    ensures Ordered(ms, lo', hi)
  {}

  lemma RemoveSound(m: Major, k: nat)
    requires Sound(m) && k < |m.minors|
    ensures m.minors[k].size + MINOR_HDR <= m.usage && Sound(Removed(m, k))
    ensures Sizes(m.minors) == Sizes(Removed(m, k).minors) + m.minors[k].size
  {
    var a, n, b := m.minors[..k], m.minors[k], m.minors[k + 1..];
    assert m.minors == a + [n] + b;
    assert [n][1..] == [];
    OrderedConcat(a + [n], b, m.Lo(), m.Hi());
    OrderedConcat(a, [n], m.Lo(), n.End());
    assert GapStart(a + [n], |a| + 1, m.Lo()) == n.End();
    OrderedWider(b, n.End(), GapStart(a, |a|, m.Lo()), m.Hi());
    OrderedConcat(a, b, m.Lo(), m.Hi());
  }

  lemma {:induction false} MinorAt(ms: seq<Minor>, lo: nat, hi: nat, k: nat)
    requires Ordered(ms, lo, hi) && k < |ms|
    ensures lo <= ms[k].addr && ms[k].End() <= hi && ms[k].req + ALIGNMENT + ALIGN_INFO <= ms[k].size
    ensures forall j | k < j < |ms| :: ms[k].End() <= ms[j].addr
  {
    if k == 0 {
      OrderedSpan(ms[1..], ms[0].End(), hi);
      forall j | 0 < j < |ms| ensures ms[0].End() <= ms[j].addr {
        MinorAt(ms[1..], ms[0].End(), hi, j - 1);
      }
    } else {
      MinorAt(ms[1..], ms[0].End(), hi, k - 1);
      forall j | k < j < |ms| ensures ms[k].End() <= ms[j].addr {
        assert ms[j] == ms[1..][j - 1];
      }
    }
  }

  // ---------------------------------------------------------------------------------
  // The list of majors
  // ---------------------------------------------------------------------------------

  function InUse(ms: seq<Major>): nat {
    if ms == [] then 0 else Sizes(ms[0].minors) + InUse(ms[1..])
  }

  function Obtained(ms: seq<Major>): nat {
    if ms == [] then 0 else ms[0].size + Obtained(ms[1..])
  }

  lemma {:induction false} TotalsConcat(a: seq<Major>, b: seq<Major>)
    ensures InUse(a + b) == InUse(a) + InUse(b) && Obtained(a + b) == Obtained(a) + Obtained(b)
  {
    if a == [] {
      assert a + b == b;
    } else {
      assert (a + b)[1..] == a[1..] + b;
      TotalsConcat(a[1..], b);
    }
  }

  lemma TotalsAt(ms: seq<Major>, i: nat, m: Major)
    requires i < |ms|
    ensures InUse(ms[i := m]) + Sizes(ms[i].minors) == InUse(ms) + Sizes(m.minors)
    ensures Obtained(ms[i := m]) + ms[i].size == Obtained(ms) + m.size
    ensures InUse(ms[..i] + ms[i + 1..]) + Sizes(ms[i].minors) == InUse(ms)
    ensures Obtained(ms[..i] + ms[i + 1..]) + ms[i].size == Obtained(ms)
  {
    var a, b := ms[..i], ms[i + 1..];
    assert ms == a + [ms[i]] + b && ms[i := m] == a + [m] + b;
    TotalsConcat(a + [ms[i]], b);
    TotalsConcat(a, [ms[i]]);
    TotalsConcat(a + [m], b);
    TotalsConcat(a, [m]);
    TotalsConcat(a, b);
    assert [m][1..] == [] && [ms[i]][1..] == [];
  }

  /** The bytes behind a header for `req` requested ones. */
  function Padded(req: nat): nat { req + ALIGNMENT + ALIGN_INFO }

  predicate Apart(m: Major, n: Major) { m.Hi() <= n.addr || n.Hi() <= m.addr }

  ghost predicate Laid(ms: seq<Major>) {
    && (forall i | 0 <= i < |ms| :: Sound(ms[i]))
    && (forall i, j | 0 <= i < j < |ms| :: Apart(ms[i], ms[j]))
  }

  /** Each live minor's information byte leads from its pointer back to its body. */
  ghost predicate Marked(ms: seq<Major>, info: map<nat, nat>) {
    forall i, k | 0 <= i < |ms| && 0 <= k < |ms[i].minors| :: MarkedAt(ms[i].minors[k], info)
  }

  predicate MarkedAt(n: Minor, info: map<nat, nat>) {
    var p := Aligned(n.Body());
    AlignRoundTrip(n.Body());
    p - ALIGN_INFO in info && info[p - ALIGN_INFO] == p - n.Body()
  }

  ghost predicate Known(ms: seq<Major>, bestBet: Option<nat>) {
    bestBet.Some? ==> exists i :: 0 <= i < |ms| && ms[i].addr == bestBet.value
  }

  /** The first gap of a major that holds `need` bytes. */
  ghost predicate NoRoom(m: Major, need: nat) { forall k: nat :: !Fits(m, k, need) }

  /** Two live minors never overlap. */
  lemma MinorsApart(ms: seq<Major>, a: nat, b: nat, i: nat, k: nat)
    requires Laid(ms) && a < |ms| && b < |ms[a].minors| && i < |ms| && k < |ms[i].minors| && (a, b) != (i, k)
    ensures ms[a].minors[b].End() <= ms[i].minors[k].addr || ms[i].minors[k].End() <= ms[a].minors[b].addr
    ensures Padded(ms[a].minors[b].req) <= ms[a].minors[b].size && Padded(ms[i].minors[k].req) <= ms[i].minors[k].size
  {
    MinorAt(ms[a].minors, ms[a].Lo(), ms[a].Hi(), b);
    MinorAt(ms[i].minors, ms[i].Lo(), ms[i].Hi(), k);
    assert a < i ==> Apart(ms[a], ms[i]);
    assert i < a ==> Apart(ms[i], ms[a]);
  }

  /** Two live minors keep their information bytes in different places. */
  lemma PointersApart(ms: seq<Major>, a: nat, b: nat, i: nat, k: nat)
    requires Laid(ms) && a < |ms| && b < |ms[a].minors| && i < |ms| && k < |ms[i].minors| && (a, b) != (i, k)
    ensures Aligned(ms[a].minors[b].Body()) != Aligned(ms[i].minors[k].Body())
  {
    hide Aligned, Laid;
    MinorsApart(ms, a, b, i, k);
    AlignRoundTrip(ms[a].minors[b].Body());
    AlignRoundTrip(ms[i].minors[k].Body());
  }

  /** A new minor's byte disturbs no other's. */
  lemma InsertMarked(ms: seq<Major>, info: map<nat, nat>, i: nat, k: nat, n: Minor)
    requires Laid(ms) && Marked(ms, info) && i < |ms| && k <= |ms[i].minors| && Sound(Inserted(ms[i], k, n))
    ensures var p := Aligned(n.Body());
            p >= ALIGN_INFO && Marked(ms[i := Inserted(ms[i], k, n)], info[p - ALIGN_INFO := p - n.Body()])
  {
    hide Aligned, Sound;
    AlignRoundTrip(n.Body());
    var p := Aligned(n.Body());
    var m' := Inserted(ms[i], k, n);
    var ms', info' := ms[i := m'], info[p - ALIGN_INFO := p - n.Body()];
    assert m'.minors[k] == n;
    InsertLaid(ms, i, m');
    forall a, b | 0 <= a < |ms'| && 0 <= b < |ms'[a].minors| ensures MarkedAt(ms'[a].minors[b], info') {
      var o := ms'[a].minors[b];
      if (a, b) != (i, k) {
        PointersApart(ms', a, b, i, k);
        assert o == ms[a].minors[if a == i && k < b then b - 1 else b];
        assert MarkedAt(o, info);
      }
    }
  }

  function NewPages(size: nat): nat {
    var st := size + MAJOR_HDR + MINOR_HDR;
    var pages := if st % PAGE_SIZE == 0 then st / PAGE_SIZE else st / PAGE_SIZE + 1;
    if pages < PAGE_COUNT then PAGE_COUNT else pages
  }

  /** A new major has the fewest pages that hold its header and the request's, but at least 16. */
  lemma NewPagesLeast(size: nat)
    ensures var p := NewPages(size);
            && 16 <= p && MAJOR_HDR + MINOR_HDR + size <= p * 4096
            && (16 < p ==> (p - 1) * 4096 < MAJOR_HDR + MINOR_HDR + size)
  {}

  function NewMajor(addr: nat, size: nat): Major {
    Major(addr, NewPages(size), NewPages(size) * PAGE_SIZE, MAJOR_HDR, [])
  }

  /** The page hook hands out memory that no major occupies. */
  ghost predicate Granted(ms: seq<Major>, grant: Option<nat>, size: nat) {
    grant.Some? ==> forall i | 0 <= i < |ms| :: Apart(ms[i], NewMajor(grant.value, size))
  }

  /** A new major is always large enough for the request that caused it. */
  lemma NewMajorFits(addr: nat, size: nat)
    requires size + MAJOR_HDR + MINOR_HDR + PAGE_SIZE <= UINT_LIMIT
    ensures Sound(NewMajor(addr, size)) && Fits(NewMajor(addr, size), 0, size + MINOR_HDR)
    ensures NewMajor(addr, size).usage + size + MINOR_HDR <= NewMajor(addr, size).size
  {}

  lemma InsertLaid(ms: seq<Major>, i: nat, m: Major)
    requires Laid(ms) && i < |ms| && Sound(m) && m.addr == ms[i].addr && m.size == ms[i].size
    ensures Laid(ms[i := m])
  {
    var ms' := ms[i := m];
    forall a, b | 0 <= a < b < |ms'| ensures Apart(ms'[a], ms'[b]) {
      assert Apart(ms[a], ms[b]);
    }
  }

  lemma StillKnown(ms: seq<Major>, ms': seq<Major>, bestBet: Option<nat>)
    requires Known(ms, bestBet) && |ms| <= |ms'| && forall i | 0 <= i < |ms| :: ms'[i].addr == ms[i].addr
    ensures Known(ms', bestBet)
  {
    if bestBet.Some? {
      var i :| 0 <= i < |ms| && ms[i].addr == bestBet.value;
      assert ms'[i].addr == bestBet.value;
    }
  }

  lemma KnownAt(ms: seq<Major>, i: nat)
    requires i < |ms|
    ensures Known(ms, Some(ms[i].addr)) && Known(ms, None)
  {}

  lemma MarkLeadsBack(ms: seq<Major>, info: map<nat, nat>, i: nat, k: nat)
    requires Marked(ms, info) && i < |ms| && k < |ms[i].minors|
    ensures var p := Aligned(ms[i].minors[k].Body());
            p - ALIGN_INFO in info && Unaligned(p, info[p - ALIGN_INFO]) == ms[i].minors[k].Body()
  {
    AlignRoundTrip(ms[i].minors[k].Body());
    assert MarkedAt(ms[i].minors[k], info);
  }

  lemma AppendKeeps(ms: seq<Major>, info: map<nat, nat>, bestBet: Option<nat>, m: Major)
    requires Laid(ms) && Marked(ms, info) && Known(ms, bestBet) && Sound(m) && m.minors == []
    requires forall i | 0 <= i < |ms| :: Apart(ms[i], m)
    ensures Laid(ms + [m]) && Marked(ms + [m], info) && Known(ms + [m], bestBet)
  {
    StillKnown(ms, ms + [m], bestBet);
    forall i, k | 0 <= i < |ms + [m]| && 0 <= k < |(ms + [m])[i].minors| ensures MarkedAt((ms + [m])[i].minors[k], info) {
      assert MarkedAt(ms[i].minors[k], info);
    }
  }

  lemma SoundAt(ms: seq<Major>, i: nat)
    requires Laid(ms) && i < |ms|
    ensures Sound(ms[i]) && ms[i].usage <= ms[i].size < UINT_LIMIT
  {
    UsageBound(ms[i]);
  }

  lemma UsageBound(m: Major)
    requires Sound(m)
    ensures m.usage <= m.size
  {
    OrderedSpan(m.minors, m.Lo(), m.Hi());
  }

  /** No gap of the first `n` majors fits. */
  ghost predicate Passed(ms: seq<Major>, n: nat, need: nat) {
    n <= |ms| && forall i | 0 <= i < n :: NoRoom(ms[i], need)
  }

  ghost predicate Full(ms: seq<Major>, need: nat) { Passed(ms, |ms|, need) }

  lemma PassedNext(ms: seq<Major>, n: nat, need: nat)
    requires Passed(ms, n, need) && n < |ms| && NoRoom(ms[n], need)
    ensures Passed(ms, n + 1, need) && (n + 1 == |ms| ==> Full(ms, need))
  {}

  lemma NotFull(ms: seq<Major>, i: nat, k: nat, need: nat)
    requires i < |ms| && Fits(ms[i], k, need)
    ensures !Full(ms, need)
  {
    assert !NoRoom(ms[i], need);
  }

  /** A major whose unused bytes together are too few has no gap that fits. */
  lemma TooFew(m: Major, need: nat)
    requires Sound(m) && m.size < m.usage + need
    ensures NoRoom(m, need)
  {
    forall k: nat ensures !Fits(m, k, need) {
      if Fits(m, k, need) {
        GapBound(m, k, need);
      }
    }
  }

  /** The same with the header. */
  function Need(req: nat): nat { Padded(req) + MINOR_HDR }

  /** The majors a request searches in the end: a new one is added only when every other is full. */
  ghost function Searched(before: seq<Major>, req: nat, grant: Option<nat>): seq<Major> {
    if Full(before, Need(req)) && grant.Some? then before + [NewMajor(grant.value, Padded(req))] else before
  }

  function Spare(m: Major): int { m.size - m.usage }

  /** The major a search begins at: the best bet, if it has more unused bytes than needed, else the root. */
  ghost predicate Begins(ms: seq<Major>, bet: Option<nat>, need: nat, origin: Option<nat>) {
    match origin
    case Some(b) => b < |ms| && bet == Some(ms[b].addr) && need < Spare(ms[b])
    case None => forall b | 0 <= b < |ms| :: bet == Some(ms[b].addr) ==> Spare(ms[b]) <= need
  }

  /** The major at `at` is the first with room from the origin on; if there is none there, the first from
      the root; if there is none at all, the one behind the last. */
  ghost predicate Chosen(ms: seq<Major>, origin: Option<nat>, need: nat, at: nat) {
    if RoomFrom(ms, origin, need) then origin.value <= at < |ms| && forall j | origin.value <= j < at :: NoRoom(ms[j], need)
    else at <= |ms| && forall j | 0 <= j < at :: NoRoom(ms[j], need)
  }

  ghost predicate RoomFrom(ms: seq<Major>, origin: Option<nat>, need: nat) {
    origin.Some? && exists j :: origin.value <= j < |ms| && !NoRoom(ms[j], need)
  }

  function Range(lo: int, hi: int): seq<int> { if lo < hi then seq(hi - lo, n requires 0 <= n => lo + n) else [] }

  /** The majors looked at before the one at `i`, in order; `n` is how many there were. */
  function Path(origin: Option<nat>, n: nat, started: bool, i: nat): seq<int> {
    if started && origin.Some? then Range(origin.value, i)
    else (if origin.Some? then Range(origin.value, n) else []) + Range(0, i)
  }

  /** The majors a request looks at that ends with the one at `at`. A new one behind the last is looked at
      only if the last had enough unused bytes, though not in one place, or if it is the first of all. */
  ghost function Route(ms: seq<Major>, origin: Option<nat>, need: nat, at: nat): seq<int> {
    var began := Path(origin, |ms|, RoomFrom(ms, origin, need), at);
    if at < |ms| || ms == [] || need <= Spare(ms[|ms| - 1]) then began + [at] else began
  }

  /** What becomes of the best bet: of the majors looked at, the first with the most unused bytes, if these
      are more than the old best bet's (`size`). `best` is the number of its unused bytes. */
  ghost predicate BetMoved(ms: seq<Major>, seen: seq<int>, bet: Option<nat>, size: int, bet': Option<nat>, best: int) {
    && (forall n | 0 <= n < |seen| :: 0 <= seen[n] < |ms| && Spare(ms[seen[n]]) <= best)
    && if best == size then bet' == bet
       else exists n :: 0 <= n < |seen| && BetAt(ms, seen, n, size, bet', best)
  }

  ghost predicate BetAt(ms: seq<Major>, seen: seq<int>, n: nat, size: int, bet': Option<nat>, best: int)
    requires n < |seen| && forall m | 0 <= m < |seen| :: 0 <= seen[m] < |ms|
  {
    && size < best == Spare(ms[seen[n]]) && bet' == Some(ms[seen[n]].addr)
    && forall m | 0 <= m < n :: Spare(ms[seen[m]]) < best
  }

  /** How a search went: where it began, if at the best bet; the majors it looked at; the unused bytes of
      the best bet before and after. */
  datatype Trail = Trail(origin: Option<nat>, seen: seq<int>, size: int, best: int)

  /** The unused bytes of the best bet, 0 without one. */
  ghost predicate BetSize(ms: seq<Major>, bet: Option<nat>, size: int) {
    if bet.None? then size == 0 else exists b :: 0 <= b < |ms| && bet == Some(ms[b].addr) && size == Spare(ms[b])
  }

  lemma BetLook(ms: seq<Major>, seen: seq<int>, bet: Option<nat>, size: int, bet': Option<nat>, best: int, i: nat)
    requires i < |ms| && BetMoved(ms, seen, bet, size, bet', best) && size <= best
    ensures var bet'', best' := if best < Spare(ms[i]) then Some(ms[i].addr) else bet', if best < Spare(ms[i]) then Spare(ms[i]) else best;
            BetMoved(ms, seen + [i], bet, size, bet'', best')
  {
    var seen' := seen + [i];
    assert forall m | 0 <= m < |seen| :: seen'[m] == seen[m];
    if best < Spare(ms[i]) {
      assert BetAt(ms, seen', |seen|, size, Some(ms[i].addr), Spare(ms[i]));
    } else if best != size {
      var n :| 0 <= n < |seen| && BetAt(ms, seen, n, size, bet', best);
      assert BetAt(ms, seen', n, size, bet', best);
    }
  }

  lemma BetGrown(ms: seq<Major>, seen: seq<int>, bet: Option<nat>, size: int, bet': Option<nat>, best: int, m: Major)
    requires BetMoved(ms, seen, bet, size, bet', best)
    ensures BetMoved(ms + [m], seen, bet, size, bet', best)
  {
    assert forall n | 0 <= n < |seen| :: (ms + [m])[seen[n]] == ms[seen[n]];
    if best != size {
      var n :| 0 <= n < |seen| && BetAt(ms, seen, n, size, bet', best);
      assert BetAt(ms + [m], seen, n, size, bet', best);
    }
  }

  lemma PathNext(origin: Option<nat>, n: nat, started: bool, i: nat)
    requires started ==> origin.Some? && origin.value <= i
    ensures Path(origin, n, started, i) + [i] == Path(origin, n, started, i + 1)
  {
    assert Range(0, i) + [i as int] == Range(0, i + 1);
    if started {
      assert Range(origin.value, i) + [i as int] == Range(origin.value, i + 1);
    }
  }

  lemma PathAgain(origin: Option<nat>, n: nat)
    requires origin.Some?
    ensures Path(origin, n, true, n) == Path(origin, n, false, 0)
  {}

  /** Where the search stands: at the i-th major of `ms`, with no room in those it passed, or at a new
      major behind the full ones. */
  ghost predicate Searching(before: seq<Major>, ms: seq<Major>, origin: Option<nat>, i: nat, started: bool, appended: bool,
                            req: nat, grant: Option<nat>) {
    if appended then
      && !started && grant.Some? && ms == before + [NewMajor(grant.value, Padded(req))] && i == |before|
      && Full(before, Need(req))
    else
      && ms == before && i < |ms|
      && if started then origin.Some? && origin.value <= i && forall j | origin.value <= j < i :: NoRoom(ms[j], Need(req))
         else Passed(ms, i, Need(req)) && !RoomFrom(ms, origin, Need(req))
  }

  lemma SearchHop(ms: seq<Major>, origin: Option<nat>, i: nat, started: bool, req: nat, grant: Option<nat>)
    requires Searching(ms, ms, origin, i, started, false, req, grant) && NoRoom(ms[i], Need(req))
    ensures i + 1 < |ms| ==> Searching(ms, ms, origin, i + 1, started, false, req, grant)
    ensures i + 1 == |ms| && !started ==> Full(ms, Need(req))
    ensures i + 1 == |ms| && started ==> Searching(ms, ms, origin, 0, false, false, req, grant)
  {
    if !started {
      PassedNext(ms, i, Need(req));
    }
  }

  lemma NoneToLook(bet: Option<nat>, need: nat)
    ensures Begins([], bet, need, None) && (bet.None? ==> BetSize([], bet, 0)) && BetMoved([], [], bet, 0, bet, 0)
    ensures Path(None, 0, false, 0) == []
  {}

  /** Without a best bet the search begins at the root. */
  lemma NoBet(ms: seq<Major>, need: nat, started: bool, size: int)
    requires |ms| == 1 && BetSize(ms, None, size) && Begins(ms, None, need, if started then Some(0) else None)
    ensures !started && size == 0
  {}

  lemma Looking(ms: seq<Major>, origin: Option<nat>, n: nat, started: bool, i: nat, bet: Option<nat>, size: int)
    requires (started ==> origin == Some(i)) && (!started ==> origin.None? && i == 0)
    ensures Path(origin, n, started, i) == [] && BetMoved(ms, [], bet, size, bet, size)
  {}

  lemma RouteIs(ms: seq<Major>, origin: Option<nat>, need: nat, at: nat)
    requires at < |ms| || ms == [] || need <= Spare(ms[|ms| - 1])
    ensures Route(ms, origin, need, at) == Path(origin, |ms|, RoomFrom(ms, origin, need), at) + [at]
  {}

  lemma RouteShort(ms: seq<Major>, origin: Option<nat>, need: nat)
    requires ms != [] && Spare(ms[|ms| - 1]) < need
    ensures Route(ms, origin, need, |ms|) == Path(origin, |ms|, RoomFrom(ms, origin, need), |ms|)
  {}

  lemma NeedIs(req: nat)
    ensures Need(req) == Padded(req) + MINOR_HDR
  {}

  lemma FullEmpty(need: nat)
    ensures Full([], need)
  {}

  lemma SearchFrom(ms: seq<Major>, origin: Option<nat>, req: nat, grant: Option<nat>)
    requires if origin.Some? then origin.value < |ms| else ms != []
    ensures Searching(ms, ms, origin, if origin.Some? then origin.value else 0, origin.Some?, false, req, grant)
  {}

  lemma SearchGrown(ms: seq<Major>, origin: Option<nat>, req: nat, grant: Option<nat>)
    requires grant.Some? && Full(ms, Need(req))
    ensures Searching(ms, ms + [NewMajor(grant.value, Padded(req))], origin, |ms|, false, true, req, grant)
  {}

  lemma SearchNew(before: seq<Major>, ms: seq<Major>, origin: Option<nat>, i: nat, started: bool, req: nat, grant: Option<nat>)
    requires Searching(before, ms, origin, i, started, true, req, grant) && Need(req) + MAJOR_HDR + PAGE_SIZE <= UINT_LIMIT
    ensures i < |ms| && ms[i].minors == [] && ms[i].usage + Need(req) <= ms[i].size && Fits(ms[i], 0, Need(req))
    ensures ItemBefore(MinorAddrs(ms[i].minors), 0) == None && FirstGap(ms[i], 0, Need(req))
  {
    NewMajorFits(grant.value, Padded(req));
  }

  lemma SearchFound(before: seq<Major>, ms: seq<Major>, origin: Option<nat>, i: nat, k: nat, started: bool, appended: bool,
                    req: nat, grant: Option<nat>)
    requires Searching(before, ms, origin, i, started, appended, req, grant) && Fits(ms[i], k, Need(req))
    ensures ms == Searched(before, req, grant) && (i < |before| ==> ms == before)
    ensures Chosen(before, origin, Need(req), i) && started == RoomFrom(before, origin, Need(req))
  {
    assert !NoRoom(ms[i], Need(req));
    if !appended {
      NotFull(ms, i, k, Need(req));
    }
  }

  ghost predicate FirstGap(m: Major, k: nat, need: nat) { Fits(m, k, need) && forall j: nat | j < k :: !Fits(m, j, need) }

  /** Room for `need` bytes at `x`: inside the major, clear of its header and of every minor. */
  ghost predicate Clear(m: Major, x: int, need: nat) {
    && m.addr + MAJOR_HDR <= x && x + need <= m.addr + m.size
    && forall j | 0 <= j < |m.minors| ::
         var n := m.minors[j]; n.addr + MINOR_HDR + n.size <= x || x + need <= n.addr
  }

  /** The gap a request is put in begins at the lowest address with room for it; a major is passed over only
      if no address in it has room. */
  lemma LowestRoom(m: Major, need: nat)
    requires Sound(m) && 0 < need
    ensures forall k: nat | FirstGap(m, k, need) ::
              Clear(m, GapStart(m.minors, k, m.Lo()), need) && forall x: int | Clear(m, x, need) :: GapStart(m.minors, k, m.Lo()) <= x
    ensures NoRoom(m, need) <==> forall x: int :: !Clear(m, x, need)
  {
    forall k: nat | Fits(m, k, need) ensures Clear(m, GapStart(m.minors, k, m.Lo()), need) {
      GapClear(m, k, need);
    }
    forall x: int | Clear(m, x, need)
      ensures exists k: nat :: Fits(m, k, need) && GapStart(m.minors, k, m.Lo()) <= x
      ensures forall k: nat | FirstGap(m, k, need) :: GapStart(m.minors, k, m.Lo()) <= x
    {
      var j := ClearGap(m.minors, m.Lo(), m.Hi(), x, need);
      assert Fits(m, j, need);
      forall k: nat | FirstGap(m, k, need) ensures GapStart(m.minors, k, m.Lo()) <= x {
        OrderedStarts(m.minors, m.Lo(), m.Hi(), k, j);
      }
    }
  }

  lemma {:induction false} OrderedStarts(ms: seq<Minor>, lo: nat, hi: nat, j: nat, k: nat)
    requires Ordered(ms, lo, hi) && j <= k <= |ms|
    ensures GapStart(ms, j, lo) <= GapStart(ms, k, lo) && (k < |ms| ==> GapStart(ms, k, lo) <= ms[k].addr)
    ensures j < k ==> ms[j].End() <= GapStart(ms, k, lo)
  {
    if k > 0 {
      var rest := ms[1..];
      OrderedStarts(rest, ms[0].End(), hi, if j > 0 then j - 1 else 0, k - 1);
      assert k > 1 ==> rest[k - 2] == ms[k - 1];
      assert j > 1 ==> rest[j - 2] == ms[j - 1];
    }
  }

  lemma GapClear(m: Major, k: nat, need: nat)
    requires Sound(m) && Fits(m, k, need)
    ensures Clear(m, GapStart(m.minors, k, m.Lo()), need)
  {
    var ms, x := m.minors, GapStart(m.minors, k, m.Lo());
    OrderedStarts(ms, m.Lo(), m.Hi(), 0, k);
    OrderedStarts(ms, m.Lo(), m.Hi(), k, |ms|);
    assert Ordered(ms, m.Lo(), m.Hi()) ==> GapStart(ms, |ms|, m.Lo()) <= m.Hi() by { OrderedSpan(ms, m.Lo(), m.Hi()); }
    forall j | 0 <= j < |ms| ensures ms[j].End() <= x || x + need <= ms[j].addr {
      if j < k {
        OrderedStarts(ms, m.Lo(), m.Hi(), j, k);
      } else {
        OrderedStarts(ms, m.Lo(), m.Hi(), k, j);
      }
    }
  }

  /** Bytes clear of all minors lie in one gap. */
  lemma {:induction false} ClearGap(ms: seq<Minor>, lo: nat, hi: nat, x: int, need: nat) returns (k: nat)
    requires lo <= x && x + need <= hi && 0 < need
    requires forall j | 0 <= j < |ms| :: ms[j].addr + MINOR_HDR + ms[j].size <= x || x + need <= ms[j].addr
    ensures k <= |ms| && GapStart(ms, k, lo) <= x && x + need <= GapEnd(ms, k, hi)
  {
    if ms == [] || x + need <= ms[0].addr {
      k := 0;
    } else {
      var rest := ms[1..];
      assert forall j | 0 <= j < |rest| :: rest[j] == ms[j + 1];
      k := ClearGap(rest, ms[0].End(), hi, x, need);
      k := k + 1;
    }
  }

  lemma GapFits(m: Major, k: nat, need: nat)
    requires FirstGap(m, k, need)
    ensures k <= |m.minors| && Fits(m, k, need)
  {}

  /** What a successful request does: a minor at the start of the first fitting gap of one major. */
  ghost predicate Allocation(before: seq<Major>, after: seq<Major>, req: nat, p: nat, i: nat, k: nat) {
    && i < |before| && FirstGap(before[i], k, MINOR_HDR + req + ALIGNMENT + ALIGN_INFO)
    && var n := Minor(GapStart(before[i].minors, k, before[i].Lo()), req + ALIGNMENT + ALIGN_INFO, req);
       && after == before[i := Inserted(before[i], k, n)]
       && p == Aligned(n.Body()) && p % ALIGNMENT == 0 && n.Body() <= p - ALIGN_INFO && p + req <= n.End()
  }

  /** The minor at a header address, if there is one. */
  predicate At(ms: seq<Major>, i: nat, k: nat, header: int) {
    i < |ms| && k < |ms[i].minors| && ms[i].minors[k].addr == header
  }

  /** Where the header in front of a pointer should be; `stray` is the byte in front of an unmarked one. */
  function HeaderOf(ptr: nat, info: map<nat, nat>, stray: nat): int {
    Unaligned(ptr, if ptr >= ALIGN_INFO && ptr - ALIGN_INFO in info then info[ptr - ALIGN_INFO] else stray) - MINOR_HDR
  }

  lemma OneAt(ms: seq<Major>, header: int, i: nat, k: nat, i': nat, k': nat)
    requires Laid(ms) && At(ms, i, k, header) && At(ms, i', k', header)
    ensures i == i' && k == k'
  {
    hide Laid;
    if (i, k) != (i', k') {
      MinorsApart(ms, i, k, i', k');
    }
  }

  /** The list after the k-th minor of the i-th major is freed: an empty major goes back whole. */
  function Shrunk(ms: seq<Major>, i: nat, k: nat): seq<Major>
    requires i < |ms| && k < |ms[i].minors| && ms[i].minors[k].size + MINOR_HDR <= ms[i].usage
  {
    if |ms[i].minors| == 1 then ms[..i] + ms[i + 1..] else ms[i := Removed(ms[i], k)]
  }

  lemma RemoveLaid(ms: seq<Major>, i: nat, k: nat)
    requires Laid(ms) && i < |ms| && k < |ms[i].minors|
    ensures ms[i].minors[k].size + MINOR_HDR <= ms[i].usage && Laid(ms[i := Removed(ms[i], k)])
    ensures InUse(ms) == InUse(ms[i := Removed(ms[i], k)]) + ms[i].minors[k].size
    ensures Obtained(ms) == Obtained(ms[i := Removed(ms[i], k)])
  {
    hide Sound, InUse, Obtained;
    RemoveSound(ms[i], k);
    TotalsAt(ms, i, Removed(ms[i], k));
    InsertLaid(ms, i, Removed(ms[i], k));
  }

  /** Taking back the freed minor's information byte leaves the others'. */
  lemma RemoveMarked(ms: seq<Major>, info: map<nat, nat>, i: nat, k: nat)
    requires Laid(ms) && Marked(ms, info) && i < |ms| && k < |ms[i].minors|
    requires ms[i].minors[k].size + MINOR_HDR <= ms[i].usage
    ensures Marked(ms[i := Removed(ms[i], k)], info - {Aligned(ms[i].minors[k].Body()) - ALIGN_INFO})
  {
    hide Aligned, Laid;
    var p := Aligned(ms[i].minors[k].Body());
    var out, info' := ms[i := Removed(ms[i], k)], info - {p - ALIGN_INFO};
    forall a, b | 0 <= a < |out| && 0 <= b < |out[a].minors| ensures MarkedAt(out[a].minors[b], info') {
      var b' := if a == i && k <= b then b + 1 else b;
      var o := ms[a].minors[b'];
      assert out[a].minors[b] == o && MarkedAt(o, info);
      PointersApart(ms, a, b', i, k);
    }
  }

  /** A major that no minor is left in can go. */
  lemma DropKeeps(ms: seq<Major>, info: map<nat, nat>, bestBet: Option<nat>, i: nat)
    requires Laid(ms) && Marked(ms, info) && Known(ms, bestBet) && i < |ms| && ms[i].minors == [] && bestBet != Some(ms[i].addr)
    ensures var out := ms[..i] + ms[i + 1..];
            && Laid(out) && Marked(out, info) && Known(out, bestBet)
            && InUse(out) == InUse(ms) && Obtained(out) + ms[i].size == Obtained(ms)
  {
    hide Sound, MarkedAt, Apart, InUse, Obtained;
    TotalsAt(ms, i, ms[i]);
    var out := ms[..i] + ms[i + 1..];
    forall a, b | 0 <= a < b < |out| ensures Apart(out[a], out[b]) {
      assert Apart(ms[if a < i then a else a + 1], ms[if b < i then b else b + 1]);
    }
    forall a, b | 0 <= a < |out| && 0 <= b < |out[a].minors| ensures MarkedAt(out[a].minors[b], info) {
      assert MarkedAt(ms[if a < i then a else a + 1].minors[b], info);
    }
    if bestBet.Some? {
      var j :| 0 <= j < |ms| && ms[j].addr == bestBet.value;
      assert out[if i < j then j - 1 else j].addr == bestBet.value;
    }
  }

  /** Freeing what was just allocated gives the searched list back, and a major added for it goes. */
  lemma FreeUndoesMalloc(before: seq<Major>, after: seq<Major>, req: nat, grant: Option<nat>, p: nat, i: nat, k: nat)
    requires forall j | 0 <= j < |before| :: before[j].minors != []
    requires Allocation(Searched(before, req, grant), after, req, p, i, k)
    ensures k < |after[i].minors| && after[i].minors[k].size + MINOR_HDR <= after[i].usage
    ensures Shrunk(after, i, k) == before
  {
    var base := Searched(before, req, grant);
    var m, m' := base[i], after[i];
    assert m'.minors[..k] + m'.minors[k + 1..] == m.minors;
    if i == |before| {
      assert m.minors == [];
    } else if i < |before| {
      assert |base| > |before| ==> Full(before, Need(req));
    }
  }

  // ---------------------------------------------------------------------------------
  // The headers in memory
  // ---------------------------------------------------------------------------------

  datatype MajorData = MajorData(pages: int, size: int, usage: int, first: Option<int>)

  datatype MinorData = MinorData(block: int, size: int, req: int)

  /** The headers by address. `mins` holds those with the magic word; the pointers of a freed minor stay. */
  datatype Headers = Headers(majLinks: Memory, majs: map<int, MajorData>, minLinks: Memory, mins: map<int, MinorData>)

  function MajorAddrs(ms: seq<Major>): seq<int> { seq(|ms|, i requires 0 <= i < |ms| => ms[i].addr) }

  function MinorAddrs(ns: seq<Minor>): seq<int> { seq(|ns|, k requires 0 <= k < |ns| => ns[k].addr) }

  predicate MinorHeld(h: Headers, block: int, n: Minor) {
    n.addr in h.mins && h.mins[n.addr] == MinorData(block, n.size, n.req)
  }

  /** The header of a major and the list of its minors. */
  ghost predicate MajorHeld(h: Headers, m: Major) {
    && m.addr in h.majs && h.majs[m.addr] == MajorData(m.pages, m.size, m.usage, ItemAt(MinorAddrs(m.minors), 0))
    && Chained(h.minLinks, MinorAddrs(m.minors))
    && forall k | 0 <= k < |m.minors| :: MinorHeld(h, m.addr, m.minors[k])
  }

  /** The memory holds exactly these majors and minors, each linked to its neighbours both ways. */
  ghost predicate Linked(h: Headers, ms: seq<Major>) {
    && Chained(h.majLinks, MajorAddrs(ms))
    && (forall i | 0 <= i < |ms| :: MajorHeld(h, ms[i]))
    && forall a | a in h.mins :: Live(ms, a)
  }

  ghost predicate Live(ms: seq<Major>, a: int) { exists i: nat, k: nat :: At(ms, i, k, a) }

  /** The root and the headers leave no choice: they spell out one list of majors with their minors. */
  lemma HeadersDetermine(h: Headers, ms: seq<Major>, ms': seq<Major>)
    requires Linked(h, ms) && Linked(h, ms') && ItemAt(MajorAddrs(ms), 0) == ItemAt(MajorAddrs(ms'), 0)
    ensures ms == ms'
  {
    hide Chained, MajorHeld, Live;
    SameList(h.majLinks, MajorAddrs(ms), MajorAddrs(ms'));
    assert |MajorAddrs(ms)| == |ms| && |MajorAddrs(ms')| == |ms'|;
    forall i | 0 <= i < |ms| ensures ms[i] == ms'[i] {
      assert MajorAddrs(ms)[i] == ms[i].addr && MajorAddrs(ms')[i] == ms'[i].addr;
      HeaderDetermines(h, ms[i], ms'[i]);
    }
  }

  lemma HeaderDetermines(h: Headers, m: Major, m': Major)
    requires MajorHeld(h, m) && MajorHeld(h, m') && m.addr == m'.addr
    ensures m == m'
  {
    SameList(h.minLinks, MinorAddrs(m.minors), MinorAddrs(m'.minors));
    hide Chained;
    assert |MinorAddrs(m.minors)| == |m.minors| && |MinorAddrs(m'.minors)| == |m'.minors|;
    forall k | 0 <= k < |m.minors| ensures m.minors[k] == m'.minors[k] {
      assert MinorAddrs(m.minors)[k] == m.minors[k].addr && MinorAddrs(m'.minors)[k] == m'.minors[k].addr;
      assert MinorHeld(h, m.addr, m.minors[k]) && MinorHeld(h, m.addr, m'.minors[k]);
    }
  }

  lemma MajorAddrsDiffer(ms: seq<Major>)
    requires Laid(ms)
    ensures Distinct(MajorAddrs(ms))
  {
    forall i, j | 0 <= i < j < |ms| ensures ms[i].addr != ms[j].addr {
      assert Apart(ms[i], ms[j]);
    }
  }

  lemma MinorAddrsDiffer(ms: seq<Major>, i: nat)
    requires Laid(ms) && i < |ms|
    ensures Distinct(MinorAddrs(ms[i].minors))
  {
    forall k, l | 0 <= k < l < |ms[i].minors| ensures ms[i].minors[k].addr != ms[i].minors[l].addr {
      MinorsApart(ms, i, k, i, l);
    }
  }

  /** What a pointer to a major leads to. */
  lemma MajorRead(h: Headers, ms: seq<Major>, i: nat)
    requires Linked(h, ms) && i < |ms|
    ensures ms[i].addr in h.majs && ms[i].addr in h.majLinks
    ensures h.majs[ms[i].addr] == MajorData(ms[i].pages, ms[i].size, ms[i].usage, ItemAt(MinorAddrs(ms[i].minors), 0))
    ensures h.majLinks[ms[i].addr] == Link(ItemBefore(MajorAddrs(ms), i), ItemAt(MajorAddrs(ms), i + 1))
  {
    assert MajorHeld(h, ms[i]);
    assert MajorAddrs(ms)[i] in h.majLinks;
  }

  /** What a pointer to a minor leads to. */
  lemma MinorRead(h: Headers, ms: seq<Major>, i: nat, k: nat)
    requires Linked(h, ms) && i < |ms| && k < |ms[i].minors|
    ensures var n, s := ms[i].minors[k], MinorAddrs(ms[i].minors);
            && n.addr in h.mins && h.mins[n.addr] == MinorData(ms[i].addr, n.size, n.req)
            && n.addr in h.minLinks && h.minLinks[n.addr] == Link(ItemBefore(s, k), ItemAt(s, k + 1))
  {
    assert MajorHeld(h, ms[i]);
    assert MinorHeld(h, ms[i].addr, ms[i].minors[k]);
    assert MinorAddrs(ms[i].minors)[k] in h.minLinks;
  }

  /** A major none of whose headers changed. */
  lemma StillHeld(h: Headers, h': Headers, m: Major, t: seq<int>)
    requires MajorHeld(h, m) && m.addr in h'.majs && h'.majs[m.addr] == h.majs[m.addr]
    requires SameBut(h.minLinks, h'.minLinks, t) && forall k | 0 <= k < |m.minors| :: m.minors[k].addr !in t
    requires forall k | 0 <= k < |m.minors| :: m.minors[k].addr in h'.mins && h'.mins[m.minors[k].addr] == h.mins[m.minors[k].addr]
    ensures MajorHeld(h', m)
  {
    FrameChained(h.minLinks, h'.minLinks, MinorAddrs(m.minors), t);
    forall k | 0 <= k < |m.minors| ensures MinorHeld(h', m.addr, m.minors[k]) {
      assert MinorHeld(h, m.addr, m.minors[k]);
    }
  }

  lemma LiveAt(ms: seq<Major>, i: nat, k: nat)
    requires i < |ms| && k < |ms[i].minors|
    ensures Live(ms, ms[i].minors[k].addr)
  {
    assert At(ms, i, k, ms[i].minors[k].addr);
  }

  /** The headers after a new minor is written between two neighbours of a major. */
  function WithMinor(h: Headers, block: int, prev: Option<int>, next: Option<int>, n: Minor): Headers
    requires block in h.majs
  {
    var d := h.majs[block];
    var d' := d.(usage := d.usage + n.size + MINOR_HDR, first := if prev.None? then Some(n.addr) else d.first);
    Headers(h.majLinks, h.majs[block := d'],
            Joined(h.minLinks, prev, n.addr, next), h.mins[n.addr := MinorData(block, n.size, n.req)])
  }

  /** Nothing changed but the header of one major and those of the minors `t`. */
  ghost predicate OnlyAt(h: Headers, h': Headers, block: int, t: seq<int>) {
    && SameBut(h.minLinks, h'.minLinks, t)
    && (forall a | a in h.majs && a != block :: a in h'.majs && h'.majs[a] == h.majs[a])
    && forall a | a in h.mins && a !in t :: a in h'.mins && h'.mins[a] == h.mins[a]
  }

  lemma HeldElsewhere(h: Headers, h': Headers, ms: seq<Major>, i: nat, j: nat, t: seq<int>)
    requires Laid(ms) && i < |ms| && j < |ms| && j != i && MajorHeld(h, ms[j]) && OnlyAt(h, h', ms[i].addr, t)
    requires forall b | 0 <= b < |ms[j].minors| :: ms[j].minors[b].addr !in t
    ensures MajorHeld(h', ms[j])
  {
    hide Chained, SameBut;
    assert if i < j then Apart(ms[i], ms[j]) else Apart(ms[j], ms[i]);
    forall b | 0 <= b < |ms[j].minors| ensures ms[j].minors[b].addr in h.mins {
      assert MinorHeld(h, ms[j].addr, ms[j].minors[b]);
    }
    StillHeld(h, h', ms[j], t);
  }

  lemma OtherAddrs(ms: seq<Major>, i: nat, j: nat, b: nat)
    requires Laid(ms) && i < |ms| && j < |ms| && i != j && b < |ms[j].minors|
    ensures ms[j].minors[b].addr !in MinorAddrs(ms[i].minors)
  {
    forall k | 0 <= k < |ms[i].minors| ensures ms[i].minors[k].addr != ms[j].minors[b].addr {
      MinorsApart(ms, i, k, j, b);
    }
  }

  /** The address of a new minor is that of no other. */
  lemma NewAddr(ms: seq<Major>, i: nat, k: nat, n: Minor, a: nat, b: nat)
    requires i < |ms| && k <= |ms[i].minors| && Laid(ms[i := Inserted(ms[i], k, n)])
    requires a < |ms| && b < |ms[a].minors|
    ensures ms[a].minors[b].addr != n.addr
  {
    hide Laid;
    var ms', b' := ms[i := Inserted(ms[i], k, n)], if a == i && k <= b then b + 1 else b;
    assert ms'[i].minors[k] == n && ms'[a].minors[b'] == ms[a].minors[b];
    MinorsApart(ms', a, b', i, k);
  }

  lemma InsertLive(ms: seq<Major>, i: nat, k: nat, n: Minor, a: int)
    requires i < |ms| && k <= |ms[i].minors| && (a == n.addr || Live(ms, a))
    ensures Live(ms[i := Inserted(ms[i], k, n)], a)
  {
    var ms' := ms[i := Inserted(ms[i], k, n)];
    if a == n.addr {
      LiveAt(ms', i, k);
    } else {
      var x: nat, y: nat :| At(ms, x, y, a);
      LiveAt(ms', x, if x == i && k <= y then y + 1 else y);
    }
  }

  /** Writing a minor into its gap makes the lists those of the heap with the minor inserted. */
  lemma InsertLinked(h: Headers, ms: seq<Major>, i: nat, k: nat, n: Minor)
    requires Linked(h, ms) && Laid(ms) && i < |ms| && k <= |ms[i].minors| && Laid(ms[i := Inserted(ms[i], k, n)])
    ensures ms[i].addr in h.majs
    ensures var s := MinorAddrs(ms[i].minors);
            Linked(WithMinor(h, ms[i].addr, ItemBefore(s, k), ItemAt(s, k), n), ms[i := Inserted(ms[i], k, n)])
  {
    hide Laid, Chained, Joined, SameBut, Live, MajorHeld;
    MajorRead(h, ms, i);
    var m, s := ms[i], MinorAddrs(ms[i].minors);
    var ms', h' := ms[i := Inserted(m, k, n)], WithMinor(h, m.addr, ItemBefore(s, k), ItemAt(s, k), n);
    var t := s + [n.addr];
    forall a: nat, b: nat | a < |ms| && b < |ms[a].minors| ensures ms[a].minors[b].addr != n.addr {
      NewAddr(ms, i, k, n, a, b);
    }
    MinorAddrsDiffer(ms, i);
    JoinChained(h.minLinks, s, k, n.addr) by { assert MajorHeld(h, m); HeldChain(h, m); }
    assert OnlyAt(h, h', m.addr, t);
    hide OnlyAt, WithMinor;
    forall j | 0 <= j < |ms'| ensures MajorHeld(h', ms'[j]) {
      assert MajorHeld(h, ms[j]);
      if j == i {
        InsertHeld(h, h', m, k, n);
      } else {
        forall b | 0 <= b < |ms[j].minors| ensures ms[j].minors[b].addr !in t {
          OtherAddrs(ms, i, j, b);
        }
        HeldElsewhere(h, h', ms, i, j, t);
      }
    }
    assert MajorAddrs(ms') == MajorAddrs(ms);
    forall a | a in h'.mins ensures Live(ms', a) {
      InsertLive(ms, i, k, n, a);
    }
  }

  lemma HeldChain(h: Headers, m: Major)
    requires MajorHeld(h, m)
    ensures Chained(h.minLinks, MinorAddrs(m.minors))
  {}

  lemma InsertHeld(h: Headers, h': Headers, m: Major, k: nat, n: Minor)
    requires MajorHeld(h, m) && k <= |m.minors| && forall b | 0 <= b < |m.minors| :: m.minors[b].addr != n.addr
    requires var s := MinorAddrs(m.minors);
             && h' == WithMinor(h, m.addr, ItemBefore(s, k), ItemAt(s, k), n)
             && Chained(h'.minLinks, s[..k] + [n.addr] + s[k..])
    ensures MajorHeld(h', Inserted(m, k, n))
  {
    hide Chained, Joined;
    var m', s := Inserted(m, k, n), MinorAddrs(m.minors);
    assert MinorAddrs(m'.minors) == s[..k] + [n.addr] + s[k..];
    forall b | 0 <= b < |m'.minors| ensures MinorHeld(h', m.addr, m'.minors[b]) {
      if b != k {
        assert MinorHeld(h, m.addr, m.minors[if b < k then b else b - 1]);
      }
    }
  }

  /** The headers after the minor at `a` is unlinked and its magic word overwritten. */
  function WithoutMinor(h: Headers, a: int): Headers
    requires a in h.minLinks && a in h.mins && h.mins[a].block in h.majs
  {
    var block := h.mins[a].block;
    var d := h.majs[block];
    var first := if h.minLinks[a].prev.None? then h.minLinks[a].next else d.first;
    Headers(h.majLinks, h.majs[block := d.(usage := d.usage - (h.mins[a].size + MINOR_HDR), first := first)],
            Parted(h.minLinks, a), h.mins - {a})
  }

  /** The header of a major one of whose minors is unlinked. */
  lemma RemoveData(h: Headers, m: Major, k: nat)
    requires MajorHeld(h, m) && k < |m.minors| && m.minors[k].size + MINOR_HDR <= m.usage
    requires var a, s := m.minors[k].addr, MinorAddrs(m.minors);
             && a in h.mins && h.mins[a] == MinorData(m.addr, m.minors[k].size, m.minors[k].req)
             && a in h.minLinks && h.minLinks[a] == Link(ItemBefore(s, k), ItemAt(s, k + 1))
    ensures var h', m' := WithoutMinor(h, m.minors[k].addr), Removed(m, k);
            && h'.majs == h.majs[m.addr := MajorData(m.pages, m.size, m'.usage, ItemAt(MinorAddrs(m'.minors), 0))]
            && h'.mins == h.mins - {m.minors[k].addr}
  {
    hide Parted, Chained;
    var m' := Removed(m, k);
    if k == 0 {
      assert m'.minors == m.minors[1..];
    }
  }

  lemma RemoveHeld(h: Headers, h': Headers, m: Major, k: nat)
    requires MajorHeld(h, m) && k < |m.minors| && m.minors[k].size + MINOR_HDR <= m.usage
    requires Distinct(MinorAddrs(m.minors)) && h'.mins == h.mins - {m.minors[k].addr} && m.addr in h'.majs
    requires var m' := Removed(m, k); h'.majs[m.addr] == MajorData(m.pages, m.size, m'.usage, ItemAt(MinorAddrs(m'.minors), 0))
    requires var s := MinorAddrs(m.minors); Chained(h'.minLinks, s[..k] + s[k + 1..])
    ensures MajorHeld(h', Removed(m, k))
  {
    hide Chained, Distinct;
    var m', s := Removed(m, k), MinorAddrs(m.minors);
    assert MinorAddrs(m'.minors) == s[..k] + s[k + 1..];
    forall b | 0 <= b < |m'.minors| ensures MinorHeld(h', m.addr, m'.minors[b]) {
      var c := if b < k then b else b + 1;
      assert MinorHeld(h, m.addr, m.minors[c]);
      AddrsDiffer(s, c, k);
    }
  }

  lemma AddrsDiffer(s: seq<int>, i: nat, j: nat)
    requires Distinct(s) && i < |s| && j < |s| && i != j
    ensures s[i] != s[j]
  {}

  lemma RemoveLive(ms: seq<Major>, i: nat, k: nat, a: int)
    requires i < |ms| && k < |ms[i].minors| && ms[i].minors[k].size + MINOR_HDR <= ms[i].usage
    requires Live(ms, a) && a != ms[i].minors[k].addr
    ensures Live(ms[i := Removed(ms[i], k)], a)
  {
    var x: nat, y: nat :| At(ms, x, y, a);
    LiveAt(ms[i := Removed(ms[i], k)], x, if x == i && k <= y then y - 1 else y);
  }

  /** Unlinking a minor makes the lists those of the heap without it. */
  lemma RemoveLinked(h: Headers, ms: seq<Major>, i: nat, k: nat)
    requires Linked(h, ms) && Laid(ms) && i < |ms| && k < |ms[i].minors|
    requires ms[i].minors[k].size + MINOR_HDR <= ms[i].usage
    ensures var a := ms[i].minors[k].addr; a in h.minLinks && a in h.mins && h.mins[a].block in h.majs
    ensures Linked(WithoutMinor(h, ms[i].minors[k].addr), ms[i := Removed(ms[i], k)])
  {
    hide Laid, Chained, Parted, SameBut, Live, MajorHeld;
    MajorRead(h, ms, i);
    MinorRead(h, ms, i, k);
    var m, s := ms[i], MinorAddrs(ms[i].minors);
    var ms', h' := ms[i := Removed(m, k)], WithoutMinor(h, m.minors[k].addr);
    MinorAddrsDiffer(ms, i);
    PartChained(h.minLinks, s, k) by { assert MajorHeld(h, m); HeldChain(h, m); }
    assert OnlyAt(h, h', m.addr, s);
    RemoveData(h, m, k) by { assert MajorHeld(h, m); }
    hide OnlyAt, WithoutMinor;
    forall j | 0 <= j < |ms'| ensures MajorHeld(h', ms'[j]) {
      assert MajorHeld(h, ms[j]);
      if j == i {
        RemoveHeld(h, h', m, k);
      } else {
        forall b | 0 <= b < |ms[j].minors| ensures ms[j].minors[b].addr !in s {
          OtherAddrs(ms, i, j, b);
        }
        HeldElsewhere(h, h', ms, i, j, s);
      }
    }
    assert MajorAddrs(ms') == MajorAddrs(ms);
    forall a | a in h'.mins ensures Live(ms', a) {
      RemoveLive(ms, i, k, a);
    }
  }

  /** The headers after a new major is linked behind the last one. */
  function WithMajor(h: Headers, last: Option<int>, m: Major): Headers {
    Headers(Joined(h.majLinks, last, m.addr, None), h.majs[m.addr := MajorData(m.pages, m.size, m.usage, None)],
            h.minLinks, h.mins)
  }

  lemma AppendLinked(h: Headers, ms: seq<Major>, m: Major)
    requires Linked(h, ms) && Laid(ms + [m]) && m.minors == []
    ensures Linked(WithMajor(h, ItemBefore(MajorAddrs(ms), |ms|), m), ms + [m])
  {
    hide Chained, Joined, SameBut;
    var ms', s := ms + [m], MajorAddrs(ms);
    var h' := WithMajor(h, ItemBefore(s, |ms|), m);
    MajorAddrsDiffer(ms');
    assert MajorAddrs(ms') == s + [m.addr] && s[..|s|] + [m.addr] + s[|s|..] == s + [m.addr];
    LastIsNew(s, m.addr);
    JoinChained(h.majLinks, s, |s|, m.addr);
    ChainedEmpty(h'.minLinks);
    forall j | 0 <= j < |ms'| ensures MajorHeld(h', ms'[j]) {
      if j < |ms| {
        AddrsDiffer(s + [m.addr], j, |ms|);
        assert MajorHeld(h, ms[j]);
        forall k | 0 <= k < |ms[j].minors| ensures MinorHeld(h', ms[j].addr, ms[j].minors[k]) {
          assert MinorHeld(h, ms[j].addr, ms[j].minors[k]);
        }
      } else {
        assert MinorAddrs(m.minors) == [];
      }
    }
    forall a | a in h'.mins ensures Live(ms', a) {
      var x: nat, y: nat :| At(ms, x, y, a);
      LiveAt(ms', x, y);
    }
  }

  lemma ChainedEmpty(m: Memory)
    ensures Chained(m, [])
  {}

  lemma LastIsNew(s: seq<int>, a: int)
    requires Distinct(s + [a])
    ensures Distinct(s) && a !in s
  {
    assert forall i | 0 <= i < |s| :: (s + [a])[i] == s[i] && (s + [a])[|s|] == a;
  }

  /** The headers after the major at `a` is unlinked and its pages are given back. */
  function WithoutMajor(h: Headers, a: int): Headers
    requires a in h.majLinks
  {
    Headers(Parted(h.majLinks, a) - {a}, h.majs - {a}, h.minLinks, h.mins)
  }

  lemma DropHeld(h: Headers, h': Headers, m: Major, gone: int)
    requires MajorHeld(h, m) && m.addr != gone
    requires h'.majs == h.majs - {gone} && h'.minLinks == h.minLinks && h'.mins == h.mins
    ensures MajorHeld(h', m)
  {
    hide Chained;
    forall k | 0 <= k < |m.minors| ensures MinorHeld(h', m.addr, m.minors[k]) {
      assert MinorHeld(h, m.addr, m.minors[k]);
    }
  }

  lemma DropLinked(h: Headers, ms: seq<Major>, i: nat)
    requires Linked(h, ms) && Laid(ms) && i < |ms| && ms[i].minors == []
    ensures ms[i].addr in h.majLinks && Linked(WithoutMajor(h, ms[i].addr), ms[..i] + ms[i + 1..])
  {
    hide Parted, Laid, Chained, MajorHeld, Distinct;
    MajorRead(h, ms, i);
    var ms', s := ms[..i] + ms[i + 1..], MajorAddrs(ms);
    var h' := WithoutMajor(h, s[i]);
    MajorAddrsDiffer(ms);
    PartGone(h.majLinks, s, i);
    assert MajorAddrs(ms') == s[..i] + s[i + 1..];
    forall j | 0 <= j < |ms'| ensures MajorHeld(h', ms'[j]) {
      var c := if j < i then j else j + 1;
      AddrsDiffer(s, c, i);
      assert MajorHeld(h, ms[c]);
      DropHeld(h, h', ms[c], s[i]);
    }
    forall a | a in h'.mins ensures Live(ms', a) {
      var x: nat, y: nat :| At(ms, x, y, a);
      LiveAt(ms', if x < i then x else x - 1, y);
    }
  }

  // ---------------------------------------------------------------------------------
  // Changing a minor's size
  // ---------------------------------------------------------------------------------

  function Narrowed(m: Major, k: nat, req: nat): Major
    requires k < |m.minors|
  {
    m.(minors := m.minors[k := m.minors[k].(req := req)])
  }

  lemma NarrowedOnly(ms: seq<Major>, i: nat, k: nat, req: nat)
    requires i < |ms| && k < |ms[i].minors|
    ensures var ms' := ms[i := Narrowed(ms[i], k, req)];
            && |ms'| == |ms| && (forall j | 0 <= j < |ms| && j != i :: ms'[j] == ms[j])
            && ms'[i] == ms[i].(minors := ms'[i].minors)
            && ms'[i].minors == ms[i].minors[k := ms[i].minors[k].(req := req)]
  {}

  lemma {:induction false} NarrowedOrdered(ms: seq<Minor>, k: nat, req: nat, lo: nat, hi: nat)
    requires Ordered(ms, lo, hi) && k < |ms| && req <= ms[k].req
    ensures var ms' := ms[k := ms[k].(req := req)];
            Ordered(ms', lo, hi) && Used(ms') == Used(ms) && Sizes(ms') == Sizes(ms)
  {
    if k > 0 {
      assert ms[k := ms[k].(req := req)][1..] == ms[1..][k - 1 := ms[k].(req := req)];
      NarrowedOrdered(ms[1..], k - 1, req, ms[0].End(), hi);
    } else {
      assert ms[0 := ms[0].(req := req)][1..] == ms[1..];
    }
  }

  /** Asking for fewer bytes of a minor in place changes nothing else. */
  lemma NarrowedSound(m: Major, k: nat, req: nat)
    requires Sound(m) && k < |m.minors| && req <= m.minors[k].req
    ensures Sound(Narrowed(m, k, req)) && Sizes(Narrowed(m, k, req).minors) == Sizes(m.minors)
  {
    NarrowedOrdered(m.minors, k, req, m.Lo(), m.Hi());
  }

  lemma NarrowedMarked(ms: seq<Major>, info: map<nat, nat>, i: nat, k: nat, req: nat)
    requires Marked(ms, info) && i < |ms| && k < |ms[i].minors|
    ensures Marked(ms[i := Narrowed(ms[i], k, req)], info)
  {
    var ms' := ms[i := Narrowed(ms[i], k, req)];
    forall a, b | 0 <= a < |ms'| && 0 <= b < |ms'[a].minors| ensures MarkedAt(ms'[a].minors[b], info) {
      assert MarkedAt(ms[a].minors[b], info);
    }
  }

  lemma NarrowHeld(h: Headers, h': Headers, m: Major, k: nat, req: nat)
    requires MajorHeld(h, m) && k < |m.minors| && Distinct(MinorAddrs(m.minors))
    requires var a := m.minors[k].addr;
             && a in h.mins && h'.mins == h.mins[a := h.mins[a].(req := req)]
             && h'.majs == h.majs && h'.minLinks == h.minLinks
    ensures MajorHeld(h', Narrowed(m, k, req))
  {
    hide Chained, Distinct;
    var m' := Narrowed(m, k, req);
    assert MinorAddrs(m'.minors) == MinorAddrs(m.minors);
    forall b | 0 <= b < |m'.minors| ensures MinorHeld(h', m.addr, m'.minors[b]) {
      assert MinorHeld(h, m.addr, m.minors[b]);
      if b != k {
        AddrsDiffer(MinorAddrs(m.minors), b, k);
      }
    }
  }

  lemma NarrowLinked(h: Headers, ms: seq<Major>, i: nat, k: nat, req: nat)
    requires Linked(h, ms) && Laid(ms) && i < |ms| && k < |ms[i].minors|
    ensures var a := ms[i].minors[k].addr;
            a in h.mins && Linked(h.(mins := h.mins[a := h.mins[a].(req := req)]), ms[i := Narrowed(ms[i], k, req)])
  {
    hide Laid, Chained, Live, MajorHeld;
    MinorRead(h, ms, i, k);
    var a, ms' := ms[i].minors[k].addr, ms[i := Narrowed(ms[i], k, req)];
    var h' := h.(mins := h.mins[a := h.mins[a].(req := req)]);
    MinorAddrsDiffer(ms, i);
    assert OnlyAt(h, h', ms[i].addr, [a]);
    hide OnlyAt;
    forall j | 0 <= j < |ms'| ensures MajorHeld(h', ms'[j]) {
      assert MajorHeld(h, ms[j]);
      if j == i {
        NarrowHeld(h, h', ms[i], k, req);
      } else {
        forall b | 0 <= b < |ms[j].minors| ensures ms[j].minors[b].addr !in [a] {
          OtherAddrs(ms, i, j, b);
          assert MinorAddrs(ms[i].minors)[k] == a;
        }
        HeldElsewhere(h, h', ms, i, j, [a]);
      }
    }
    assert MajorAddrs(ms') == MajorAddrs(ms);
    forall x | x in h'.mins ensures Live(ms', x) {
      NarrowLive(ms, i, k, req, x);
    }
  }

  lemma NarrowLive(ms: seq<Major>, i: nat, k: nat, req: nat, a: int)
    requires i < |ms| && k < |ms[i].minors| && Live(ms, a)
    ensures Live(ms[i := Narrowed(ms[i], k, req)], a)
  {
    var x: nat, y: nat :| At(ms, x, y, a);
    LiveAt(ms[i := Narrowed(ms[i], k, req)], x, y);
  }

  /** An allocation leaves every other minor in place. */
  lemma StillLive(before: seq<Major>, after: seq<Major>, req: nat, grant: Option<nat>, p: nat, i: nat, k: nat, a: nat, b: nat)
    returns (b': nat)
    requires Allocation(Searched(before, req, grant), after, req, p, i, k) && a < |before| && b < |before[a].minors|
    ensures a < |after| && b' < |after[a].minors| && after[a].minors[b'] == before[a].minors[b]
  {
    b' := if a == i && k <= b then b + 1 else b;
    assert Searched(before, req, grant)[a] == before[a];
  }

  /** An `unsigned int` difference stored in an `int`. */
  function ToInt(u: nat): int
    requires u < UINT_LIMIT
  {
    if u < UINT_LIMIT / 2 then u else u - UINT_LIMIT
  }

  /** How two byte counts compare once stored in an `int`: those of 2 GiB and more are negative there. */
  predicate Exceeds(u: int, w: int) {
    if (u < 0x8000_0000) == (w < 0x8000_0000) then u > w else u < 0x8000_0000
  }

  /** What a free that leaves the i-th major with minors makes of the best bet: that major, if it now has
      more unused bytes. */
  ghost predicate BetBeaten(ms: seq<Major>, i: nat, bet: Option<nat>, bet': Option<nat>)
    requires i < |ms|
  {
    if bet.None? then bet'.None?
    else exists b :: 0 <= b < |ms| && bet == Some(ms[b].addr)
                     && bet' == if Exceeds(Spare(ms[i]), Spare(ms[b])) then Some(ms[i].addr) else bet
  }

  /** What `realloc` of a live minor does; `WildCopy` is its copy to the null pointer a failed request left. */
  datatype Resized = Kept | Moved(p: nat) | WildCopy

  class Heap {
    var memRoot: Option<int>
    var bestBet: Option<nat>
    var hdrs: Headers              // the headers in memory
    var inuse: nat
    var systemBytes: nat
    var info: map<nat, nat>        // the alignment byte in front of each pointer
    var warnings: nat
    var errors: nat
    ghost var majors: seq<Major>   // what the linked headers spell out

    /** What holds at every moment, also while a new major is still empty. */
    ghost predicate Consistent()
      reads this
    {
      && Laid(majors) && Marked(majors, info) && Known(majors, bestBet)
      && inuse == InUse(majors) && systemBytes == Obtained(majors)
      && Linked(hdrs, majors) && memRoot == ItemAt(MajorAddrs(majors), 0)
    }

    ghost predicate Valid()
      reads this
    {
      Consistent() && forall i | 0 <= i < |majors| :: majors[i].minors != []
    }

    constructor ()
      ensures Valid() && majors == []
    {
      memRoot, bestBet, inuse, systemBytes, info, warnings, errors := None, None, 0, 0, map[], 0, 0;
      hdrs, majors := Headers(map[], map[], map[], map[]), [];
    }

    lemma AtMajor(maj: int, i: nat)
      requires Consistent() && i < |majors| && majors[i].addr == maj
      ensures maj in hdrs.majs && maj in hdrs.majLinks
      ensures hdrs.majs[maj] == MajorData(majors[i].pages, majors[i].size, majors[i].usage, ItemAt(MinorAddrs(majors[i].minors), 0))
      ensures hdrs.majs[maj].first.None? <==> majors[i].minors == []
      ensures hdrs.majLinks[maj].next == if i + 1 == |majors| then None else Some(majors[i + 1].addr)
      ensures majors[i].usage <= majors[i].size < UINT_LIMIT
    {
      hide Laid, Sound, Linked, Marked, Known, InUse, Obtained;
      SoundAt(majors, i);
      MajorRead(hdrs, majors, i);
    }

    lemma OfValid()
      requires Valid()
      ensures Consistent() && forall i | 0 <= i < |majors| :: majors[i].minors != []
    {}

    lemma AtRoot()
      requires Consistent()
      ensures memRoot == if majors == [] then None else Some(majors[0].addr)
      ensures majors == [] ==> bestBet.None?
    {}

    /** Cases 3 and 4 of the search, along the pointers: the first gap of a major that fits. The new minor
        goes behind `spot`, or to the front. */
    method FindGap(maj: int, need: nat, ghost i: nat) returns (found: bool, spot: Option<int>, ghost k: nat)
      requires Consistent() && i < |majors| && majors[i].addr == maj && majors[i].minors != []
      ensures found ==> Fits(majors[i], k, need) && FirstGap(majors[i], k, need)
      ensures found ==> spot == ItemBefore(MinorAddrs(majors[i].minors), k)
      ensures !found ==> NoRoom(majors[i], need)
    {
      hide Laid, Sound, Marked, Known, InUse, Obtained, Linked;
      AtMajor(maj, i);
      ghost var m, s := majors[i], MinorAddrs(majors[i].minors);
      var min := hdrs.majs[maj].first;
      if maj + MAJOR_HDR + need <= min.value {
        return true, None, 0;
      }
      k := 0;
      while min.Some?
        invariant k <= |m.minors| && min == ItemAt(s, k)
        invariant forall n | 0 <= n <= k :: !Fits(m, n, need)
        decreases |m.minors| - k
      {
        MinorRead(hdrs, majors, i, k);
        var here, next := min.value, hdrs.minLinks[min.value].next;
        var end := here + MINOR_HDR + hdrs.mins[here].size;
        if end + need <= (if next.None? then maj + hdrs.majs[maj].size else next.value) {
          return true, min, k + 1;
        }
        min, k := next, k + 1;
      }
      return false, None, 0;
    }

    /** The pointer writes of cases 2, 3, 4.1 and 4.2: a minor at `at` behind `spot`, or in front. */
    method LinkMinor(maj: int, spot: Option<int>, at: nat, size: nat, req: nat)
      requires maj in hdrs.majs && spot != Some(at) && (spot.Some? ==> spot.value in hdrs.minLinks)
      requires (if spot.Some? then hdrs.minLinks[spot.value].next else hdrs.majs[maj].first) != Some(at)
      modifies `hdrs
      ensures hdrs == WithMinor(old(hdrs), maj, spot,
                                if spot.Some? then old(hdrs).minLinks[spot.value].next else old(hdrs).majs[maj].first,
                                Minor(at, size, req))
    {
      var links, d := hdrs.minLinks, hdrs.majs[maj];
      match spot {
        case None =>
          if d.first.Some? {
            links := SetPrev(links, d.first.value, Some(at));
            links := SetNext(links, at, d.first);
            links := SetPrev(links, at, None);
          } else {
            links := SetPrev(links, at, None);
            links := SetNext(links, at, None);
          }
          d := d.(first := Some(at));
        case Some(min) =>
          var next := links[min].next;
          if next.None? {
            links := SetNext(links, min, Some(at));
            links := SetPrev(links, at, spot);
            links := SetNext(links, at, None);
          } else {
            links := SetNext(links, at, next);
            links := SetPrev(links, at, spot);
            links := SetPrev(links, next.value, Some(at));
            links := SetNext(links, min, Some(at));
          }
      }
      d := d.(usage := d.usage + size + MINOR_HDR);
      hdrs := Headers(hdrs.majLinks, hdrs.majs[maj := d], links, hdrs.mins[at := MinorData(maj, size, req)]);
    }

    /** Writes the header and the information byte of a new minor at the start of gap `k`, the first that fits. */
    method Place(maj: int, spot: Option<int>, req: nat, ghost i: nat, ghost k: nat) returns (p: nat)
      requires Consistent() && i < |majors| && FirstGap(majors[i], k, Need(req))
      requires majors[i].addr == maj && spot == ItemBefore(MinorAddrs(majors[i].minors), k)
      modifies this
      ensures Consistent()
      ensures Allocation(old(majors), majors, req, p, i, k)
      ensures |majors| == |old(majors)| && majors[i].minors != [] && forall j | 0 <= j < |majors| && j != i :: majors[j] == old(majors)[j]
      ensures errors == old(errors) && systemBytes == old(systemBytes) && inuse == old(inuse) + Padded(req)
      ensures bestBet == old(bestBet)
    {
      hide Laid, Sound, Marked, Aligned, Known, InUse, Obtained, Linked, WithMinor, Fits, FirstGap;
      AtMajor(maj, i);
      GapFits(majors[i], k, Need(req));
      ghost var m := majors[i];
      ghost var n := Minor(GapStart(m.minors, k, m.Lo()), Padded(req), req);
      SoundAt(majors, i);
      InsertSound(m, k, n);
      InsertMarked(majors, info, i, k, n);
      TotalsAt(majors, i, Inserted(m, k, n));
      InsertLaid(majors, i, Inserted(m, k, n));
      StillKnown(majors, majors[i := Inserted(m, k, n)], bestBet);
      InsertLinked(hdrs, majors, i, k, n);
      if k > 0 {
        MinorRead(hdrs, majors, i, k - 1);
        NewAddr(majors, i, k, n, i, k - 1);
      }
      if k < |m.minors| {
        NewAddr(majors, i, k, n, i, k);
      }
      var at := if spot.None? then maj + MAJOR_HDR else spot.value + MINOR_HDR + hdrs.mins[spot.value].size;
      LinkMinor(maj, spot, at, Padded(req), req);
      var body := at + MINOR_HDR;
      AlignRoundTrip(body);
      p := Aligned(body);
      info := info[p - ALIGN_INFO := p - body];
      inuse := inuse + Padded(req);
      assert MajorAddrs(majors[i := Inserted(m, k, n)]) == MajorAddrs(majors);
      majors := majors[i := Inserted(m, k, n)];
    }

    /** `allocate_new_page`, and the link behind the last major, or from the root. */
    method Append(last: Option<int>, addr: nat, size: nat)
      requires Consistent() && size + MAJOR_HDR + MINOR_HDR + PAGE_SIZE <= UINT_LIMIT && Granted(majors, Some(addr), size)
      requires last == if majors == [] then None else Some(majors[|majors| - 1].addr)
      modifies `majors, `systemBytes, `hdrs, `memRoot
      ensures Consistent() && majors == old(majors) + [NewMajor(addr, size)] && majors[|old(majors)|].addr == addr
    {
      hide Sound, Marked, Aligned, Known, Linked, Laid, Distinct;
      ghost var m := NewMajor(addr, size);
      NewMajorFits(addr, size);
      TotalsConcat(majors, [m]);
      assert [m][1..] == [];
      AppendKeeps(majors, info, bestBet, m);
      AppendLinked(hdrs, majors, m);
      if last.Some? {
        AtMajor(last.value, |majors| - 1);
        MajorAddrsDiffer(majors + [m]);
        AddrsDiffer(MajorAddrs(majors + [m]), |majors| - 1, |majors|);
      }
      var pages := NewPages(size);
      var links := hdrs.majLinks[addr := Link(None, None)];
      if last.Some? {
        links := SetNext(links, last.value, Some(addr));
        links := SetPrev(links, addr, last);
      } else {
        memRoot := Some(addr);
      }
      hdrs := Headers(links, hdrs.majs[addr := MajorData(pages, pages * PAGE_SIZE, MAJOR_HDR, None)], hdrs.minLinks, hdrs.mins);
      systemBytes := systemBytes + pages * PAGE_SIZE;
      assert hdrs == WithMajor(old(hdrs), last, m);
      majors := majors + [m];
    }

    /** Where the search starts: at the best bet if it has enough unused bytes, else at the root. */
    method Start(need: nat) returns (maj: int, started: bool, bestSize: nat, ghost i: nat)
      requires Consistent() && majors != []
      ensures i < |majors| && majors[i].addr == maj && (!started ==> i == 0)
      ensures Begins(majors, bestBet, need, if started then Some(i) else None) && BetSize(majors, bestBet, bestSize)
    {
      hide Laid, Sound, Marked, InUse, Obtained, Linked;
      maj, started, bestSize, i := memRoot.value, false, 0, 0;
      if bestBet.Some? {
        ghost var b :| 0 <= b < |majors| && majors[b].addr == bestBet.value;
        AtMajor(bestBet.value, b);
        BetIsOne(b);
        bestSize := hdrs.majs[bestBet.value].size - hdrs.majs[bestBet.value].usage;
        if bestSize > need {
          maj, started, i := bestBet.value, true, b;
        }
      }
    }

    lemma BetIsOne(b: nat)
      requires Consistent() && b < |majors|
      ensures forall j | 0 <= j < |majors| && majors[j].addr == majors[b].addr :: j == b
    {
      MajorAddrsDiffer(majors);
      ghost var s := MajorAddrs(majors);
      forall j | 0 <= j < |majors| && j != b ensures majors[j].addr != majors[b].addr {
        AddrsDiffer(s, j, b);
        assert s[j] == majors[j].addr && s[b] == majors[b].addr;
      }
    }

    /** The unused bytes of a major; when they are too few, no gap fits. */
    method Unused(maj: int, ghost i: nat) returns (diff: nat)
      requires Consistent() && i < |majors| && majors[i].addr == maj
      ensures diff + majors[i].usage == majors[i].size && diff == Spare(majors[i])
      ensures forall need: nat | diff < need :: NoRoom(majors[i], need)
    {
      hide Linked, Marked, Sound, NoRoom;
      AtMajor(maj, i);
      diff := hdrs.majs[maj].size - hdrs.majs[maj].usage;
      forall need: nat | diff < need ensures NoRoom(majors[i], need) {
        SoundAt(majors, i);
        TooFew(majors[i], need);
      }
    }

    /** A major with more unused bytes than the best bet becomes the best bet. */
    method Remember(maj: int, diff: nat, bestSize: nat, ghost i: nat) returns (best: nat)
      requires Consistent() && i < |majors| && majors[i].addr == maj
      modifies `bestBet
      ensures Consistent() && best == if bestSize < diff then diff else bestSize
      ensures bestBet == if bestSize < diff then Some(majors[i].addr) else old(bestBet)
    {
      hide Linked, Marked, Laid;
      best := bestSize;
      if bestSize < diff {
        KnownAt(majors, i);
        bestBet, best := Some(maj), diff;
      }
    }

    /** The pointers the search follows from a major. */
    method Look(maj: int, ghost i: nat) returns (next: Option<int>, empty: bool)
      requires Consistent() && i < |majors| && majors[i].addr == maj
      ensures next == if i + 1 == |majors| then None else Some(majors[i + 1].addr)
      ensures empty <==> majors[i].minors == []
    {
      AtMajor(maj, i);
      next, empty := hdrs.majLinks[maj].next, hdrs.majs[maj].first.None?;
    }

    /** What every round of the search does first: the unused bytes of the major, the best bet, the pointers. */
    method Consider(maj: int, bestSize: nat, ghost i: nat, ghost seen: seq<int>, ghost bet: Option<nat>, ghost size0: int)
      returns (diff: nat, best: nat, next: Option<int>, empty: bool)
      requires Consistent() && i < |majors| && majors[i].addr == maj
      requires BetMoved(majors, seen, bet, size0, bestBet, bestSize) && size0 <= bestSize
      modifies `bestBet
      ensures Consistent() && size0 <= best && BetMoved(majors, seen + [i], bet, size0, bestBet, best)
      ensures diff + majors[i].usage == majors[i].size && diff == Spare(majors[i])
      ensures forall need: nat | diff < need :: NoRoom(majors[i], need)
      ensures next == if i + 1 == |majors| then None else Some(majors[i + 1].addr)
      ensures empty <==> majors[i].minors == []
    {
      hide Consistent, BetMoved, NoRoom;
      diff := Unused(maj, i);
      BetLook(majors, seen, bet, size0, bestBet, bestSize, i);
      best := Remember(maj, diff, bestSize, i);
      next, empty := Look(maj, i);
    }

    /** The search of `malloc`: from the start to the tail, from the root again if it began at the best
        bet, and then a new major.  */
    method Search(req: nat, grant: Option<nat>)
      returns (found: bool, maj: int, spot: Option<int>, ghost i: nat, ghost gap: nat, ghost t: Trail)
      requires Valid() && Need(req) + MAJOR_HDR + PAGE_SIZE <= UINT_LIMIT && Granted(majors, grant, Padded(req))
      modifies `majors, `bestBet, `systemBytes, `hdrs, `memRoot
      ensures Consistent()
      ensures !found ==> Full(majors, Need(req)) && grant.None? && majors == old(majors)
      ensures found ==> majors == Searched(old(majors), req, grant) && i < |majors| && majors[i].addr == maj
      ensures found ==> FirstGap(majors[i], gap, Need(req))
      ensures found ==> spot == ItemBefore(MinorAddrs(majors[i].minors), gap)
      ensures found && i < |old(majors)| ==> majors == old(majors)
      ensures Begins(old(majors), old(bestBet), Need(req), t.origin) && (found ==> Chosen(old(majors), t.origin, Need(req), i))
      ensures t.seen == if found then Route(old(majors), t.origin, Need(req), i) else Path(t.origin, |majors|, false, |majors|)
      ensures BetSize(old(majors), old(bestBet), t.size) && BetMoved(majors, t.seen, old(bestBet), t.size, bestBet, t.best)
    {
      hide *;
      ghost var ms, bet, appended := majors, bestBet, false;
      var size, need := Padded(req), Need(req);
      found, maj, spot, i, gap := false, 0, None, 0, 0;
      ghost var origin: Option<nat>, seen: seq<int>, size0: int := None, [], 0;
      t := Trail(None, [], 0, 0);
      OfValid();
      AtRoot();
      NeedIs(req);
      if memRoot.None? {
        FullEmpty(need);
        NoneToLook(bet, need);
        if grant.None? {
          return;
        }
        Append(None, grant.value, size);
        appended := true;
      }
      var started: bool, bestSize: nat;
      maj, started, bestSize, i := Start(need);
      if appended {
        SearchGrown(ms, origin, req, grant);
        NoBet(majors, need, started, bestSize);
      } else {
        origin := if started then Some(i) else None;
        SearchFrom(ms, origin, req, grant);
      }
      size0 := bestSize;
      Looking(majors, origin, |ms|, started, i, bestBet, size0);
      while true
        invariant Consistent() && i < |majors| && majors[i].addr == maj
        invariant Searching(ms, majors, origin, i, started, appended, req, grant)
        invariant !appended ==> majors == ms
        invariant seen == Path(origin, |ms|, started, i) && (started ==> origin.Some? && origin.value <= i)
        invariant BetMoved(majors, seen, bet, size0, bestBet, bestSize) && size0 <= bestSize
        invariant appended ==> ms == [] || need <= Spare(ms[|ms| - 1])
        decreases started, !appended, |majors| - i
      {
        if appended {
          SearchNew(ms, majors, origin, i, started, req, grant);
        }
        var diff, next, empty;
        diff, bestSize, next, empty := Consider(maj, bestSize, i, seen, bet, size0);
        PathNext(origin, |ms|, started, i);
        seen := seen + [i];
        t := Trail(origin, seen, size0, bestSize);
        if diff < need {
          SearchHop(ms, origin, i, started, req, grant);
          if next.Some? {
            maj, i := next.value, i + 1;
            continue;
          }
          if started {
            AtRoot();
            maj, started, i := memRoot.value, false, 0;
            PathAgain(origin, |ms|);
            continue;
          }
          if grant.None? {
            return;
          }
          BetGrown(majors, seen, bet, size0, bestBet, bestSize, NewMajor(grant.value, size));
          Append(Some(maj), grant.value, size);
          appended, empty := true, true;
          maj, i := grant.value, i + 1;
          SearchGrown(ms, origin, req, grant);
          SearchNew(ms, majors, origin, i, started, req, grant);
          SearchFound(ms, majors, origin, i, 0, started, appended, req, grant);
          RouteShort(ms, origin, need);
          return true, maj, None, i, 0, t;
        }
        if empty {
          SearchFound(ms, majors, origin, i, 0, started, appended, req, grant);
          RouteIs(ms, origin, need, i);
          return true, maj, None, i, 0, t;
        }
        found, spot, gap := FindGap(maj, need, i);
        if found {
          SearchFound(ms, majors, origin, i, gap, started, appended, req, grant);
          RouteIs(ms, origin, need, i);
          return;
        }
        SearchHop(ms, origin, i, started, req, grant);
        if next.None? {
          if started {
            AtRoot();
            maj, started, i := memRoot.value, false, 0;
            PathAgain(origin, |ms|);
            continue;
          }
          if grant.None? {
            return;
          }
          BetGrown(majors, seen, bet, size0, bestBet, bestSize, NewMajor(grant.value, size));
          Append(Some(maj), grant.value, size);
          appended := true;
          maj, i := grant.value, i + 1;
          SearchGrown(ms, origin, req, grant);
        } else {
          maj, i := next.value, i + 1;
        }
      }
    }

    /** `malloc`. `grant` is what the page hook answers if it is called. The request fails exactly
        when no gap of any major fits and the hook fails. The minor goes into the first major with room from
        the best bet on, if that has enough unused bytes; else, or if there is no room from there on, into
        the first from the root; and into a new one only when there is no room at all. The best bet moves
        to the first of the majors looked at that has the most unused bytes, if it has more. */
    method Malloc(req: nat, grant: Option<nat>) returns (p: Option<nat>, ghost at: nat, ghost gap: nat, ghost t: Trail)
      requires Valid() && Need(req) + MAJOR_HDR + PAGE_SIZE <= UINT_LIMIT && Granted(majors, grant, Padded(req))
      modifies this
      ensures Valid()
      ensures p.None? <==> Full(old(majors), MINOR_HDR + req + ALIGNMENT + ALIGN_INFO) && grant.None?
      ensures p.None? ==> majors == old(majors) && info == old(info) && inuse == old(inuse)
      ensures p.Some? ==> Allocation(Searched(old(majors), req, grant), majors, req, p.value, at, gap)
      ensures var need := MINOR_HDR + req + ALIGNMENT + ALIGN_INFO;
              Begins(old(majors), old(bestBet), need, t.origin) && (p.Some? ==> Chosen(old(majors), t.origin, need, at))
      ensures t.seen == if p.Some? then Route(old(majors), t.origin, Need(req), at) else Path(t.origin, |majors|, false, |majors|)
      ensures BetSize(old(majors), old(bestBet), t.size)
      ensures BetMoved(Searched(old(majors), req, grant), t.seen, old(bestBet), t.size, bestBet, t.best)
      ensures errors == old(errors)
    {
      hide Consistent, Fits, Allocation, NoRoom, Begins, Chosen, Route, Path, BetSize, BetMoved;
      var found, maj, spot, i, k, trail := Search(req, grant);
      t := trail;
      if !found {
        return None, 0, 0, t;
      }
      GapFits(majors[i], k, Need(req));
      NotFull(majors, i, k, Need(req));
      var q := Place(maj, spot, req, i, k);
      return Some(q), i, k, t;
    }

    /** Finds the header a pointer belongs to, by its information byte, and looks for the magic word. */
    method Owner(ptr: nat, stray: nat) returns (found: bool, header: int, ghost i: nat, ghost k: nat)
      requires Valid() && ptr != 0
      ensures header == HeaderOf(ptr, info, stray) && (found <==> header in hdrs.mins)
      ensures found ==> At(majors, i, k, header)
      ensures !found ==> forall a: nat, b: nat :: !At(majors, a, b, header)
      ensures forall a: nat, b: nat | a < |majors| && b < |majors[a].minors| && Aligned(majors[a].minors[b].Body()) == ptr ::
          found && i == a && k == b
    {
      hide Laid, Sound, Marked, InUse, Obtained, Aligned, Known, Chained, MajorHeld;
      header := HeaderOf(ptr, info, stray);
      found, i, k := header in hdrs.mins, 0, 0;
      forall a: nat, b: nat | a < |majors| && b < |majors[a].minors| && Aligned(majors[a].minors[b].Body()) == ptr
        ensures At(majors, a, b, header)
      {
        MarkLeadsBack(majors, info, a, b);
      }
      forall a: nat, b: nat | At(majors, a, b, header) ensures found {
        MinorRead(hdrs, majors, a, b);
      }
      if found {
        assert Live(majors, header);
        i, k :| At(majors, i, k, header);
        forall a: nat, b: nat | At(majors, a, b, header) ensures a == i && b == k {
          OneAt(majors, header, i, k, a, b);
        }
      }
    }

    /** The pointer writes of `free` inside a major. */
    method UnlinkMinor(min: int)
      requires min in hdrs.mins && min in hdrs.minLinks && hdrs.mins[min].block in hdrs.majs
      requires hdrs.minLinks[min].prev != Some(min) && hdrs.minLinks[min].next != Some(min)
      modifies `hdrs
      ensures hdrs == WithoutMinor(old(hdrs), min)
    {
      var links, maj := hdrs.minLinks, hdrs.mins[min].block;
      var d := hdrs.majs[maj];
      d := d.(usage := d.usage - (hdrs.mins[min].size + MINOR_HDR));
      if links[min].next.Some? {
        links := SetPrev(links, links[min].next.value, links[min].prev);
      }
      if links[min].prev.Some? {
        links := SetNext(links, links[min].prev.value, links[min].next);
      }
      if links[min].prev.None? {
        d := d.(first := links[min].next);
      }
      hdrs := Headers(hdrs.majLinks, hdrs.majs[maj := d], links, hdrs.mins - {min});
    }

    /** Takes a minor out of its major, with its information byte. */
    method Forget(min: int, ghost i: nat, ghost k: nat)
      requires Consistent() && At(majors, i, k, min) && min in hdrs.mins
      modifies `hdrs, `inuse, `info, `majors
      ensures Consistent() && old(majors)[i].minors[k].size + MINOR_HDR <= old(majors)[i].usage
      ensures majors == old(majors)[i := Removed(old(majors)[i], k)]
    {
      hide Laid, Sound, Marked, Aligned, Known, InUse, Obtained, Linked, WithoutMinor;
      ghost var m, s := majors[i], MinorAddrs(majors[i].minors);
      MinorRead(hdrs, majors, i, k);
      MajorRead(hdrs, majors, i);
      RemoveLaid(majors, i, k);
      RemoveMarked(majors, info, i, k);
      RemoveLinked(hdrs, majors, i, k);
      StillKnown(majors, majors[i := Removed(m, k)], bestBet);
      MinorAddrsDiffer(majors, i);
      assert k > 0 ==> s[k - 1] != s[k];
      assert k + 1 < |s| ==> s[k] != s[k + 1];
      AlignRoundTrip(min + MINOR_HDR);
      inuse := inuse - hdrs.mins[min].size;
      info := info - {Aligned(min + MINOR_HDR) - ALIGN_INFO};
      UnlinkMinor(min);
      assert MajorAddrs(majors[i := Removed(m, k)]) == MajorAddrs(majors);
      majors := majors[i := Removed(m, k)];
    }

    /** The pointer writes of `free` around a major, whose pages go back. */
    method UnlinkMajor(maj: int)
      requires maj in hdrs.majLinks && hdrs.majLinks[maj].prev != Some(maj) && hdrs.majLinks[maj].next != Some(maj)
      modifies `hdrs
      ensures hdrs == WithoutMajor(old(hdrs), maj)
    {
      var links := hdrs.majLinks;
      if links[maj].prev.Some? {
        links := SetNext(links, links[maj].prev.value, links[maj].next);
      }
      if links[maj].next.Some? {
        links := SetPrev(links, links[maj].next.value, links[maj].prev);
      }
      hdrs := Headers(links - {maj}, hdrs.majs - {maj}, hdrs.minLinks, hdrs.mins);
    }

    /** Gives back a major that holds no minor any more. */
    method DropMajor(maj: int, ghost i: nat)
      requires Consistent() && i < |majors| && majors[i].addr == maj && majors[i].minors == []
      modifies `hdrs, `memRoot, `bestBet, `systemBytes, `majors
      ensures Consistent() && majors == old(majors)[..i] + old(majors)[i + 1..]
      ensures bestBet == if old(bestBet) == Some(old(majors)[i].addr) then None else old(bestBet)
    {
      hide Laid, Sound, Marked, Known, InUse, Obtained, Linked, Distinct, WithoutMajor;
      ghost var s := MajorAddrs(majors);
      MajorRead(hdrs, majors, i);
      DropLinked(hdrs, majors, i);
      MajorAddrsDiffer(majors);
      if i > 0 {
        AddrsDiffer(s, i, 0);
        AddrsDiffer(s, i, i - 1);
      }
      if i + 1 < |s| {
        AddrsDiffer(s, i, i + 1);
      }
      if memRoot == Some(maj) {
        memRoot := hdrs.majLinks[maj].next;
      }
      if bestBet.Some? && bestBet.value == maj {
        bestBet := None;
        KnownAt(majors, i);
      }
      DropKeeps(majors, info, bestBet, i);
      systemBytes := systemBytes - hdrs.majs[maj].size;
      UnlinkMajor(maj);
      majors := majors[..i] + majors[i + 1..];
    }

    /** A major that a free left with more unused bytes than the best bet becomes the best bet. */
    method Rebet(maj: int, ghost i: nat)
      requires Consistent() && i < |majors| && majors[i].addr == maj
      modifies `bestBet
      ensures Consistent() && BetBeaten(majors, i, old(bestBet), bestBet)
    {
      hide Laid, Sound, Marked, InUse, Obtained, Linked;
      if bestBet.Some? {
        ghost var b :| 0 <= b < |majors| && majors[b].addr == bestBet.value;
        AtMajor(bestBet.value, b);
        AtMajor(maj, i);
        var bet, here := hdrs.majs[bestBet.value], hdrs.majs[maj];
        assert ToInt(here.size - here.usage) > ToInt(bet.size - bet.usage) <==> Exceeds(Spare(majors[i]), Spare(majors[b]));
        if ToInt(here.size - here.usage) > ToInt(bet.size - bet.usage) {
          bestBet := Some(maj);
        }
      }
    }

    /** `free`. `stray` is the byte in front of a pointer that no live minor marks. */
    method Free(ptr: nat, stray: nat) returns (freed: bool, ghost at: nat, ghost gap: nat)
      requires Valid()
      modifies this
      ensures Valid()
      ensures freed ==> ptr != 0 && At(old(majors), at, gap, HeaderOf(ptr, old(info), stray))
                        && old(majors)[at].minors[gap].size + MINOR_HDR <= old(majors)[at].usage
                        && majors == Shrunk(old(majors), at, gap) && errors == old(errors) && warnings == old(warnings)
      ensures freed ==> if |old(majors)[at].minors| == 1
                        then bestBet == if old(bestBet) == Some(old(majors)[at].addr) then None else old(bestBet)
                        else BetBeaten(majors, at, old(bestBet), bestBet)
      ensures !freed ==> majors == old(majors) && info == old(info) && bestBet == old(bestBet)
                         && (if ptr == 0 then warnings == old(warnings) + 1 && errors == old(errors)
                             else warnings == old(warnings) && errors == old(errors) + 1)
                         && (ptr == 0 || forall i: nat, k: nat :: !At(majors, i, k, HeaderOf(ptr, info, stray)))
      ensures forall i: nat, k: nat | i < |old(majors)| && k < |old(majors)[i].minors| ::
          Aligned(old(majors)[i].minors[k].Body()) == ptr ==> freed && at == i && gap == k
    {
      hide Laid, Marked, Known, InUse, Obtained, Linked, Aligned, HeaderOf;
      if ptr == 0 {
        warnings := warnings + 1;
        return false, 0, 0;
      }
      var found, min, i, k := Owner(ptr, stray);
      if !found {
        errors := errors + 1;
        return false, 0, 0;
      }
      hide Consistent;
      ghost var m := majors[i];
      MinorOf(min, i, k);
      var maj := hdrs.mins[min].block;
      Forget(min, i, k);
      assert Removed(m, k).minors == [] <==> |m.minors| == 1;
      AtMajor(maj, i);
      if hdrs.majs[maj].first.None? {
        DropMajor(maj, i);
      } else {
        Rebet(maj, i);
      }
      return true, i, k;
    }

    lemma MinorAtValid(min: int, i: nat, k: nat)
      requires Valid() && At(majors, i, k, min)
      ensures min in hdrs.mins && hdrs.mins[min].req == majors[i].minors[k].req
    {
      MinorOf(min, i, k);
    }

    lemma MinorOf(min: int, i: nat, k: nat)
      requires Consistent() && At(majors, i, k, min)
      ensures min in hdrs.mins && hdrs.mins[min] == MinorData(majors[i].addr, majors[i].minors[k].size, majors[i].minors[k].req)
    {
      MinorRead(hdrs, majors, i, k);
    }

    /** Freeing the pointer a request returned, whatever the byte in front of other pointers,
        gives back exactly the heap there was. */
    method MallocThenFree(req: nat, grant: Option<nat>, stray: nat)
      requires Valid() && Need(req) + MAJOR_HDR + PAGE_SIZE <= UINT_LIMIT && Granted(majors, grant, Padded(req))
      modifies this
      ensures Valid() && majors == old(majors) && inuse == old(inuse) && systemBytes == old(systemBytes)
      ensures errors == old(errors)
    {
      var p, i, k, _ := Malloc(req, grant);
      if p.Some? {
        FreeUndoesMalloc(old(majors), majors, req, grant, p.value, i, k);
        var freed, a, b := Free(p.value, stray);
        assert freed && a == i && b == k;
      }
    }

    /** `realloc` to fewer bytes, in place. */
    method Narrow(min: int, req: nat, ghost i: nat, ghost k: nat)
      requires Valid() && At(majors, i, k, min) && min in hdrs.mins && req <= majors[i].minors[k].req
      modifies `majors, `hdrs
      ensures Valid() && majors == old(majors)[i := Narrowed(old(majors)[i], k, req)]
    {
      hide Laid, Sound, Marked, Known, Linked;
      ghost var m' := Narrowed(majors[i], k, req);
      SoundAt(majors, i);
      NarrowedSound(majors[i], k, req);
      NarrowedMarked(majors, info, i, k, req);
      NarrowLinked(hdrs, majors, i, k, req);
      TotalsAt(majors, i, m');
      InsertLaid(majors, i, m');
      StillKnown(majors, majors[i := m'], bestBet);
      assert MajorAddrs(majors[i := m']) == MajorAddrs(majors);
      hdrs := hdrs.(mins := hdrs.mins[min := hdrs.mins[min].(req := req)]);
      majors := majors[i := m'];
    }

    /** `realloc`. The outcome says what became of the minor at (`a`, `b`), if that is where `ptr` belongs;
        `mid` is the heap between the new request and the free of the old minor. */
    method Realloc(ptr: nat, size: nat, grant: Option<nat>, stray: nat, ghost a: nat, ghost b: nat)
      returns (r: Resized, ghost mid: seq<Major>, ghost at: nat, ghost gap: nat, ghost b': nat)
      requires Valid() && Need(size) + MAJOR_HDR + PAGE_SIZE <= UINT_LIMIT && Granted(majors, grant, Padded(size)) && ptr != 0 && size != 0
      requires a < |majors| && b < |majors[a].minors| && Aligned(majors[a].minors[b].Body()) == ptr
      modifies this
      ensures Valid()
      ensures var n := old(majors)[a].minors[b];
              && (r.Kept? <==> size <= n.req)
              && (r.WildCopy? <==> n.req < size && Full(old(majors), Need(size)) && grant.None?)
      ensures r.Kept? ==> |majors| == |old(majors)| && (forall i | 0 <= i < |majors| && i != a :: majors[i] == old(majors)[i])
                          && majors[a] == old(majors)[a].(minors := majors[a].minors)
                          && majors[a].minors == old(majors)[a].minors[b := old(majors)[a].minors[b].(req := size)]
      ensures r.WildCopy? ==> majors == old(majors)
      ensures r.Moved? ==>
                && Allocation(Searched(old(majors), size, grant), mid, size, r.p, at, gap)
                && a < |mid| && b' < |mid[a].minors| && mid[a].minors[b'] == old(majors)[a].minors[b]
                && mid[a].minors[b'].size + MINOR_HDR <= mid[a].usage && majors == Shrunk(mid, a, b')
    {
      mid, at, gap, b' := majors, 0, 0, 0;
      hide Valid, Aligned, Allocation, Searched, Shrunk, Narrowed, Full;
      var found, min, i, k := Owner(ptr, stray);
      MinorAtValid(min, i, k);
      if hdrs.mins[min].req >= size {
        NarrowedOnly(majors, i, k, size);
        Narrow(min, size, i, k);
        return Kept, mid, at, gap, b';
      }
      var q;
      ghost var t;
      q, at, gap, t := Malloc(size, grant);
      if q.None? {
        return WildCopy, mid, at, gap, b';
      }
      mid := majors;
      b' := StillLive(old(majors), mid, size, grant, q.value, at, gap, a, b);
      var freed, x, y := Free(ptr, stray);
      return Moved(q.value), mid, at, gap, b';
    }
  }
}
