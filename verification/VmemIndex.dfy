/** The three indexes over an arena's segment queue: size-class freelists, the hash table of
    allocated segments, and the sorted span list. A segment is named in a list by its value, which
    is unique in the queue. */
module VmemIndex {
  import opened VmemSegments
  import opened VmemEdits
  import opened VmemLedger

  // ---------------------------------------------------------------------------------
  // List operations
  // ---------------------------------------------------------------------------------

  function PositionOf(l: seq<Seg>, s: Seg): (i: nat)
    requires s in l
    ensures i < |l| && l[i] == s && s !in l[..i]
  {
    if l[0] == s then 0 else
      assert l == [l[0]] + l[1..];
      1 + PositionOf(l[1..], s)
  }

  function Without(l: seq<Seg>, s: Seg): (r: seq<Seg>)
    requires s in l
    ensures multiset(l) == multiset(r) + multiset{s}
  {
    var i := PositionOf(l, s);
    assert l == l[..i] + [s] + l[i + 1..];
    l[..i] + l[i + 1..]
  }

  function InPlace(l: seq<Seg>, s: Seg, t: Seg): (r: seq<Seg>)
    requires s in l
    ensures multiset(r) + multiset{s} == multiset(l) + multiset{t}
  {
    var i := PositionOf(l, s);
    assert l == l[..i] + [s] + l[i + 1..];
    l[..i] + [t] + l[i + 1..]
  }

  // ---------------------------------------------------------------------------------
  // Agreement of the indexes with the queue
  // ---------------------------------------------------------------------------------

  lemma FilterInsert(a: seq<Seg>, s: Seg, b: seq<Seg>, p: Seg -> bool)
    ensures Filter(a + [s] + b, p) == Filter(a, p) + (if p(s) then [s] else []) + Filter(b, p)
    ensures Filter(a + b, p) == Filter(a, p) + Filter(b, p)
    ensures multiset(Filter(a + [s] + b, p)) == multiset(Filter(a + b, p)) + if p(s) then multiset{s} else multiset{}
  {
    FilterAround(a, [s], b, p);
    FilterOne(s, p);
    FilterConcat(a, b, p);
    var x, y := Filter(a, p), Filter(b, p);
    assert multiset(x + [s] + y) == multiset(x + y) + multiset{s};
  }

  // Taking one segment out of the queue changes, in each index, the one list it belongs to.

  lemma FreePoint(a: seq<Seg>, s: Seg, b: seq<Seg>, k: nat)
    ensures multiset(Filter(a + [s] + b, IsFreeOn(k)))
         == multiset(Filter(a + b, IsFreeOn(k)))
            + if s.typ.Free? && FreelistIndex(s.size) == k then multiset{s} else multiset{}
  {
    FilterInsert(a, s, b, IsFreeOn(k));
  }

  lemma AllocatedPoint(hash: nat -> nat, a: seq<Seg>, s: Seg, b: seq<Seg>, h: nat)
    ensures multiset(Filter(a + [s] + b, IsAllocatedOn(hash, h)))
         == multiset(Filter(a + b, IsAllocatedOn(hash, h)))
            + if s.typ.Allocated? && Bucket(hash, s.base) == h then multiset{s} else multiset{}
  {
    FilterInsert(a, s, b, IsAllocatedOn(hash, h));
  }

  lemma MarkerPoint(a: seq<Seg>, s: Seg, b: seq<Seg>)
    ensures Filter(a + [s] + b, IsMarker()) == Filter(a, IsMarker()) + (if s.IsSpan() then [s] else []) + Filter(b, IsMarker())
    ensures Filter(a + b, IsMarker()) == Filter(a, IsMarker()) + Filter(b, IsMarker())
  {
    FilterInsert(a, s, b, IsMarker());
  }

  lemma Cancel(x: multiset<Seg>, y: multiset<Seg>, s: Seg)
    ensures x + multiset{s} == y + multiset{s} <==> x == y
  {
    assert (x + multiset{s}) - multiset{s} == x;
    assert (y + multiset{s}) - multiset{s} == y;
  }

  ghost predicate FreeIndexed(q: seq<Seg>, freelist: seq<seq<Seg>>): (r: bool)
    ensures r ==> |freelist| == FREELISTS
  {
    |freelist| == FREELISTS && forall k | 0 <= k < FREELISTS :: multiset(freelist[k]) == multiset(Filter(q, IsFreeOn(k)))
  }

  ghost predicate AllocatedIndexed(hash: nat -> nat, q: seq<Seg>, hashtab: seq<seq<Seg>>): (r: bool)
    ensures r ==> |hashtab| == BUCKETS
  {
    |hashtab| == BUCKETS && forall h | 0 <= h < BUCKETS :: multiset(hashtab[h]) == multiset(Filter(q, IsAllocatedOn(hash, h)))
  }

  ghost predicate Indexed(hash: nat -> nat, q: seq<Seg>, freelist: seq<seq<Seg>>, hashtab: seq<seq<Seg>>, spanlist: seq<Seg>) {
    FreeIndexed(q, freelist) && AllocatedIndexed(hash, q, hashtab) && spanlist == Filter(q, IsMarker())
  }

  /** `with` is `without` plus `s` on list `k`. */
  ghost predicate OneMore(with: seq<seq<Seg>>, without: seq<seq<Seg>>, k: nat, s: Seg): (r: bool)
    ensures r ==> |with| == |without| && k < |with|
  {
    && |with| == |without| && k < |with|
    && multiset(with[k]) == multiset(without[k]) + multiset{s}
    && forall j | 0 <= j < |with| && j != k :: with[j] == without[j]
  }

  lemma FreeStep(a: seq<Seg>, s: Seg, b: seq<Seg>, with: seq<seq<Seg>>, without: seq<seq<Seg>>)
    requires s.typ.Free? && |with| == FREELISTS && OneMore(with, without, FreelistIndex(s.size), s)
    ensures FreeIndexed(a + [s] + b, with) <==> FreeIndexed(a + b, without)
  {
    forall k: nat | 0 <= k < FREELISTS
      ensures multiset(with[k]) == multiset(Filter(a + [s] + b, IsFreeOn(k)))
         <==> multiset(without[k]) == multiset(Filter(a + b, IsFreeOn(k)))
    {
      FreePoint(a, s, b, k);
      if k == FreelistIndex(s.size) {
        Cancel(multiset(without[k]), multiset(Filter(a + b, IsFreeOn(k))), s);
      }
    }
  }

  lemma AllocatedStep(hash: nat -> nat, a: seq<Seg>, s: Seg, b: seq<Seg>, with: seq<seq<Seg>>, without: seq<seq<Seg>>)
    requires s.typ.Allocated? && |with| == BUCKETS && OneMore(with, without, Bucket(hash, s.base), s)
    ensures AllocatedIndexed(hash, a + [s] + b, with) <==> AllocatedIndexed(hash, a + b, without)
  {
    forall k: nat | 0 <= k < BUCKETS
      ensures multiset(with[k]) == multiset(Filter(a + [s] + b, IsAllocatedOn(hash, k)))
         <==> multiset(without[k]) == multiset(Filter(a + b, IsAllocatedOn(hash, k)))
    {
      AllocatedPoint(hash, a, s, b, k);
      if k == Bucket(hash, s.base) {
        Cancel(multiset(without[k]), multiset(Filter(a + b, IsAllocatedOn(hash, k))), s);
      }
    }
  }

  lemma FreeIndexUnchanged(a: seq<Seg>, s: Seg, b: seq<Seg>, freelist: seq<seq<Seg>>)
    requires !s.typ.Free?
    ensures FreeIndexed(a + [s] + b, freelist) <==> FreeIndexed(a + b, freelist)
  {
    forall k: nat | 0 <= k < FREELISTS
      ensures multiset(Filter(a + [s] + b, IsFreeOn(k))) == multiset(Filter(a + b, IsFreeOn(k)))
    {
      FreePoint(a, s, b, k);
    }
  }

  lemma AllocatedIndexUnchanged(hash: nat -> nat, a: seq<Seg>, s: Seg, b: seq<Seg>, hashtab: seq<seq<Seg>>)
    requires !s.typ.Allocated?
    ensures AllocatedIndexed(hash, a + [s] + b, hashtab) <==> AllocatedIndexed(hash, a + b, hashtab)
  {
    forall k: nat | 0 <= k < BUCKETS
      ensures multiset(Filter(a + [s] + b, IsAllocatedOn(hash, k))) == multiset(Filter(a + b, IsAllocatedOn(hash, k)))
    {
      AllocatedPoint(hash, a, s, b, k);
    }
  }

  /** A free segment joins or leaves the queue together with its freelist entry. */
  lemma IndexedFree(hash: nat -> nat, a: seq<Seg>, s: Seg, b: seq<Seg>,
                    with: seq<seq<Seg>>, without: seq<seq<Seg>>, hashtab: seq<seq<Seg>>, spanlist: seq<Seg>)
    requires s.typ.Free? && |with| == FREELISTS && OneMore(with, without, FreelistIndex(s.size), s)
    ensures Indexed(hash, a + [s] + b, with, hashtab, spanlist) <==> Indexed(hash, a + b, without, hashtab, spanlist)
  {
    assert FreeIndexed(a + [s] + b, with) <==> FreeIndexed(a + b, without) by { FreeStep(a, s, b, with, without); }
    assert Filter(a + [s] + b, IsMarker()) == Filter(a + b, IsMarker()) by { MarkerPoint(a, s, b); }
    AllocatedIndexUnchanged(hash, a, s, b, hashtab);
  }

  /** An allocated segment joins or leaves the queue together with its hash table entry. */
  lemma IndexedAllocated(hash: nat -> nat, a: seq<Seg>, s: Seg, b: seq<Seg>,
                         freelist: seq<seq<Seg>>, with: seq<seq<Seg>>, without: seq<seq<Seg>>, spanlist: seq<Seg>)
    requires s.typ.Allocated? && |with| == BUCKETS && OneMore(with, without, Bucket(hash, s.base), s)
    ensures Indexed(hash, a + [s] + b, freelist, with, spanlist) <==> Indexed(hash, a + b, freelist, without, spanlist)
  {
    assert AllocatedIndexed(hash, a + [s] + b, with) <==> AllocatedIndexed(hash, a + b, without) by {
      AllocatedStep(hash, a, s, b, with, without);
    }
    assert Filter(a + [s] + b, IsMarker()) == Filter(a + b, IsMarker()) by { MarkerPoint(a, s, b); }
    FreeIndexUnchanged(a, s, b, freelist);
  }

  /** A span marker joins or leaves the queue together with its place in the span list. */
  lemma IndexedMarker(hash: nat -> nat, a: seq<Seg>, s: Seg, b: seq<Seg>, freelist: seq<seq<Seg>>, hashtab: seq<seq<Seg>>)
    requires s.IsSpan()
    ensures Indexed(hash, a + [s] + b, freelist, hashtab, Filter(a, IsMarker()) + [s] + Filter(b, IsMarker()))
       <==> Indexed(hash, a + b, freelist, hashtab, Filter(a, IsMarker()) + Filter(b, IsMarker()))
    ensures Filter(a + [s] + b, IsMarker()) == Filter(a, IsMarker()) + [s] + Filter(b, IsMarker())
    ensures Filter(a + b, IsMarker()) == Filter(a, IsMarker()) + Filter(b, IsMarker())
  {
    FreeIndexUnchanged(a, s, b, freelist);
    AllocatedIndexUnchanged(hash, a, s, b, hashtab);
    MarkerPoint(a, s, b);
  }

  lemma OnFreelist(q: seq<Seg>, freelist: seq<seq<Seg>>, s: Seg)
    requires FreeIndexed(q, freelist) && s in q && s.typ.Free? && FreelistIndex(s.size) < FREELISTS
    ensures s in freelist[FreelistIndex(s.size)]
  {
    var k := FreelistIndex(s.size);
    FilterMember(q, IsFreeOn(k), s);
    assert s in multiset(Filter(q, IsFreeOn(k)));
    assert s in multiset(freelist[k]);
  }

  lemma OnHashtab(hash: nat -> nat, q: seq<Seg>, hashtab: seq<seq<Seg>>, s: Seg)
    requires AllocatedIndexed(hash, q, hashtab)
    ensures s in hashtab[Bucket(hash, s.base)] <==> s in q && s.typ.Allocated?
  {
    var h := Bucket(hash, s.base);
    FilterMember(q, IsAllocatedOn(hash, h), s);
    assert s in multiset(Filter(q, IsAllocatedOn(hash, h))) <==> s in multiset(hashtab[h]);
  }

  lemma InHashtab(hash: nat -> nat, q: seq<Seg>, hashtab: seq<seq<Seg>>, h: nat, s: Seg)
    requires AllocatedIndexed(hash, q, hashtab) && h < BUCKETS && s in hashtab[h]
    ensures s in q && s.typ.Allocated?
  {
    FilterMember(q, IsAllocatedOn(hash, h), s);
    assert s in multiset(hashtab[h]);
  }

  lemma InFreelist(q: seq<Seg>, freelist: seq<seq<Seg>>, k: nat, s: Seg)
    requires FreeIndexed(q, freelist) && k < FREELISTS && s in freelist[k]
    ensures s in q && s.typ.Free? && FreelistIndex(s.size) == k
  {
    FilterMember(q, IsFreeOn(k), s);
    assert s in multiset(freelist[k]);
  }

  /** No segment occurs twice in an arena. */
  lemma SegmentsDiffer(q: seq<Seg>, i: nat, j: nat)
    requires Chain(q, ORIGIN) && i < j < |q|
    ensures q[i] != q[j]
  {
    SegmentsInOrder(q, i, j);
  }

  lemma {:induction false} FilterCount(q: seq<Seg>, p: Seg -> bool, s: Seg)
    ensures multiset(Filter(q, p))[s] == if p(s) then multiset(q)[s] else 0
  {
    if q != [] {
      assert q == [q[0]] + q[1..];
      FilterCount(q[1..], p, s);
    }
  }

  lemma OccursOnce(q: seq<Seg>, s: Seg)
    requires Chain(q, ORIGIN) && s in q
    ensures multiset(q)[s] == 1
  {
    var i := PositionOf(q, s);
    var a, b := q[..i], q[i + 1..];
    assert q == a + [s] + b;
    if s in b {
      var j :| 0 <= j < |b| && b[j] == s;
      SegmentsDiffer(q, i, i + 1 + j);
    }
    assert multiset(a)[s] == 0 && multiset(b)[s] == 0;
  }

  /** The indexes of a valid arena: every segment of the queue sits exactly once on exactly the list
      its type, size and base select, and the lists hold nothing else. */
  lemma IndexesAgree(hash: nat -> nat, q: seq<Seg>, freelist: seq<seq<Seg>>, hashtab: seq<seq<Seg>>, spanlist: seq<Seg>, s: Seg)
    requires Chain(q, ORIGIN) && Indexed(hash, q, freelist, hashtab, spanlist)
    ensures forall k | 0 <= k < FREELISTS ::
              multiset(freelist[k])[s] == if s in q && s.typ.Free? && FreelistIndex(s.size) == k then 1 else 0
    ensures forall h | 0 <= h < BUCKETS ::
              multiset(hashtab[h])[s] == if s in q && s.typ.Allocated? && Bucket(hash, s.base) == h then 1 else 0
    ensures multiset(spanlist)[s] == if s in q && s.IsSpan() then 1 else 0
  {
    if s in q {
      OccursOnce(q, s);
    }
    forall k: nat | 0 <= k < FREELISTS
      ensures multiset(freelist[k])[s] == if s in q && s.typ.Free? && FreelistIndex(s.size) == k then 1 else 0
    {
      FilterCount(q, IsFreeOn(k), s);
    }
    forall h: nat | 0 <= h < BUCKETS
      ensures multiset(hashtab[h])[s] == if s in q && s.typ.Allocated? && Bucket(hash, s.base) == h then 1 else 0
    {
      FilterCount(q, IsAllocatedOn(hash, h), s);
    }
    FilterCount(q, IsMarker(), s);
  }
}
