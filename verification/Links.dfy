/** Doubly linked lists over addresses: the pointer writes that put an item in and take one out. */
module Links {
  import opened Common

  datatype Link = Link(prev: Option<int>, next: Option<int>)

  type Memory = map<int, Link>

  /** Writes one of the two pointers of the structure at `a`; the other keeps what it held. */
  function SetNext(m: Memory, a: int, next: Option<int>): Memory {
    m[a := Link(if a in m then m[a].prev else None, next)]
  }

  function SetPrev(m: Memory, a: int, prev: Option<int>): Memory {
    m[a := Link(prev, if a in m then m[a].next else None)]
  }

  function ItemAt(s: seq<int>, i: nat): Option<int> { if i < |s| then Some(s[i]) else None }

  function ItemBefore(s: seq<int>, i: nat): Option<int>
    requires i <= |s|
  {
    if i == 0 then None else Some(s[i - 1])
  }

  predicate Distinct(s: seq<int>) { forall i, j | 0 <= i < j < |s| :: s[i] != s[j] }

  /** Every item of the list points to its neighbours. */
  predicate Chained(m: Memory, s: seq<int>) {
    forall i | 0 <= i < |s| :: s[i] in m && m[s[i]] == Link(ItemBefore(s, i), ItemAt(s, i + 1))
  }

  /** Nothing but the items of `s` changed. */
  ghost predicate SameBut(m: Memory, m': Memory, s: seq<int>) {
    forall a | a !in s :: (a in m <==> a in m') && (a in m ==> m'[a] == m[a])
  }

  /** The memory after `a` is put between two neighbours. */
  function Joined(m: Memory, prev: Option<int>, a: int, next: Option<int>): Memory {
    var own := m[a := Link(prev, next)];
    var left := if prev.Some? then SetNext(own, prev.value, Some(a)) else own;
    if next.Some? then SetPrev(left, next.value, Some(a)) else left
  }

  lemma JoinChained(m: Memory, s: seq<int>, k: nat, a: int)
    requires Chained(m, s) && Distinct(s) && a !in s && k <= |s|
    ensures var m' := Joined(m, ItemBefore(s, k), a, ItemAt(s, k));
            Chained(m', s[..k] + [a] + s[k..]) && SameBut(m, m', s + [a])
  {
    var m' := Joined(m, ItemBefore(s, k), a, ItemAt(s, k));
    var t := s[..k] + [a] + s[k..];
    assert k > 0 ==> s[k - 1] != a;
    assert k < |s| ==> s[k] != a;
    assert 0 < k < |s| ==> s[k - 1] != s[k];
    forall i | 0 <= i < |t| ensures t[i] in m' && m'[t[i]] == Link(ItemBefore(t, i), ItemAt(t, i + 1)) {
      if i < k {
        assert t[i] == s[i] && s[i] in m;
      } else if k < i {
        assert t[i] == s[i - 1] && s[i - 1] in m;
      }
    }
  }

  /** The memory after the item at `a` is taken out. */
  function Parted(m: Memory, a: int): Memory
    requires a in m
  {
    var right := if m[a].next.Some? then SetPrev(m, m[a].next.value, m[a].prev) else m;
    if m[a].prev.Some? then SetNext(right, m[a].prev.value, m[a].next) else right
  }

  lemma PartedAt(m: Memory, a: int, b: int)
    requires a in m && b in m
    ensures b in Parted(m, a)
    ensures Parted(m, a)[b] == Link(if m[a].next == Some(b) then m[a].prev else m[b].prev,
                                    if m[a].prev == Some(b) then m[a].next else m[b].next)
  {}

  lemma PartedSame(m: Memory, s: seq<int>, k: nat)
    requires Chained(m, s) && k < |s|
    ensures s[k] in m && SameBut(m, Parted(m, s[k]), s)
  {
    assert k > 0 ==> s[k - 1] in s;
    assert k + 1 < |s| ==> s[k + 1] in s;
  }

  lemma PartItem(s: seq<int>, k: nat, j: nat)
    requires k < |s| && j < |s| && j != k
    ensures var t, i := s[..k] + s[k + 1..], if j < k then j else j - 1;
            && t[i] == s[j]
            && ItemBefore(t, i) == (if j == k + 1 then ItemBefore(s, k) else ItemBefore(s, j))
            && ItemAt(t, i + 1) == (if j + 1 == k then ItemAt(s, k + 1) else ItemAt(s, j + 1))
  {}

  lemma PartStep(m: Memory, s: seq<int>, k: nat, j: nat)
    requires Chained(m, s) && Distinct(s) && k < |s| && j < |s| && j != k
    ensures s[k] in m && s[j] in Parted(m, s[k])
    ensures Parted(m, s[k])[s[j]] == Link(if j == k + 1 then ItemBefore(s, k) else ItemBefore(s, j),
                                          if j + 1 == k then ItemAt(s, k + 1) else ItemAt(s, j + 1))
  {
    var a, b := s[k], s[j];
    assert a in m && m[a] == Link(ItemBefore(s, k), ItemAt(s, k + 1));
    assert b in m && m[b] == Link(ItemBefore(s, j), ItemAt(s, j + 1));
    PartedAt(m, a, b);
    hide Chained, Parted;
    assert m[a].prev == Some(b) <==> j + 1 == k;
    assert m[a].next == Some(b) <==> j == k + 1;
  }

  lemma PartChained(m: Memory, s: seq<int>, k: nat)
    requires Chained(m, s) && Distinct(s) && k < |s|
    ensures s[k] in m && SameBut(m, Parted(m, s[k]), s)
    ensures Chained(Parted(m, s[k]), s[..k] + s[k + 1..])
  {
    PartedSame(m, s, k);
    var m' := Parted(m, s[k]);
    var t := s[..k] + s[k + 1..];
    forall j: nat | j < |s| && j != k ensures s[j] in m' && m'[s[j]] ==
        Link(if j == k + 1 then ItemBefore(s, k) else ItemBefore(s, j), if j + 1 == k then ItemAt(s, k + 1) else ItemAt(s, j + 1)) {
      PartStep(m, s, k, j);
    }
    hide Parted, Distinct, SameBut;
    forall i | 0 <= i < |t| ensures t[i] in m' && m'[t[i]] == Link(ItemBefore(t, i), ItemAt(t, i + 1)) {
      PartItem(s, k, if i < k then i else i + 1);
    }
  }

  /** The item taken out can disappear altogether. */
  lemma PartGone(m: Memory, s: seq<int>, k: nat)
    requires Chained(m, s) && Distinct(s) && k < |s|
    ensures s[k] in m && Chained(Parted(m, s[k]) - {s[k]}, s[..k] + s[k + 1..])
  {
    PartChained(m, s, k);
    var a, t := s[k], s[..k] + s[k + 1..];
    var m' := Parted(m, a);
    hide Parted, SameBut;
    forall i | 0 <= i < |t| ensures t[i] in m' - {a} && (m' - {a})[t[i]] == m'[t[i]] {
      assert t[i] == s[if i < k then i else i + 1];
      var b := t[i];
      assert b in m' && b != a;
    }
  }

  /** A list none of whose items changed. */
  lemma FrameChained(m: Memory, m': Memory, s: seq<int>, t: seq<int>)
    requires Chained(m, s) && SameBut(m, m', t) && forall i | 0 <= i < |s| :: s[i] !in t
    ensures Chained(m', s)
  {
    forall i | 0 <= i < |s| ensures s[i] in m' && m'[s[i]] == m[s[i]] {
      var a := s[i];
      assert a in m;
      assert a !in t;
      assert a in m';
    }
  }

  /** The pointers determine the list: from its first item on there is no other. */
  lemma {:induction false} SameItems(m: Memory, s: seq<int>, t: seq<int>, n: nat)
    requires Chained(m, s) && Chained(m, t) && ItemAt(s, 0) == ItemAt(t, 0) && n <= |s|
    ensures n <= |t| && s[..n] == t[..n] && ItemAt(s, n) == ItemAt(t, n)
  {
    if n > 0 {
      SameItems(m, s, t, n - 1);
      assert s[n - 1] in m && t[n - 1] in m;
      assert s[..n] == s[..n - 1] + [s[n - 1]] && t[..n] == t[..n - 1] + [t[n - 1]];
    }
  }

  lemma SameList(m: Memory, s: seq<int>, t: seq<int>)
    requires Chained(m, s) && Chained(m, t) && ItemAt(s, 0) == ItemAt(t, 0)
    ensures s == t
  {
    SameItems(m, s, t, |s|);
    assert s == s[..|s|] && t == t[..|s|];
  }
}
