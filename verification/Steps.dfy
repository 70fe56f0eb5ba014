/** Counting the agents of a state machine that stand in given places. */
module Steps {

  /** The agents whose place satisfies `f`. */
  function Where<P>(pc: map<nat, P>, f: P -> bool): set<nat> { set a | a in pc && f(pc[a]) }

  function One(b: bool): nat { if b then 1 else 0 }

  /** How such a set grows or shrinks when `a` alone moves to `p`. */
  lemma Moved<P>(pc: map<nat, P>, a: nat, p: P, f: P -> bool)
    requires a in pc
    ensures |Where(pc[a := p], f)| + One(f(pc[a])) == |Where(pc, f)| + One(f(p))
  {
    var x, y := Where(pc, f), Where(pc[a := p], f);
    if f(p) {
      assert y == x + {a};
      assert a in x ==> y == x;
    } else {
      assert y == x - {a};
      assert a !in x ==> y == x;
    }
  }

  lemma Nowhere<P>(pc: map<nat, P>, f: P -> bool)
    requires forall a | a in pc :: !f(pc[a])
    ensures Where(pc, f) == {}
  {}
}
