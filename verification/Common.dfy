/** Definitions every part of the model shares. */
module Common {

  datatype Option<+T> = None | Some(value: T)

  /** A finite set leaves numbers over: addresses, frames and identifiers never run out here. */
  lemma FreshNat(s: set<nat>)
    ensures exists n: nat :: n !in s
  {
    var m := 0;
    var rest := s;
    while rest != {}
      invariant rest <= s && forall n: nat | n in s && n !in rest :: n < m
      decreases rest
    {
      var n :| n in rest;
      m := if n < m then m else n + 1;
      rest := rest - {n};
    }
    assert m !in s;
  }

  lemma Remainder(a: nat, q: nat, r: nat, n: nat)
    requires r < n && a == q * n + r
    ensures a % n == r
  {
    assert a == a / n * n + a % n;
    assert (a / n - q) * n == a / n * n - q * n;
    AwayFromZero(a / n - q, n);
  }

  lemma AwayFromZero(k: int, n: int)
    requires 0 <= n
    ensures k >= 1 ==> k * n >= n
    ensures k <= -1 ==> k * n <= -n
  {}
}
