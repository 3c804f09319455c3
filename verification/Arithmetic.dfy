/** Sums, and the few facts about integer division that the solver needs spelled out. */
module Arithmetic {

  function Min(a: nat, b: nat): nat { if a <= b then a else b }

  function Max(a: nat, b: nat): nat { if a >= b then a else b }

  function Sum(s: seq<nat>): nat {
    if s == [] then 0 else s[0] + Sum(s[1..])
  }

  /** Floor division is the only quotient whose multiple brackets `x`. */
  lemma DivUnique(x: int, q: int, d: int)
    requires d > 0 && q * d <= x < (q + 1) * d
    ensures x / d == q
  {
    var k := x / d;
    assert k * d <= x < (k + 1) * d by {
      assert x == d * k + x % d;
    }
    MulMono(k + 1, q, d);
    MulMono(q + 1, k, d);
  }

  /** The same, with the remainder at hand. */
  lemma DivRest(q: int, d: int, rest: int)
    requires 0 <= rest < d
    ensures (q * d + rest) / d == q && (q * d + rest) % d == rest
  {
    var x := q * d + rest;
    assert (q + 1) * d == q * d + d;
    DivUnique(x, q, d);
    assert x == d * (x / d) + x % d;
  }

  lemma MulMono(a: int, b: int, d: nat)
    ensures a <= b ==> a * d <= b * d
  {
    if a <= b {
      assert b * d == a * d + (b - a) * d;
    }
  }
}
