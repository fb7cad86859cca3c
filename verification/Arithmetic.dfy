/** Quotients and remainders. */
module Arithmetic {

  lemma {:induction false} Multiple(d: nat, k: int)
    ensures k >= 1 ==> d * k >= d
    decreases k
  {
    if k > 1 {
      Multiple(d, k - 1);
      assert d * k == d * (k - 1) + d;
    }
  }

  lemma {:induction false} DivMod(v: nat, d: nat, q: nat, r: nat)
    requires v == d * q + r && r < d
    ensures v % d == r && v / d == q
  {
    var t, u := v / d, v % d;
    assert v == d * t + u;
    Multiple(d, t - q);
    Multiple(d, q - t);
    assert d * (t - q) == d * t - d * q && d * (q - t) == d * q - d * t;
  }

  lemma {:induction false} Halves(v: nat, p: nat)
    requires p > 0
    ensures v % (2 * p) == v % 2 + 2 * (v / 2 % p)
  {
    var q, r := v / 2 / p, v / 2 % p;
    assert v == (2 * p) * q + (v % 2 + 2 * r);
    assert v % 2 + 2 * r < 2 * p;
    DivMod(v, 2 * p, q, v % 2 + 2 * r);
  }

  /** The lowest digit of a remainder, and the others. */
  lemma {:induction false} HalvedRemainder(v: nat, p: nat)
    requires p > 0
    ensures v % (2 * p) % 2 == v % 2 && v % (2 * p) / 2 == v / 2 % p
  {
    Halves(v, p);
    var r := v / 2 % p;
    assert (v % 2 + 2 * r) % 2 == v % 2 && (v % 2 + 2 * r) / 2 == r;
  }
}
