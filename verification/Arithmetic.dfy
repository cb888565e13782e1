/** Facts about integer division that several models need. */
module Arithmetic {

  lemma SmallMultiple(d: int, x: int)
    requires -d < d * x < d
    ensures x == 0
  {
    assert x >= 1 ==> d * x >= d;
    assert x <= -1 ==> d * x <= -d;
  }

  /** Quotient and remainder are determined by their defining equation. */
  lemma Quotient(t: int, d: int, q: int, r: int)
    requires d > 0 && t == d * q + r && 0 <= r < d
    ensures t / d == q && t % d == r
  {
    var a, b := t / d, t % d;
    assert t == d * a + b;
    assert d * (a - q) == r - b;
    SmallMultiple(d, a - q);
  }
}
