/** Go's 64-bit signed integers: wrap-around, and the bit operations the models need. */
module Int64s {
  import opened Arithmetic

  const TWO_63: int := 0x8000_0000_0000_0000
  const TWO_64: int := 0x1_0000_0000_0000_0000
  const MIN_INT64: int := -0x8000_0000_0000_0000

  predicate IsInt64(x: int) {
    -TWO_63 <= x < TWO_63
  }

  function Wrap(x: int): (r: int)
    ensures IsInt64(r) && (IsInt64(x) ==> r == x)
  {
    (x + TWO_63) % TWO_64 - TWO_63
  }

  lemma WrapHigh(x: int)
    requires TWO_63 <= x < TWO_64
    ensures Wrap(x) == x - TWO_64
  {
    Quotient(x + TWO_63, TWO_64, 1, x + TWO_63 - TWO_64);
  }

  lemma WrapShift(x: int, k: int)
    ensures Wrap(x + TWO_64 * k) == Wrap(x)
  {
    var q, r := (x + TWO_63) / TWO_64, (x + TWO_63) % TWO_64;
    Quotient(x + TWO_64 * k + TWO_63, TWO_64, q + k, r);
  }

  lemma WrapTurns(x: int) returns (k: int)
    ensures Wrap(x) == x + TWO_64 * k
  {
    k := -((x + TWO_63) / TWO_64);
  }

  /** The 64 bits of a value, read as an unsigned number. */
  function Pattern(x: int): (r: nat)
    ensures r < TWO_64 && (0 <= x < TWO_64 ==> r == x)
  {
    x % TWO_64
  }

  function Pow2(k: nat): (r: nat)
    ensures r > 0
  {
    if k == 0 then 1 else 2 * Pow2(k - 1)
  }

  function OrBits(a: nat, b: nat): nat
    decreases a + b
  {
    if a == 0 && b == 0 then 0 else
      (if a % 2 == 1 || b % 2 == 1 then 1 else 0) + 2 * OrBits(a / 2, b / 2)
  }

  function AndBits(a: nat, b: nat): nat
    decreases a + b
  {
    if a == 0 && b == 0 then 0 else
      (if a % 2 == 1 && b % 2 == 1 then 1 else 0) + 2 * AndBits(a / 2, b / 2)
  }

  function Or(a: int, b: int): int {
    Wrap(OrBits(Pattern(a), Pattern(b)))
  }

  function And(a: int, b: int): int {
    Wrap(AndBits(Pattern(a), Pattern(b)))
  }

  function ShiftLeft(x: int, k: nat): int {
    Wrap(x * Pow2(k))
  }

  /** The arithmetic shift of a signed value rounds down. */
  function ShiftRight(x: int, k: nat): int {
    x / Pow2(k)
  }

  lemma {:induction false} OrZero(a: nat)
    ensures OrBits(a, 0) == a
  {
    if a > 0 {
      OrZero(a / 2);
    }
  }

  /** Bits that do not overlap are or-ed by adding. */
  lemma {:induction false} OrDisjoint(high: nat, low: nat, k: nat)
    requires low < Pow2(k)
    ensures OrBits(high * Pow2(k), low) == high * Pow2(k) + low
  {
    if k == 0 {
      OrZero(high);
    } else {
      var half := high * Pow2(k - 1);
      assert high * Pow2(k) == 2 * half;
      OrDisjoint(high, low / 2, k - 1);
    }
  }

  lemma HalfRemainder(a: nat, p: nat)
    requires p > 0
    ensures a % (2 * p) == 2 * (a / 2 % p) + a % 2
  {
    var q, r := a / 2 / p, a / 2 % p;
    assert a / 2 == p * q + r;
    assert 2 * (p * q) == (2 * p) * q;
    Quotient(a, 2 * p, q, 2 * r + a % 2);
  }

  /** And-ing with k ones keeps the remainder by 2^k. */
  lemma {:induction false} AndMask(a: nat, k: nat)
    ensures AndBits(a, Pow2(k) - 1) == a % Pow2(k)
    decreases k
  {
    if k == 0 {
      AndZero(a);
    } else {
      var p := Pow2(k - 1);
      assert (2 * p - 1) / 2 == p - 1 && (2 * p - 1) % 2 == 1;
      AndMask(a / 2, k - 1);
      HalfRemainder(a, p);
    }
  }

  lemma {:induction false} AndZero(a: nat)
    ensures AndBits(a, 0) == 0
  {
    if a > 0 {
      AndZero(a / 2);
    }
  }

  /** The powers the layouts use. */
  lemma Powers()
    ensures Pow2(10) == 1024 && Pow2(12) == 4096 && Pow2(22) == 0x40_0000
  {
    assert Pow2(5) == 32;
    assert Pow2(10) == 1024;
    assert Pow2(15) == 32768;
    assert Pow2(20) == 1048576;
  }
}
