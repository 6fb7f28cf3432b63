/** The little non-linear arithmetic the other modules need. */
module Arithmetic {

  lemma AtLeastOneTimes(e: int, q: int)
    requires e >= 1 && q >= 0
    ensures e * q >= q
  {
    assert e * q == (e - 1) * q + q;
  }

  /** A multiple of q below q is zero. */
  lemma SmallMultiple(e: int, q: int)
    requires 0 <= e * q < q
    ensures e == 0
  {
    if e >= 1 {
      AtLeastOneTimes(e, q);
    } else if e <= -1 {
      AtLeastOneTimes(-e, q);
    }
  }

  /** Quotient and remainder are unique. */
  lemma QuotientRemainder(n: int, q: int, d: int, r: int)
    requires n == d * q + r && 0 <= r < q
    ensures n / q == d && n % q == r
  {
    var d', r' := n / q, n % q;
    assert n == d' * q + r';
    assert (d - d') * q == r' - r && (d' - d) * q == r - r' by {
      assert (d - d') * q == d * q - d' * q;
      assert (d' - d) * q == d' * q - d * q;
    }
    if r' >= r {
      SmallMultiple(d - d', q);
    } else {
      SmallMultiple(d' - d, q);
    }
  }

  function PowerOfTwo(k: nat): nat { if k == 0 then 1 else 2 * PowerOfTwo(k - 1) }

  lemma {:induction false} PowerIsPositive(k: nat)
    ensures PowerOfTwo(k) >= 1
  {
    if k > 0 { PowerIsPositive(k - 1); }
  }

  lemma Powers()
    ensures PowerOfTwo(4) == 0x10 && PowerOfTwo(14) == 0x4000
    ensures PowerOfTwo(16) == 0x1_0000 && PowerOfTwo(17) == 0x2_0000 && PowerOfTwo(18) == 0x4_0000
  {
    assert PowerOfTwo(8) == 0x100;
    assert PowerOfTwo(12) == 0x1000;
  }
}
