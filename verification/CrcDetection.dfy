/** Which corruptions of a message the 16-bit register always notices. */
module CrcDetection {
  import opened Crc

  function Diff(a: seq<bool>, b: seq<bool>): (d: seq<bool>)
    requires |a| == |b|
    ensures |d| == |a| && forall i | 0 <= i < |a| :: d[i] == (a[i] != b[i])
  {
    seq(|a|, i requires 0 <= i < |a| => a[i] != b[i])
  }

  /** How many bits differ. */
  function Flips(a: seq<bool>, b: seq<bool>): nat
    requires |a| == |b|
  {
    Ones(Diff(a, b))
  }

  function Ones(d: seq<bool>): nat {
    if d == [] then 0 else (if d[0] then 1 else 0) + Ones(d[1..])
  }

  /** All differences lie in one window of 16 consecutive bits. */
  ghost predicate BurstOf16(a: seq<bool>, b: seq<bool>)
    requires |a| == |b|
  {
    exists k: nat :: InWindow(Diff(a, b), k)
  }

  ghost predicate InWindow(d: seq<bool>, k: nat) {
    forall i | 0 <= i < |d| && d[i] :: k <= i < k + 16
  }

  // ----- The register sees only the difference -----

  lemma FeedBitLinear(r: bv16, s: bv16, x: bool, y: bool)
    ensures Xor(FeedBit(r, x), FeedBit(s, y)) == FeedBit(Xor(r, s), x != y)
  {
    hide Shift;
    var r' := if x then Xor(r, 0x8000) else r;
    var s' := if y then Xor(s, 0x8000) else s;
    ShiftLinear(r', s');
    XorRegroup(r, s);
  }

  lemma XorRegroup(r: bv16, s: bv16)
    ensures Xor(Xor(r, 0x8000), s) == Xor(Xor(r, s), 0x8000)
    ensures Xor(r, Xor(s, 0x8000)) == Xor(Xor(r, s), 0x8000)
    ensures Xor(Xor(r, 0x8000), Xor(s, 0x8000)) == Xor(r, s)
  {
    XorLaws(r, 0x8000, s);
    XorLaws(r, s, 0x8000);
    XorLaws(0x8000, s, 0);
    XorLaws(Xor(r, s), 0x8000, 0x8000);
    XorLaws(0x8000, 0x8000, 0);
    XorLaws(Xor(r, 0x8000), s, 0x8000);
    hide Xor;
  }

  lemma {:induction false} RegisterOfDiff(r: bv16, s: bv16, a: seq<bool>, b: seq<bool>)
    requires |a| == |b|
    ensures Xor(BitRegister(r, a), BitRegister(s, b)) == BitRegister(Xor(r, s), Diff(a, b))
    decreases a
  {
    hide FeedBit, Xor;
    if a != [] {
      FeedBitLinear(r, s, a[0], b[0]);
      assert Diff(a, b)[1..] == Diff(a[1..], b[1..]);
      RegisterOfDiff(FeedBit(r, a[0]), FeedBit(s, b[0]), a[1..], b[1..]);
    }
  }

  lemma SameRegister(r: bv16, a: seq<bool>, b: seq<bool>)
    requires |a| == |b|
    ensures BitRegister(r, a) == BitRegister(r, b) <==> BitRegister(0, Diff(a, b)) == 0
  {
    RegisterOfDiff(r, r, a, b);
    XorLaws(r, r, r);
    XorLaws(BitRegister(r, a), BitRegister(r, b), 0);
    hide Xor;
  }

  // ----- Zeros neither create nor destroy a difference -----

  lemma {:induction false} FeedZeros(r: bv16, d: seq<bool>)
    requires forall i | 0 <= i < |d| :: !d[i]
    ensures BitRegister(r, d) == Shifts(r, |d|)
    decreases d
  {
    hide Shift;
    if d != [] {
      FeedZeros(FeedBit(r, d[0]), d[1..]);
    }
  }

  // ----- Bursts: 16 bits cannot add up to a multiple of a polynomial of degree 16 -----

  function LowMask(n: nat): bv16
    requires n <= 15
  {
    [0x0, 0x1, 0x3, 0x7, 0xF, 0x1F, 0x3F, 0x7F, 0xFF, 0x1FF, 0x3FF, 0x7FF, 0xFFF, 0x1FFF, 0x3FFF, 0x7FFF][n]
  }

  lemma LowMaskGrows(n: nat)
    requires n < 15
    ensures LowMask(n + 1) == (LowMask(n) << 1) | 1 && LowMask(n) & 0x8000 == 0
  {}

  /** If w bits bring the register to zero, its low 16 - w bits were zero before them. */
  lemma {:induction false} ClearedFromBehind(r: bv16, bits: seq<bool>)
    requires 1 <= |bits| <= 16 && BitRegister(r, bits) == 0
    ensures r & LowMask(16 - |bits|) == 0
    decreases bits
  {
    hide LowMask, FeedBit, BitRegister;
    FeedNext(r, bits);
    if |bits| == 1 {
      LastFlip(r, bits[0]);
    } else {
      ClearedFromBehind(FeedBit(r, bits[0]), bits[1..]);
      OneBitBefore(r, bits[0], 16 - |bits|);
    }
  }

  lemma LastFlip(r: bv16, bit: bool)
    requires FeedBit(r, bit) == 0
    ensures r & LowMask(15) == 0
  {
    hide LowMask;
    ShiftZero(if bit then Xor(r, 0x8000) else r);
    LastMask(r);
  }

  /** One bit earlier, one bit fewer of the register is known to be clear. */
  lemma OneBitBefore(r: bv16, bit: bool, n: nat)
    requires n < 15 && FeedBit(r, bit) & LowMask(n + 1) == 0
    ensures r & LowMask(n) == 0
  {
    hide LowMask;
    LowMaskGrows(n);
    MaskBeforeShift(if bit then Xor(r, 0x8000) else r, LowMask(n));
    hide Shift;
    MaskIgnoresTop(r, LowMask(n));
  }

  lemma LastMask(r: bv16)
    requires r == 0 || Xor(r, 0x8000) == 0
    ensures r & LowMask(15) == 0
  {
    XorLaws(r, 0x8000, 0);
  }

  lemma MaskBeforeShift(x: bv16, m: bv16)
    requires m & 0x8000 == 0 && Shift(x) & ((m << 1) | 1) == 0
    ensures x & m == 0
  {
    MaskedBits(x, m);
  }

  lemma MaskedBits(x: bv16, m: bv16)
    ensures ((x << 1) ^ 0x1021) & ((m << 1) | 1) != 0
    ensures m & 0x8000 == 0 && (x << 1) & ((m << 1) | 1) == 0 ==> x & m == 0
  {}

  lemma MaskIgnoresTop(r: bv16, m: bv16)
    requires m & 0x8000 == 0
    ensures Xor(r, 0x8000) & m == r & m
  {}

  /** After the first flipped bit the register is odd, and fifteen more bits cannot clear it. */
  lemma OpenedBurst(bits: seq<bool>)
    requires |bits| <= 15
    ensures BitRegister(FeedBit(0, true), bits) != 0
  {
    FirstFlip();
    hide FeedBit;
    if bits != [] && BitRegister(FeedBit(0, true), bits) == 0 {
      ClearedFromBehind(FeedBit(0, true), bits);
      OddUnderMask(16 - |bits|);
      assert false;
    }
  }

  lemma FirstFlip()
    ensures FeedBit(0, true) == 0x1021
  {}

  lemma OddUnderMask(n: nat)
    requires 1 <= n <= 15
    ensures 0x1021 & LowMask(n) != 0
  {}

  function FirstTrue(d: seq<bool>): (k: nat)
    requires exists i | 0 <= i < |d| :: d[i]
    ensures k < |d| && d[k] && forall i | 0 <= i < k :: !d[i]
  {
    if d[0] then 0 else
      assert exists i | 0 <= i < |d[1..]| :: d[1..][i] by {
        var i :| 0 <= i < |d| && d[i];
        assert d[1..][i - 1];
      }
      1 + FirstTrue(d[1..])
  }

  lemma SplitAtFlip(d: seq<bool>, k: nat)
    requires k < |d| && d[k] && forall i | 0 <= i < k :: !d[i]
    ensures BitRegister(0, d) == BitRegister(FeedBit(0, true), d[k + 1..])
  {
    FeedZeros(0, d[..k]);
    ShiftsZero(0, k);
    hide FeedBit, Shifts;
    assert d == d[..k] + d[k..];
    BitRegisterConcat(0, d[..k], d[k..]);
    assert d[k..][1..] == d[k + 1..];
  }

  lemma BurstDiff(d: seq<bool>, k: nat)
    requires InWindow(d, k) && exists i | 0 <= i < |d| :: d[i]
    ensures BitRegister(0, d) != 0
  {
    var first := FirstTrue(d);
    SplitAtFlip(d, first);
    var rest := d[first + 1..];
    var n := if |rest| <= 15 then |rest| else 15;
    hide FeedBit, Shifts;
    assert rest == rest[..n] + rest[n..];
    BitRegisterConcat(FeedBit(0, true), rest[..n], rest[n..]);
    OpenedBurst(rest[..n]);
    forall i | 0 <= i < |rest[n..]|
      ensures !rest[n..][i]
    {
      assert rest[n..][i] == d[first + 16 + i];
    }
    FeedZeros(BitRegister(FeedBit(0, true), rest[..n]), rest[n..]);
    ShiftsZero(BitRegister(FeedBit(0, true), rest[..n]), |rest[n..]|);
  }

  lemma BurstDetected(r: bv16, a: seq<bool>, b: seq<bool>)
    requires |a| == |b| && a != b && BurstOf16(a, b)
    ensures BitRegister(r, a) != BitRegister(r, b)
  {
    var i :| 0 <= i < |a| && a[i] != b[i];
    assert Diff(a, b)[i];
    var k: nat :| InWindow(Diff(a, b), k);
    BurstDiff(Diff(a, b), k);
    SameRegister(r, a, b);
  }

  // ----- Odd weight: the polynomial is a multiple of x + 1, so parity survives every shift -----

  /** Whether the number of ones is odd. */
  function Parity(r: bv16): bool {
    ((((r & 0x8000 != 0) != (r & 0x4000 != 0)) != ((r & 0x2000 != 0) != (r & 0x1000 != 0))) !=
     (((r & 0x0800 != 0) != (r & 0x0400 != 0)) != ((r & 0x0200 != 0) != (r & 0x0100 != 0)))) !=
    ((((r & 0x0080 != 0) != (r & 0x0040 != 0)) != ((r & 0x0020 != 0) != (r & 0x0010 != 0))) !=
     (((r & 0x0008 != 0) != (r & 0x0004 != 0)) != ((r & 0x0002 != 0) != (r & 0x0001 != 0))))
  }

  lemma ParityOfTop(r: bv16)
    ensures Parity(Xor(r, 0x8000)) == !Parity(r)
  {}

  lemma ParityOfDouble(r: bv16)
    requires r & 0x8000 == 0
    ensures Parity(r << 1) == Parity(r)
  {}

  lemma ParityOfPolynomial(r: bv16)
    ensures Parity(r ^ 0x1021) == !Parity(r)
  {}

  lemma ParityOfShift(r: bv16)
    ensures Parity(Shift(r)) == Parity(r)
  {
    if r & 0x8000 != 0 {
      var low := Xor(r, 0x8000);
      ParityOfTop(r);
      assert low & 0x8000 == 0 && r << 1 == low << 1;
      ParityOfDouble(low);
      ParityOfPolynomial(r << 1);
      hide Parity;
    } else {
      ParityOfDouble(r);
      hide Parity;
    }
  }

  lemma {:induction false} ParityOfRegister(r: bv16, d: seq<bool>)
    ensures Parity(BitRegister(r, d)) == (Parity(r) != (Ones(d) % 2 == 1))
    decreases d
  {
    hide Parity, Shift, Xor;
    if d != [] {
      ParityOfTop(r);
      ParityOfShift(if d[0] then Xor(r, 0x8000) else r);
      ParityOfRegister(FeedBit(r, d[0]), d[1..]);
    }
  }

  lemma OddDetected(r: bv16, a: seq<bool>, b: seq<bool>)
    requires |a| == |b| && Flips(a, b) % 2 == 1
    ensures BitRegister(r, a) != BitRegister(r, b)
  {
    ParityOfRegister(0, Diff(a, b));
    SameRegister(r, a, b);
  }
}
