/** In how many bits two byte strings differ, byte by byte. */
module FlipCounts {
  import opened Bytes
  import opened CrcDetection
  import opened CrcOrder

  lemma {:induction false} BitOfByte(data: seq<byte>, i: nat, k: nat)
    requires i < |data| && k < 8
    ensures |AllBits(LsbBits, data)| == 8 * |data| && AllBits(LsbBits, data)[8 * i + k] == LsbBits(data[i])[k]
    decreases i
  {
    AllBitsLength(LsbBits, data);
    hide LsbBits;
    if i > 0 {
      BitOfByte(data[1..], i - 1, k);
    }
  }

  lemma SameBits(x: byte, y: byte)
    requires LsbBits(x) == LsbBits(y)
    ensures x == y
  {
    Masks(x, y);
    assert forall k | 0 <= k < 8 :: LsbBits(x)[k] == LsbBits(y)[k];
  }

  lemma Masks(x: byte, y: byte)
    requires (x & 0x01 != 0) == (y & 0x01 != 0) && (x & 0x02 != 0) == (y & 0x02 != 0)
    requires (x & 0x04 != 0) == (y & 0x04 != 0) && (x & 0x08 != 0) == (y & 0x08 != 0)
    requires (x & 0x10 != 0) == (y & 0x10 != 0) && (x & 0x20 != 0) == (y & 0x20 != 0)
    requires (x & 0x40 != 0) == (y & 0x40 != 0) && (x & 0x80 != 0) == (y & 0x80 != 0)
    ensures x == y
  {}

  lemma DifferingBit(x: byte, y: byte) returns (k: nat)
    requires x != y
    ensures k < 8 && LsbBits(x)[k] != LsbBits(y)[k]
  {
    hide LsbBits;
    assert |LsbBits(x)| == |LsbBits(y)| == 8 by { EightBits(x); EightBits(y); }
    if forall k | 0 <= k < 8 :: LsbBits(x)[k] == LsbBits(y)[k] {
      assert LsbBits(x) == LsbBits(y);
      SameBits(x, y);
      assert false;
    }
    k :| 0 <= k < 8 && LsbBits(x)[k] != LsbBits(y)[k];
  }

  lemma EightBits(x: byte)
    ensures |LsbBits(x)| == 8
  {}

  /** Where two bytes differ, a bit of the difference is set. */
  lemma DifferingByte(sent: seq<byte>, received: seq<byte>, i: nat) returns (k: nat)
    requires i < |sent| == |received| && sent[i] != received[i]
    ensures 8 * i <= k < 8 * i + 8 && k < |AllBits(LsbBits, sent)| == |AllBits(LsbBits, received)|
    ensures Diff(AllBits(LsbBits, sent), AllBits(LsbBits, received))[k]
  {
    hide LsbBits;
    var bit := DifferingBit(sent[i], received[i]);
    BitOfByte(sent, i, bit);
    BitOfByte(received, i, bit);
    k := 8 * i + bit;
  }

  // ----- Counting -----

  lemma {:induction false} OnesConcat(a: seq<bool>, b: seq<bool>)
    ensures Ones(a + b) == Ones(a) + Ones(b)
    decreases a
  {
    if a == [] {
      assert a + b == b;
    } else {
      assert (a + b)[1..] == a[1..] + b;
      OnesConcat(a[1..], b);
    }
  }

  lemma FlipsConcat(a: seq<bool>, b: seq<bool>, c: seq<bool>, d: seq<bool>)
    requires |a| == |b| && |c| == |d|
    ensures Flips(a + c, b + d) == Flips(a, b) + Flips(c, d)
  {
    hide Ones;
    assert Diff(a + c, b + d) == Diff(a, b) + Diff(c, d);
    OnesConcat(Diff(a, b), Diff(c, d));
  }

  function ByteFlips(x: byte, y: byte): nat {
    Ones(Diff(LsbBits(x), LsbBits(y)))
  }

  function AllFlips(a: seq<byte>, b: seq<byte>): nat
    requires |a| == |b|
  {
    if a == [] then 0 else ByteFlips(a[0], b[0]) + AllFlips(a[1..], b[1..])
  }

  lemma {:induction false} FlipsByByte(a: seq<byte>, b: seq<byte>)
    requires |a| == |b|
    ensures |AllBits(LsbBits, a)| == |AllBits(LsbBits, b)|
    ensures Flips(AllBits(LsbBits, a), AllBits(LsbBits, b)) == AllFlips(a, b)
    decreases a
  {
    AllBitsLength(LsbBits, a);
    AllBitsLength(LsbBits, b);
    if a != [] {
      FlipsByByte(a[1..], b[1..]);
      EightBits(a[0]);
      EightBits(b[0]);
      hide LsbBits, Ones;
      FlipsConcat(LsbBits(a[0]), LsbBits(b[0]), AllBits(LsbBits, a[1..]), AllBits(LsbBits, b[1..]));
    }
  }

  lemma {:induction false} OneOne(d: seq<bool>, k: nat)
    requires k < |d| && forall i | 0 <= i < |d| :: d[i] <==> i == k
    ensures Ones(d) == 1
    decreases k
  {
    if k == 0 {
      NoOnes(d[1..]);
    } else {
      OneOne(d[1..], k - 1);
    }
  }

  lemma {:induction false} NoOnes(d: seq<bool>)
    requires forall i | 0 <= i < |d| :: !d[i]
    ensures Ones(d) == 0
  {
    if d != [] {
      NoOnes(d[1..]);
    }
  }

  lemma {:induction false} FlipsUpdated(a: seq<byte>, b: seq<byte>, i: nat, x: byte)
    requires i < |a| == |b|
    ensures AllFlips(a, b[i := x]) + ByteFlips(a[i], b[i]) == AllFlips(a, b) + ByteFlips(a[i], x)
    decreases i
  {
    hide ByteFlips;
    if i == 0 {
      assert b[i := x][1..] == b[1..];
    } else {
      assert b[i := x][1..] == b[1..][i - 1 := x];
      FlipsUpdated(a[1..], b[1..], i - 1, x);
    }
  }

  lemma {:induction false} OnesParity(a: seq<bool>, b: seq<bool>)
    requires |a| == |b|
    ensures Flips(a, b) % 2 == (Ones(a) + Ones(b)) % 2
    decreases a
  {
    if a != [] {
      assert Diff(a, b)[1..] == Diff(a[1..], b[1..]);
      OnesParity(a[1..], b[1..]);
    }
  }

  lemma SameByteIff(x: byte, y: byte)
    ensures ByteFlips(x, y) == 0 <==> x == y
  {
    EightBits(x);
    EightBits(y);
    var d := Diff(LsbBits(x), LsbBits(y));
    hide LsbBits, Ones;
    if ByteFlips(x, y) == 0 {
      NoMoreOnes(d);
      assert LsbBits(x) == LsbBits(y);
      SameBits(x, y);
    } else if x == y {
      NoOnes(d);
      assert false;
    }
  }

  lemma {:induction false} SameBytesIff(a: seq<byte>, b: seq<byte>)
    requires |a| == |b|
    ensures AllFlips(a, b) == 0 <==> a == b
    decreases a
  {
    hide ByteFlips;
    if a != [] {
      SameByteIff(a[0], b[0]);
      SameBytesIff(a[1..], b[1..]);
      assert a == [a[0]] + a[1..] && b == [b[0]] + b[1..];
    }
  }

  /** What one byte contributes. */
  lemma WithoutByte(a: seq<byte>, b: seq<byte>, i: nat)
    requires i < |a| == |b|
    ensures AllFlips(a, b) == AllFlips(a, b[i := a[i]]) + ByteFlips(a[i], b[i])
  {
    hide ByteFlips;
    FlipsUpdated(a, b, i, a[i]);
    SameByteIff(a[i], a[i]);
  }

  /** Two flips in two known bytes: one in each, and none elsewhere. */
  lemma TwoPlaces(a: seq<byte>, b: seq<byte>, i: nat, j: nat)
    requires i < |a| == |b| && j < |a| && i != j
    requires AllFlips(a, b) == 2 && a[i] != b[i] && a[j] != b[j]
    ensures ByteFlips(a[i], b[i]) == ByteFlips(a[j], b[j]) == 1
    ensures b == a[i := b[i]][j := b[j]]
  {
    hide ByteFlips, AllFlips;
    var c := b[i := a[i]];
    WithoutByte(a, b, i);
    WithoutByte(a, c, j);
    SameByteIff(a[i], b[i]);
    SameByteIff(a[j], b[j]);
    SameBytesIff(a, c[j := a[j]]);
  }

  lemma OnlyOne(d: seq<bool>) returns (k: nat)
    requires Ones(d) == 1
    ensures k < |d| && forall i | 0 <= i < |d| :: d[i] <==> i == k
  {
    SomeOne(d);
    k := FirstTrue(d);
    OnesFromFirst(d, k);
    NoMoreOnes(d[k + 1..]);
    forall i | 0 <= i < |d|
      ensures d[i] <==> i == k
    {
      if i > k {
        assert d[i] == d[k + 1..][i - k - 1];
      }
    }
  }

  /** One flip in a byte is in one bit. */
  lemma OneFlip(x: byte, y: byte) returns (k: nat)
    requires ByteFlips(x, y) == 1
    ensures k < 8 && forall i | 0 <= i < 8 :: LsbBits(x)[i] != LsbBits(y)[i] <==> i == k
  {
    EightBits(x);
    EightBits(y);
    hide LsbBits, Ones;
    k := OnlyOne(Diff(LsbBits(x), LsbBits(y)));
  }
}
