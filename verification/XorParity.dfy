/** Byte-wise XOR parity over n columns: the FEC stand-in of protocol/packet.py and native/src/codec2_fec.c. */
module XorParity {
  import opened Bytes

  function XorBytes(a: byte, b: byte): byte { a ^ b }

  /** The XOR of the bytes of column j, that is at the positions congruent to j modulo n. */
  function Column(data: seq<byte>, n: nat, j: nat): byte
    requires n > 0
  {
    if data == [] then 0 else
      var i := |data| - 1;
      var c := Column(data[..i], n, j);
      if i % n == j then XorBytes(c, data[i]) else c
  }

  function Parity(data: seq<byte>, n: nat): (p: seq<byte>)
    requires n > 0
    ensures |p| == n
  {
    seq(n, j requires 0 <= j < n => Column(data, n, j))
  }

  /** Accumulates the parity in place, as both implementations do. */
  method ComputeParity(data: seq<byte>, n: nat) returns (parity: array<byte>)
    requires n > 0
    ensures fresh(parity) && parity[..] == Parity(data, n)
  {
    parity := new byte[n](_ => 0);
    for i := 0 to |data|
      invariant forall j | 0 <= j < n :: parity[j] == Column(data[..i], n, j)
    {
      assert data[..i + 1][..i] == data[..i];
      parity[i % n] := parity[i % n] ^ data[i];
    }
    assert data[..|data|] == data;
  }

  // ----- What the parity is, bit by bit -----

  predicate BitSet(b: byte, bit: nat)
    requires bit < 8
  {
    LsbBits(b)[bit]
  }

  /** The places in column j where the bit is set. */
  function SetAt(data: seq<byte>, n: nat, j: nat, bit: nat): set<nat>
    requires n > 0 && bit < 8
  {
    set i | 0 <= i < |data| && i % n == j && BitSet(data[i], bit)
  }

  lemma MaskOfXor(a: byte, b: byte, m: byte)
    requires m & (m - 1) == 0
    ensures (XorBytes(a, b) & m != 0) == ((a & m != 0) != (b & m != 0))
  {}

  lemma BitOfXor(a: byte, b: byte, bit: nat)
    requires bit < 8
    ensures BitSet(XorBytes(a, b), bit) == (BitSet(a, bit) != BitSet(b, bit))
  {
    hide XorBytes;
    MaskOfXor(a, b, [0x01, 0x02, 0x04, 0x08, 0x10, 0x20, 0x40, 0x80][bit]);
  }

  lemma SetAtNext(data: seq<byte>, n: nat, j: nat, bit: nat)
    requires n > 0 && bit < 8 && data != []
    ensures var i := |data| - 1;
      |SetAt(data, n, j, bit)| == |SetAt(data[..i], n, j, bit)| + (if i % n == j && BitSet(data[i], bit) then 1 else 0)
  {
    hide BitSet;
    var i := |data| - 1;
    var before := SetAt(data[..i], n, j, bit);
    assert i !in before;
    if i % n == j && BitSet(data[i], bit) {
      assert SetAt(data, n, j, bit) == before + {i};
    } else {
      assert SetAt(data, n, j, bit) == before;
    }
  }

  lemma {:induction false} ColumnBit(data: seq<byte>, n: nat, j: nat, bit: nat)
    requires j < n && bit < 8
    ensures BitSet(Column(data, n, j), bit) <==> |SetAt(data, n, j, bit)| % 2 == 1
    decreases data
  {
    hide BitSet, XorBytes;
    if data == [] {
      NoBitOfZero(bit);
      assert SetAt(data, n, j, bit) == {};
    } else {
      hide SetAt;
      var i := |data| - 1;
      ColumnBit(data[..i], n, j, bit);
      SetAtNext(data, n, j, bit);
      BitOfXor(Column(data[..i], n, j), data[i], bit);
    }
  }

  /** A parity bit is set exactly when an odd number of the bytes of its column have it set. */
  lemma ParityBit(data: seq<byte>, n: nat, j: nat, bit: nat)
    requires j < n && bit < 8
    ensures BitSet(Parity(data, n)[j], bit) <==> |SetAt(data, n, j, bit)| % 2 == 1
  {
    ColumnBit(data, n, j, bit);
    hide Column, BitSet, SetAt;
  }

  lemma NoBitOfZero(bit: nat)
    requires bit < 8
    ensures !BitSet(0, bit)
  {}

  // ----- Differences -----

  /** How many parity bytes disagree, compared pairwise as far as both go. */
  function Mismatches(received: seq<byte>, expected: seq<byte>): nat {
    if received == [] || expected == [] then 0
    else (if received[0] != expected[0] then 1 else 0) + Mismatches(received[1..], expected[1..])
  }

  /** The places, as far as both go, where they disagree. */
  function Disagreeing(p: seq<byte>, q: seq<byte>): set<nat> {
    set j | 0 <= j < |p| && j < |q| && p[j] != q[j]
  }

  lemma {:induction false} MismatchesCount(p: seq<byte>, q: seq<byte>)
    ensures Mismatches(p, q) == |Disagreeing(p, q)|
    decreases p
  {
    var places := Disagreeing(p, q);
    if p == [] || q == [] {
      assert places == {};
    } else {
      MismatchesCount(p[1..], q[1..]);
      var later := Disagreeing(p[1..], q[1..]);
      Moved(later);
      forall j: nat
        ensures j in places <==> j in OneOn(later) + if p[0] != q[0] then {0} else {}
      {
        if j > 0 {
          assert j in places <==> j - 1 in later;
          if j - 1 in later { assert (j - 1) + 1 in OneOn(later); }
        }
      }
      assert places == OneOn(later) + if p[0] != q[0] then {0} else {};
    }
  }

  function OneOn(s: set<nat>): (t: set<nat>)
    ensures forall j: nat :: j in t ==> j >= 1 && j - 1 in s
  {
    set j | j in s :: j + 1
  }

  lemma MovedOne(s: set<nat>, k: nat)
    requires k in s
    ensures OneOn(s) == OneOn(s - {k}) + {k + 1} && k + 1 !in OneOn(s - {k})
  {
    forall j: nat
      ensures j in OneOn(s) <==> j in OneOn(s - {k}) + {k + 1}
    {
      if j in OneOn(s) && j != k + 1 { assert j - 1 in s - {k} && (j - 1) + 1 in OneOn(s - {k}); }
      if j in OneOn(s - {k}) { assert (j - 1) + 1 in OneOn(s); }
    }
  }

  lemma {:induction false} Moved(s: set<nat>)
    ensures |OneOn(s)| == |s|
    decreases s
  {
    if s != {} {
      var k :| k in s;
      MovedOne(s, k);
      Moved(s - {k});
      hide OneOn;
    }
  }

  lemma {:induction false} NoMismatch(p: seq<byte>)
    ensures Mismatches(p, p) == 0
  {
    if p != [] { NoMismatch(p[1..]); }
  }

  lemma XorSwap(a: byte, b: byte, e: byte)
    ensures XorBytes(XorBytes(a, e), b) == XorBytes(XorBytes(a, b), e) == XorBytes(a, XorBytes(b, e))
    ensures XorBytes(XorBytes(a, e), e) == a
    ensures XorBytes(a, XorBytes(a, b)) == b
    ensures e != 0 ==> XorBytes(a, e) != a
    ensures a != b ==> XorBytes(a, b) != 0
  {}

  /** Parity is linear: a difference in one byte appears in its column, and in no other. */
  lemma {:induction false} ColumnXor(data: seq<byte>, n: nat, j: nat, k: nat, e: byte)
    requires n > 0 && k < |data|
    ensures var c := Column(data, n, j);
            Column(data[k := XorBytes(data[k], e)], n, j) == if k % n == j then XorBytes(c, e) else c
    decreases |data|
  {
    hide XorBytes;
    var i := |data| - 1;
    var changed := data[k := XorBytes(data[k], e)];
    if k == i {
      assert changed[..i] == data[..i];
      XorSwap(Column(data[..i], n, j), data[i], e);
    } else {
      assert changed[..i] == data[..i][k := XorBytes(data[k], e)];
      ColumnXor(data[..i], n, j, k, e);
      XorSwap(Column(data[..i], n, j), data[i], e);
    }
  }

  lemma {:induction false} OneMismatch(p: seq<byte>, q: seq<byte>, k: nat)
    requires |p| == |q| && k < |p|
    requires forall j | 0 <= j < |p| :: p[j] != q[j] <==> j == k
    ensures Mismatches(p, q) == 1
  {
    assert p[0] != q[0] <==> 0 == k;
    forall j | 0 <= j < |p| - 1
      ensures p[1..][j] != q[1..][j] <==> j == k - 1
    {
      assert p[j + 1] != q[j + 1] <==> j + 1 == k;
    }
    if k == 0 {
      assert p[1..] == q[1..];
      NoMismatch(p[1..]);
    } else {
      OneMismatch(p[1..], q[1..], k - 1);
    }
  }

  /** A single corrupted data byte is reported as exactly one mismatch. */
  lemma SingleByteErrorCountsOne(data: seq<byte>, n: nat, k: nat, b: byte)
    requires n > 0 && k < |data| && b != data[k]
    ensures Mismatches(Parity(data, n), Parity(data[k := b], n)) == 1
  {
    hide Column, XorBytes;
    var p, q := Parity(data, n), Parity(data[k := b], n);
    var e := XorBytes(data[k], b);
    XorSwap(data[k], b, e);
    forall j | 0 <= j < n
      ensures p[j] != q[j] <==> j == k % n
    {
      ColumnXor(data, n, j, k, e);
      XorSwap(Column(data, n, j), 0, e);
    }
    OneMismatch(p, q, k % n);
  }
}
