/** FEC frames for voice (native/src/codec2_fec.c): four parity bytes, interleaved over four rows. */
module FecFrame {
  import opened Bytes
  import opened XorParity
  import opened Interleaver

  const MAX_INPUT := 24
  const MAX_OUTPUT := 32
  const PARITY_BYTES := 4
  const ROWS := 4

  function Encoded(data: seq<byte>, interleave: bool): (frame: seq<byte>)
    ensures |frame| == |data| + PARITY_BYTES
  {
    var frame := data + Parity(data, PARITY_BYTES);
    if interleave && |frame| > 4 then Interleaved(frame, ROWS) else frame
  }

  function Straightened(received: seq<byte>, interleaved: bool): (work: seq<byte>)
    ensures |work| == |received|
  {
    if interleaved && |received| > 4 then Deinterleaved(received, ROWS) else received
  }

  /** The data returned and the number of parity bytes that disagree. */
  function Decoded(received: seq<byte>, dataLen: nat, interleaved: bool): (seq<byte>, nat)
    requires dataLen + PARITY_BYTES <= |received|
  {
    var work := Straightened(received, interleaved);
    (work[..dataLen], Mismatches(work[dataLen..dataLen + PARITY_BYTES], Parity(work[..dataLen], PARITY_BYTES)))
  }

  method Copy(from: array<byte>, to: array<byte>, at: nat, length: nat)
    requires from != to && length <= from.Length && at + length <= to.Length
    modifies to
    ensures to[..at] == old(to[..at]) && to[at..at + length] == from[..length]
    ensures forall i | at + length <= i < to.Length :: to[i] == old(to[i])
  {
    forall i | 0 <= i < length {
      to[at + i] := from[i];
    }
  }

  method Encode(input: array<byte>, inputLen: int, output: array<byte>, interleave: bool) returns (ok: bool, outputLen: nat)
    requires input != output && inputLen <= input.Length && inputLen + PARITY_BYTES <= output.Length
    modifies output
    ensures ok <==> 1 <= inputLen <= MAX_INPUT
    ensures ok ==> outputLen == inputLen + PARITY_BYTES && output[..outputLen] == Encoded(input[..inputLen], interleave)
  {
    if inputLen <= 0 || inputLen > MAX_INPUT {
      return false, 0;
    }
    hide Parity, Interleaved;
    Copy(input, output, 0, inputLen);
    var parity := ComputeParity(input[..inputLen], PARITY_BYTES);
    Copy(parity, output, inputLen, PARITY_BYTES);
    outputLen := inputLen + PARITY_BYTES;
    assert output[..outputLen] == output[..inputLen] + output[inputLen..outputLen];
    assert output[..outputLen] == input[..inputLen] + Parity(input[..inputLen], PARITY_BYTES);
    if interleave && outputLen > 4 {
      var temp := new byte[MAX_OUTPUT](_ => 0);
      Copy(output, temp, 0, outputLen);
      InterleaveBytes(temp, output, outputLen, ROWS);
    }
    ok := true;
  }

  method Decode(input: array<byte>, inputLen: nat, dataLen: nat, output: array<byte>, interleaved: bool) returns (ok: bool, errors: nat)
    requires inputLen <= input.Length && inputLen <= MAX_OUTPUT && dataLen <= output.Length && input != output
    modifies output
    ensures ok <==> dataLen + PARITY_BYTES <= inputLen
    ensures ok ==> (output[..dataLen], errors) == Decoded(input[..inputLen], dataLen, interleaved)
  {
    if inputLen < dataLen + PARITY_BYTES {
      return false, 0;
    }
    hide Parity, Straightened, Mismatches;
    var work := Straighten(input, inputLen, interleaved);
    ghost var straight := Straightened(input[..inputLen], interleaved);
    Copy(work, output, 0, dataLen);
    assert output[..dataLen] == straight[..dataLen];
    var received := work[dataLen..dataLen + PARITY_BYTES];
    assert received == straight[dataLen..dataLen + PARITY_BYTES];
    var expected := ComputeParity(output[..dataLen], PARITY_BYTES);
    errors := CountMismatches(received, expected);
    ok := true;
  }

  /** The working copy, de-interleaved if need be. */
  method Straighten(input: array<byte>, inputLen: nat, interleaved: bool) returns (work: array<byte>)
    requires inputLen <= input.Length && inputLen <= MAX_OUTPUT
    ensures fresh(work) && work.Length == MAX_OUTPUT && work[..inputLen] == Straightened(input[..inputLen], interleaved)
  {
    hide Deinterleaved;
    work := new byte[MAX_OUTPUT](_ => 0);
    Copy(input, work, 0, inputLen);
    if interleaved && inputLen > 4 {
      var temp := new byte[MAX_OUTPUT](_ => 0);
      DeinterleaveBytes(work, temp, inputLen, ROWS);
      Copy(temp, work, 0, inputLen);
    }
  }

  method CountMismatches(received: seq<byte>, expected: array<byte>) returns (errors: nat)
    requires |received| == expected.Length
    ensures errors == Mismatches(received, expected[..])
  {
    errors := 0;
    for i := 0 to |received|
      invariant errors + Mismatches(received[i..], expected[i..]) == Mismatches(received, expected[..])
    {
      assert received[i..][1..] == received[i + 1..] && expected[i..][1..] == expected[i + 1..];
      if received[i] != expected[i] {
        errors := errors + 1;
      }
    }
  }

  // ----- What decoding makes of an encoded frame -----

  lemma StraightenedFrame(data: seq<byte>, frame: seq<byte>, interleave: bool)
    requires |frame| == |data| + PARITY_BYTES
    ensures Straightened(if interleave && |frame| > 4 then Interleaved(frame, ROWS) else frame, interleave) == frame
  {
    hide Interleaved, Deinterleaved;
    RoundTrip(frame, ROWS);
  }

  /** An undamaged frame decodes to its data, with no error reported. */
  lemma CleanRoundTrip(data: seq<byte>, interleave: bool)
    ensures Decoded(Encoded(data, interleave), |data|, interleave) == (data, 0)
  {
    hide Parity, Interleaved, Deinterleaved, Straightened;
    var frame := data + Parity(data, PARITY_BYTES);
    StraightenedFrame(data, frame, interleave);
    NoMismatch(Parity(data, PARITY_BYTES));
    assert frame[..|data|] == data && frame[|data|..|data| + PARITY_BYTES] == Parity(data, PARITY_BYTES);
  }

  /** One damaged byte before interleaving, in the data or in the parity, is reported as exactly one mismatch. */
  lemma FrameDamage(data: seq<byte>, p: nat, b: byte)
    requires p < |data| + PARITY_BYTES
    requires b != (data + Parity(data, PARITY_BYTES))[p]
    ensures var frame := (data + Parity(data, PARITY_BYTES))[p := b];
            Mismatches(frame[|data|..|data| + PARITY_BYTES], Parity(frame[..|data|], PARITY_BYTES)) == 1
  {
    hide Parity, Mismatches;
    var parity := Parity(data, PARITY_BYTES);
    var frame := (data + parity)[p := b];
    if p < |data| {
      assert frame[..|data|] == data[p := b];
      assert frame[|data|..|data| + PARITY_BYTES] == parity;
      SingleByteErrorCountsOne(data, PARITY_BYTES, p, b);
    } else {
      assert frame[..|data|] == data;
      assert frame[|data|..|data| + PARITY_BYTES] == parity[p - |data| := b];
      OneMismatch(parity[p - |data| := b], parity, p - |data|);
    }
  }

  /** One damaged byte of a received frame, wherever it is, is reported as exactly one mismatch. */
  lemma SingleDamageCountsOne(data: seq<byte>, interleave: bool, i: nat, b: byte)
    requires i < |data| + PARITY_BYTES && b != Encoded(data, interleave)[i]
    ensures Decoded(Encoded(data, interleave)[i := b], |data|, interleave).1 == 1
  {
    hide Parity, Mismatches, Start, Index, RowOf, ColumnOf;
    var frame := data + Parity(data, PARITY_BYTES);
    var received := Encoded(data, interleave)[i := b];
    if interleave && |frame| > 4 {
      Shape(|frame|, ROWS);
      var cols := Cols(|frame|, ROWS);
      var p := Source(|frame|, cols, i);
      DamageMoves(frame, ROWS, i, b);
      FrameDamage(data, p, b);
    } else {
      FrameDamage(data, i, b);
    }
  }

  lemma DamageMoves(frame: seq<byte>, rows: nat, i: nat, b: byte)
    requires rows >= 1 && i < |frame|
    ensures Cols(|frame|, rows) >= 1
    ensures var p := Source(|frame|, Cols(|frame|, rows), i);
            && Interleaved(frame, rows)[i] == frame[p]
            && Deinterleaved(Interleaved(frame, rows)[i := b], rows) == frame[p := b]
  {
    hide Start, Index, RowOf, ColumnOf, Cols;
    Shape(|frame|, rows);
    var cols := Cols(|frame|, rows);
    var p := Source(|frame|, cols, i);
    var damaged := Interleaved(frame, rows)[i := b];
    forall k | 0 <= k < |frame|
      ensures Deinterleaved(damaged, rows)[k] == frame[p := b][k]
    {
      SourceOfIndex(|frame|, cols, k);
    }
  }

  // ----- Two damaged bytes -----

  /** The parity column of a byte of the frame: that of a data byte, or the parity byte's own. */
  function Class(n: nat, p: nat): nat
    requires p < n + PARITY_BYTES
  {
    if p < n then p % PARITY_BYTES else p - n
  }

  /** The position in the frame of the i-th byte on the air. */
  function Origin(n: nat, interleave: bool, i: nat): (p: nat)
    requires i < n + PARITY_BYTES
    ensures p < n + PARITY_BYTES
  {
    Shape(n + PARITY_BYTES, ROWS);
    if interleave && n + PARITY_BYTES > 4 then Source(n + PARITY_BYTES, Cols(n + PARITY_BYTES, ROWS), i) else i
  }

  /** By how much a parity byte disagrees. */
  function Syndrome(frame: seq<byte>, n: nat, j: nat): byte
    requires |frame| == n + PARITY_BYTES && j < PARITY_BYTES
  {
    XorBytes(frame[n + j], Column(frame[..n], PARITY_BYTES, j))
  }

  lemma SyndromeOfDamage(frame: seq<byte>, n: nat, p: nat, e: byte, j: nat)
    requires |frame| == n + PARITY_BYTES && p < |frame| && j < PARITY_BYTES
    ensures var s := Syndrome(frame, n, j);
      Syndrome(frame[p := XorBytes(frame[p], e)], n, j) == if Class(n, p) == j then XorBytes(s, e) else s
  {
    hide XorBytes, Column;
    var damaged := frame[p := XorBytes(frame[p], e)];
    var c := Column(frame[..n], PARITY_BYTES, j);
    if p < n {
      assert damaged[..n] == frame[..n][p := XorBytes(frame[..n][p], e)];
      ColumnXor(frame[..n], PARITY_BYTES, j, p, e);
      XorSwap(frame[n + j], c, e);
    } else {
      assert damaged[..n] == frame[..n];
      XorSwap(frame[n + j], c, e);
    }
  }

  lemma NoSyndrome(data: seq<byte>, j: nat)
    requires j < PARITY_BYTES
    ensures Syndrome(data + Parity(data, PARITY_BYTES), |data|, j) == 0
  {
    hide Column;
    var frame := data + Parity(data, PARITY_BYTES);
    assert frame[..|data|] == data && frame[|data| + j] == Column(data, PARITY_BYTES, j);
    XorSelf(Column(data, PARITY_BYTES, j));
  }

  lemma XorSelf(a: byte)
    ensures XorBytes(a, a) == 0
  {}

  /** A parity byte disagrees exactly where its syndrome is not zero. */
  lemma XorZeroIff(a: byte, b: byte)
    ensures XorBytes(a, b) == 0 <==> a == b
    ensures XorBytes(0, a) == a
  {}

  lemma MismatchesOf4(p: seq<byte>, q: seq<byte>)
    requires |p| == |q| == 4
    ensures Mismatches(p, q) == (if p[0] != q[0] then 1 else 0) + (if p[1] != q[1] then 1 else 0)
      + (if p[2] != q[2] then 1 else 0) + (if p[3] != q[3] then 1 else 0)
  {
    assert p[3..][1..] == [] && q[3..][1..] == [];
    assert p[2..][1..] == p[3..] && q[2..][1..] == q[3..] && p[1..][1..] == p[2..] && q[1..][1..] == q[2..];
    assert Mismatches(p[3..], q[3..]) == if p[3] != q[3] then 1 else 0;
    assert Mismatches(p[2..], q[2..]) == (if p[2] != q[2] then 1 else 0) + Mismatches(p[3..], q[3..]);
    assert Mismatches(p[1..], q[1..]) == (if p[1] != q[1] then 1 else 0) + Mismatches(p[2..], q[2..]);
  }

  lemma CountsSyndromes(frame: seq<byte>, n: nat)
    requires |frame| == n + PARITY_BYTES
    ensures Mismatches(frame[n..n + PARITY_BYTES], Parity(frame[..n], PARITY_BYTES)) ==
      (if Syndrome(frame, n, 0) != 0 then 1 else 0) + (if Syndrome(frame, n, 1) != 0 then 1 else 0)
      + (if Syndrome(frame, n, 2) != 0 then 1 else 0) + (if Syndrome(frame, n, 3) != 0 then 1 else 0)
  {
    hide Column, XorBytes, Mismatches;
    var received, expected := frame[n..n + PARITY_BYTES], Parity(frame[..n], PARITY_BYTES);
    MismatchesOf4(received, expected);
    XorZeroIff(received[0], expected[0]);
    XorZeroIff(received[1], expected[1]);
    XorZeroIff(received[2], expected[2]);
    XorZeroIff(received[3], expected[3]);
  }

  /** How many mismatches two damaged bytes of a frame make. */
  function MismatchesFor(sameClass: bool, e: byte, f: byte): nat {
    if !sameClass then 2 else if e == f then 0 else 1
  }

  lemma FrameDamagedTwice(data: seq<byte>, p: nat, q: nat, e: byte, f: byte)
    requires p < |data| + PARITY_BYTES && q < |data| + PARITY_BYTES && p != q && e != 0 && f != 0
    ensures var n := |data|;
      var frame := data + Parity(data, PARITY_BYTES);
      var damaged := frame[p := XorBytes(frame[p], e)][q := XorBytes(frame[q], f)];
      Mismatches(damaged[n..n + PARITY_BYTES], Parity(damaged[..n], PARITY_BYTES)) == MismatchesFor(Class(n, p) == Class(n, q), e, f)
  {
    var n := |data|;
    var frame := data + Parity(data, PARITY_BYTES);
    var once := frame[p := XorBytes(frame[p], e)];
    var damaged := once[q := XorBytes(frame[q], f)];
    hide Parity, XorBytes, Syndrome;
    forall j | 0 <= j < PARITY_BYTES
      ensures Syndrome(damaged, n, j) != 0 <==>
              (Class(n, p) == j && Class(n, q) != j) || (Class(n, q) == j && Class(n, p) != j) || (Class(n, p) == Class(n, q) == j && e != f)
    {
      NoSyndrome(data, j);
      SyndromeOfDamage(frame, n, p, e, j);
      SyndromeOfDamage(once, n, q, f, j);
      XorZeroIff(e, f);
      XorZeroIff(f, f);
    }
    CountsSyndromes(damaged, n);
  }

  lemma OriginsDiffer(n: nat, interleave: bool, i: nat, j: nat)
    requires i < n + PARITY_BYTES && j < n + PARITY_BYTES && i != j
    ensures Origin(n, interleave, i) != Origin(n, interleave, j)
  {
    hide Start, Index, RowOf, ColumnOf;
    Shape(n + PARITY_BYTES, ROWS);
  }

  /** Two damaged bytes on the air are two damaged bytes of the frame, at their origins. */
  lemma DamageArrives(data: seq<byte>, interleave: bool, i: nat, j: nat, e: byte, f: byte)
    requires i < |data| + PARITY_BYTES && j < |data| + PARITY_BYTES && i != j
    ensures var frame, sent := data + Parity(data, PARITY_BYTES), Encoded(data, interleave);
      var p, q := Origin(|data|, interleave, i), Origin(|data|, interleave, j);
      Straightened(sent[i := XorBytes(sent[i], e)][j := XorBytes(sent[j], f)], interleave) ==
        frame[p := XorBytes(frame[p], e)][q := XorBytes(frame[q], f)]
  {
    hide Parity, XorBytes, Start, Index, RowOf, ColumnOf;
    var frame, sent := data + Parity(data, PARITY_BYTES), Encoded(data, interleave);
    if interleave && |frame| > 4 {
      Shape(|frame|, ROWS);
      var p := Origin(|data|, interleave, i);
      var once := frame[p := XorBytes(frame[p], e)];
      OriginsDiffer(|data|, interleave, i, j);
      DamageMoves(frame, ROWS, i, XorBytes(sent[i], e));
      DamageMoves(frame, ROWS, j, XorBytes(sent[j], f));
      RoundTrip(sent[i := XorBytes(sent[i], e)], ROWS);
      assert Interleaved(once, ROWS) == sent[i := XorBytes(sent[i], e)];
      DamageMoves(once, ROWS, j, XorBytes(sent[j], f));
    }
  }

  /**
   * Two damaged bytes anywhere in a received frame: two mismatches if they come from different parity
   * columns, otherwise one, or none if both are damaged alike; and in that last case the data is wrong.
   */
  lemma DoubleDamage(data: seq<byte>, interleave: bool, i: nat, j: nat, e: byte, f: byte)
    requires i < |data| + PARITY_BYTES && j < |data| + PARITY_BYTES && i != j && e != 0 && f != 0
    ensures var n, sent := |data|, Encoded(data, interleave);
      var received := sent[i := XorBytes(sent[i], e)][j := XorBytes(sent[j], f)];
      var (decoded, errors) := Decoded(received, n, interleave);
      && errors == MismatchesFor(Class(n, Origin(n, interleave, i)) == Class(n, Origin(n, interleave, j)), e, f)
      && (errors == 0 <==> Class(n, Origin(n, interleave, i)) == Class(n, Origin(n, interleave, j)) && e == f)
      && (errors == 0 ==> decoded != data)
  {
    var n := |data|;
    var frame := data + Parity(data, PARITY_BYTES);
    var p, q := Origin(n, interleave, i), Origin(n, interleave, j);
    OriginsDiffer(n, interleave, i, j);
    DamageArrives(data, interleave, i, j, e, f);
    FrameDamagedTwice(data, p, q, e, f);
    hide Parity, Origin, Encoded, Straightened, Mismatches;
    if p < n {
      XorSwap(data[p], 0, e);
    }
    if q < n {
      XorSwap(data[q], 0, f);
    }
    hide XorBytes;
    var damaged := frame[p := XorBytes(frame[p], e)][q := XorBytes(frame[q], f)];
    if p < n {
      assert damaged[..n][p] != data[p];
    } else if q < n {
      assert damaged[..n][q] != data[q];
    }
  }

  // ----- Neighbours on the air -----

  /** Whether equal damage to the i-th byte and the next goes unnoticed. */
  predicate Collides(n: nat, interleave: bool, i: nat)
    requires i + 1 < n + PARITY_BYTES
  {
    Class(n, Origin(n, interleave, i)) == Class(n, Origin(n, interleave, i + 1))
  }

  /** The same seen from the frame: the byte at p and the one sent after it. */
  predicate Clash(n: nat, cols: nat, p: nat)
    requires 1 <= cols && p < n + PARITY_BYTES
  {
    After(n + PARITY_BYTES, cols, p) < n + PARITY_BYTES
    && Class(n, p) == Class(n, After(n + PARITY_BYTES, cols, p))
    && (p + cols < n + PARITY_BYTES || p % cols + 1 < cols)
  }

  lemma CollidesIffClash(n: nat, i: nat)
    requires n >= 1 && i + 1 < n + PARITY_BYTES
    ensures var cols := Cols(n + PARITY_BYTES, ROWS);
      cols >= 1 && (Collides(n, true, i) <==> Clash(n, cols, Source(n + PARITY_BYTES, cols, i)))
  {
    var length := n + PARITY_BYTES;
    Shape(length, ROWS);
    var cols := Cols(length, ROWS);
    SourceAfter(length, cols, i);
    hide Source, Cols, Class;
  }

  /** A clash is a collision where the byte goes out. */
  lemma ClashCollides(n: nat, p: nat)
    requires n >= 1 && p < n + PARITY_BYTES
    requires Cols(n + PARITY_BYTES, ROWS) >= 1 && Clash(n, Cols(n + PARITY_BYTES, ROWS), p)
    ensures var i := Index(n + PARITY_BYTES, Cols(n + PARITY_BYTES, ROWS), p); i + 1 < n + PARITY_BYTES && Collides(n, true, i)
  {
    var length, cols := n + PARITY_BYTES, Cols(n + PARITY_BYTES, ROWS);
    Shape(length, ROWS);
    SourceOfIndex(length, cols, p);
    NotLast(length, cols, p);
    CollidesIffClash(n, Index(length, cols, p));
  }

  lemma NotLast(length: nat, cols: nat, p: nat)
    requires 1 <= cols <= length && p < length && (p + cols < length || p % cols + 1 < cols)
    ensures Index(length, cols, p) + 1 < length
  {
    SourceOfIndex(length, cols, p);
    IndexInColumn(length, cols, p);
    StartAtEnd(length, cols);
    hide Start, Index;
    if p + cols < length {
      RowBelow(length, cols, p);
      SourceOfIndex(length, cols, p + cols);
    } else {
      IndexOfTop(length, cols, p % cols + 1);
      SourceOfIndex(length, cols, p % cols + 1);
    }
  }

  /** Data lengths whose interleaved frames have no two neighbours of one parity column. */
  const SAFE_LENGTHS: set<nat> := {1, 3, 4, 6, 15, 16, 19, 20, 21}

  lemma NoClashInTwo(n: nat, p: nat)
    requires n in {1, 3, 4} && p < n + PARITY_BYTES
    ensures !Clash(n, 2, p)
  {}

  lemma NoClashInThree(p: nat)
    requires p < 6 + PARITY_BYTES
    ensures !Clash(6, 3, p)
  {}

  lemma NoClashInFive(n: nat, p: nat)
    requires n in {15, 16} && p < n + PARITY_BYTES
    ensures !Clash(n, 5, p)
  {}

  lemma NoClashInSix(n: nat, p: nat)
    requires n in {19, 20} && p < n + PARITY_BYTES
    ensures !Clash(n, 6, p)
  {}

  lemma NoClashInSeven(p: nat)
    requires p < 21 + PARITY_BYTES
    ensures !Clash(21, 7, p)
  {}

  lemma NoClash(n: nat, cols: nat, p: nat)
    requires n in SAFE_LENGTHS && cols == (n + 7) / 4 && p < n + PARITY_BYTES
    ensures !Clash(n, cols, p)
  {
    hide Clash;
    if n <= 4 {
      NoClashInTwo(n, p);
    } else if n == 6 {
      NoClashInThree(p);
    } else if n <= 16 {
      NoClashInFive(n, p);
    } else if n <= 20 {
      NoClashInSix(n, p);
    } else {
      NoClashInSeven(p);
    }
  }

  /** A position whose byte and the next clash, for the other lengths. */
  function ClashAt(n: nat): (p: nat)
    requires 1 <= n <= MAX_INPUT && n !in SAFE_LENGTHS
    ensures p < n + PARITY_BYTES && Clash(n, (n + 7) / 4, p)
  {
    match n
    case 5 => 6
    case 7 => 6
    case 8 => 9
    case 13 => 10
    case 14 => 15
    case 17 => 18
    case 18 => 12
    case 22 | 23 | 24 => 21
    case _ => 0
  }

  /**
   * For every length the encoder takes: equal damage to some two neighbouring bytes of an interleaved
   * frame goes unnoticed exactly when the length is not one of the safe ones.
   */
  lemma NeighboursCollideIff(n: nat)
    requires 1 <= n <= MAX_INPUT
    ensures (exists i :: 0 <= i && i + 1 < n + PARITY_BYTES && Collides(n, true, i)) <==> n !in SAFE_LENGTHS
  {
    var cols := Cols(n + PARITY_BYTES, ROWS);
    assert cols == (n + 7) / 4;
    hide Cols, Clash, Collides;
    if n in SAFE_LENGTHS {
      forall i: nat | i + 1 < n + PARITY_BYTES
        ensures !Collides(n, true, i)
      {
        CollidesIffClash(n, i);
        NoClash(n, cols, Source(n + PARITY_BYTES, cols, i));
      }
    } else {
      ClashCollides(n, ClashAt(n));
    }
  }

  /** Without interleaving, exactly when the last data byte shares its column with the first parity byte. */
  lemma PlainNeighboursCollideIff(n: nat)
    requires n >= 1
    ensures (exists i :: 0 <= i && i + 1 < n + PARITY_BYTES && Collides(n, false, i)) <==> n % 4 == 1
  {
    forall i: nat | i + 1 < n + PARITY_BYTES
      ensures Collides(n, false, i) <==> i == n - 1 && n % 4 == 1
    {}
    if n % 4 == 1 {
      assert Collides(n, false, n - 1);
    }
  }
}
