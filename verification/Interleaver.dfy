/** The ragged block interleaver of native/src/codec2_fec.c: written row by row, read column by column. */
module Interleaver {
  import opened Bytes
  import opened Arithmetic

  /** Columns of the matrix that `length` bytes fill, the last row perhaps only in part. */
  function Cols(length: nat, rows: nat): nat
    requires rows >= 1
  {
    (length + rows - 1) / rows
  }

  /** Bytes in column c: one more in the columns that the last row reaches. */
  function Height(length: nat, cols: nat, c: nat): nat
    requires cols >= 1
  {
    length / cols + if c < length % cols then 1 else 0
  }

  /** Where column c begins in the output. */
  function Start(length: nat, cols: nat, c: nat): nat
    requires cols >= 1
  {
    if c == 0 then 0 else Start(length, cols, c - 1) + Height(length, cols, c - 1)
  }

  /** Where the byte at position p goes. */
  function Index(length: nat, cols: nat, p: nat): nat
    requires cols >= 1
  {
    Start(length, cols, p % cols) + p / cols
  }

  // ----- The matrix -----

  lemma Shape(length: nat, rows: nat)
    requires length >= 1 && rows >= 1
    ensures 1 <= Cols(length, rows) <= length && length <= rows * Cols(length, rows)
  {
    var cols := Cols(length, rows);
    var spare := (length + rows - 1) % rows;
    assert length + rows - 1 == rows * cols + spare;
    assert rows * cols == rows * length + (cols - length) * rows;
    AtLeastOneTimes(rows, length);
    if cols > length {
      AtLeastOneTimes(cols - length, rows);
      assert false;
    }
  }

  /** Row r of column c exists exactly below the column's height. */
  lemma Cell(length: nat, cols: nat, r: nat, c: nat)
    requires c < cols
    ensures r * cols + c < length <==> r < Height(length, cols, c)
    ensures (r * cols + c) % cols == c && (r * cols + c) / cols == r
    ensures Index(length, cols, r * cols + c) == Start(length, cols, c) + r
  {
    var q, m := length / cols, length % cols;
    QuotientRemainder(r * cols + c, cols, r, c);
    assert length == q * cols + m;
    if r < q {
      AtLeastOneTimes(q - r, cols);
      assert q * cols == r * cols + (q - r) * cols;
    } else if r > q {
      AtLeastOneTimes(r - q, cols);
      assert r * cols == q * cols + (r - q) * cols;
    }
  }

  lemma {:induction false} StartIs(length: nat, cols: nat, c: nat)
    requires cols >= 1
    ensures Start(length, cols, c) == c * (length / cols) + if c < length % cols then c else length % cols
    decreases c
  {
    if c > 0 {
      StartIs(length, cols, c - 1);
      assert c * (length / cols) == (c - 1) * (length / cols) + length / cols;
    }
  }

  lemma StartAtEnd(length: nat, cols: nat)
    requires cols >= 1
    ensures Start(length, cols, cols) == length
  {
    StartIs(length, cols, cols);
  }

  lemma {:induction false} StartMonotone(length: nat, cols: nat, a: nat, b: nat)
    requires cols >= 1 && a <= b
    ensures Start(length, cols, a) <= Start(length, cols, b)
    decreases b
  {
    if a < b {
      StartMonotone(length, cols, a, b - 1);
    }
  }

  /** A byte stays within its column's part of the output. */
  lemma IndexInColumn(length: nat, cols: nat, p: nat)
    requires cols >= 1 && p < length
    ensures Start(length, cols, p % cols) <= Index(length, cols, p) < Start(length, cols, p % cols + 1)
  {
    assert p == p / cols * cols + p % cols;
    Cell(length, cols, p / cols, p % cols);
  }

  /** The column that output position i belongs to, looked for from column c on. */
  function ColumnOf(length: nat, cols: nat, i: nat, c: nat): (column: nat)
    requires cols >= 1 && i < length && c < cols && Start(length, cols, c) <= i
    ensures c <= column < cols && Start(length, cols, column) <= i < Start(length, cols, column + 1)
    decreases cols - c
  {
    StartAtEnd(length, cols);
    if i < Start(length, cols, c + 1) then c else ColumnOf(length, cols, i, c + 1)
  }

  lemma ColumnUnique(length: nat, cols: nat, i: nat, a: nat, b: nat)
    requires cols >= 1
    requires Start(length, cols, a) <= i < Start(length, cols, a + 1)
    requires Start(length, cols, b) <= i < Start(length, cols, b + 1)
    ensures a == b
  {
    if a < b {
      StartMonotone(length, cols, a + 1, b);
    } else if b < a {
      StartMonotone(length, cols, b + 1, a);
    }
  }

  /** The row of the matrix that output position i comes from. */
  function RowOf(length: nat, cols: nat, i: nat): nat
    requires cols >= 1 && i < length
  {
    i - Start(length, cols, ColumnOf(length, cols, i, 0))
  }

  /** The position that output position i comes from. */
  function Source(length: nat, cols: nat, i: nat): (p: nat)
    requires cols >= 1 && i < length
    ensures p < length && Index(length, cols, p) == i && p / cols == RowOf(length, cols, i)
  {
    var c := ColumnOf(length, cols, i, 0);
    Cell(length, cols, RowOf(length, cols, i), c);
    RowOf(length, cols, i) * cols + c
  }

  lemma SourceOfIndex(length: nat, cols: nat, p: nat)
    requires cols >= 1 && p < length
    ensures Index(length, cols, p) < length && Source(length, cols, Index(length, cols, p)) == p
  {
    hide Height;
    IndexInColumn(length, cols, p);
    StartMonotone(length, cols, p % cols + 1, cols);
    StartAtEnd(length, cols);
    var i := Index(length, cols, p);
    ColumnUnique(length, cols, i, p % cols, ColumnOf(length, cols, i, 0));
    assert p == p / cols * cols + p % cols;
  }

  // ----- What the two loops compute -----

  function Interleaved(data: seq<byte>, rows: nat): (r: seq<byte>)
    requires rows >= 1
    ensures |r| == |data|
  {
    if data == [] then []
    else
      Shape(|data|, rows);
      var cols := Cols(|data|, rows);
      seq(|data|, i requires 0 <= i < |data| => data[Source(|data|, cols, i)])
  }

  function Deinterleaved(data: seq<byte>, rows: nat): (r: seq<byte>)
    requires rows >= 1
    ensures |r| == |data|
  {
    if data == [] then []
    else
      Shape(|data|, rows);
      var cols := Cols(|data|, rows);
      seq(|data|, p requires 0 <= p < |data| => SourceOfIndex(|data|, cols, p); data[Index(|data|, cols, p)])
  }

  /** Whether the loops have passed position p when they stand at column c, row r. */
  predicate Passed(cols: nat, p: nat, c: nat, r: nat)
    requires cols >= 1
  {
    p % cols < c || (p % cols == c && p / cols < r)
  }

  lemma PassedBelow(length: nat, cols: nat, p: nat, c: nat, r: nat)
    requires cols >= 1 && p < length && Passed(cols, p, c, r)
    ensures Index(length, cols, p) < Start(length, cols, c) + r
  {
    IndexInColumn(length, cols, p);
    if p % cols < c {
      StartMonotone(length, cols, p % cols + 1, c);
    }
  }

  lemma PassedNext(length: nat, cols: nat, p: nat, c: nat, r: nat)
    requires c < cols && p < length
    ensures Passed(cols, p, c, r + 1) <==> Passed(cols, p, c, r) || p == r * cols + c
    ensures r >= Height(length, cols, c) ==> (Passed(cols, p, c, r) <==> Passed(cols, p, c + 1, 0))
  {
    hide Start, Height, Index;
    var row, column := p / cols, p % cols;
    assert p == row * cols + column;
    Cell(length, cols, r, c);
    Cell(length, cols, row, column);
  }

  lemma HeightFits(length: nat, rows: nat, c: nat)
    requires length >= 1 && rows >= 1 && c < Cols(length, rows)
    ensures Height(length, Cols(length, rows), c) <= rows
  {
    Shape(length, rows);
    Cell(length, Cols(length, rows), rows, c);
  }

  /** How much of column c is out when the loops stand at row r. */
  function Filled(length: nat, cols: nat, c: nat, r: nat): nat
    requires cols >= 1
  {
    if r < Height(length, cols, c) then r else Height(length, cols, c)
  }

  /** One round of the inner loop: the cell below the column's height is the next output position, unused so far. */
  lemma Round(length: nat, cols: nat, c: nat, r: nat)
    requires c < cols
    ensures r * cols + c < length <==> Filled(length, cols, c, r + 1) == Filled(length, cols, c, r) + 1
    ensures r * cols + c < length ==>
              Index(length, cols, r * cols + c) == Start(length, cols, c) + Filled(length, cols, c, r) < length
    ensures r * cols + c >= length ==> Filled(length, cols, c, r + 1) == Filled(length, cols, c, r)
    ensures forall p | 0 <= p < length :: Passed(cols, p, c, r + 1) <==> Passed(cols, p, c, r) || p == r * cols + c
    ensures r * cols + c < length ==>
              forall p | 0 <= p < length && Passed(cols, p, c, r) :: Index(length, cols, p) < Start(length, cols, c) + Filled(length, cols, c, r)
  {
    hide Index, Start, Passed;
    Cell(length, cols, r, c);
    forall p | 0 <= p < length
      ensures Passed(cols, p, c, r + 1) <==> Passed(cols, p, c, r) || p == r * cols + c
      ensures Passed(cols, p, c, r) ==> Index(length, cols, p) < Start(length, cols, c) + r
    {
      PassedNext(length, cols, p, c, r);
      if Passed(cols, p, c, r) {
        PassedBelow(length, cols, p, c, r);
      }
    }
    if r * cols + c < length {
      SourceOfIndex(length, cols, r * cols + c);
    }
  }

  /** The end of a column is the beginning of the next. */
  lemma Turn(length: nat, rows: nat, c: nat)
    requires length >= 1 && rows >= 1 && c < Cols(length, rows)
    ensures var cols := Cols(length, rows);
            && Start(length, cols, c) + Filled(length, cols, c, rows) == Start(length, cols, c + 1) + Filled(length, cols, c + 1, 0)
            && forall p | 0 <= p < length :: Passed(cols, p, c, rows) <==> Passed(cols, p, c + 1, 0)
  {
    var cols := Cols(length, rows);
    HeightFits(length, rows, c);
    forall p | 0 <= p < length
      ensures Passed(cols, p, c, rows) <==> Passed(cols, p, c + 1, 0)
    {
      PassedNext(length, cols, p, c, rows);
    }
  }

  lemma AllPassed(length: nat, cols: nat)
    requires cols >= 1
    ensures forall p | 0 <= p < length :: !Passed(cols, p, 0, 0) && Passed(cols, p, cols, 0)
    ensures Start(length, cols, 0) + Filled(length, cols, 0, 0) == 0
    ensures Start(length, cols, cols) + Filled(length, cols, cols, 0) == length
  {
    StartAtEnd(length, cols);
  }

  lemma InterleavedWhen(data: seq<byte>, rows: nat, out: seq<byte>)
    requires data != [] && rows >= 1 && |out| == |data|
    requires Cols(|data|, rows) >= 1
    requires forall p | 0 <= p < |data| ::
               Index(|data|, Cols(|data|, rows), p) < |out| && out[Index(|data|, Cols(|data|, rows), p)] == data[p]
    ensures out == Interleaved(data, rows)
  {
    hide Index, Cols, RowOf, ColumnOf;
    forall i | 0 <= i < |data|
      ensures out[i] == Interleaved(data, rows)[i]
    {
      assert out[Index(|data|, Cols(|data|, rows), Source(|data|, Cols(|data|, rows), i))] == data[Source(|data|, Cols(|data|, rows), i)];
    }
  }

  /** The padding loop of the source never runs: the output is full by then. */
  method InterleaveBytes(input: array<byte>, output: array<byte>, length: int, rows: int)
    requires input != output && length <= input.Length && length <= output.Length
    modifies output
    ensures length > 0 && rows > 0 ==> output[..length] == Interleaved(input[..length], rows)
    ensures length <= 0 || rows <= 0 ==> output[..] == old(output[..])
    ensures forall i | 0 <= i < output.Length && i >= length :: output[i] == old(output[i])
  {
    if length <= 0 || rows <= 0 {
      return;
    }
    Shape(length, rows);
    var cols := (length + rows - 1) / rows;
    assert cols == Cols(length, rows);
    hide Start, Index, Cols, Passed, Filled, Interleaved;
    AllPassed(length, cols);
    var idx := 0;
    for c := 0 to cols
      invariant idx == Start(length, cols, c) + Filled(length, cols, c, 0)
      invariant forall p | 0 <= p < length && Passed(cols, p, c, 0) ::
                  Index(length, cols, p) < length && output[Index(length, cols, p)] == input[p]
      invariant forall i | length <= i < output.Length :: output[i] == old(output[i])
    {
      for r := 0 to rows
        invariant idx == Start(length, cols, c) + Filled(length, cols, c, r)
        invariant forall p | 0 <= p < length && Passed(cols, p, c, r) ::
                    Index(length, cols, p) < length && output[Index(length, cols, p)] == input[p]
        invariant forall i | length <= i < output.Length :: output[i] == old(output[i])
      {
        Round(length, cols, c, r);
        var src := r * cols + c;
        if src < length {
          output[idx] := input[src];
          idx := idx + 1;
        }
      }
      Turn(length, rows, c);
    }
    InterleavedWhen(input[..length], rows, output[..length]);
  }

  method DeinterleaveBytes(input: array<byte>, output: array<byte>, length: int, rows: int)
    requires input != output && length <= input.Length && length <= output.Length
    modifies output
    ensures length > 0 && rows > 0 ==> output[..length] == Deinterleaved(input[..length], rows)
    ensures length <= 0 || rows <= 0 ==> output[..] == old(output[..])
    ensures forall i | 0 <= i < output.Length && i >= length :: output[i] == old(output[i])
  {
    if length <= 0 || rows <= 0 {
      return;
    }
    Shape(length, rows);
    var cols := (length + rows - 1) / rows;
    assert cols == Cols(length, rows);
    hide Start, Index, Cols, Passed, Filled;
    AllPassed(length, cols);
    var idx := 0;
    for c := 0 to cols
      invariant idx == Start(length, cols, c) + Filled(length, cols, c, 0)
      invariant forall p | 0 <= p < length && Passed(cols, p, c, 0) ::
                  Index(length, cols, p) < length && output[p] == input[Index(length, cols, p)]
      invariant forall i | length <= i < output.Length :: output[i] == old(output[i])
    {
      for r := 0 to rows
        invariant idx == Start(length, cols, c) + Filled(length, cols, c, r)
        invariant forall p | 0 <= p < length && Passed(cols, p, c, r) ::
                    Index(length, cols, p) < length && output[p] == input[Index(length, cols, p)]
        invariant forall i | length <= i < output.Length :: output[i] == old(output[i])
      {
        Round(length, cols, c, r);
        var dst := r * cols + c;
        if dst < length {
          output[dst] := input[idx];
          idx := idx + 1;
        }
      }
      Turn(length, rows, c);
    }
    assert forall p | 0 <= p < length :: output[p] == Deinterleaved(input[..length], rows)[p];
  }

  // ----- The interleaver's promises -----

  /** De-interleaving undoes interleaving, and the other way round, for every length and row count. */
  lemma RoundTrip(data: seq<byte>, rows: nat)
    requires rows >= 1
    ensures Deinterleaved(Interleaved(data, rows), rows) == data
    ensures Interleaved(Deinterleaved(data, rows), rows) == data
  {
    hide Start, Index, Cols, RowOf, ColumnOf;
    if data != [] {
      Shape(|data|, rows);
      var cols := Cols(|data|, rows);
      forall p | 0 <= p < |data|
        ensures Deinterleaved(Interleaved(data, rows), rows)[p] == data[p]
        ensures Interleaved(Deinterleaved(data, rows), rows)[p] == data[p]
      {
        SourceOfIndex(|data|, cols, p);
      }
    }
  }

  /** Less than a full column on, the output is in the same column further down or in the next one further up. */
  lemma NextColumn(length: nat, cols: nat, i: nat, j: nat)
    requires cols >= 1 && i < j < length && j - i < length / cols
    ensures var c, d := ColumnOf(length, cols, i, 0), ColumnOf(length, cols, j, 0);
            var r, s := RowOf(length, cols, i), RowOf(length, cols, j);
            (d == c && r < s) || (d == c + 1 && s < r)
  {
    hide ColumnOf;
    var c, d := ColumnOf(length, cols, i, 0), ColumnOf(length, cols, j, 0);
    assert Start(length, cols, c + 1) == Start(length, cols, c) + Height(length, cols, c);
    assert Start(length, cols, c + 2) == Start(length, cols, c + 1) + Height(length, cols, c + 1);
    if d < c {
      StartMonotone(length, cols, d + 1, c);
    } else if d >= c + 2 {
      StartMonotone(length, cols, c + 2, d);
    }
  }

  lemma Apart(cols: nat, r: nat, c: nat, s: nat, d: nat)
    requires (d == c && r < s) || (d == c + 1 && s < r)
    ensures var a, b := r * cols + c, s * cols + d; (if a < b then b - a else a - b) >= cols - 1
  {
    if r < s {
      AtLeastOneTimes(s - r, cols);
      assert (s - r) * cols == s * cols - r * cols;
    } else {
      AtLeastOneTimes(r - s, cols);
      assert (r - s) * cols == r * cols - s * cols;
    }
  }

  /**
   * Burst resilience: bytes less than a full column apart in the output come from different rows of
   * the matrix, at original positions at least a row less one byte apart.
   */
  lemma BurstSpread(length: nat, cols: nat, i: nat, j: nat)
    requires cols >= 1 && i < j < length && j - i < length / cols
    ensures Source(length, cols, i) / cols != Source(length, cols, j) / cols
    ensures var a, b := Source(length, cols, i), Source(length, cols, j); (if a < b then b - a else a - b) >= cols - 1
  {
    hide ColumnOf, RowOf, Height, Index;
    NextColumn(length, cols, i, j);
    Apart(cols, RowOf(length, cols, i), ColumnOf(length, cols, i, 0), RowOf(length, cols, j), ColumnOf(length, cols, j, 0));
  }

  /** The byte sent after the one at position p: the next row of its column, or the top of the next column. */
  function After(length: nat, cols: nat, p: nat): nat
    requires cols >= 1
  {
    if p + cols < length then p + cols else p % cols + 1
  }

  lemma StartNext(length: nat, cols: nat, c: nat)
    requires cols >= 1
    ensures Start(length, cols, c + 1) == Start(length, cols, c) + Height(length, cols, c)
  {}

  /** A position, the row below it, and the column's height. */
  lemma RowBelow(length: nat, cols: nat, p: nat)
    requires cols >= 1
    ensures p < length <==> p / cols < Height(length, cols, p % cols)
    ensures p + cols < length <==> p / cols + 1 < Height(length, cols, p % cols)
    ensures Index(length, cols, p + cols) == Index(length, cols, p) + 1
  {
    var r, c := p / cols, p % cols;
    assert p == r * cols + c && p + cols == (r + 1) * cols + c;
    hide Start, Height;
    Cell(length, cols, r, c);
    Cell(length, cols, r + 1, c);
  }

  lemma IndexOfTop(length: nat, cols: nat, c: nat)
    requires c < cols
    ensures Index(length, cols, c) == Start(length, cols, c)
  {
    hide Start;
    QuotientRemainder(c, cols, 0, c);
  }

  /** Where a column ends and it is not the last, the next one begins. */
  lemma ColumnEnds(length: nat, cols: nat, p: nat)
    requires cols >= 1 && p < length && p + cols >= length && Index(length, cols, p) + 1 < length
    ensures p % cols + 1 < cols && Start(length, cols, p % cols + 1) == Index(length, cols, p) + 1
  {
    RowBelow(length, cols, p);
    StartNext(length, cols, p % cols);
    StartAtEnd(length, cols);
    hide Start, Height;
    assert Index(length, cols, p) == Start(length, cols, p % cols) + p / cols;
  }

  lemma AfterBelow(length: nat, cols: nat, p: nat)
    requires 1 <= cols && p < length && p + cols < length
    ensures After(length, cols, p) == p + cols
    ensures Index(length, cols, p + cols) == Index(length, cols, p) + 1
    ensures Index(length, cols, p) + 1 < length && Source(length, cols, Index(length, cols, p) + 1) == p + cols
  {
    hide Start, Height, Index, Source;
    RowBelow(length, cols, p);
    SourceOfIndex(length, cols, p + cols);
  }

  lemma AfterTop(length: nat, cols: nat, p: nat)
    requires 1 <= cols <= length && p < length && p + cols >= length && Index(length, cols, p) + 1 < length
    ensures p % cols + 1 < cols && After(length, cols, p) == p % cols + 1
    ensures Source(length, cols, Index(length, cols, p) + 1) == p % cols + 1
  {
    hide Start, Height, Index, Source;
    ColumnEnds(length, cols, p);
    IndexOfTop(length, cols, p % cols + 1);
    SourceOfIndex(length, cols, p % cols + 1);
  }

  lemma SourceAfter(length: nat, cols: nat, i: nat)
    requires 1 <= cols <= length && i + 1 < length
    ensures var p := Source(length, cols, i);
      && Source(length, cols, i + 1) == After(length, cols, p)
      && (p + cols < length || p % cols + 1 < cols)
  {
    var p := Source(length, cols, i);
    hide Start, Height, Index, Source, After;
    if p + cols < length {
      AfterBelow(length, cols, p);
    } else {
      AfterTop(length, cols, p);
    }
  }
}
