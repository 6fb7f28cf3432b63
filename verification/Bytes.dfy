/** Bytes, and their bits in both transmission orders. */
module Bytes {

  type byte = bv8

  datatype Option<+T> = None | Some(value: T)

  datatype Result<+T, +E> = Success(value: T) | Failure(error: E)

  /** The bits of one byte, most significant first. */
  function MsbBits(b: byte): seq<bool> {
    [b & 0x80 != 0, b & 0x40 != 0, b & 0x20 != 0, b & 0x10 != 0,
     b & 0x08 != 0, b & 0x04 != 0, b & 0x02 != 0, b & 0x01 != 0]
  }

  /** The bits of one byte, least significant first: the order AX.25 sends them in. */
  function LsbBits(b: byte): seq<bool> {
    [b & 0x01 != 0, b & 0x02 != 0, b & 0x04 != 0, b & 0x08 != 0,
     b & 0x10 != 0, b & 0x20 != 0, b & 0x40 != 0, b & 0x80 != 0]
  }

  /** The bits of a byte string, each byte spelt out by `spell`. */
  function AllBits(spell: byte -> seq<bool>, data: seq<byte>): seq<bool> {
    if data == [] then [] else spell(data[0]) + AllBits(spell, data[1..])
  }

  lemma {:induction false} AllBitsConcat(spell: byte -> seq<bool>, a: seq<byte>, b: seq<byte>)
    ensures AllBits(spell, a + b) == AllBits(spell, a) + AllBits(spell, b)
  {
    if a == [] {
      assert a + b == b;
    } else {
      AllBitsConcat(spell, a[1..], b);
      assert (a + b)[1..] == a[1..] + b;
      Associate(spell(a[0]), AllBits(spell, a[1..]), AllBits(spell, b));
    }
  }

  lemma {:induction false} AllBitsLength(spell: byte -> seq<bool>, data: seq<byte>)
    requires forall b: byte :: |spell(b)| == 8
    ensures |AllBits(spell, data)| == 8 * |data|
  {
    if data != [] {
      AllBitsLength(spell, data[1..]);
    }
  }

  lemma Associate<T>(a: seq<T>, b: seq<T>, c: seq<T>)
    ensures (a + b) + c == a + (b + c)
  {}

  /** The byte with value `n`, put together from its two hexadecimal digits. */
  function ByteOf(n: nat): (b: byte)
    requires n < 256
    ensures b as int == n
  {
    NibbleValue(n / 16);
    NibbleValue(n % 16);
    NibblesValue((n / 16) as bv4, (n % 16) as bv4);
    (((n / 16) as bv4 as byte) << 4) | ((n % 16) as bv4 as byte)
  }

  lemma NibbleValue(n: nat)
    requires n < 16
    ensures (n as bv4) as int == n
  {}

  lemma NibblesValue(hi: bv4, lo: bv4)
    ensures ((((hi as byte) << 4) | (lo as byte)) as int) == 16 * (hi as int) + lo as int
  {}

  lemma ByteOfValue(b: byte)
    ensures (b as int) < 256 && ByteOf(b as int) == b
  {
    SameValue(ByteOf(b as int), b);
  }

  lemma SameValue(a: byte, b: byte)
    requires a as int == b as int
    ensures a == b
  {}

  // ----- Big-endian integers, as struct.pack writes them -----

  function Be16(n: nat): (s: seq<byte>)
    requires n < 0x1_0000
    ensures |s| == 2 && Be16Value(s) == n
  {
    [ByteOf(n / 0x100), ByteOf(n % 0x100)]
  }

  function Be16Value(s: seq<byte>): (n: nat)
    requires |s| == 2
    ensures n < 0x1_0000
  {
    ByteOfValue(s[0]);
    ByteOfValue(s[1]);
    0x100 * (s[0] as int) + s[1] as int
  }

  lemma TwoDigits(hi: nat, lo: nat)
    requires lo < 0x100
    ensures (0x100 * hi + lo) / 0x100 == hi && (0x100 * hi + lo) % 0x100 == lo
  {}

  lemma Be16Digits(s: seq<byte>)
    requires |s| == 2
    ensures Be16Value(s) / 0x100 == s[0] as int && Be16Value(s) % 0x100 == s[1] as int
  {
    ByteOfValue(s[1]);
    TwoDigits(s[0] as int, s[1] as int);
    hide ByteOf;
  }

  lemma Be16OfValue(s: seq<byte>)
    requires |s| == 2
    ensures Be16(Be16Value(s)) == s
  {
    ByteOfValue(s[0]);
    ByteOfValue(s[1]);
    Be16Digits(s);
    hide ByteOf, Be16Value;
  }

  function Be32(n: nat): (s: seq<byte>)
    requires n < 0x1_0000_0000
    ensures |s| == 4 && Be32Value(s) == n
  {
    Be16(n / 0x1_0000) + Be16(n % 0x1_0000)
  }

  function Be32Value(s: seq<byte>): (n: nat)
    requires |s| == 4
    ensures n < 0x1_0000_0000
  {
    0x1_0000 * Be16Value(s[..2]) + Be16Value(s[2..])
  }

  lemma Be32OfValue(s: seq<byte>)
    requires |s| == 4
    ensures Be32(Be32Value(s)) == s
  {
    hide ByteOf, Be16, Be16Value;
    Be16OfValue(s[..2]);
    Be16OfValue(s[2..]);
    assert Be32Value(s) / 0x1_0000 == Be16Value(s[..2]) && Be32Value(s) % 0x1_0000 == Be16Value(s[2..]);
    assert s == s[..2] + s[2..];
  }
}
