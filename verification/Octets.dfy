/** Numbers as they stand on the wire. */
module Octets {
  import opened Bytes

  /** Most significant octet first. */
  function Number(data: seq<byte>): nat {
    if data == [] then 0 else 256 * Number(data[..|data| - 1]) + data[|data| - 1] as int
  }

  lemma Numbers(data: seq<byte>)
    ensures |data| == 2 ==> Number(data) == Be16Value(data)
    ensures |data| == 4 ==> Number(data) == Be32Value(data)
  {
    if |data| == 2 {
      TwoOctets(data);
    } else if |data| == 4 {
      TwoOctets(data[..2]);
      TwoOctets(data[2..]);
      hide Be16Value;
      assert data[..3][..2] == data[..2] && data[..3][2] == data[2] == data[2..][0] && data[3] == data[2..][1];
      assert Number(data) == 256 * Number(data[..3]) + data[3] as int;
      assert Number(data[..3]) == 256 * Number(data[..2]) + data[2] as int;
    }
  }

  lemma TwoOctets(data: seq<byte>)
    requires |data| == 2
    ensures Number(data) == Be16Value(data) == 256 * (data[0] as int) + data[1] as int
  {
    assert data[..1][..0] == [];
    assert Number(data[..1]) == 256 * Number([]) + data[0] as int;
  }
}
