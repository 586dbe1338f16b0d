/** Big-endian integers of a fixed width, as the `byteorder` crate reads and writes them. */
module BigEndian {
  import opened Base

  function Pow256(width: nat): (p: nat)
    ensures p > 0
  {
    if width == 0 then 1 else 256 * Pow256(width - 1)
  }

  function Encode(n: nat, width: nat): (bs: Bytes)
    ensures |bs| == width
  {
    if width == 0 then [] else Encode(n / 256, width - 1) + [n % 256]
  }

  function Decode(bs: Bytes): nat {
    if bs == [] then 0 else Decode(bs[..|bs| - 1]) * 256 + bs[|bs| - 1]
  }

  lemma {:induction false} DecodeEncode(n: nat, width: nat)
    requires n < Pow256(width)
    ensures Decode(Encode(n, width)) == n
  {
    if width > 0 {
      var bs := Encode(n, width);
      assert bs[..|bs| - 1] == Encode(n / 256, width - 1);
      DecodeEncode(n / 256, width - 1);
    }
  }

  lemma {:induction false} EncodeDecode(bs: Bytes)
    ensures Decode(bs) < Pow256(|bs|)
    ensures Encode(Decode(bs), |bs|) == bs
  {
    if bs != [] {
      var front := bs[..|bs| - 1];
      EncodeDecode(front);
      assert Decode(bs) / 256 == Decode(front);
      assert bs == front + [bs[|bs| - 1]];
    }
  }

  lemma Widths()
    ensures Pow256(1) == 256 && Pow256(2) == 0x1_0000
    ensures Pow256(8) == TWO_64
  {
    assert Pow256(4) == 256 * (256 * Pow256(2));
    assert Pow256(6) == 256 * (256 * Pow256(4));
    assert Pow256(8) == 256 * (256 * Pow256(6));
  }
}
