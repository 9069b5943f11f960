/** Big-endian numbers on the wire. */
module Bytes {
  import opened Words

  /** The low `width` bytes of x, most significant first. */
  function BigEndian(x: nat, width: nat): (r: seq<byte>)
    ensures |r| == width
  {
    if width == 0 then [] else BigEndian(x / 256, width - 1) + [x % 256]
  }

  function Value(bytes: seq<byte>): nat
    decreases |bytes|
  {
    if bytes == [] then 0 else Value(bytes[..|bytes| - 1]) * 256 + bytes[|bytes| - 1]
  }

  function Pow256(n: nat): nat
  {
    if n == 0 then 1 else Pow256(n - 1) * 256
  }

  lemma {:induction false} ValueOfBigEndian(x: nat, width: nat)
    requires x < Pow256(width)
    ensures Value(BigEndian(x, width)) == x
  {
    if width > 0 {
      ValueOfBigEndian(x / 256, width - 1);
      assert BigEndian(x, width)[..width - 1] == BigEndian(x / 256, width - 1);
    }
  }

  lemma {:induction false} BigEndianOfValue(bytes: seq<byte>)
    ensures BigEndian(Value(bytes), |bytes|) == bytes
    decreases |bytes|
  {
    if bytes != [] {
      var front, last := bytes[..|bytes| - 1], bytes[|bytes| - 1];
      BigEndianOfValue(front);
      assert Value(bytes) / 256 == Value(front) && Value(bytes) % 256 == last;
      assert front + [last] == bytes;
    }
  }

  lemma {:induction false} ValueBelow(bytes: seq<byte>)
    ensures Value(bytes) < Pow256(|bytes|)
    decreases |bytes|
  {
    if bytes != [] { ValueBelow(bytes[..|bytes| - 1]); }
  }

  lemma WordSizes()
    ensures Pow256(4) == TWO32 && Pow256(8) == TWO64
  {
    assert Pow256(2) == 65536;
    assert Pow256(4) == TWO32;
    assert Pow256(6) == TWO32 * 65536;
  }
}
