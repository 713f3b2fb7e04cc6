/** Octets, and fixed-width integers written as octets. */
module Bytes {
  type byte = x: int | 0 <= x < 256

  const TWO_32 := 0x1_0000_0000
  const TWO_64 := 0x1_0000_0000_0000_0000

  function Widen(b: byte): bv32 {
    (b as bv8) as bv32
  }

  /** Most significant octet first. */
  function BigEndian(v: nat, width: nat): (s: seq<byte>)
    ensures |s| == width
  {
    if width == 0 then [] else BigEndian(v / 256, width - 1) + [v % 256]
  }

  /** Least significant octet first. */
  function LittleEndian(v: nat, width: nat): (s: seq<byte>)
    ensures |s| == width
  {
    if width == 0 then [] else [v % 256] + LittleEndian(v / 256, width - 1)
  }

  function FromBigEndian(s: seq<byte>): nat {
    if s == [] then 0 else 256 * FromBigEndian(s[..|s| - 1]) + s[|s| - 1]
  }

  function FromLittleEndian(s: seq<byte>): nat {
    if s == [] then 0 else s[0] + 256 * FromLittleEndian(s[1..])
  }

  function Capacity(width: nat): (c: nat)
    ensures c > 0
  {
    if width == 0 then 1 else 256 * Capacity(width - 1)
  }

  lemma Capacities()
    ensures Capacity(1) == 256 && Capacity(2) == 65536
    ensures Capacity(4) == TWO_32 && Capacity(8) == TWO_64
  {
    assert Capacity(2) == 256 * Capacity(1);
    assert Capacity(4) == 256 * Capacity(3) == 256 * (256 * Capacity(2));
    assert Capacity(8) == 256 * Capacity(7) == 256 * (256 * Capacity(6));
    assert Capacity(6) == 256 * Capacity(5) == 256 * (256 * Capacity(4));
  }

  lemma OneMoreOctet(s: seq<byte>, b: byte)
    ensures FromBigEndian(s + [b]) == 256 * FromBigEndian(s) + b
  {
    assert (s + [b])[..|s|] == s;
  }

  lemma FitsLess(v: nat, c: nat)
    requires v < 256 * c
    ensures v / 256 < c && v == 256 * (v / 256) + v % 256
  {}

  lemma Within32(v: nat)
    requires v < TWO_32
    ensures v % TWO_32 == v
  {}

  /** The pieces of a concatenation. */
  lemma Pieces<T>(whole: seq<T>, a: seq<T>, b: seq<T>, c: seq<T>)
    requires whole == a + b + c
    ensures |whole| == |a| + |b| + |c|
    ensures whole[..|a|] == a && whole[|a|..|a| + |b|] == b && whole[|a| + |b|..] == c
  {}

  /** A value that fits its field is read back. */
  lemma {:induction false} BigEndianRoundTrip(v: nat, width: nat)
    requires v < Capacity(width)
    ensures FromBigEndian(BigEndian(v, width)) == v
  {
    if width > 0 {
      var front := BigEndian(v / 256, width - 1);
      assert BigEndian(v, width) == front + [v % 256];
      FitsLess(v, Capacity(width - 1));
      BigEndianRoundTrip(v / 256, width - 1);
      OneMoreOctet(front, v % 256);
    }
  }

  lemma {:induction false} LittleEndianRoundTrip(v: nat, width: nat)
    requires v < Capacity(width)
    ensures FromLittleEndian(LittleEndian(v, width)) == v
  {
    if width > 0 {
      LittleEndianRoundTrip(v / 256, width - 1);
      assert LittleEndian(v, width)[1..] == LittleEndian(v / 256, width - 1);
    }
  }
}
