/** CRC-32: the shift loop the badge runs, against the table form of section 8 of RFC 1952. */
module Crc32 {
  import opened Bytes

  const POLY: bv32 := 0xEDB88320
  const ONES: bv32 := 0xFFFFFFFF

  function Xor(a: bv32, b: bv32): bv32 { a ^ b }

  function Half(a: bv32): bv32 { a >> 1 }

  function LowBit(a: bv32): bv32 { a & 1 }

  function LowOctet(a: bv32): bv32 { a & 0xFF }

  function DropOctet(a: bv32): bv32 { a >> 8 }

  // ── Section 8 of RFC 1952 ──

  function TableStep(c: bv32): bv32 {
    if LowBit(c) == 1 then Xor(POLY, Half(c)) else Half(c)
  }

  function TableSteps(c: bv32, k: nat): bv32 {
    if k == 0 then c else TableStep(TableSteps(c, k - 1))
  }

  /** Entry n of the table of CRCs of all octets. */
  function TableEntry(n: bv32): bv32 {
    TableSteps(n, 8)
  }

  function UpdateOctet(c: bv32, b: byte): bv32 {
    Xor(TableEntry(LowOctet(Xor(c, Widen(b)))), DropOctet(c))
  }

  function Register(c: bv32, s: seq<byte>): bv32 {
    if s == [] then c else UpdateOctet(Register(c, s[..|s| - 1]), s[|s| - 1])
  }

  /** update_crc of RFC 1952: pre- and post-conditioned, so results chain. */
  function UpdateCrc(crc: bv32, s: seq<byte>): bv32 {
    Xor(Register(Xor(crc, ONES), s), ONES)
  }

  function Crc(s: seq<byte>): bv32 {
    UpdateCrc(0, s)
  }

  // ── The badge's loop ──

  function Shift(c: bv32): bv32 {
    (c >> 1) ^ (POLY & (0 - (c & 1)))
  }

  lemma ShiftIsTableStep(c: bv32)
    ensures Shift(c) == TableStep(c)
  {
    assert c & 1 == 0 || c & 1 == 1;
  }

  // Word facts, one bit-vector identity each.
  lemma HalfXor(a: bv32, b: bv32)
    ensures Half(Xor(a, b)) == Xor(Half(a), Half(b))
  {}

  lemma LowBitXor(a: bv32, b: bv32)
    requires LowBit(b) == 0
    ensures LowBit(Xor(a, b)) == LowBit(a)
  {}

  lemma XorAssoc(a: bv32, b: bv32, c: bv32)
    ensures Xor(a, Xor(b, c)) == Xor(Xor(a, b), c)
  {}

  lemma XorTwice(a: bv32, b: bv32)
    ensures Xor(Xor(a, b), b) == a
  {}

  /** Everything above the low octet. */
  function HighPart(x: bv32): bv32 { x & 0xFFFFFF00 }

  lemma SplitWord(x: bv32)
    ensures Xor(LowOctet(x), HighPart(x)) == x
  {}

  lemma OctetIsLow(c: bv32, b: bv8)
    ensures DropOctet(HighPart(Xor(c, b as bv32))) == DropOctet(c)
  {}

  function Down(h: bv32, k: nat): bv32 {
    if k == 0 then h else Half(Down(h, k - 1))
  }

  lemma DownIsShift(h: bv32)
    ensures Down(h, 0) == h && Down(h, 1) == h >> 1 && Down(h, 2) == h >> 2 && Down(h, 3) == h >> 3
    ensures Down(h, 4) == h >> 4 && Down(h, 5) == h >> 5 && Down(h, 6) == h >> 6 && Down(h, 7) == h >> 7
    ensures Down(h, 8) == h >> 8
  {}

  lemma LowBitsClear(x: bv32)
    ensures var h := HighPart(x);
      && LowBit(h) == LowBit(h >> 1) == LowBit(h >> 2) == LowBit(h >> 3) == 0
      && LowBit(h >> 4) == LowBit(h >> 5) == LowBit(h >> 6) == LowBit(h >> 7) == 0
  {}

  lemma HighPartDown(x: bv32)
    ensures Down(HighPart(x), 8) == DropOctet(HighPart(x))
    ensures forall k :: 0 <= k < 8 ==> LowBit(Down(HighPart(x), k)) == 0
  {
    hide Down, HighPart, LowBit;
    DownIsShift(HighPart(x));
    LowBitsClear(x);
    forall k | 0 <= k < 8 ensures LowBit(Down(HighPart(x), k)) == 0 {
      assert k == 0 || k == 1 || k == 2 || k == 3 || k == 4 || k == 5 || k == 6 || k == 7;
    }
  }

  /** A step is linear, and a value whose low bit is clear only moves down. */
  lemma StepXor(a: bv32, b: bv32)
    requires LowBit(b) == 0
    ensures TableStep(Xor(a, b)) == Xor(TableStep(a), Half(b))
  {
    hide Xor, Half, LowBit;
    HalfXor(a, b);
    LowBitXor(a, b);
    XorAssoc(POLY, Half(a), Half(b));
  }

  lemma {:induction false} StepsXor(a: bv32, h: bv32, k: nat)
    requires forall j :: 0 <= j < k ==> LowBit(Down(h, j)) == 0
    ensures TableSteps(Xor(a, h), k) == Xor(TableSteps(a, k), Down(h, k))
  {
    hide Xor, Half, LowBit, TableStep;
    if k > 0 {
      StepsXor(a, h, k - 1);
      StepXor(TableSteps(a, k - 1), Down(h, k - 1));
    }
  }

  /** Eight shifts after mixing in an octet are one table lookup. */
  lemma EightShifts(c: bv32, b: byte)
    ensures TableSteps(Xor(c, Widen(b)), 8) == UpdateOctet(c, b)
  {
    hide Xor, Half, LowBit, TableStep, LowOctet, DropOctet, HighPart, TableSteps, Down;
    var x := Xor(c, Widen(b));
    SplitWord(x);
    HighPartDown(x);
    StepsXor(LowOctet(x), HighPart(x), 8);
    OctetIsLow(c, b as bv8);
  }

  /** The ROM routine: any starting CRC, any buffer. */
  method RomCrc32(crc0: bv32, buf: seq<byte>) returns (crc: bv32)
    ensures crc == UpdateCrc(crc0, buf)
  {
    hide Xor, Shift, TableStep, UpdateOctet;
    crc := Xor(crc0, ONES);
    var i := 0;
    while i < |buf|
      invariant i <= |buf| && crc == Register(Xor(crc0, ONES), buf[..i])
    {
      ghost var before := crc;
      crc := Xor(crc, Widen(buf[i]));
      ghost var mixed := crc;
      var k := 0;
      while k < 8
        invariant k <= 8 && crc == TableSteps(mixed, k)
      {
        ShiftIsTableStep(crc);
        crc := Shift(crc);
        k := k + 1;
      }
      EightShifts(before, buf[i]);
      assert buf[..i + 1][..i] == buf[..i];
      i := i + 1;
    }
    assert buf[..i] == buf;
    crc := Xor(crc, ONES);
  }

  lemma {:induction false} RegisterConcat(c: bv32, a: seq<byte>, b: seq<byte>)
    ensures Register(c, a + b) == Register(Register(c, a), b)
  {
    hide UpdateOctet;
    if b == [] {
      assert a + b == a;
    } else {
      var n := |b| - 1;
      RegisterConcat(c, a, b[..n]);
      assert (a + b)[..|a + b| - 1] == a + b[..n];
    }
  }

  /** The loop started at 0 computes the CRC. */
  lemma CrcIs(s: seq<byte>)
    ensures UpdateCrc(0, s) == Crc(s)
  {}

  lemma CrcRange(c: bv32)
    ensures 0 <= c as int < TWO_32
  {}

  /** A CRC taken in two pieces is the CRC of the whole. */
  lemma {:induction false} Composes(crc: bv32, a: seq<byte>, b: seq<byte>)
    ensures UpdateCrc(crc, a + b) == UpdateCrc(UpdateCrc(crc, a), b)
  {
    hide Xor, Register;
    RegisterConcat(Xor(crc, ONES), a, b);
    XorTwice(Register(Xor(crc, ONES), a), ONES);
  }

  // ── The check value that catalogues give for this CRC ──

  /** "123456789" */
  const CHECK: seq<byte> := [0x31, 0x32, 0x33, 0x34, 0x35, 0x36, 0x37, 0x38, 0x39]

  lemma Octet0()
    ensures UpdateOctet(0xffffffff, 0x31) == 0x7c231048
  {}

  lemma Octet1()
    ensures UpdateOctet(0x7c231048, 0x32) == 0xb0acbb32
  {}

  lemma Octet2()
    ensures UpdateOctet(0xb0acbb32, 0x33) == 0x77b79c2d
  {}

  lemma Octet3()
    ensures UpdateOctet(0x77b79c2d, 0x34) == 0x641c1f5c
  {}

  lemma Octet4()
    ensures UpdateOctet(0x641c1f5c, 0x35) == 0x340ac5e3
  {}

  lemma Octet5()
    ensures UpdateOctet(0x340ac5e3, 0x36) == 0xf68d2c9e
  {}

  lemma Octet6()
    ensures UpdateOctet(0xf68d2c9e, 0x37) == 0xaffc9660
  {}

  lemma Octet7()
    ensures UpdateOctet(0xaffc9660, 0x38) == 0x651f2550
  {}

  lemma Octet8()
    ensures UpdateOctet(0x651f2550, 0x39) == 0x340bc6d9
  {}

  lemma NextOctet(s: seq<byte>, b: byte, before: bv32, after: bv32) returns (more: seq<byte>)
    requires Register(ONES, s) == before && UpdateOctet(before, b) == after
    ensures more == s + [b] && Register(ONES, more) == after
  {
    hide UpdateOctet;
    more := s + [b];
    assert more[..|s|] == s;
  }

  lemma FirstThree()
    ensures Register(ONES, [0x31, 0x32, 0x33]) == 0x77b79c2d
  {
    var s: seq<byte> := [];
    assert Register(ONES, s) == ONES;
    hide UpdateOctet, Register;
    Octet0();
    s := NextOctet(s, 0x31, 0xffffffff, 0x7c231048);
    Octet1();
    s := NextOctet(s, 0x32, 0x7c231048, 0xb0acbb32);
    Octet2();
    s := NextOctet(s, 0x33, 0xb0acbb32, 0x77b79c2d);
    assert s == [0x31, 0x32, 0x33];
  }

  lemma NextThree()
    ensures Register(ONES, [0x31, 0x32, 0x33, 0x34, 0x35, 0x36]) == 0xf68d2c9e
  {
    var s: seq<byte> := [0x31, 0x32, 0x33];
    FirstThree();
    hide UpdateOctet, Register;
    Octet3();
    s := NextOctet(s, 0x34, 0x77b79c2d, 0x641c1f5c);
    Octet4();
    s := NextOctet(s, 0x35, 0x641c1f5c, 0x340ac5e3);
    Octet5();
    s := NextOctet(s, 0x36, 0x340ac5e3, 0xf68d2c9e);
    assert s == [0x31, 0x32, 0x33, 0x34, 0x35, 0x36];
  }

  lemma CheckRegister()
    ensures Register(ONES, CHECK) == 0x340bc6d9
  {
    var s: seq<byte> := [0x31, 0x32, 0x33, 0x34, 0x35, 0x36];
    NextThree();
    hide UpdateOctet, Register;
    Octet6();
    s := NextOctet(s, 0x37, 0xf68d2c9e, 0xaffc9660);
    Octet7();
    s := NextOctet(s, 0x38, 0xaffc9660, 0x651f2550);
    Octet8();
    s := NextOctet(s, 0x39, 0x651f2550, 0x340bc6d9);
    assert s == CHECK;
  }

  lemma CheckValue()
    ensures Crc(CHECK) == 0xCBF43926
  {
    CheckRegister();
    assert Xor(0, ONES) == ONES && Xor(0x340bc6d9, ONES) == 0xCBF43926;
    hide Register;
  }
}
