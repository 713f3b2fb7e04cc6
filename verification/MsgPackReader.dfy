/** The badge's MessagePack cursor, and that it undoes the encoder. */
module MsgPackReader {
  import opened Bytes
  import opened MsgPackFormat

  const MAX_DEPTH := 16

  // ── What the reader's methods compute ──

  /** Whether a step succeeded, and where it left the cursor. */
  datatype Step = Step(ok: bool, cur: nat)

  /** The same for a step that reads a number. */
  datatype Read = Read(ok: bool, value: int, cur: nat)

  function ReadBig(d: seq<byte>, cur: nat, width: nat): (r: Read)
    requires cur <= |d|
    ensures r.value >= 0 && cur <= r.cur <= |d|
  {
    if |d| - cur < width then Read(false, 0, cur) else Read(true, FromBigEndian(d[cur..cur + width]), cur + width)
  }

  function SkipBytes(d: seq<byte>, cur: nat, len: nat): Step
    requires cur <= |d|
  {
    if |d| - cur < len then Step(false, cur) else Step(true, cur + len)
  }

  /** A length of width octets, then as many octets. */
  function SkipCounted(d: seq<byte>, cur: nat, width: nat): Step
    requires cur <= |d|
  {
    var n := ReadBig(d, cur, width);
    if n.ok then SkipBytes(d, n.cur, n.value) else Step(false, n.cur)
  }

  /** The bits of v, a number of width octets, as a signed number. */
  function Signed(v: int, width: nat): int {
    if 2 * v >= Capacity(width) then v - Capacity(width) else v
  }

  function ReadSigned(d: seq<byte>, cur: nat, width: nat): Read
    requires cur <= |d|
  {
    var n := ReadBig(d, cur, width);
    if n.ok then n.(value := Signed(n.value, width)) else n
  }

  function ReadUInt(d: seq<byte>, cur: nat): Read
    requires cur <= |d|
  {
    if cur == |d| then Read(false, 0, cur)
    else
      var m := d[cur];
      if m <= 0x7F then Read(true, m, cur + 1)
      else if m == 0xCC then ReadBig(d, cur + 1, 1)
      else if m == 0xCD then ReadBig(d, cur + 1, 2)
      else if m == 0xCE then ReadBig(d, cur + 1, 4)
      else if m == 0xCF then ReadBig(d, cur + 1, 8)
      else Read(false, 0, cur + 1)
  }

  function ReadInt(d: seq<byte>, cur: nat): Read
    requires cur <= |d|
  {
    if cur == |d| then Read(false, 0, cur)
    else
      var m := d[cur];
      if m <= 0x7F then Read(true, m, cur + 1)
      else if m >= 0xE0 then Read(true, (m as int) - 256, cur + 1)
      else if m == 0xCC then ReadBig(d, cur + 1, 1)
      else if m == 0xCD then ReadBig(d, cur + 1, 2)
      else if m == 0xCE then ReadBig(d, cur + 1, 4)
      else if m == 0xD0 then ReadSigned(d, cur + 1, 1)
      else if m == 0xD1 then ReadSigned(d, cur + 1, 2)
      else if m == 0xD2 then ReadSigned(d, cur + 1, 4)
      else if m == 0xD3 then ReadSigned(d, cur + 1, 8)
      else if m == 0xCF then ReadSigned(d, cur + 1, 8)
      else Read(false, 0, cur + 1)
  }

  /** readArray and readMap: a fix marker from fix on, or one of two lengths. */
  function ReadCount(d: seq<byte>, cur: nat, fix: byte, m16: byte, m32: byte): Read
    requires cur <= |d|
  {
    if cur == |d| then Read(false, 0, cur)
    else
      var m := d[cur];
      if fix <= m < fix + 16 then Read(true, m - fix, cur + 1)
      else if m == m16 then ReadBig(d, cur + 1, 2)
      else if m == m32 then ReadBig(d, cur + 1, 4)
      else Read(false, 0, cur + 1)
  }

  /** The length in front of a string or a binary. */
  function ReadBytesLen(d: seq<byte>, cur: nat): Read
    requires cur <= |d|
  {
    if cur == |d| then Read(false, 0, cur)
    else
      var m := d[cur];
      if 0xA0 <= m < 0xC0 then Read(true, m - 0xA0, cur + 1)
      else if m == 0xD9 || m == 0xC4 then ReadBig(d, cur + 1, 1)
      else if m == 0xDA || m == 0xC5 then ReadBig(d, cur + 1, 2)
      else if m == 0xDB || m == 0xC6 then ReadBig(d, cur + 1, 4)
      else Read(false, 0, cur + 1)
  }

  /** u32 * 2 in 32 bits */
  function PairItems(n: nat): nat {
    2 * n % TWO_32
  }

  function Skip(d: seq<byte>, cur: nat, depth: nat): (r: Step)
    requires cur <= |d|
    ensures cur <= r.cur <= |d|
    decreases if depth > MAX_DEPTH then 0 else MAX_DEPTH + 1 - depth, 0, 0
  {
    if depth > MAX_DEPTH then Step(false, cur)
    else if cur == |d| then Step(false, cur)
    else
      var m, at := d[cur], cur + 1;
      if m <= 0x7F || m >= 0xE0 || m == 0xC0 || m == 0xC2 || m == 0xC3 then Step(true, at)
      else if 0xA0 <= m < 0xC0 then SkipBytes(d, at, m - 0xA0)
      else if 0x90 <= m < 0xA0 then SkipItems(d, at, depth + 1, m - 0x90)
      else if 0x80 <= m < 0x90 then SkipItems(d, at, depth + 1, PairItems(m - 0x80))
      else if m == 0xC4 || m == 0xD9 then SkipCounted(d, at, 1)
      else if m == 0xC5 || m == 0xDA then SkipCounted(d, at, 2)
      else if m == 0xC6 || m == 0xDB then SkipCounted(d, at, 4)
      else if m == 0xCC || m == 0xD0 then SkipBytes(d, at, 1)
      else if m == 0xCD || m == 0xD1 then SkipBytes(d, at, 2)
      else if m == 0xCE || m == 0xD2 || m == 0xCA then SkipBytes(d, at, 4)
      else if m == 0xCF || m == 0xD3 || m == 0xCB then SkipBytes(d, at, 8)
      else if 0xDC <= m <= 0xDF then
        var n := ReadBig(d, at, if m % 2 == 0 then 2 else 4);
        if !n.ok then Step(false, n.cur)
        else SkipItems(d, n.cur, depth + 1, if m < 0xDE then n.value else PairItems(n.value))
      else Step(false, at)
  }

  /** n values one after the other, stopping at the first that cannot be skipped. */
  function SkipItems(d: seq<byte>, cur: nat, depth: nat, n: nat): (r: Step)
    requires cur <= |d|
    ensures cur <= r.cur <= |d|
    decreases if depth > MAX_DEPTH then 0 else MAX_DEPTH + 1 - depth, 1, n
  {
    if n == 0 then Step(true, cur)
    else
      var first := Skip(d, cur, depth);
      if first.ok then SkipItems(d, first.cur, depth, n - 1) else first
  }

  lemma OneOctet(d: seq<byte>, cur: nat)
    requires cur < |d|
    ensures ReadBig(d, cur, 1) == Read(true, d[cur], cur + 1)
  {
    var x := d[cur..cur + 1];
    assert x == [d[cur]] && x[..0] == [];
    assert FromBigEndian(x) == 256 * FromBigEndian(x[..0]) + d[cur];
  }

  // ── The reader itself ──

  class Reader {
    const data: seq<byte>
    var cur: nat

    /** A null buffer reads like an empty one. */
    constructor (data: seq<byte>)
      ensures this.data == data && cur == 0
    {
      this.data, cur := data, 0;
    }

    /** The cursor is never past the end. */
    ghost predicate Valid()
      reads this
    {
      cur <= |data|
    }

    /** A method did what r describes. */
    ghost predicate Did(r: Read, ok: bool, v: int)
      reads this
    {
      ok == r.ok && (ok ==> v == r.value) && cur == r.cur
    }

    method ReadU8() returns (ok: bool, v: nat)
      requires Valid()
      modifies this
      ensures Valid() && Did(ReadBig(data, old(cur), 1), ok, v)
      ensures if old(cur) < |data| then ok && v == data[old(cur)] && cur == old(cur) + 1 else !ok && cur == old(cur)
    {
      v := 0;
      if |data| - cur < 1 { return false, v; }
      v := data[cur];
      OneOctet(data, cur);
      cur := cur + 1;
      return true, v;
    }

    /** readU16, readU32 and readU64: most significant octet first. */
    method ReadWide(width: nat) returns (ok: bool, v: nat)
      requires Valid()
      modifies this
      ensures Valid() && Did(ReadBig(data, old(cur), width), ok, v)
    {
      v := 0;
      if |data| - cur < width { return false, v; }
      assert data[cur..cur] == [] && FromBigEndian([]) == 0;
      hide FromBigEndian;
      var i := 0;
      while i < width
        invariant i <= width && cur == old(cur) && cur + width <= |data| && v == FromBigEndian(data[cur..cur + i])
      {
        OneMoreOctet(data[cur..cur + i], data[cur + i]);
        assert data[cur..cur + i + 1] == data[cur..cur + i] + [data[cur + i]];
        v := 256 * v + data[cur + i];
        i := i + 1;
      }
      cur := cur + width;
      return true, v;
    }

    method SkipOctets(len: nat) returns (ok: bool)
      requires Valid()
      modifies this
      ensures Valid() && SkipBytes(data, old(cur), len) == Step(ok, cur)
    {
      if |data| - cur < len { return false; }
      cur := cur + len;
      return true;
    }

    method SkipValue(depth: nat) returns (ok: bool)
      requires Valid()
      modifies this
      ensures Valid() && Skip(data, old(cur), depth) == Step(ok, cur)
      decreases if depth > MAX_DEPTH then 0 else MAX_DEPTH + 1 - depth, 0
    {
      hide ReadBig, SkipBytes, SkipItems;
      if depth > MAX_DEPTH { return false; }
      var got, m := ReadU8();
      if !got { return false; }
      if m <= 0x7F || m >= 0xE0 || m == 0xC0 || m == 0xC2 || m == 0xC3 { return true; }
      if 0xA0 <= m < 0xC0 {
        ok := SkipOctets(m - 0xA0);
        return;
      }
      if 0x90 <= m < 0xA0 {
        ok := SkipLoop(depth + 1, m - 0x90);
        return;
      }
      if 0x80 <= m < 0x90 {
        ok := SkipLoop(depth + 1, (m - 0x80) * 2 % TWO_32);
        return;
      }
      var n: nat := 0;
      if m == 0xC4 || m == 0xD9 {
        ok, n := ReadU8();
        if ok { ok := SkipOctets(n); }
      } else if m == 0xC5 || m == 0xDA {
        ok, n := ReadWide(2);
        if ok { ok := SkipOctets(n); }
      } else if m == 0xC6 || m == 0xDB {
        ok, n := ReadWide(4);
        if ok { ok := SkipOctets(n); }
      } else if m == 0xCC || m == 0xD0 {
        ok := SkipOctets(1);
      } else if m == 0xCD || m == 0xD1 {
        ok := SkipOctets(2);
      } else if m == 0xCE || m == 0xD2 || m == 0xCA {
        ok := SkipOctets(4);
      } else if m == 0xCF || m == 0xD3 || m == 0xCB {
        ok := SkipOctets(8);
      } else if m == 0xDC {
        ok, n := ReadWide(2);
        if ok { ok := SkipLoop(depth + 1, n); }
      } else if m == 0xDD {
        ok, n := ReadWide(4);
        if ok { ok := SkipLoop(depth + 1, n); }
      } else if m == 0xDE {
        ok, n := ReadWide(2);
        if ok { ok := SkipLoop(depth + 1, n * 2 % TWO_32); }
      } else if m == 0xDF {
        ok, n := ReadWide(4);
        if ok { ok := SkipLoop(depth + 1, n * 2 % TWO_32); }
      } else {
        ok := false;
      }
    }

    /** The loops of skip over the items of an array or map. */
    method SkipLoop(depth: nat, n: nat) returns (ok: bool)
      requires Valid() && depth > 0
      modifies this
      ensures Valid() && SkipItems(data, old(cur), depth, n) == Step(ok, cur)
      decreases if depth > MAX_DEPTH then 0 else MAX_DEPTH + 1 - depth, 1
    {
      var i := 0;
      while i < n
        invariant i <= n && Valid()
        invariant SkipItems(data, old(cur), depth, n) == SkipItems(data, cur, depth, n - i)
      {
        ok := SkipValue(depth);
        if !ok { return false; }
        i := i + 1;
      }
      return true;
    }

    method ReadUnsigned() returns (ok: bool, v: nat)
      requires Valid()
      modifies this
      ensures Valid() && Did(ReadUInt(data, old(cur)), ok, v)
    {
      hide ReadBig;
      var m;
      ok, m := ReadU8();
      if !ok { return false, 0; }
      if m <= 0x7F { return true, m; }
      if m == 0xCC {
        ok, v := ReadU8();
      } else if m == 0xCD {
        ok, v := ReadWide(2);
      } else if m == 0xCE {
        ok, v := ReadWide(4);
      } else if m == 0xCF {
        ok, v := ReadWide(8);
      } else {
        ok, v := false, 0;
      }
    }

    method ReadInteger() returns (ok: bool, v: int)
      requires Valid()
      modifies this
      ensures Valid() && Did(ReadInt(data, old(cur)), ok, v)
    {
      hide ReadBig;
      var m;
      ok, m := ReadU8();
      v := 0;
      if !ok { return; }
      if m <= 0x7F { return true, m; }
      if m >= 0xE0 { return true, (m as int) - 256; }
      var n := 0;
      if m == 0xCC {
        ok, v := ReadU8();
      } else if m == 0xCD {
        ok, v := ReadWide(2);
      } else if m == 0xCE {
        ok, v := ReadWide(4);
      } else if m == 0xD0 {
        ok, n := ReadU8();
        v := Signed(n, 1);
      } else if m == 0xD1 {
        ok, n := ReadWide(2);
        v := Signed(n, 2);
      } else if m == 0xD2 {
        ok, n := ReadWide(4);
        v := Signed(n, 4);
      } else if m == 0xD3 || m == 0xCF {
        ok, n := ReadWide(8);
        v := Signed(n, 8);
      } else {
        ok := false;
      }
    }

    /** readArray: the number of items. */
    method ReadArray() returns (ok: bool, n: nat)
      requires Valid()
      modifies this
      ensures Valid() && Did(ReadCount(data, old(cur), 0x90, 0xDC, 0xDD), ok, n)
    {
      ok, n := ReadHeader(0x90, 0xDC, 0xDD);
    }

    /** readMap: the number of pairs. */
    method ReadMap() returns (ok: bool, n: nat)
      requires Valid()
      modifies this
      ensures Valid() && Did(ReadCount(data, old(cur), 0x80, 0xDE, 0xDF), ok, n)
    {
      ok, n := ReadHeader(0x80, 0xDE, 0xDF);
    }

    method ReadHeader(fix: byte, m16: byte, m32: byte) returns (ok: bool, n: nat)
      requires Valid()
      modifies this
      ensures Valid() && Did(ReadCount(data, old(cur), fix, m16, m32), ok, n)
    {
      hide ReadBig;
      var m;
      ok, m := ReadU8();
      if !ok { return false, 0; }
      if fix <= m < fix + 16 { return true, m - fix; }
      if m == m16 {
        ok, n := ReadWide(2);
      } else if m == m32 {
        ok, n := ReadWide(4);
      } else {
        ok, n := false, 0;
      }
    }

    /** readBytes: where the octets of a string or binary lie. */
    method ReadBytes() returns (ok: bool, at: nat, len: nat)
      requires Valid()
      modifies this
      ensures Valid()
      ensures var n := ReadBytesLen(data, old(cur));
        if n.ok && n.value <= |data| - n.cur then ok && at == n.cur && len == n.value && cur == at + len
        else !ok && cur == n.cur
    {
      hide ReadBig;
      var m, n: nat;
      at, len, n := 0, 0, 0;
      ok, m := ReadU8();
      if !ok { return; }
      if 0xA0 <= m < 0xC0 {
        n := m - 0xA0;
      } else if m == 0xD9 || m == 0xC4 {
        ok, n := ReadU8();
      } else if m == 0xDA || m == 0xC5 {
        ok, n := ReadWide(2);
      } else if m == 0xDB || m == 0xC6 {
        ok, n := ReadWide(4);
      } else {
        ok, n := false, 0;
      }
      if !ok { return; }
      if |data| - cur < n { return false, 0, 0; }
      at, len := cur, n;
      cur := cur + n;
    }

    /** readString: what is written to a buffer of cap octets. */
    method ReadString(cap: nat) returns (ok: bool, out: seq<byte>)
      requires Valid()
      modifies this
      ensures Valid()
      ensures var n := ReadBytesLen(data, old(cur));
        if n.ok && n.value <= |data| - n.cur then
          && ok && cur == n.cur + n.value
          && out == if cap == 0 then [] else data[n.cur..n.cur + (if n.value < cap - 1 then n.value else cap - 1)] + [0]
        else !ok && cur == n.cur && out == []
    {
      var at, len;
      ok, at, len := ReadBytes();
      out := [];
      if !ok || cap == 0 { return; }
      var n := if len < cap - 1 then len else cap - 1;
      out := data[at..at + n] + [0];
    }

    method ReadNil() returns (ok: bool)
      requires Valid()
      modifies this
      ensures Valid() && (ok <==> old(cur) < |data| && data[old(cur)] == 0xC0)
      ensures cur == if ok then old(cur) + 1 else old(cur)
    {
      if |data| - cur < 1 || data[cur] != 0xC0 { return false; }
      cur := cur + 1;
      return true;
    }

    method ReadBool() returns (ok: bool, v: bool)
      requires Valid()
      modifies this
      ensures Valid() && (ok <==> old(cur) < |data| && (data[old(cur)] == 0xC2 || data[old(cur)] == 0xC3))
      ensures ok ==> v == (data[old(cur)] == 0xC3)
      ensures cur == if old(cur) < |data| then old(cur) + 1 else old(cur)
    {
      var m;
      ok, m := ReadU8();
      v := m == 0xC3;
      ok := ok && (m == 0xC2 || m == 0xC3);
    }
  }

  // ── Skipping undoes encoding ──

  /** x lies in d at cur. */
  ghost predicate At(d: seq<byte>, cur: nat, x: seq<byte>) {
    cur + |x| <= |d| && d[cur..cur + |x|] == x
  }

  lemma AtParts(d: seq<byte>, cur: nat, x: seq<byte>, y: seq<byte>)
    requires At(d, cur, x + y)
    ensures At(d, cur, x) && At(d, cur + |x|, y)
  {
    var z := d[cur..cur + |x + y|];
    assert z[..|x|] == x && z[|x|..] == y;
    assert d[cur..cur + |x|] == z[..|x|];
    assert d[cur + |x|..cur + |x| + |y|] == z[|x|..];
  }

  lemma BigAt(d: seq<byte>, cur: nat, v: nat, width: nat)
    requires At(d, cur, BigEndian(v, width)) && v < Capacity(width)
    ensures ReadBig(d, cur, width) == Read(true, v, cur + width)
  {
    BigEndianRoundTrip(v, width);
  }

  lemma MarkerAt(d: seq<byte>, cur: nat, m: byte, rest: seq<byte>)
    requires At(d, cur, [m] + rest)
    ensures cur < |d| && d[cur] == m && At(d, cur + 1, rest)
  {
    AtParts(d, cur, [m], rest);
    assert d[cur..cur + 1][0] == m;
  }

  function LenWidth(w: LenFormat): nat {
    match w case Fix => 0 case L8 => 1 case L16 => 2 case L32 => 4
  }

  /** A marker with its length is read back. */
  lemma LenAt(d: seq<byte>, cur: nat, n: nat, fix: nat, m8: byte, m16: byte, m32: byte, w: LenFormat)
    requires (w == Fix ==> fix + n < 256) && (w != Fix ==> n < Limit(0, w))
    requires At(d, cur, LenHead(n, fix, m8, m16, m32, w))
    ensures cur < |d| && |LenHead(n, fix, m8, m16, m32, w)| == 1 + LenWidth(w)
    ensures w == Fix ==> d[cur] == fix + n
    ensures w == L8 ==> d[cur] == m8
    ensures w == L16 ==> d[cur] == m16
    ensures w == L32 ==> d[cur] == m32
    ensures w != Fix ==> ReadBig(d, cur + 1, LenWidth(w)) == Read(true, n, cur + 1 + LenWidth(w))
  {
    hide At, ReadBig, BigEndian;
    Capacities();
    match w {
      case Fix =>
        assert [fix + n] == [fix + n] + [];
        MarkerAt(d, cur, fix + n, []);
      case L8 => MarkerAt(d, cur, m8, BigEndian(n, 1)); BigAt(d, cur + 1, n, 1);
      case L16 => MarkerAt(d, cur, m16, BigEndian(n, 2)); BigAt(d, cur + 1, n, 2);
      case L32 => MarkerAt(d, cur, m32, BigEndian(n, 4)); BigAt(d, cur + 1, n, 4);
    }
  }

  function IntWidth(f: IntFormat): nat {
    match f
    case PosFix => 0
    case NegFix => 0
    case U8 => 1
    case U16 => 2
    case U32 => 4
    case U64 => 8
    case I8 => 1
    case I16 => 2
    case I32 => 4
    case I64 => 8
  }

  function IntMarker(i: int, f: IntFormat): int {
    match f
    case PosFix => i
    case NegFix => 256 + i
    case U8 => 0xCC
    case U16 => 0xCD
    case U32 => 0xCE
    case U64 => 0xCF
    case I8 => 0xD0
    case I16 => 0xD1
    case I32 => 0xD2
    case I64 => 0xD3
  }

  lemma IntAt(d: seq<byte>, cur: nat, i: int, f: IntFormat)
    requires IntFits(i, f) && At(d, cur, IntHead(i, f))
    ensures cur < |d| && d[cur] == IntMarker(i, f) && |IntHead(i, f)| == 1 + IntWidth(f)
    ensures cur + 1 + IntWidth(f) <= |d|
    ensures IntWidth(f) > 0 ==>
      ReadBig(d, cur + 1, IntWidth(f)) ==
        Read(true, if i < 0 then i + Capacity(IntWidth(f)) else i, cur + 1 + IntWidth(f))
  {
    hide At, ReadBig, BigEndian;
    Capacities();
    var w := IntWidth(f);
    if w == 0 {
      assert IntHead(i, f) == [IntMarker(i, f)] + [];
      MarkerAt(d, cur, IntMarker(i, f), []);
    } else {
      var v: nat := if i < 0 then i + Capacity(w) else i;
      assert IntHead(i, f) == [IntMarker(i, f)] + BigEndian(v, w);
      MarkerAt(d, cur, IntMarker(i, f), BigEndian(v, w));
      BigAt(d, cur + 1, v, w);
    }
  }

  lemma IntSkips(d: seq<byte>, cur: nat, e: Enc, depth: nat)
    requires e.Int? && WellFormed(e) && At(d, cur, Head(e)) && depth <= MAX_DEPTH
    ensures Skip(d, cur, depth) == Step(true, cur + |Head(e)|)
  {
    hide At, ReadBig, IntHead, SkipItems;
    IntAt(d, cur, e.i, e.f);
  }

  lemma OctetsSkip(d: seq<byte>, cur: nat, e: Enc, depth: nat)
    requires (e.Str? || e.Bin?) && WellFormed(e) && At(d, cur, Head(e)) && depth <= MAX_DEPTH
    ensures Skip(d, cur, depth) == Step(true, cur + |Head(e)|)
  {
    hide At, ReadBig, LenHead, SkipItems;
    var head := if e.Str? then LenHead(|e.s|, 0xA0, 0xD9, 0xDA, 0xDB, e.w)
      else LenHead(|e.s|, 0, 0xC4, 0xC5, 0xC6, e.w);
    AtParts(d, cur, head, e.s);
    if e.Str? {
      LenAt(d, cur, |e.s|, 0xA0, 0xD9, 0xDA, 0xDB, e.w);
    } else {
      LenAt(d, cur, |e.s|, 0, 0xC4, 0xC5, 0xC6, e.w);
    }
    InBounds(d, cur + |head|, e.s);
  }

  lemma InBounds(d: seq<byte>, cur: nat, x: seq<byte>)
    requires At(d, cur, x)
    ensures cur + |x| <= |d|
  {}

  lemma FloatSkips(d: seq<byte>, cur: nat, e: Enc, depth: nat)
    requires (e.Float32? || e.Float64? || e.Nil? || e.Bool?) && WellFormed(e) && At(d, cur, Head(e))
      && depth <= MAX_DEPTH
    ensures Skip(d, cur, depth) == Step(true, cur + |Head(e)|)
  {
    hide At, ReadBig, SkipItems;
    InBounds(d, cur, Head(e));
    assert Head(e) == [Head(e)[0]] + Head(e)[1..];
    MarkerAt(d, cur, Head(e)[0], Head(e)[1..]);
  }

  lemma ArraySkips(d: seq<byte>, cur: nat, e: Enc, depth: nat)
    requires e.Arr? && WellFormed(e) && At(d, cur, Head(e)) && depth <= MAX_DEPTH
    ensures cur + |Head(e)| <= |d| && Skip(d, cur, depth) == SkipItems(d, cur + |Head(e)|, depth + 1, |e.items|)
  {
    hide At, ReadBig, LenHead, SkipItems;
    LenAt(d, cur, |e.items|, 0x90, 0, 0xDC, 0xDD, e.w);
    InBounds(d, cur, Head(e));
  }

  lemma MapSkips(d: seq<byte>, cur: nat, e: Enc, depth: nat)
    requires e.Map? && WellFormed(e) && At(d, cur, Head(e)) && depth <= MAX_DEPTH
    ensures cur + |Head(e)| <= |d|
    ensures Skip(d, cur, depth) == SkipItems(d, cur + |Head(e)|, depth + 1, PairItems(|e.items| / 2))
  {
    hide At, ReadBig, LenHead, SkipItems;
    LenAt(d, cur, |e.items| / 2, 0x80, 0, 0xDE, 0xDF, e.w);
    InBounds(d, cur, Head(e));
  }

  ghost predicate AllWellFormed(items: seq<Enc>) {
    forall x :: x in items ==> WellFormed(x)
  }

  ghost predicate AllNarrow(items: seq<Enc>) {
    forall x :: x in items ==> Narrow(x)
  }

  /** Skipping a whole value ends exactly behind it, if and only if nothing in it
      is nested too deep. */
  lemma {:induction false} SkipEncoded(d: seq<byte>, cur: nat, e: Enc, depth: nat)
    requires WellFormed(e) && Narrow(e) && At(d, cur, Encode(e))
    ensures depth + Nesting(e) <= MAX_DEPTH ==> Skip(d, cur, depth) == Step(true, cur + |Encode(e)|)
    ensures depth + Nesting(e) > MAX_DEPTH ==> !Skip(d, cur, depth).ok
    decreases e, 0
  {
    hide At, Skip, SkipItems, Head, EncodeAll;
    InBounds(d, cur, Encode(e));
    if depth > MAX_DEPTH {
      TooDeep(d, cur, depth);
      return;
    }
    match e {
      case Arr(items, _) =>
        AtParts(d, cur, Head(e), EncodeAll(items));
        ArraySkips(d, cur, e, depth);
        SkipEncodedItems(d, cur + |Head(e)|, items, depth + 1);
      case Map(items, _) =>
        AtParts(d, cur, Head(e), EncodeAll(items));
        MapSkips(d, cur, e, depth);
        assert PairItems(|items| / 2) == |items|;
        SkipEncodedItems(d, cur + |Head(e)|, items, depth + 1);
      case Int(_, _) => IntSkips(d, cur, e, depth);
      case Str(_, _) => OctetsSkip(d, cur, e, depth);
      case Bin(_, _) => OctetsSkip(d, cur, e, depth);
      case _ => FloatSkips(d, cur, e, depth);
    }
  }

  lemma {:induction false} SkipEncodedItems(d: seq<byte>, cur: nat, items: seq<Enc>, depth: nat)
    requires AllWellFormed(items) && AllNarrow(items) && At(d, cur, EncodeAll(items)) && cur <= |d|
    ensures items == [] || depth + MaxNesting(items) <= MAX_DEPTH ==>
      SkipItems(d, cur, depth, |items|) == Step(true, cur + |EncodeAll(items)|)
    ensures items != [] && depth + MaxNesting(items) > MAX_DEPTH ==> !SkipItems(d, cur, depth, |items|).ok
    decreases items, 0
  {
    hide At, Skip, Encode;
    if items != [] {
      AtParts(d, cur, Encode(items[0]), EncodeAll(items[1..]));
      InBounds(d, cur, Encode(items[0]));
      SkipEncoded(d, cur, items[0], depth);
      SkipEncodedItems(d, cur + |Encode(items[0])|, items[1..], depth);
    }
  }

  lemma TooDeep(d: seq<byte>, cur: nat, depth: nat)
    requires cur <= |d| && depth > MAX_DEPTH
    ensures !Skip(d, cur, depth).ok
  {}

  // ── The one way to lose the place: a map of 2^31 pairs, at any depth ──

  lemma {:induction false} EncodeAllConcat(a: seq<Enc>, b: seq<Enc>)
    requires AllWellFormed(a) && AllWellFormed(b) && AllWellFormed(a + b)
    ensures EncodeAll(a + b) == EncodeAll(a) + EncodeAll(b)
  {
    hide Encode;
    if a == [] {
      assert a + b == b;
    } else {
      EncodeAllConcat(a[1..], b);
      assert (a + b)[1..] == a[1..] + b && (a + b)[0] == a[0];
    }
  }

  lemma EncodingNotEmpty(e: Enc)
    requires WellFormed(e)
    ensures |Encode(e)| > 0
  {
    hide BigEndian;
  }

  /** The items g, written one behind the other, fill d from cur up to end. */
  ghost predicate Unread(d: seq<byte>, cur: nat, g: seq<Enc>, end: nat) {
    AllWellFormed(g) && At(d, cur, EncodeAll(g)) && cur + |EncodeAll(g)| == end
  }

  lemma UnreadNext(d: seq<byte>, cur: nat, f: seq<Enc>, end: nat)
    requires Unread(d, cur, f, end) && f != []
    ensures WellFormed(f[0]) && At(d, cur, Encode(f[0]))
    ensures Unread(d, cur + |Encode(f[0])|, f[1..], end)
  {
    hide At, Encode;
    AtParts(d, cur, Encode(f[0]), EncodeAll(f[1..]));
  }

  /** Opening a container puts its items in front of what follows it. */
  lemma UnreadOpened(d: seq<byte>, cur: nat, f: seq<Enc>, end: nat)
    requires Unread(d, cur, f, end) && f != [] && (f[0].Arr? || f[0].Map?)
    ensures At(d, cur, Head(f[0])) && Unread(d, cur + |Head(f[0])|, f[0].items + f[1..], end)
  {
    hide At, Head, EncodeAll;
    var items, rest := f[0].items, f[1..];
    UnreadNext(d, cur, f, end);
    EncodeContainer(f[0]);
    AtParts(d, cur, Head(f[0]), EncodeAll(items));
    EncodeAllConcat(items, rest);
    AtJoin(d, cur + |Head(f[0])|, EncodeAll(items), EncodeAll(rest));
  }

  lemma EncodeContainer(e: Enc)
    requires (e.Arr? || e.Map?) && WellFormed(e)
    ensures Encode(e) == Head(e) + EncodeAll(e.items)
  {}

  lemma AtJoin(d: seq<byte>, cur: nat, x: seq<byte>, y: seq<byte>)
    requires At(d, cur, x) && At(d, cur + |x|, y)
    ensures At(d, cur, x + y)
  {
    var z := d[cur..cur + |x| + |y|];
    assert z[..|x|] == d[cur..cur + |x|] && z[|x|..] == d[cur + |x|..cur + |x| + |y|];
    assert z == z[..|x|] + z[|x|..];
  }

  /** A successful skip leaves all items but one to read, and all of them, or
      more, when the item skipped was not narrow. */
  lemma {:induction false} SkipLeaves(d: seq<byte>, cur: nat, f: seq<Enc>, end: nat, depth: nat) returns (g: seq<Enc>)
    requires Unread(d, cur, f, end) && f != [] && cur <= |d| && Skip(d, cur, depth).ok
    ensures Unread(d, Skip(d, cur, depth).cur, g, end)
    ensures if Narrow(f[0]) then g == f[1..] else |g| >= |f|
    decreases if depth > MAX_DEPTH then 0 else MAX_DEPTH + 1 - depth, 0, 0
  {
    hide At, Unread, Skip, SkipItems, Head, Encode, EncodeAll, WellFormed;
    UnreadNext(d, cur, f, end);
    if depth > MAX_DEPTH { TooDeep(d, cur, depth); }
    if Narrow(f[0]) {
      SkipEncoded(d, cur, f[0], depth);
      return f[1..];
    }
    var items, rest := f[0].items, f[1..];
    var n := if f[0].Arr? then |items| else PairItems(|items| / 2);
    UnreadOpened(d, cur, f, end);
    if f[0].Arr? { ArraySkips(d, cur, f[0], depth); } else { MapSkips(d, cur, f[0], depth); }
    Items32(f[0]);
    g := SkipItemsLeave(d, cur + |Head(f[0])|, items + rest, end, depth + 1, n);
    if n == |items| {
      var i := SomeNotNarrow(items);
      assert (items + rest)[i] == items[i];
    }
  }

  /** A count of 32 bits loses 2^32 items of a wide map and none of another value. */
  lemma Items32(e: Enc)
    requires (e.Arr? || e.Map?) && WellFormed(e)
    ensures e.Map? ==> PairItems(|e.items| / 2) == if Wide(e) then |e.items| - TWO_32 else |e.items|
    ensures !Narrow(e) ==> Wide(e) || !AllNarrow(e.items)
  {}

  lemma SomeNotNarrow(items: seq<Enc>) returns (i: nat)
    requires !AllNarrow(items)
    ensures i < |items| && !Narrow(items[i])
  {
    var x :| x in items && !Narrow(x);
    i :| 0 <= i < |items| && items[i] == x;
  }

  lemma {:induction false} SkipItemsLeave(d: seq<byte>, cur: nat, f: seq<Enc>, end: nat, depth: nat, n: nat)
    returns (g: seq<Enc>)
    requires Unread(d, cur, f, end) && n <= |f| && cur <= |d| && SkipItems(d, cur, depth, n).ok
    ensures Unread(d, SkipItems(d, cur, depth, n).cur, g, end) && |g| >= |f| - n
    ensures (exists i :: 0 <= i < n && !Narrow(f[i])) ==> |g| > |f| - n
    decreases if depth > MAX_DEPTH then 0 else MAX_DEPTH + 1 - depth, 1, n
  {
    hide At, Unread, Skip, Encode, EncodeAll, Narrow;
    if n == 0 { return f; }
    var next := SkipLeaves(d, cur, f, end, depth);
    g := SkipItemsLeave(d, Skip(d, cur, depth).cur, next, end, depth, n - 1);
    if Narrow(f[0]) {
      if i :| 0 <= i < n && !Narrow(f[i]) { assert next[i - 1] == f[i]; }
    }
  }

  /** A skip past a value that holds, anywhere in it, a map of 2^31 pairs or more
      stops before the value's end, or fails. */
  lemma WideStopsShort(d: seq<byte>, cur: nat, e: Enc, depth: nat)
    requires WellFormed(e) && At(d, cur, Encode(e)) && !Narrow(e)
    ensures cur <= |d| && (Skip(d, cur, depth).ok ==> Skip(d, cur, depth).cur < cur + |Encode(e)|)
  {
    hide At, Skip, Encode, Narrow;
    InBounds(d, cur, Encode(e));
    if Skip(d, cur, depth).ok {
      assert EncodeAll([e]) == Encode(e) + [] == Encode(e);
      var g := SkipLeaves(d, cur, [e], cur + |Encode(e)|, depth);
      EncodingNotEmpty(g[0]);
    }
  }

  /** Skipping a value is exact if and only if it is not nested too deep and no
      map in it has 2^31 pairs or more. */
  lemma SkipExactIff(d: seq<byte>, cur: nat, e: Enc, depth: nat)
    requires WellFormed(e) && At(d, cur, Encode(e))
    ensures cur <= |d|
    ensures Skip(d, cur, depth) == Step(true, cur + |Encode(e)|) <==> depth + Nesting(e) <= MAX_DEPTH && Narrow(e)
  {
    hide At, Skip, Encode, Narrow;
    if Narrow(e) {
      SkipEncoded(d, cur, e, depth);
      InBounds(d, cur, Encode(e));
    } else {
      WideStopsShort(d, cur, e, depth);
    }
  }

  // ── The typed readers return what was encoded ──

  /** readInt returns every integer but an unsigned one of 2^63 or more, which wraps. */
  lemma ReadIntEncoded(d: seq<byte>, cur: nat, i: int, f: IntFormat)
    requires IntFits(i, f) && At(d, cur, Encode(Int(i, f)))
    ensures cur <= |d|
    ensures ReadInt(d, cur) ==
      Read(true, if i >= 0x8000_0000_0000_0000 then i - TWO_64 else i, cur + |Encode(Int(i, f))|)
  {
    hide At, ReadBig, IntHead;
    Capacities();
    IntAt(d, cur, i, f);
  }

  /** readUInt accepts exactly the unsigned formats. */
  lemma ReadUIntEncoded(d: seq<byte>, cur: nat, i: int, f: IntFormat)
    requires IntFits(i, f) && At(d, cur, Encode(Int(i, f)))
    ensures cur <= |d|
    ensures ReadUInt(d, cur).ok <==> f.PosFix? || f.U8? || f.U16? || f.U32? || f.U64?
    ensures ReadUInt(d, cur).ok ==> ReadUInt(d, cur) == Read(true, i, cur + |Encode(Int(i, f))|)
  {
    hide At, ReadBig, IntHead;
    Capacities();
    IntAt(d, cur, i, f);
  }

  /** readBytes finds the octets of every string and binary, right behind the length. */
  lemma ReadBytesEncoded(d: seq<byte>, cur: nat, e: Enc)
    requires (e.Str? || e.Bin?) && WellFormed(e) && At(d, cur, Encode(e))
    ensures cur <= |d|
    ensures var n := ReadBytesLen(d, cur);
      n.ok && n.value == |e.s| && n.cur + |e.s| == cur + |Encode(e)| <= |d| && d[n.cur..n.cur + |e.s|] == e.s
  {
    hide ReadBig, LenHead;
    var head := if e.Str? then LenHead(|e.s|, 0xA0, 0xD9, 0xDA, 0xDB, e.w)
      else LenHead(|e.s|, 0, 0xC4, 0xC5, 0xC6, e.w);
    AtParts(d, cur, head, e.s);
    hide At;
    if e.Str? {
      LenAt(d, cur, |e.s|, 0xA0, 0xD9, 0xDA, 0xDB, e.w);
    } else {
      LenAt(d, cur, |e.s|, 0, 0xC4, 0xC5, 0xC6, e.w);
    }
    OctetsThere(d, cur + |head|, e.s);
  }

  lemma OctetsThere(d: seq<byte>, cur: nat, x: seq<byte>)
    requires At(d, cur, x)
    ensures cur + |x| <= |d| && d[cur..cur + |x|] == x
  {}

  /** readArray and readMap return the count and stop before the first item. */
  lemma ReadCountEncoded(d: seq<byte>, cur: nat, e: Enc)
    requires (e.Arr? || e.Map?) && WellFormed(e) && At(d, cur, Encode(e))
    ensures cur <= |d|
    ensures e.Arr? ==> ReadCount(d, cur, 0x90, 0xDC, 0xDD) == Read(true, |e.items|, cur + |Head(e)|)
    ensures e.Map? ==> ReadCount(d, cur, 0x80, 0xDE, 0xDF) == Read(true, |e.items| / 2, cur + |Head(e)|)
    ensures At(d, cur + |Head(e)|, EncodeAll(e.items))
  {
    hide At, ReadBig, LenHead, EncodeAll;
    AtParts(d, cur, Head(e), EncodeAll(e.items));
    if e.Arr? {
      LenAt(d, cur, |e.items|, 0x90, 0, 0xDC, 0xDD, e.w);
    } else {
      LenAt(d, cur, |e.items| / 2, 0x80, 0, 0xDE, 0xDF, e.w);
    }
  }

  /** What readBool and readNil look for is what the encoder writes. */
  lemma FlagEncoded(d: seq<byte>, cur: nat, b: bool)
    ensures At(d, cur, Encode(Bool(b))) ==> cur < |d| && d[cur] == if b then 0xC3 else 0xC2
    ensures At(d, cur, Encode(Nil)) ==> cur < |d| && d[cur] == 0xC0
  {}

  /** Every integer of 64 bits, signed or not, has a format, and no other has. */
  lemma EveryIntegerFits(i: int)
    ensures (exists f :: IntFits(i, f)) <==> -0x8000_0000_0000_0000 <= i < TWO_64
  {
    if i >= 0 {
      assert i < TWO_64 ==> IntFits(i, U64);
    } else {
      assert -0x8000_0000_0000_0000 <= i ==> IntFits(i, I64);
    }
  }
}
