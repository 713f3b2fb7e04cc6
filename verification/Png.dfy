/** The harness's PNG writer, against a reader of the formats it writes. */
module Png {
  import opened Bytes
  import opened Crc32

  // ── What the writer produces ──

  const SIGNATURE: seq<byte> := [0x89, 0x50, 0x4E, 0x47, 13, 10, 26, 10]
  const IHDR: seq<byte> := [0x49, 0x48, 0x44, 0x52]
  const IDAT: seq<byte> := [0x49, 0x44, 0x41, 0x54]
  const IEND: seq<byte> := [0x49, 0x45, 0x4E, 0x44]

  const BLOCK_LIMIT := 65535
  const ADLER_BASE := 65521

  function Chunk(kind: seq<byte>, data: seq<byte>): seq<byte> {
    BigEndian(|data| % TWO_32, 4) + kind + data + BigEndian(Crc(kind + data) as int, 4)
  }

  /** The first y scanlines, each behind a filter octet of 0. */
  function Scanlines(px: seq<byte>, row: nat, y: nat): seq<byte>
    requires y * row <= |px|
  {
    if y == 0 then []
    else
      Above(row, y);
      Scanlines(px, row, y - 1) + [0] + px[(y - 1) * row..y * row]
  }

  lemma Above(row: nat, y: nat)
    requires y > 0
    ensures y * row == (y - 1) * row + row
  {}

  function Least(a: nat, b: nat): nat { if a < b then a else b }

  /** A stored block: whether it is the last, its length twice, its octets. */
  function Stored(data: seq<byte>, last: bool): seq<byte>
    requires |data| <= BLOCK_LIMIT
  {
    [if last then 1 else 0] + LittleEndian(|data|, 2) + LittleEndian(65535 - |data|, 2) + data
  }

  /** Stored blocks, the last one marked. */
  function Blocks(raw: seq<byte>): seq<byte> {
    if raw == [] then []
    else
      var n := Least(BLOCK_LIMIT, |raw|);
      Stored(raw[..n], n == |raw|) + Blocks(raw[n..])
  }

  // ── Section 8.2 of RFC 1950: two sums, reduced at the end ──

  function Sum1(s: seq<byte>): nat {
    if s == [] then 1 else Sum1(s[..|s| - 1]) + s[|s| - 1]
  }

  function Sum2(s: seq<byte>): nat {
    if s == [] then 0 else Sum2(s[..|s| - 1]) + Sum1(s)
  }

  function Adler(s: seq<byte>): (r: nat)
    ensures r < TWO_32
  {
    Sum2(s) % ADLER_BASE * 65536 + Sum1(s) % ADLER_BASE
  }

  /** The published sums of "Wikipedia": 920 and 4582. */
  lemma AdlerCheck()
    ensures Adler([0x57, 0x69, 0x6b, 0x69, 0x70, 0x65, 0x64, 0x69, 0x61]) == 0x11E60398
  {
    var s: seq<byte> := [];
    assert Sum1(s) == 1 && Sum2(s) == 0;
    s := AdlerMore(s, 0x57, 1, 0);
    s := AdlerMore(s, 0x69, 88, 88);
    s := AdlerMore(s, 0x6b, 193, 281);
    s := AdlerMore(s, 0x69, 300, 581);
    s := AdlerMore(s, 0x70, 405, 986);
    s := AdlerMore(s, 0x65, 517, 1503);
    s := AdlerMore(s, 0x64, 618, 2121);
    s := AdlerMore(s, 0x69, 718, 2839);
    s := AdlerMore(s, 0x61, 823, 3662);
    assert s == [0x57, 0x69, 0x6b, 0x69, 0x70, 0x65, 0x64, 0x69, 0x61];
  }

  lemma AdlerMore(s: seq<byte>, b: byte, a1: nat, a2: nat) returns (more: seq<byte>)
    requires Sum1(s) == a1 && Sum2(s) == a2
    ensures more == s + [b] && Sum1(more) == a1 + b && Sum2(more) == a2 + a1 + b
  {
    more := s + [b];
    assert more[..|s|] == s;
  }

  /** The writer reduces after every octet. */
  method AdlerLoop(raw: seq<byte>) returns (r: nat)
    ensures r == Adler(raw)
  {
    var a, b := 1, 0;
    var i := 0;
    assert Sum1(raw[..0]) == 1 && Sum2(raw[..0]) == 0;
    hide Sum1, Sum2;
    while i < |raw|
      invariant i <= |raw| && a == Sum1(raw[..i]) % ADLER_BASE && b == Sum2(raw[..i]) % ADLER_BASE
    {
      NextReduced(raw, i);
      a := (a + raw[i]) % ADLER_BASE;
      b := (b + a) % ADLER_BASE;
      i := i + 1;
    }
    assert raw[..i] == raw;
    r := b * 65536 + a;
  }

  lemma NextSums(raw: seq<byte>, i: nat)
    requires i < |raw|
    ensures Sum1(raw[..i + 1]) == Sum1(raw[..i]) + raw[i]
    ensures Sum2(raw[..i + 1]) == Sum2(raw[..i]) + Sum1(raw[..i + 1])
  {
    assert raw[..i + 1][..i] == raw[..i];
  }

  lemma NextReduced(raw: seq<byte>, i: nat)
    requires i < |raw|
    ensures var a, b := Sum1(raw[..i]) % ADLER_BASE, Sum2(raw[..i]) % ADLER_BASE;
      var next := (a + raw[i]) % ADLER_BASE;
      next == Sum1(raw[..i + 1]) % ADLER_BASE && (b + next) % ADLER_BASE == Sum2(raw[..i + 1]) % ADLER_BASE
  {
    NextSums(raw, i);
    hide Sum1, Sum2;
    ReducedSum(Sum1(raw[..i]), raw[i]);
    ReducedSums(Sum2(raw[..i]), Sum1(raw[..i + 1]));
  }

  lemma ReducedSum(m: nat, n: nat)
    ensures (m % ADLER_BASE + n) % ADLER_BASE == (m + n) % ADLER_BASE
  {}

  lemma ReducedSums(m: nat, n: nat)
    ensures (m % ADLER_BASE + n % ADLER_BASE) % ADLER_BASE == (m + n) % ADLER_BASE
  {
    ReducedSum(m, n % ADLER_BASE);
    ReducedSum(n, m);
  }

  function Zlib(raw: seq<byte>): seq<byte> {
    [0x78, 0x01] + Blocks(raw) + BigEndian(Adler(raw), 4)
  }

  function Header(w: nat, h: nat, colorType: byte): seq<byte> {
    BigEndian(w % TWO_32, 4) + BigEndian(h % TWO_32, 4) + [8, colorType, 0, 0, 0]
  }

  function Depth(colorType: byte): nat {
    if colorType == 2 then 3 else 1
  }

  /** The octets of a picture of this size. */
  function Area(w: nat, h: nat, colorType: byte): nat {
    h * (w * Depth(colorType))
  }

  /** What IDAT carries. */
  function Compressed(w: nat, h: nat, colorType: byte, px: seq<byte>): seq<byte>
    requires Area(w, h, colorType) <= |px|
  {
    Zlib(Scanlines(px, w * Depth(colorType), h))
  }

  function Image(w: nat, h: nat, colorType: byte, px: seq<byte>): seq<byte>
    requires Area(w, h, colorType) <= |px|
  {
    SIGNATURE + Chunk(IHDR, Header(w, h, colorType)) + Chunk(IDAT, Compressed(w, h, colorType, px)) + Chunk(IEND, [])
  }

  method WriteChunk(kind: seq<byte>, data: seq<byte>) returns (v: seq<byte>)
    requires |kind| == 4
    ensures v == Chunk(kind, data)
  {
    hide Crc, UpdateCrc, BigEndian;
    v := BigEndian(|data| % TWO_32, 4);
    v := v + kind;
    v := v + data;
    assert v[4..] == kind + data;
    var crc := RomCrc32(0, v[4..]);
    CrcIs(kind + data);
    v := v + BigEndian(crc as int, 4);
  }

  lemma BlocksFrom(raw: seq<byte>, pos: nat)
    requires pos < |raw|
    ensures var n := Least(BLOCK_LIMIT, |raw| - pos);
      Blocks(raw[pos..]) == Stored(raw[pos..pos + n], pos + n == |raw|) + Blocks(raw[pos + n..])
  {
    hide Stored;
    var rest, n := raw[pos..], Least(BLOCK_LIMIT, |raw| - pos);
    assert rest[..n] == raw[pos..pos + n] && rest[n..] == raw[pos + n..];
  }

  lemma NoBlocks()
    ensures Blocks([]) == []
  {}

  method StoredBlocks(raw: seq<byte>) returns (z: seq<byte>)
    ensures z == Blocks(raw)
  {
    hide LittleEndian, Stored, Blocks;
    z := [];
    var pos := 0;
    assert raw[0..] == raw;
    while pos < |raw|
      invariant pos <= |raw| && Blocks(raw) == z + Blocks(raw[pos..])
    {
      var n := Least(BLOCK_LIMIT, |raw| - pos);
      ghost var block := Stored(raw[pos..pos + n], pos + n == |raw|);
      BlocksFrom(raw, pos);
      StoredIs(raw[pos..pos + n], pos + n == |raw|);
      assert z + (block + Blocks(raw[pos + n..])) == (z + block) + Blocks(raw[pos + n..]);
      z := z + (
        [if pos + n == |raw| then 1 else 0] + LittleEndian(n, 2) + LittleEndian(65535 - n, 2) + raw[pos..pos + n]);
      pos := pos + n;
    }
    NoBlocks();
    assert raw[pos..] == [] && z + [] == z;
  }

  lemma StoredIs(data: seq<byte>, last: bool)
    requires |data| <= BLOCK_LIMIT
    ensures Stored(data, last) ==
      [if last then 1 else 0] + LittleEndian(|data|, 2) + LittleEndian(65535 - |data|, 2) + data
  {}

  /** writeImpl: the octets of the file. */
  method Write(w: nat, h: nat, colorType: byte, px: seq<byte>) returns (file: seq<byte>)
    requires Area(w, h, colorType) <= |px|
    ensures file == Image(w, h, colorType, px)
  {
    hide Crc, BigEndian, Blocks, Adler, Chunk;
    var row := w * Depth(colorType);
    file := SIGNATURE;
    var c := WriteChunk(IHDR, Header(w, h, colorType));
    file := file + c;
    var raw: seq<byte> := [];
    var y := 0;
    while y < h
      invariant y <= h && y * row <= |px| && raw == Scanlines(px, row, y)
    {
      RowsFit(row, y + 1, h);
      Above(row, y + 1);
      raw := raw + [0];
      raw := raw + px[y * row..(y + 1) * row];
      y := y + 1;
    }
    var z := [0x78, 0x01];
    var blocks := StoredBlocks(raw);
    z := z + blocks;
    var adler := AdlerLoop(raw);
    z := z + BigEndian(adler, 4);
    c := WriteChunk(IDAT, z);
    file := file + c;
    c := WriteChunk(IEND, []);
    file := file + c;
  }

  lemma {:induction false} RowsFit(row: nat, y: nat, h: nat)
    requires y <= h
    ensures y * row <= h * row
  {}
}
