/** A reader of PNG files as its standards describe them, for 8-bit grey or RGB
    with stored data and filter 0, and that it undoes the writer. */
module PngReader {
  import opened Options
  import opened Bytes
  import opened Crc32
  import opened Png

  /** Section 5.3 of ISO/IEC 15948: a chunk's length shall not exceed 2^31 - 1. */
  const MAX_CHUNK := 0x7FFF_FFFF

  /** The first octets of a file, section 5.2. */
  const FILE_MARK: seq<byte> := [137, 80, 78, 71, 13, 10, 26, 10]

  /** Chunk types are ASCII letters. */
  function Ascii(s: string): (d: seq<byte>)
    requires forall i :: 0 <= i < |s| ==> s[i] < 128 as char
    ensures |d| == |s| && forall i :: 0 <= i < |s| ==> d[i] == s[i] as int
  {
    seq(|s|, i requires 0 <= i < |s| => s[i] as int)
  }

  /** Samples in a pixel of grey and of RGB, section 6.1. */
  function Samples(colorType: byte): nat {
    if colorType == 0 then 1 else 3
  }

  lemma MarksAgree()
    ensures SIGNATURE == FILE_MARK
    ensures IHDR == Ascii("IHDR") && IDAT == Ascii("IDAT") && IEND == Ascii("IEND")
  {}

  datatype ChunkRead = ChunkRead(kind: seq<byte>, data: seq<byte>, rest: seq<byte>)

  function ReadChunk(d: seq<byte>): Option<ChunkRead> {
    if |d| < 12 then None
    else
      var n := FromBigEndian(d[..4]);
      if n > MAX_CHUNK || |d| < n + 12 then None
      else if FromBigEndian(d[n + 8..n + 12]) != Crc(d[4..n + 8]) as int then None
      else Some(ChunkRead(d[4..8], d[8..n + 8], d[n + 12..]))
  }

  datatype Inflated = Inflated(out: seq<byte>, rest: seq<byte>)

  /** Section 3.2.4 of RFC 1951: blocks without compression, up to the final one. */
  function Inflate(d: seq<byte>): Option<Inflated> {
    if |d| < 5 || d[0] % 8 > 1 then None
    else
      var n := FromLittleEndian(d[1..3]);
      if FromLittleEndian(d[3..5]) != 65535 - n || |d| < n + 5 then None
      else if d[0] % 2 == 1 then Some(Inflated(d[5..n + 5], d[n + 5..]))
      else match Inflate(d[n + 5..])
        case None => None
        case Some(r) => Some(Inflated(d[5..n + 5] + r.out, r.rest))
  }

  /** Section 2.2 of RFC 1950: deflate, no dictionary, check value last. */
  function Unzlib(d: seq<byte>): Option<seq<byte>> {
    if |d| < 2 || d[0] % 16 != 8 || d[0] / 16 > 7 || (256 * (d[0] as int) + d[1]) % 31 != 0 || d[1] / 32 % 2 != 0
      then None
    else match Inflate(d[2..])
      case None => None
      case Some(r) => if |r.rest| == 4 && FromBigEndian(r.rest) == Adler(r.out) then Some(r.out) else None
  }

  /** h scanlines of row octets, each behind a filter type of 0. */
  function Unfilter(raw: seq<byte>, row: nat, h: nat): Option<seq<byte>> {
    if h == 0 then (if raw == [] then Some([]) else None)
    else if |raw| < row + 1 || raw[|raw| - row - 1] != 0 then None
    else match Unfilter(raw[..|raw| - row - 1], row, h - 1)
      case None => None
      case Some(above) => Some(above + raw[|raw| - row..])
  }

  datatype Picture = Picture(w: nat, h: nat, colorType: byte, px: seq<byte>)

  /** Width and height of zero are invalid; 8 bits a sample, no interlace. */
  function ReadHeader(d: seq<byte>): Option<(nat, nat, byte)> {
    if |d| != 13 then None
    else
      var w, h := FromBigEndian(d[..4]), FromBigEndian(d[4..8]);
      if 0 < w <= MAX_CHUNK && 0 < h <= MAX_CHUNK && d[8] == 8 && (d[9] == 0 || d[9] == 2) && d[10..] == [0, 0, 0]
      then Some((w, h, d[9])) else None
  }

  function ReadKind(d: seq<byte>, kind: seq<byte>): Option<ChunkRead> {
    var c := ReadChunk(d);
    if c.Some? && c.value.kind == kind then c else None
  }

  function ReadPixels(z: seq<byte>, row: nat, h: nat): Option<seq<byte>> {
    var raw := Unzlib(z);
    if raw.Some? then Unfilter(raw.value, row, h) else None
  }

  function ReadBody(w: nat, h: nat, colorType: byte, d: seq<byte>): Option<Picture> {
    var c := ReadKind(d, Ascii("IDAT"));
    if c.None? || ReadKind(c.value.rest, Ascii("IEND")) != Some(ChunkRead(Ascii("IEND"), [], [])) then None
    else
      var px := ReadPixels(c.value.data, w * Samples(colorType), h);
      if px.Some? then Some(Picture(w, h, colorType, px.value)) else None
  }

  function Decode(file: seq<byte>): Option<Picture> {
    if |file| < 8 || file[..8] != FILE_MARK then None
    else
      var c := ReadKind(file[8..], Ascii("IHDR"));
      if c.None? then None
      else
        var header := ReadHeader(c.value.data);
        if header.None? then None
        else ReadBody(header.value.0, header.value.1, header.value.2, c.value.rest)
  }

  // ── Each layer is undone ──

  lemma ReadChunkSize(d: seq<byte>)
    ensures var c := ReadChunk(d);
      c.Some? ==> |c.value.kind| == 4 && |c.value.data| <= MAX_CHUNK && |c.value.data| + 12 + |c.value.rest| == |d|
  {
    hide Crc, FromBigEndian;
  }

  lemma ChunkSize(kind: seq<byte>, data: seq<byte>)
    requires |kind| == 4
    ensures |Chunk(kind, data)| == |data| + 12
  {
    hide Crc;
  }

  /** A chunk is read back, whatever follows it, exactly when its data keeps
      within the length allowed; the length of longer data may not even fit. */
  lemma ChunkRoundTrip(kind: seq<byte>, data: seq<byte>, rest: seq<byte>)
    requires |kind| == 4
    ensures ReadChunk(Chunk(kind, data) + rest) == Some(ChunkRead(kind, data, rest)) <==> |data| <= MAX_CHUNK
  {
    hide Chunk, ReadChunk;
    if |data| <= MAX_CHUNK {
      ChunkFits(kind, data, rest);
    } else {
      ReadChunkSize(Chunk(kind, data) + rest);
    }
  }

  lemma ChunkFits(kind: seq<byte>, data: seq<byte>, rest: seq<byte>)
    requires |kind| == 4 && |data| <= MAX_CHUNK
    ensures ReadChunk(Chunk(kind, data) + rest) == Some(ChunkRead(kind, data, rest))
  {
    hide Crc, BigEndian, FromBigEndian;
    Capacities();
    var crc := Crc(kind + data);
    CrcRange(crc);
    BigEndianRoundTrip(|data|, 4);
    BigEndianRoundTrip(crc as int, 4);
    ChunkFields(BigEndian(|data|, 4), kind, data, BigEndian(crc as int, 4), rest);
  }

  /** Where the five parts of a chunk and what follows it lie. */
  lemma ChunkFields(length: seq<byte>, kind: seq<byte>, data: seq<byte>, sum: seq<byte>, rest: seq<byte>)
    requires |length| == |kind| == |sum| == 4
    ensures var d, n := length + kind + data + sum + rest, |data|;
      && |d| == n + 12 + |rest| && d[..4] == length && d[4..8] == kind && d[4..n + 8] == kind + data
      && d[8..n + 8] == data && d[n + 8..n + 12] == sum && d[n + 12..] == rest
  {
    var d := length + kind + data + sum + rest;
    assert d == length + kind + (data + sum + rest);
    Pieces(d, length, kind, data + sum + rest);
    assert d == length + (kind + data) + (sum + rest);
    Pieces(d, length, kind + data, sum + rest);
    assert d == (length + kind) + data + (sum + rest);
    Pieces(d, length + kind, data, sum + rest);
    assert d == (length + kind + data) + sum + rest;
    Pieces(d, length + kind + data, sum, rest);
  }

  lemma BlockFields(data: seq<byte>, last: bool, rest: seq<byte>)
    requires |data| <= BLOCK_LIMIT
    ensures var d := Stored(data, last) + rest; var n := |data|;
      |d| == 5 + n + |rest| && d[0] == (if last then 1 else 0) && FromLittleEndian(d[1..3]) == n
        && FromLittleEndian(d[3..5]) == 65535 - n
      && d[5..5 + n] == data && d[5 + n..] == rest
  {
    hide LittleEndian, FromLittleEndian;
    var n := |data|;
    Capacities();
    LittleEndianRoundTrip(n, 2);
    LittleEndianRoundTrip(65535 - n, 2);
    var d := Stored(data, last) + rest;
    assert d[1..3] == LittleEndian(n, 2);
    assert d[3..5] == LittleEndian(65535 - n, 2);
    assert d[5..5 + n] == data;
    assert d[5 + n..] == rest;
  }

  lemma InflateOne(data: seq<byte>, last: bool, rest: seq<byte>)
    requires |data| <= BLOCK_LIMIT
    ensures Inflate(Stored(data, last) + rest) ==
      if last then Some(Inflated(data, rest))
      else if Inflate(rest).None? then None
      else Some(Inflated(data + Inflate(rest).value.out, Inflate(rest).value.rest))
  {
    hide LittleEndian, FromLittleEndian, Stored;
    BlockFields(data, last, rest);
  }

  lemma NextBlock(raw: seq<byte>, rest: seq<byte>)
    requires raw != []
    ensures var n := Least(BLOCK_LIMIT, |raw|);
      Blocks(raw) + rest == Stored(raw[..n], n == |raw|) + (Blocks(raw[n..]) + rest)
  {
    hide Stored;
  }

  /** Stored blocks inflate to what was stored and stop where they end. */
  lemma {:induction false} BlocksRoundTrip(raw: seq<byte>, rest: seq<byte>)
    requires raw != []
    ensures Inflate(Blocks(raw) + rest) == Some(Inflated(raw, rest))
    decreases |raw|
  {
    hide Inflate, Blocks, Stored;
    var n := Least(BLOCK_LIMIT, |raw|);
    var more := raw[n..];
    NextBlock(raw, rest);
    InflateOne(raw[..n], n == |raw|, Blocks(more) + rest);
    assert raw == raw[..n] + more;
    if more == [] {
      NoBlocks();
      assert Blocks(more) + rest == rest && raw[..n] == raw;
    } else {
      BlocksRoundTrip(more, rest);
    }
  }

  lemma ZlibRoundTrip(raw: seq<byte>)
    requires raw != []
    ensures Unzlib(Zlib(raw)) == Some(raw)
  {
    hide Blocks, Inflate, Adler, BigEndian, FromBigEndian;
    Capacities();
    BigEndianRoundTrip(Adler(raw), 4);
    BlocksRoundTrip(raw, BigEndian(Adler(raw), 4));
    assert Zlib(raw)[2..] == Blocks(raw) + BigEndian(Adler(raw), 4);
  }

  lemma UnfilterOne(above: seq<byte>, line: seq<byte>, h: nat)
    requires h > 0
    ensures var r := Unfilter(above, |line|, h - 1);
      Unfilter(above + [0] + line, |line|, h) == if r.None? then None else Some(r.value + line)
  {
    var raw := above + [0] + line;
    assert raw[..|raw| - |line| - 1] == above && raw[|raw| - |line|..] == line;
  }

  lemma OneMoreScanline(px: seq<byte>, above: seq<byte>, row: nat, h: nat, n: nat)
    requires h > 0 && row <= n <= |px| && Unfilter(above, row, h - 1) == Some(px[..n - row])
    ensures Unfilter(above + [0] + px[n - row..n], row, h) == Some(px[..n])
  {
    hide Unfilter;
    UnfilterOne(above, px[n - row..n], h);
    assert px[..n] == px[..n - row] + px[n - row..n];
  }

  /** The last scanline ends at octet n. */
  lemma OneScanline(px: seq<byte>, row: nat, h: nat, n: nat)
    requires h > 0 && h * row == n <= |px|
    ensures n - row == (h - 1) * row && Scanlines(px, row, h) == Scanlines(px, row, h - 1) + [0] + px[n - row..n]
  {
    Above(row, h);
  }

  lemma {:induction false} ScanlinesTo(px: seq<byte>, row: nat, h: nat, n: nat)
    requires h * row == n <= |px|
    ensures Unfilter(Scanlines(px, row, h), row, h) == Some(px[..n])
    ensures h > 0 ==> Scanlines(px, row, h) != []
  {
    if h > 0 {
      OneScanline(px, row, h, n);
      ScanlinesTo(px, row, h - 1, n - row);
      OneMoreScanline(px, Scanlines(px, row, h - 1), row, h, n);
      hide Scanlines, Unfilter;
    }
  }

  lemma ScanlinesRoundTrip(px: seq<byte>, row: nat, h: nat)
    requires h * row <= |px|
    ensures Unfilter(Scanlines(px, row, h), row, h) == Some(px[..h * row])
    ensures h > 0 ==> Scanlines(px, row, h) != []
  {
    ScanlinesTo(px, row, h, h * row);
  }

  lemma HeaderRoundTrip(w: nat, h: nat, colorType: byte)
    requires w < 0x8000_0000 && h < 0x8000_0000 && (colorType == 0 || colorType == 2)
    ensures ReadHeader(Header(w, h, colorType)) == if w > 0 && h > 0 then Some((w, h, colorType)) else None
    ensures |Header(w, h, colorType)| == 13
  {
    hide BigEndian, FromBigEndian;
    Capacities();
    BigEndianRoundTrip(w, 4);
    BigEndianRoundTrip(h, 4);
    var d := Header(w, h, colorType);
    assert d[..4] == BigEndian(w, 4) && d[4..8] == BigEndian(h, 4) && d[10..] == [0, 0, 0];
  }

  lemma BodyRoundTrip(w: nat, h: nat, colorType: byte, z: seq<byte>)
    ensures var r := ReadPixels(z, w * Samples(colorType), h);
      ReadBody(w, h, colorType, Chunk(IDAT, z) + Chunk(IEND, [])) ==
      if |z| <= MAX_CHUNK && r.Some? then Some(Picture(w, h, colorType, r.value)) else None
  {
    hide Chunk, ReadChunk, ReadPixels;
    MarksAgree();
    ChunkRoundTrip(IEND, [], []);
    assert Chunk(IEND, []) + [] == Chunk(IEND, []);
    var d := Chunk(IDAT, z) + Chunk(IEND, []);
    if |z| <= MAX_CHUNK {
      ChunkFits(IDAT, z, Chunk(IEND, []));
    } else if ReadChunk(d).Some? {
      ChunkSize(IDAT, z);
      ChunkSize(IEND, []);
      ReadChunkSize(d);
      ReadChunkSize(ReadChunk(d).value.rest);
    }
  }

  /** The pixels a picture of this size shows. */
  function Shown(w: nat, h: nat, colorType: byte, px: seq<byte>): seq<byte>
    requires Area(w, h, colorType) <= |px|
  {
    px[..Area(w, h, colorType)]
  }

  lemma PixelsRoundTrip(w: nat, h: nat, colorType: byte, px: seq<byte>)
    requires Area(w, h, colorType) <= |px| && h > 0
    ensures ReadPixels(Compressed(w, h, colorType, px), w * Depth(colorType), h) == Some(Shown(w, h, colorType, px))
  {
    hide Zlib, Unzlib, Unfilter, Scanlines;
    ScanlinesRoundTrip(px, w * Depth(colorType), h);
    ZlibRoundTrip(Scanlines(px, w * Depth(colorType), h));
  }

  /** A picture is read back from its file if and only if it has pixels and its
      data keeps within one chunk's length. */
  lemma ImageRoundTrip(w: nat, h: nat, colorType: byte, px: seq<byte>)
    requires w < 0x8000_0000 && h < 0x8000_0000 && (colorType == 0 || colorType == 2)
    requires Area(w, h, colorType) <= |px|
    ensures Decode(Image(w, h, colorType, px)) ==
      if w > 0 && h > 0 && |Compressed(w, h, colorType, px)| <= MAX_CHUNK
      then Some(Picture(w, h, colorType, Shown(w, h, colorType, px))) else None
  {
    hide Chunk, ReadChunk, Header, ReadHeader, ReadBody, ReadPixels, Compressed, Shown, Area;
    var header, z := Header(w, h, colorType), Compressed(w, h, colorType, px);
    var c1, body := Chunk(IHDR, header), Chunk(IDAT, z) + Chunk(IEND, []);
    var file := Image(w, h, colorType, px);
    MarksAgree();
    assert Samples(colorType) == Depth(colorType);
    assert file == SIGNATURE + (c1 + body);
    assert file[..8] == SIGNATURE && file[8..] == c1 + body;
    HeaderRoundTrip(w, h, colorType);
    ChunkFits(IHDR, header, body);
    BodyRoundTrip(w, h, colorType, z);
    if h > 0 { PixelsRoundTrip(w, h, colorType, px); }
  }

  /** No stored block is over 65535 octets, and exactly the last is marked final. */
  lemma {:induction false} BlocksWellFormed(raw: seq<byte>)
    requires raw != []
    ensures BlocksOk(Blocks(raw))
    decreases |raw|
  {
    hide LittleEndian, FromLittleEndian, Stored;
    var n := Least(BLOCK_LIMIT, |raw|);
    BlockFields(raw[..n], n == |raw|, Blocks(raw[n..]));
    if n < |raw| {
      BlocksWellFormed(raw[n..]);
    }
  }

  predicate BlocksOk(d: seq<byte>) {
    |d| >= 5 && d[0] <= 1 &&
    var n := FromLittleEndian(d[1..3]);
    n <= 65535 && |d| >= n + 5 && (if d[0] == 1 then |d| == n + 5 else BlocksOk(d[n + 5..]))
  }
}
