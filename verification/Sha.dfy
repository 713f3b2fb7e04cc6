/** SHA-256 fed in pieces, and the one-shot SHA-1 padding, against FIPS 180-4. */
module Sha {
  import opened Bytes

  type Word = bv32

  // ── Padding, section 5.1.1 of FIPS 180-4 ──

  /** Zero octets so that message, 0x80, zeros and length fill whole blocks. */
  function ZeroCount(n: nat): (k: nat)
    ensures k < 64 && (n + 1 + k + 8) % 64 == 0
  {
    (119 - n % 64) % 64
  }

  function Zeros(k: nat): (s: seq<byte>)
    ensures |s| == k && forall i :: 0 <= i < k ==> s[i] == 0
  {
    seq(k, i => 0)
  }

  /** The length field counts bits modulo 2^64, as the 64-bit counter does. */
  function LengthField(n: nat): (s: seq<byte>)
    ensures |s| == 8
  {
    BigEndian(8 * n % TWO_64, 8)
  }

  function Pad(m: seq<byte>): (p: seq<byte>)
    ensures |p| % 64 == 0
  {
    m + [0x80] + Zeros(ZeroCount(|m|)) + LengthField(|m|)
  }

  // ── The compression function, section 6.2.2 ──

  datatype State = State(a: Word, b: Word, c: Word, d: Word, e: Word, f: Word, g: Word, h: Word)

  const INITIAL := State(0x6a09e667, 0xbb67ae85, 0x3c6ef372, 0xa54ff53a, 0x510e527f, 0x9b05688c, 0x1f83d9ab, 0x5be0cd19)

  const K: seq<Word> :=
    (([0x428a2f98, 0x71374491, 0xb5c0fbcf, 0xe9b5dba5, 0x3956c25b, 0x59f111f1, 0x923f82a4, 0xab1c5ed5] +
      [0xd807aa98, 0x12835b01, 0x243185be, 0x550c7dc3, 0x72be5d74, 0x80deb1fe, 0x9bdc06a7, 0xc19bf174]) +
     ([0xe49b69c1, 0xefbe4786, 0x0fc19dc6, 0x240ca1cc, 0x2de92c6f, 0x4a7484aa, 0x5cb0a9dc, 0x76f988da] +
      [0x983e5152, 0xa831c66d, 0xb00327c8, 0xbf597fc7, 0xc6e00bf3, 0xd5a79147, 0x06ca6351, 0x14292967])) +
    (([0x27b70a85, 0x2e1b2138, 0x4d2c6dfc, 0x53380d13, 0x650a7354, 0x766a0abb, 0x81c2c92e, 0x92722c85] +
      [0xa2bfe8a1, 0xa81a664b, 0xc24b8b70, 0xc76c51a3, 0xd192e819, 0xd6990624, 0xf40e3585, 0x106aa070]) +
     ([0x19a4c116, 0x1e376c08, 0x2748774c, 0x34b0bcb5, 0x391c0cb3, 0x4ed8aa4a, 0x5b9cca4f, 0x682e6ff3] +
      [0x748f82ee, 0x78a5636f, 0x84c87814, 0x8cc70208, 0x90befffa, 0xa4506ceb, 0xbef9a3f7, 0xc67178f2]))

  // Rotations are a shift right joined with a shift left.
  function Sigma0(x: Word): Word { ((x >> 7) | (x << 25)) ^ ((x >> 18) | (x << 14)) ^ (x >> 3) }
  function Sigma1(x: Word): Word { ((x >> 17) | (x << 15)) ^ ((x >> 19) | (x << 13)) ^ (x >> 10) }
  function BigSigma0(x: Word): Word { ((x >> 2) | (x << 30)) ^ ((x >> 13) | (x << 19)) ^ ((x >> 22) | (x << 10)) }
  function BigSigma1(x: Word): Word { ((x >> 6) | (x << 26)) ^ ((x >> 11) | (x << 21)) ^ ((x >> 25) | (x << 7)) }
  function Ch(x: Word, y: Word, z: Word): Word { (x & y) ^ (!x & z) }
  function Maj(x: Word, y: Word, z: Word): Word { (x & y) ^ (x & z) ^ (y & z) }

  // Sums modulo 2^32.
  function Add2(a: Word, b: Word): Word { a + b }
  function Add4(a: Word, b: Word, c: Word, d: Word): Word { a + b + c + d }
  function Add5(a: Word, b: Word, c: Word, d: Word, e: Word): Word { a + b + c + d + e }

  /** Four octets, most significant first. */
  function WordAt(p: seq<byte>, i: nat): Word
    requires 4 * i + 4 <= |p|
  {
    (Widen(p[4 * i]) << 24) | (Widen(p[4 * i + 1]) << 16) | (Widen(p[4 * i + 2]) << 8) | Widen(p[4 * i + 3])
  }

  /** The message schedule. */
  function Schedule(p: seq<byte>, t: nat): Word
    requires |p| == 64
  {
    if t < 16 then WordAt(p, t)
    else Add4(Sigma1(Schedule(p, t - 2)), Schedule(p, t - 7), Sigma0(Schedule(p, t - 15)), Schedule(p, t - 16))
  }

  function Round(s: State, k: Word, w: Word): State {
    var t1 := Add5(s.h, BigSigma1(s.e), Ch(s.e, s.f, s.g), k, w);
    var t2 := Add2(BigSigma0(s.a), Maj(s.a, s.b, s.c));
    State(Add2(t1, t2), s.a, s.b, s.c, Add2(s.d, t1), s.e, s.f, s.g)
  }

  function Rounds(s: State, p: seq<byte>, t: nat): State
    requires |p| == 64 && t <= 64
  {
    if t == 0 then s else Round(Rounds(s, p, t - 1), K[t - 1], Schedule(p, t - 1))
  }

  function Add(s: State, t: State): State {
    State(Add2(s.a, t.a), Add2(s.b, t.b), Add2(s.c, t.c), Add2(s.d, t.d),
          Add2(s.e, t.e), Add2(s.f, t.f), Add2(s.g, t.g), Add2(s.h, t.h))
  }

  function Compress(s: State, p: seq<byte>): State
    requires |p| == 64
  {
    Add(s, Rounds(s, p, 64))
  }

  /** All blocks of a message, in order. */
  function Fold(s: State, m: seq<byte>): State
    requires |m| % 64 == 0
  {
    if m == [] then s else Compress(Fold(s, m[..|m| - 64]), m[|m| - 64..])
  }

  function WordBytes(w: Word): seq<byte> {
    [(w >> 24) as int % 256, (w >> 16) as int % 256, (w >> 8) as int % 256, w as int % 256]
  }

  function StateBytes(s: State): (r: seq<byte>)
    ensures |r| == 32
  {
    WordBytes(s.a) + WordBytes(s.b) + WordBytes(s.c) + WordBytes(s.d) +
    WordBytes(s.e) + WordBytes(s.f) + WordBytes(s.g) + WordBytes(s.h)
  }

  function Digest(m: seq<byte>): seq<byte> {
    StateBytes(Fold(INITIAL, Pad(m)))
  }

  // ── The block routine ──

  lemma OtherWayRound(a: Word, b: Word, c: Word, d: Word)
    ensures Add4(a, b, c, d) == Add4(d, c, b, a)
  {}

  method ScheduleLoop(p: seq<byte>) returns (w: array<Word>)
    requires |p| == 64
    ensures fresh(w) && w.Length == 64 && forall t :: 0 <= t < 64 ==> w[t] == Schedule(p, t)
  {
    hide Sigma0, Sigma1, WordAt, Add4;
    w := new Word[64];
    var i := 0;
    while i < 16
      invariant i <= 16 && forall t :: 0 <= t < i ==> w[t] == Schedule(p, t)
    {
      w[i] := WordAt(p, i);
      i := i + 1;
    }
    while i < 64
      invariant 16 <= i <= 64 && forall t :: 0 <= t < i ==> w[t] == Schedule(p, t)
    {
      OtherWayRound(w[i - 16], Sigma0(w[i - 15]), w[i - 7], Sigma1(w[i - 2]));
      w[i] := Add4(w[i - 16], Sigma0(w[i - 15]), w[i - 7], Sigma1(w[i - 2]));
      i := i + 1;
    }
  }

  method Block(s: State, p: seq<byte>) returns (r: State)
    requires |p| == 64
    ensures r == Compress(s, p)
  {
    hide BigSigma0, BigSigma1, Ch, Maj, Schedule, Add2, Add5;
    var w := ScheduleLoop(p);
    var a, b, c, d, e, f, g, h := s.a, s.b, s.c, s.d, s.e, s.f, s.g, s.h;
    var i := 0;
    while i < 64
      invariant i <= 64 && State(a, b, c, d, e, f, g, h) == Rounds(s, p, i)
    {
      var t1 := Add5(h, BigSigma1(e), Ch(e, f, g), K[i], w[i]);
      var t2 := Add2(BigSigma0(a), Maj(a, b, c));
      h, g, f, e := g, f, e, Add2(d, t1);
      d, c, b, a := c, b, a, Add2(t1, t2);
      i := i + 1;
    }
    r := State(Add2(s.a, a), Add2(s.b, b), Add2(s.c, c), Add2(s.d, d),
               Add2(s.e, e), Add2(s.f, f), Add2(s.g, g), Add2(s.h, h));
  }

  // ── The streaming context ──

  /** The blocks of fed are in the state; held, less than a block, is the rest. */
  ghost predicate Fed(state: State, held: seq<byte>, fed: seq<byte>) {
    && |held| < 64 && |held| <= |fed| && (|fed| - |held|) % 64 == 0
    && held == fed[|fed| - |held|..]
    && state == Fold(INITIAL, fed[..|fed| - |held|])
  }

  lemma FedMore(state: State, held: seq<byte>, fed: seq<byte>, piece: seq<byte>)
    requires Fed(state, held, fed) && |held| + |piece| < 64
    ensures Fed(state, held + piece, fed + piece)
  {
    hide Fold;
    var k := |fed| - |held|;
    assert (fed + piece)[..k] == fed[..k];
  }

  lemma FedBlock(state: State, held: seq<byte>, fed: seq<byte>, piece: seq<byte>)
    requires Fed(state, held, fed) && |held| + |piece| == 64
    ensures Fed(Compress(state, held + piece), [], fed + piece)
  {
    hide Compress;
    var k := |fed| - |held|;
    var all := fed + piece;
    assert all[..|all| - 64] == fed[..k] && all[|all| - 64..] == held + piece;
    assert all[..|all|] == all;
  }

  /** Where the buffer stands after the message, 0x80 and k zeros. */
  lemma BufferAt(state: State, held: seq<byte>, m: seq<byte>, k: nat)
    requires Fed(state, held, m + [0x80] + Zeros(k)) && k <= ZeroCount(|m|)
    ensures |held| == 56 <==> k == ZeroCount(|m|)
  {
    hide Fold;
    var n := |m + [0x80] + Zeros(k)|;
    assert n == |m| + 1 + k;
    HeldCount(n, |held|);
    PadPoint(|m|, k);
  }

  /** The 64-bit counter of octets gives the 64-bit count of bits. */
  lemma BitsWrap(n: nat)
    ensures n % TWO_64 * 8 % TWO_64 == 8 * n % TWO_64
  {
    var q, r := n / TWO_64, n % TWO_64;
    assert 8 * n == 8 * q * TWO_64 + 8 * r;
    Multiples(8 * q, 8 * r);
  }

  lemma {:induction false} Multiples(q: nat, r: nat)
    ensures (q * TWO_64 + r) % TWO_64 == r % TWO_64
  {
    if q > 0 {
      Multiples(q - 1, r);
      assert q * TWO_64 + r == ((q - 1) * TWO_64 + r) + TWO_64;
    }
  }

  lemma HeldCount(n: nat, h: nat)
    requires h < 64 && h <= n && (n - h) % 64 == 0
    ensures h == n % 64
  {}

  lemma PadPoint(n: nat, k: nat)
    requires k <= ZeroCount(n)
    ensures (n + 1 + k) % 64 == 56 <==> k == ZeroCount(n)
  {}

  class Context {
    var state: State
    var buffer: array<byte>
    var buflen: nat
    var total: nat
    /** Everything fed since the start. */
    ghost var fed: seq<byte>

    ghost predicate Valid()
      reads this, buffer
    {
      buffer.Length == 64 && buflen < 64 && total == |fed| % TWO_64 && Fed(state, buffer[..buflen], fed)
    }

    constructor Starts()
      ensures Valid() && fed == [] && fresh(buffer)
    {
      state, buflen, total, fed := INITIAL, 0, 0, [];
      buffer := new byte[64];
    }

    /** memcpy behind what the buffer holds. */
    method Copy(piece: seq<byte>)
      requires buffer.Length == 64 && buflen + |piece| <= 64
      modifies this`buflen, buffer
      ensures buflen == old(buflen) + |piece| && buffer[..buflen] == old(buffer[..buflen]) + piece
    {
      var j := 0;
      while j < |piece|
        invariant j <= |piece| && buflen == old(buflen) && buffer.Length == 64
        invariant buffer[..buflen + j] == old(buffer[..buflen]) + piece[..j]
      {
        buffer[buflen + j] := piece[j];
        assert buffer[..buflen + j + 1] == buffer[..buflen + j] + [piece[j]];
        assert piece[..j + 1] == piece[..j] + [piece[j]];
        j := j + 1;
      }
      buflen := buflen + |piece|;
      assert piece[..j] == piece;
    }

    method Update(input: seq<byte>)
      requires Valid()
      modifies this, buffer
      ensures Valid() && fed == old(fed) + input && buffer == old(buffer)
    {
      hide Fed, Compress;
      total := (total + |input|) % TWO_64;
      var n := 0;
      assert input[..0] == [] && fed == fed + [];
      while n < |input|
        invariant n <= |input| && fed == old(fed) + input[..n] && buffer == old(buffer)
        invariant buffer.Length == 64 && buflen < 64 && Fed(state, buffer[..buflen], fed)
        invariant total == (old(total) + |input|) % TWO_64
      {
        var take := if 64 - buflen < |input| - n then 64 - buflen else |input| - n;
        var piece := input[n..n + take];
        assert input[..n + take] == input[..n] + piece;
        assert fed + piece == old(fed) + input[..n + take];
        ghost var held := buffer[..buflen];
        Copy(piece);
        n := n + take;
        if buflen == 64 {
          assert buffer[..] == buffer[..64] == held + piece;
          FedBlock(state, held, fed, piece);
          state := Block(state, buffer[..]);
          buflen := 0;
          assert buffer[..0] == [];
        } else {
          FedMore(state, held, fed, piece);
        }
        fed := fed + piece;
      }
      assert input[..n] == input;
    }

    /** Pads what was fed and returns its digest. */
    method Finish() returns (out: seq<byte>)
      requires Valid()
      modifies this, buffer
      ensures out == Digest(old(fed))
    {
      hide Fed, Fold, StateBytes, BigEndian, ZeroCount;
      ghost var m := fed;
      var bits := total * 8 % TWO_64;
      BitsWrap(|m|);
      Update([0x80]);
      ghost var k := 0;
      assert Zeros(0) == [] && fed == m + [0x80] + Zeros(0);
      BufferAt(state, buffer[..buflen], m, 0);
      while buflen != 56
        invariant Valid() && buffer == old(buffer) && k <= ZeroCount(|m|)
        invariant fed == m + [0x80] + Zeros(k)
        invariant buflen == 56 <==> k == ZeroCount(|m|)
        decreases ZeroCount(|m|) - k
      {
        Update([0]);
        assert Zeros(k) + [0] == Zeros(k + 1);
        assert fed == m + [0x80] + Zeros(k + 1);
        k := k + 1;
        BufferAt(state, buffer[..buflen], m, k);
      }
      var len := LengthBytes(bits);
      Update(len);
      assert fed == Pad(m);
      AllBlocks(state, buffer[..buflen], fed);
      out := OutBytes(state);
    }
  }

  lemma AllBlocks(state: State, held: seq<byte>, fed: seq<byte>)
    requires Fed(state, held, fed) && |fed| % 64 == 0
    ensures state == Fold(INITIAL, fed)
  {
    hide Fold;
    HeldCount(|fed|, |held|);
    assert fed[..|fed|] == fed;
  }

  /** len[i] = bits >> (56 - 8 * i) */
  method LengthBytes(bits: nat) returns (len: seq<byte>)
    requires bits < TWO_64
    ensures len == BigEndian(bits, 8)
  {
    len := [];
    var i, rest := 0, bits;
    while i < 8
      invariant i <= 8 && BigEndian(bits, 8) == BigEndian(rest, 8 - i) + len
    {
      len := [rest % 256] + len;
      rest := rest / 256;
      i := i + 1;
    }
  }

  /** out[4 * i + j] = state[i] >> (24 - 8 * j) */
  method OutBytes(state: State) returns (out: seq<byte>)
    ensures out == StateBytes(state)
  {
    hide WordBytes;
    var words := [state.a, state.b, state.c, state.d, state.e, state.f, state.g, state.h];
    out := WordBytes(words[0]) + WordBytes(words[1]) + WordBytes(words[2]) + WordBytes(words[3]) +
           WordBytes(words[4]) + WordBytes(words[5]) + WordBytes(words[6]) + WordBytes(words[7]);
  }

  // ── SHA-1: the whole message padded in one buffer ──

  lemma PaddedSize(n: nat)
    ensures ((n + 8) / 64 + 1) * 64 == n + 1 + ZeroCount(n) + 8
  {}

  lemma {:induction false} BigEndianPrefix(v: nat, width: nat)
    requires width > 0
    ensures BigEndian(v, width)[..width - 1] == BigEndian(v / 256, width - 1)
    ensures BigEndian(v, width)[width - 1] == v % 256
  {}

  /** calloc, memcpy, the 0x80, then the length from the last octet backwards. */
  method Sha1Buffer(input: seq<byte>) returns (msg: array<byte>)
    ensures fresh(msg) && msg[..] == Pad(input)
  {
    hide BigEndian, ZeroCount;
    var ilen := |input|;
    var bits := 8 * ilen % TWO_64;
    PaddedSize(ilen);
    var total := ((ilen + 8) / 64 + 1) * 64;
    msg := new byte[total](i => 0);
    var i := 0;
    while i < ilen
      invariant i <= ilen && msg[..i] == input[..i]
      invariant forall j :: i <= j < total ==> msg[j] == 0
    {
      msg[i] := input[i];
      i := i + 1;
    }
    msg[ilen] := 0x80;
    ghost var front := input + [0x80] + Zeros(ZeroCount(ilen));
    assert |front| == total - 8 && msg[..total - 8] == front;
    PutLength(msg, bits);
    assert msg[..] == msg[..total - 8] + msg[total - 8..];
  }

  /** The length in bits, from the last octet backwards. */
  method PutLength(msg: array<byte>, bits: nat)
    requires msg.Length >= 8
    modifies msg
    ensures msg[..msg.Length - 8] == old(msg[..msg.Length - 8]) && msg[msg.Length - 8..] == BigEndian(bits, 8)
  {
    hide BigEndian;
    var total := msg.Length;
    var rest: nat := bits;
    var i := 0;
    while i < 8
      invariant i <= 8 && msg[..total - 8] == old(msg[..total - 8])
      invariant BigEndian(bits, 8) == BigEndian(rest, 8 - i) + msg[total - i..]
    {
      BigEndianPrefix(rest, 8 - i);
      ghost var tail := msg[total - i..];
      msg[total - 1 - i] := rest % 256;
      assert msg[total - 1 - i..] == [rest % 256] + tail;
      assert BigEndian(rest, 8 - i) == BigEndian(rest / 256, 7 - i) + [rest % 256];
      rest := rest / 256;
      i := i + 1;
    }
  }
}
