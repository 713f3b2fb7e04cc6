/** The published values of SHA-256: its constants, its word functions, and the
    one-block example of FIPS 180-4. */
module ShaExample {
  import opened Bytes
  import opened Sha

  // ── The constants, sections 4.2.2 and 5.3.3 ──

  /** k is the first 32 bits of the fractional part of the square root. */
  ghost predicate SquareRootBits(k: Word, whole: nat, prime: nat) {
    var r := whole * TWO_32 + k as int;
    r * r <= prime * TWO_64 < (r + 1) * (r + 1)
  }

  /** The same of the cube root. */
  ghost predicate CubeRootBits(k: Word, whole: nat, prime: nat) {
    var r := whole * TWO_32 + k as int;
    r * r * r <= prime * TWO_64 * TWO_32 < (r + 1) * (r + 1) * (r + 1)
  }

  lemma InitialIsPublished()
    ensures SquareRootBits(INITIAL.a, 1, 2) && SquareRootBits(INITIAL.b, 1, 3)
    ensures SquareRootBits(INITIAL.c, 2, 5) && SquareRootBits(INITIAL.d, 2, 7)
    ensures SquareRootBits(INITIAL.e, 3, 11) && SquareRootBits(INITIAL.f, 3, 13)
    ensures SquareRootBits(INITIAL.g, 4, 17) && SquareRootBits(INITIAL.h, 4, 19)
  {}

  /** The first 64 primes. */
  const PRIMES: seq<nat> :=
    [2, 3, 5, 7, 11, 13, 17, 19, 23, 29, 31, 37, 41, 43, 47, 53] +
    [59, 61, 67, 71, 73, 79, 83, 89, 97, 101, 103, 107, 109, 113, 127, 131] +
    [137, 139, 149, 151, 157, 163, 167, 173, 179, 181, 191, 193, 197, 199, 211, 223] +
    [227, 229, 233, 239, 241, 251, 257, 263, 269, 271, 277, 281, 283, 293, 307, 311]

  ghost predicate Published(t: nat)
    requires t < 64
  {
    exists whole: nat :: CubeRootBits(K[t], whole, PRIMES[t])
  }

  lemma Constants0()
    ensures Published(0) && Published(1)
  {
    assert K[0] as int == 0x428a2f98 && CubeRootBits(K[0], 1, PRIMES[0]);
    assert K[1] as int == 0x71374491 && CubeRootBits(K[1], 1, PRIMES[1]);
  }

  lemma Constants2()
    ensures Published(2) && Published(3)
  {
    assert K[2] as int == 0xb5c0fbcf && CubeRootBits(K[2], 1, PRIMES[2]);
    assert K[3] as int == 0xe9b5dba5 && CubeRootBits(K[3], 1, PRIMES[3]);
  }

  lemma Constants4()
    ensures Published(4) && Published(5)
  {
    assert K[4] as int == 0x3956c25b && CubeRootBits(K[4], 2, PRIMES[4]);
    assert K[5] as int == 0x59f111f1 && CubeRootBits(K[5], 2, PRIMES[5]);
  }

  lemma Constants6()
    ensures Published(6) && Published(7)
  {
    assert K[6] as int == 0x923f82a4 && CubeRootBits(K[6], 2, PRIMES[6]);
    assert K[7] as int == 0xab1c5ed5 && CubeRootBits(K[7], 2, PRIMES[7]);
  }

  lemma Constants8()
    ensures Published(8) && Published(9)
  {
    assert K[8] as int == 0xd807aa98 && CubeRootBits(K[8], 2, PRIMES[8]);
    assert K[9] as int == 0x12835b01 && CubeRootBits(K[9], 3, PRIMES[9]);
  }

  lemma Constants10()
    ensures Published(10) && Published(11)
  {
    assert K[10] as int == 0x243185be && CubeRootBits(K[10], 3, PRIMES[10]);
    assert K[11] as int == 0x550c7dc3 && CubeRootBits(K[11], 3, PRIMES[11]);
  }

  lemma Constants12()
    ensures Published(12) && Published(13)
  {
    assert K[12] as int == 0x72be5d74 && CubeRootBits(K[12], 3, PRIMES[12]);
    assert K[13] as int == 0x80deb1fe && CubeRootBits(K[13], 3, PRIMES[13]);
  }

  lemma Constants14()
    ensures Published(14) && Published(15)
  {
    assert K[14] as int == 0x9bdc06a7 && CubeRootBits(K[14], 3, PRIMES[14]);
    assert K[15] as int == 0xc19bf174 && CubeRootBits(K[15], 3, PRIMES[15]);
  }

  lemma Constants16()
    ensures Published(16) && Published(17)
  {
    assert K[16] as int == 0xe49b69c1 && CubeRootBits(K[16], 3, PRIMES[16]);
    assert K[17] as int == 0xefbe4786 && CubeRootBits(K[17], 3, PRIMES[17]);
  }

  lemma Constants18()
    ensures Published(18) && Published(19)
  {
    assert K[18] as int == 0x0fc19dc6 && CubeRootBits(K[18], 4, PRIMES[18]);
    assert K[19] as int == 0x240ca1cc && CubeRootBits(K[19], 4, PRIMES[19]);
  }

  lemma Constants20()
    ensures Published(20) && Published(21)
  {
    assert K[20] as int == 0x2de92c6f && CubeRootBits(K[20], 4, PRIMES[20]);
    assert K[21] as int == 0x4a7484aa && CubeRootBits(K[21], 4, PRIMES[21]);
  }

  lemma Constants22()
    ensures Published(22) && Published(23)
  {
    assert K[22] as int == 0x5cb0a9dc && CubeRootBits(K[22], 4, PRIMES[22]);
    assert K[23] as int == 0x76f988da && CubeRootBits(K[23], 4, PRIMES[23]);
  }

  lemma Constants24()
    ensures Published(24) && Published(25)
  {
    assert K[24] as int == 0x983e5152 && CubeRootBits(K[24], 4, PRIMES[24]);
    assert K[25] as int == 0xa831c66d && CubeRootBits(K[25], 4, PRIMES[25]);
  }

  lemma Constants26()
    ensures Published(26) && Published(27)
  {
    assert K[26] as int == 0xb00327c8 && CubeRootBits(K[26], 4, PRIMES[26]);
    assert K[27] as int == 0xbf597fc7 && CubeRootBits(K[27], 4, PRIMES[27]);
  }

  lemma Constants28()
    ensures Published(28) && Published(29)
  {
    assert K[28] as int == 0xc6e00bf3 && CubeRootBits(K[28], 4, PRIMES[28]);
    assert K[29] as int == 0xd5a79147 && CubeRootBits(K[29], 4, PRIMES[29]);
  }

  lemma Constants30()
    ensures Published(30) && Published(31)
  {
    assert K[30] as int == 0x06ca6351 && CubeRootBits(K[30], 5, PRIMES[30]);
    assert K[31] as int == 0x14292967 && CubeRootBits(K[31], 5, PRIMES[31]);
  }

  lemma Constants32()
    ensures Published(32) && Published(33)
  {
    assert K[32] as int == 0x27b70a85 && CubeRootBits(K[32], 5, PRIMES[32]);
    assert K[33] as int == 0x2e1b2138 && CubeRootBits(K[33], 5, PRIMES[33]);
  }

  lemma Constants34()
    ensures Published(34) && Published(35)
  {
    assert K[34] as int == 0x4d2c6dfc && CubeRootBits(K[34], 5, PRIMES[34]);
    assert K[35] as int == 0x53380d13 && CubeRootBits(K[35], 5, PRIMES[35]);
  }

  lemma Constants36()
    ensures Published(36) && Published(37)
  {
    assert K[36] as int == 0x650a7354 && CubeRootBits(K[36], 5, PRIMES[36]);
    assert K[37] as int == 0x766a0abb && CubeRootBits(K[37], 5, PRIMES[37]);
  }

  lemma Constants38()
    ensures Published(38) && Published(39)
  {
    assert K[38] as int == 0x81c2c92e && CubeRootBits(K[38], 5, PRIMES[38]);
    assert K[39] as int == 0x92722c85 && CubeRootBits(K[39], 5, PRIMES[39]);
  }

  lemma Constants40()
    ensures Published(40) && Published(41)
  {
    assert K[40] as int == 0xa2bfe8a1 && CubeRootBits(K[40], 5, PRIMES[40]);
    assert K[41] as int == 0xa81a664b && CubeRootBits(K[41], 5, PRIMES[41]);
  }

  lemma Constants42()
    ensures Published(42) && Published(43)
  {
    assert K[42] as int == 0xc24b8b70 && CubeRootBits(K[42], 5, PRIMES[42]);
    assert K[43] as int == 0xc76c51a3 && CubeRootBits(K[43], 5, PRIMES[43]);
  }

  lemma Constants44()
    ensures Published(44) && Published(45)
  {
    assert K[44] as int == 0xd192e819 && CubeRootBits(K[44], 5, PRIMES[44]);
    assert K[45] as int == 0xd6990624 && CubeRootBits(K[45], 5, PRIMES[45]);
  }

  lemma Constants46()
    ensures Published(46) && Published(47)
  {
    assert K[46] as int == 0xf40e3585 && CubeRootBits(K[46], 5, PRIMES[46]);
    assert K[47] as int == 0x106aa070 && CubeRootBits(K[47], 6, PRIMES[47]);
  }

  lemma Constants48()
    ensures Published(48) && Published(49)
  {
    assert K[48] as int == 0x19a4c116 && CubeRootBits(K[48], 6, PRIMES[48]);
    assert K[49] as int == 0x1e376c08 && CubeRootBits(K[49], 6, PRIMES[49]);
  }

  lemma Constants50()
    ensures Published(50) && Published(51)
  {
    assert K[50] as int == 0x2748774c && CubeRootBits(K[50], 6, PRIMES[50]);
    assert K[51] as int == 0x34b0bcb5 && CubeRootBits(K[51], 6, PRIMES[51]);
  }

  lemma Constants52()
    ensures Published(52) && Published(53)
  {
    assert K[52] as int == 0x391c0cb3 && CubeRootBits(K[52], 6, PRIMES[52]);
    assert K[53] as int == 0x4ed8aa4a && CubeRootBits(K[53], 6, PRIMES[53]);
  }

  lemma Constants54()
    ensures Published(54) && Published(55)
  {
    assert K[54] as int == 0x5b9cca4f && CubeRootBits(K[54], 6, PRIMES[54]);
    assert K[55] as int == 0x682e6ff3 && CubeRootBits(K[55], 6, PRIMES[55]);
  }

  lemma Constants56()
    ensures Published(56) && Published(57)
  {
    assert K[56] as int == 0x748f82ee && CubeRootBits(K[56], 6, PRIMES[56]);
    assert K[57] as int == 0x78a5636f && CubeRootBits(K[57], 6, PRIMES[57]);
  }

  lemma Constants58()
    ensures Published(58) && Published(59)
  {
    assert K[58] as int == 0x84c87814 && CubeRootBits(K[58], 6, PRIMES[58]);
    assert K[59] as int == 0x8cc70208 && CubeRootBits(K[59], 6, PRIMES[59]);
  }

  lemma Constants60()
    ensures Published(60) && Published(61)
  {
    assert K[60] as int == 0x90befffa && CubeRootBits(K[60], 6, PRIMES[60]);
    assert K[61] as int == 0xa4506ceb && CubeRootBits(K[61], 6, PRIMES[61]);
  }

  lemma Constants62()
    ensures Published(62) && Published(63)
  {
    assert K[62] as int == 0xbef9a3f7 && CubeRootBits(K[62], 6, PRIMES[62]);
    assert K[63] as int == 0xc67178f2 && CubeRootBits(K[63], 6, PRIMES[63]);
  }

  /** Every constant of the rounds is the first 32 bits of the fractional part of
      the cube root of its prime. */
  lemma ConstantsArePublished(t: nat)
    requires t < 64
    ensures Published(t)
  {
    hide Published;
    if t < 8 {
      Constants0(); Constants2(); Constants4(); Constants6();
    } else if t < 16 {
      Constants8(); Constants10(); Constants12(); Constants14();
    } else if t < 24 {
      Constants16(); Constants18(); Constants20(); Constants22();
    } else if t < 32 {
      Constants24(); Constants26(); Constants28(); Constants30();
    } else if t < 40 {
      Constants32(); Constants34(); Constants36(); Constants38();
    } else if t < 48 {
      Constants40(); Constants42(); Constants44(); Constants46();
    } else if t < 56 {
      Constants48(); Constants50(); Constants52(); Constants54();
    } else {
      Constants56(); Constants58(); Constants60(); Constants62();
    }
  }

  // ── The word functions, section 4.1.2 ──

  lemma SigmasRotate(x: Word)
    ensures Sigma0(x) == x.RotateRight(7) ^ x.RotateRight(18) ^ (x >> 3)
    ensures Sigma1(x) == x.RotateRight(17) ^ x.RotateRight(19) ^ (x >> 10)
    ensures BigSigma0(x) == x.RotateRight(2) ^ x.RotateRight(13) ^ x.RotateRight(22)
    ensures BigSigma1(x) == x.RotateRight(6) ^ x.RotateRight(11) ^ x.RotateRight(25)
  {}

  /** Where x has a bit Ch has y's, elsewhere z's. */
  lemma ChChooses(x: Word, y: Word, z: Word)
    ensures Ch(x, y, z) & x == y & x && Ch(x, y, z) & !x == z & !x
  {}

  /** Where x and y agree Maj has their bit, elsewhere z's. */
  lemma MajIsMajority(x: Word, y: Word, z: Word)
    ensures Maj(x, y, z) & !(x ^ y) == x & !(x ^ y) && Maj(x, y, z) & (x ^ y) == z & (x ^ y)
  {}

  // ── The message of three octets, "abc" ──

  const MESSAGE: seq<byte> := [0x61, 0x62, 0x63]

  const BLOCK: seq<byte> := [0x61, 0x62, 0x63, 0x80] + Zeros(52) + [0, 0, 0, 0, 0, 0, 0, 24]

  lemma PaddedMessage()
    ensures Pad(MESSAGE) == BLOCK
  {
    assert ZeroCount(3) == 52 && MESSAGE + [0x80] == [0x61, 0x62, 0x63, 0x80];
    LengthIs24();
  }

  lemma LengthIs24()
    ensures LengthField(3) == [0, 0, 0, 0, 0, 0, 0, 24]
  {
    assert BigEndian(24, 8) == BigEndian(0, 7) + [24];
    NoDigits(7);
  }

  lemma {:induction false} NoDigits(width: nat)
    ensures BigEndian(0, width) == Zeros(width)
  {
    if width > 0 {
      NoDigits(width - 1);
      assert Zeros(width - 1) + [0] == Zeros(width);
    }
  }

  const WORDS: seq<Word> :=
    (([0x61626380, 0x00000000, 0x00000000, 0x00000000, 0x00000000, 0x00000000, 0x00000000, 0x00000000] +
      [0x00000000, 0x00000000, 0x00000000, 0x00000000, 0x00000000, 0x00000000, 0x00000000, 0x00000018]) +
     ([0x61626380, 0x000f0000, 0x7da86405, 0x600003c6, 0x3e9d7b78, 0x0183fc00, 0x12dcbfdb, 0xe2e2c38e] +
      [0xc8215c1a, 0xb73679a2, 0xe5bc3909, 0x32663c5b, 0x9d209d67, 0xec8726cb, 0x702138a4, 0xd3b7973b])) +
    (([0x93f5997f, 0x3b68ba73, 0xaff4ffc1, 0xf10a5c62, 0x0a8b3996, 0x72af830a, 0x9409e33e, 0x24641522] +
      [0x9f47bf94, 0xf0a64f5a, 0x3e246a79, 0x27333ba3, 0x0c4763f2, 0x840abf27, 0x7a290d5d, 0x065c43da]) +
     ([0xfb3e89cb, 0xcc7617db, 0xb9e66c34, 0xa9993667, 0x84badedd, 0xc21462bc, 0x1487472c, 0xb20f7a99] +
      [0xef57b9cd, 0xebe6b238, 0x9fe3095e, 0x78bc8d4b, 0xa43fcf15, 0x668b2ff8, 0xeeaba2cc, 0x12b1edeb]))

  ghost predicate Scheduled(t: nat)
    requires t <= 64
  {
    forall i :: 0 <= i < t ==> Schedule(BLOCK, i) == WORDS[i]
  }

  lemma FirstWord(i: nat, a: byte, b: byte, c: byte, d: byte, w: Word)
    requires i < 16 && BLOCK[4 * i] == a && BLOCK[4 * i + 1] == b && BLOCK[4 * i + 2] == c && BLOCK[4 * i + 3] == d
    requires (Widen(a) << 24) | (Widen(b) << 16) | (Widen(c) << 8) | Widen(d) == w
    ensures WordAt(BLOCK, i) == w
  {}

  lemma FirstWords()
    ensures Scheduled(16)
  {
    FirstWord(0, 0x61, 0x62, 0x63, 0x80, 0x61626380);
    FirstWord(15, 0, 0, 0, 24, 24);
    forall i | 1 <= i < 15 ensures WordAt(BLOCK, i) == 0 {
      FirstWord(i, 0, 0, 0, 0, 0);
    }
    ScheduledFirst();
  }

  lemma ScheduledFirst()
    requires WordAt(BLOCK, 0) == 0x61626380 && WordAt(BLOCK, 15) == 24
    requires forall i :: 1 <= i < 15 ==> WordAt(BLOCK, i) == 0
    ensures Scheduled(16)
  {
    hide WordAt;
  }

  /** The t-th word follows from those two, seven, fifteen and sixteen places back. */
  ghost predicate Follows(t: nat)
    requires 16 <= t < 64
  {
    Add4(Sigma1(WORDS[t - 2]), WORDS[t - 7], Sigma0(WORDS[t - 15]), WORDS[t - 16]) == WORDS[t]
  }

  lemma NextWord(t: nat)
    requires 16 <= t < 64 && Scheduled(t) && Follows(t)
    ensures Scheduled(t + 1)
  {
    hide Sigma0, Sigma1, Add4;
  }

  lemma Words16()
    ensures Follows(16) && Follows(17) && Follows(18) && Follows(19)
  {}

  lemma Words20()
    ensures Follows(20) && Follows(21) && Follows(22) && Follows(23)
  {}

  lemma Words24()
    ensures Follows(24) && Follows(25) && Follows(26) && Follows(27)
  {}

  lemma Words28()
    ensures Follows(28) && Follows(29) && Follows(30) && Follows(31)
  {}

  lemma Words32()
    ensures Follows(32) && Follows(33) && Follows(34) && Follows(35)
  {}

  lemma Words36()
    ensures Follows(36) && Follows(37) && Follows(38) && Follows(39)
  {}

  lemma Words40()
    ensures Follows(40) && Follows(41) && Follows(42) && Follows(43)
  {}

  lemma Words44()
    ensures Follows(44) && Follows(45) && Follows(46) && Follows(47)
  {}

  lemma Words48()
    ensures Follows(48) && Follows(49) && Follows(50) && Follows(51)
  {}

  lemma Words52()
    ensures Follows(52) && Follows(53) && Follows(54) && Follows(55)
  {}

  lemma Words56()
    ensures Follows(56) && Follows(57) && Follows(58) && Follows(59)
  {}

  lemma Words60()
    ensures Follows(60) && Follows(61) && Follows(62) && Follows(63)
  {}

  lemma WordsTo32()
    requires Scheduled(16)
    ensures Scheduled(32)
  {
    hide Scheduled, Follows;
    Words16();
    NextWord(16); NextWord(17); NextWord(18); NextWord(19);
    Words20();
    NextWord(20); NextWord(21); NextWord(22); NextWord(23);
    Words24();
    NextWord(24); NextWord(25); NextWord(26); NextWord(27);
    Words28();
    NextWord(28); NextWord(29); NextWord(30); NextWord(31);
  }

  lemma WordsTo48()
    requires Scheduled(32)
    ensures Scheduled(48)
  {
    hide Scheduled, Follows;
    Words32();
    NextWord(32); NextWord(33); NextWord(34); NextWord(35);
    Words36();
    NextWord(36); NextWord(37); NextWord(38); NextWord(39);
    Words40();
    NextWord(40); NextWord(41); NextWord(42); NextWord(43);
    Words44();
    NextWord(44); NextWord(45); NextWord(46); NextWord(47);
  }

  lemma WordsTo64()
    requires Scheduled(48)
    ensures Scheduled(64)
  {
    hide Scheduled, Follows;
    Words48();
    NextWord(48); NextWord(49); NextWord(50); NextWord(51);
    Words52();
    NextWord(52); NextWord(53); NextWord(54); NextWord(55);
    Words56();
    NextWord(56); NextWord(57); NextWord(58); NextWord(59);
    Words60();
    NextWord(60); NextWord(61); NextWord(62); NextWord(63);
  }

  lemma AllWords()
    ensures Scheduled(64)
  {
    hide Scheduled;
    FirstWords();
    WordsTo32();
    WordsTo48();
    WordsTo64();
  }

  // The states before the first round and after each.
  const S0 := INITIAL
  const S1 := State(0x5d6aebcd, 0x6a09e667, 0xbb67ae85, 0x3c6ef372, 0xfa2a4622, 0x510e527f, 0x9b05688c, 0x1f83d9ab)
  const S2 := State(0x5a6ad9ad, 0x5d6aebcd, 0x6a09e667, 0xbb67ae85, 0x78ce7989, 0xfa2a4622, 0x510e527f, 0x9b05688c)
  const S3 := State(0xc8c347a7, 0x5a6ad9ad, 0x5d6aebcd, 0x6a09e667, 0xf92939eb, 0x78ce7989, 0xfa2a4622, 0x510e527f)
  const S4 := State(0xd550f666, 0xc8c347a7, 0x5a6ad9ad, 0x5d6aebcd, 0x24e00850, 0xf92939eb, 0x78ce7989, 0xfa2a4622)
  const S5 := State(0x04409a6a, 0xd550f666, 0xc8c347a7, 0x5a6ad9ad, 0x43ada245, 0x24e00850, 0xf92939eb, 0x78ce7989)
  const S6 := State(0x2b4209f5, 0x04409a6a, 0xd550f666, 0xc8c347a7, 0x714260ad, 0x43ada245, 0x24e00850, 0xf92939eb)
  const S7 := State(0xe5030380, 0x2b4209f5, 0x04409a6a, 0xd550f666, 0x9b27a401, 0x714260ad, 0x43ada245, 0x24e00850)
  const S8 := State(0x85a07b5f, 0xe5030380, 0x2b4209f5, 0x04409a6a, 0x0c657a79, 0x9b27a401, 0x714260ad, 0x43ada245)
  const S9 := State(0x8e04ecb9, 0x85a07b5f, 0xe5030380, 0x2b4209f5, 0x32ca2d8c, 0x0c657a79, 0x9b27a401, 0x714260ad)
  const S10 := State(0x8c87346b, 0x8e04ecb9, 0x85a07b5f, 0xe5030380, 0x1cc92596, 0x32ca2d8c, 0x0c657a79, 0x9b27a401)
  const S11 := State(0x4798a3f4, 0x8c87346b, 0x8e04ecb9, 0x85a07b5f, 0x436b23e8, 0x1cc92596, 0x32ca2d8c, 0x0c657a79)
  const S12 := State(0xf71fc5a9, 0x4798a3f4, 0x8c87346b, 0x8e04ecb9, 0x816fd6e9, 0x436b23e8, 0x1cc92596, 0x32ca2d8c)
  const S13 := State(0x87912990, 0xf71fc5a9, 0x4798a3f4, 0x8c87346b, 0x1e578218, 0x816fd6e9, 0x436b23e8, 0x1cc92596)
  const S14 := State(0xd932eb16, 0x87912990, 0xf71fc5a9, 0x4798a3f4, 0x745a48de, 0x1e578218, 0x816fd6e9, 0x436b23e8)
  const S15 := State(0xc0645fde, 0xd932eb16, 0x87912990, 0xf71fc5a9, 0x0b92f20c, 0x745a48de, 0x1e578218, 0x816fd6e9)
  const S16 := State(0xb0fa238e, 0xc0645fde, 0xd932eb16, 0x87912990, 0x07590dcd, 0x0b92f20c, 0x745a48de, 0x1e578218)
  const S17 := State(0x21da9a9b, 0xb0fa238e, 0xc0645fde, 0xd932eb16, 0x8034229c, 0x07590dcd, 0x0b92f20c, 0x745a48de)
  const S18 := State(0xc2fbd9d1, 0x21da9a9b, 0xb0fa238e, 0xc0645fde, 0x846ee454, 0x8034229c, 0x07590dcd, 0x0b92f20c)
  const S19 := State(0xfe777bbf, 0xc2fbd9d1, 0x21da9a9b, 0xb0fa238e, 0xcc899961, 0x846ee454, 0x8034229c, 0x07590dcd)
  const S20 := State(0xe1f20c33, 0xfe777bbf, 0xc2fbd9d1, 0x21da9a9b, 0xb0638179, 0xcc899961, 0x846ee454, 0x8034229c)
  const S21 := State(0x9dc68b63, 0xe1f20c33, 0xfe777bbf, 0xc2fbd9d1, 0x8ada8930, 0xb0638179, 0xcc899961, 0x846ee454)
  const S22 := State(0xc2606d6d, 0x9dc68b63, 0xe1f20c33, 0xfe777bbf, 0xe1257970, 0x8ada8930, 0xb0638179, 0xcc899961)
  const S23 := State(0xa7a3623f, 0xc2606d6d, 0x9dc68b63, 0xe1f20c33, 0x49f5114a, 0xe1257970, 0x8ada8930, 0xb0638179)
  const S24 := State(0xc5d53d8d, 0xa7a3623f, 0xc2606d6d, 0x9dc68b63, 0xaa47c347, 0x49f5114a, 0xe1257970, 0x8ada8930)
  const S25 := State(0x1c2c2838, 0xc5d53d8d, 0xa7a3623f, 0xc2606d6d, 0x2823ef91, 0xaa47c347, 0x49f5114a, 0xe1257970)
  const S26 := State(0xcde8037d, 0x1c2c2838, 0xc5d53d8d, 0xa7a3623f, 0x14383d8e, 0x2823ef91, 0xaa47c347, 0x49f5114a)
  const S27 := State(0xb62ec4bc, 0xcde8037d, 0x1c2c2838, 0xc5d53d8d, 0xc74c6516, 0x14383d8e, 0x2823ef91, 0xaa47c347)
  const S28 := State(0x77d37528, 0xb62ec4bc, 0xcde8037d, 0x1c2c2838, 0xedffbff8, 0xc74c6516, 0x14383d8e, 0x2823ef91)
  const S29 := State(0x363482c9, 0x77d37528, 0xb62ec4bc, 0xcde8037d, 0x6112a3b7, 0xedffbff8, 0xc74c6516, 0x14383d8e)
  const S30 := State(0xa0060b30, 0x363482c9, 0x77d37528, 0xb62ec4bc, 0xade79437, 0x6112a3b7, 0xedffbff8, 0xc74c6516)
  const S31 := State(0xea992a22, 0xa0060b30, 0x363482c9, 0x77d37528, 0x0109ab3a, 0xade79437, 0x6112a3b7, 0xedffbff8)
  const S32 := State(0x73b33bf5, 0xea992a22, 0xa0060b30, 0x363482c9, 0xba591112, 0x0109ab3a, 0xade79437, 0x6112a3b7)
  const S33 := State(0x98e12507, 0x73b33bf5, 0xea992a22, 0xa0060b30, 0x9cd9f5f6, 0xba591112, 0x0109ab3a, 0xade79437)
  const S34 := State(0xfe604df5, 0x98e12507, 0x73b33bf5, 0xea992a22, 0x59249dd3, 0x9cd9f5f6, 0xba591112, 0x0109ab3a)
  const S35 := State(0xa9a7738c, 0xfe604df5, 0x98e12507, 0x73b33bf5, 0x085f3833, 0x59249dd3, 0x9cd9f5f6, 0xba591112)
  const S36 := State(0x65a0cfe4, 0xa9a7738c, 0xfe604df5, 0x98e12507, 0xf4b002d6, 0x085f3833, 0x59249dd3, 0x9cd9f5f6)
  const S37 := State(0x41a65cb1, 0x65a0cfe4, 0xa9a7738c, 0xfe604df5, 0x0772a26b, 0xf4b002d6, 0x085f3833, 0x59249dd3)
  const S38 := State(0x34df1604, 0x41a65cb1, 0x65a0cfe4, 0xa9a7738c, 0xa507a53d, 0x0772a26b, 0xf4b002d6, 0x085f3833)
  const S39 := State(0x6dc57a8a, 0x34df1604, 0x41a65cb1, 0x65a0cfe4, 0xf0781bc8, 0xa507a53d, 0x0772a26b, 0xf4b002d6)
  const S40 := State(0x79ea687a, 0x6dc57a8a, 0x34df1604, 0x41a65cb1, 0x1efbc0a0, 0xf0781bc8, 0xa507a53d, 0x0772a26b)
  const S41 := State(0xd6670766, 0x79ea687a, 0x6dc57a8a, 0x34df1604, 0x26352d63, 0x1efbc0a0, 0xf0781bc8, 0xa507a53d)
  const S42 := State(0xdf46652f, 0xd6670766, 0x79ea687a, 0x6dc57a8a, 0x838b2711, 0x26352d63, 0x1efbc0a0, 0xf0781bc8)
  const S43 := State(0x17aa0dfe, 0xdf46652f, 0xd6670766, 0x79ea687a, 0xdecd4715, 0x838b2711, 0x26352d63, 0x1efbc0a0)
  const S44 := State(0x9d4baf93, 0x17aa0dfe, 0xdf46652f, 0xd6670766, 0xfda24c2e, 0xdecd4715, 0x838b2711, 0x26352d63)
  const S45 := State(0x26628815, 0x9d4baf93, 0x17aa0dfe, 0xdf46652f, 0xa80f11f0, 0xfda24c2e, 0xdecd4715, 0x838b2711)
  const S46 := State(0x72ab4b91, 0x26628815, 0x9d4baf93, 0x17aa0dfe, 0xb7755da1, 0xa80f11f0, 0xfda24c2e, 0xdecd4715)
  const S47 := State(0xa14c14b0, 0x72ab4b91, 0x26628815, 0x9d4baf93, 0xd57b94a9, 0xb7755da1, 0xa80f11f0, 0xfda24c2e)
  const S48 := State(0x4172328d, 0xa14c14b0, 0x72ab4b91, 0x26628815, 0xfecf0bc6, 0xd57b94a9, 0xb7755da1, 0xa80f11f0)
  const S49 := State(0x05757ceb, 0x4172328d, 0xa14c14b0, 0x72ab4b91, 0xbd714038, 0xfecf0bc6, 0xd57b94a9, 0xb7755da1)
  const S50 := State(0xf11bfaa8, 0x05757ceb, 0x4172328d, 0xa14c14b0, 0x6e5c390c, 0xbd714038, 0xfecf0bc6, 0xd57b94a9)
  const S51 := State(0x7a0508a1, 0xf11bfaa8, 0x05757ceb, 0x4172328d, 0x52f1ccf7, 0x6e5c390c, 0xbd714038, 0xfecf0bc6)
  const S52 := State(0x886e7a22, 0x7a0508a1, 0xf11bfaa8, 0x05757ceb, 0x49231c1e, 0x52f1ccf7, 0x6e5c390c, 0xbd714038)
  const S53 := State(0x101fd28f, 0x886e7a22, 0x7a0508a1, 0xf11bfaa8, 0x529e7d00, 0x49231c1e, 0x52f1ccf7, 0x6e5c390c)
  const S54 := State(0xf5702fdb, 0x101fd28f, 0x886e7a22, 0x7a0508a1, 0x9f4787c3, 0x529e7d00, 0x49231c1e, 0x52f1ccf7)
  const S55 := State(0x3ec45cdb, 0xf5702fdb, 0x101fd28f, 0x886e7a22, 0xe50e1b4f, 0x9f4787c3, 0x529e7d00, 0x49231c1e)
  const S56 := State(0x38cc9913, 0x3ec45cdb, 0xf5702fdb, 0x101fd28f, 0x54cb266b, 0xe50e1b4f, 0x9f4787c3, 0x529e7d00)
  const S57 := State(0xfcd1887b, 0x38cc9913, 0x3ec45cdb, 0xf5702fdb, 0x9b5e906c, 0x54cb266b, 0xe50e1b4f, 0x9f4787c3)
  const S58 := State(0xc062d46f, 0xfcd1887b, 0x38cc9913, 0x3ec45cdb, 0x7e44008e, 0x9b5e906c, 0x54cb266b, 0xe50e1b4f)
  const S59 := State(0xffb70472, 0xc062d46f, 0xfcd1887b, 0x38cc9913, 0x6d83bfc6, 0x7e44008e, 0x9b5e906c, 0x54cb266b)
  const S60 := State(0xb6ae8fff, 0xffb70472, 0xc062d46f, 0xfcd1887b, 0xb21bad3d, 0x6d83bfc6, 0x7e44008e, 0x9b5e906c)
  const S61 := State(0xb85e2ce9, 0xb6ae8fff, 0xffb70472, 0xc062d46f, 0x961f4894, 0xb21bad3d, 0x6d83bfc6, 0x7e44008e)
  const S62 := State(0x04d24d6c, 0xb85e2ce9, 0xb6ae8fff, 0xffb70472, 0x948d25b6, 0x961f4894, 0xb21bad3d, 0x6d83bfc6)
  const S63 := State(0xd39a2165, 0x04d24d6c, 0xb85e2ce9, 0xb6ae8fff, 0xfb121210, 0x948d25b6, 0x961f4894, 0xb21bad3d)
  const S64 := State(0x506e3058, 0xd39a2165, 0x04d24d6c, 0xb85e2ce9, 0x5ef50f24, 0xfb121210, 0x948d25b6, 0x961f4894)

  /** One more round. */
  lemma RoundTo(t: nat, s: State, next: State)
    requires t < 64 && Scheduled(64) && Rounds(INITIAL, BLOCK, t) == s && Round(s, K[t], WORDS[t]) == next
    ensures Rounds(INITIAL, BLOCK, t + 1) == next
  {
    hide Round;
  }

  lemma Rounds0()
    requires Scheduled(64) && Rounds(INITIAL, BLOCK, 0) == S0
    ensures Rounds(INITIAL, BLOCK, 2) == S2
  {
    hide Scheduled, Rounds;
    RoundTo(0, S0, S1);
    RoundTo(1, S1, S2);
  }

  lemma Rounds2()
    requires Scheduled(64) && Rounds(INITIAL, BLOCK, 2) == S2
    ensures Rounds(INITIAL, BLOCK, 4) == S4
  {
    hide Scheduled, Rounds;
    RoundTo(2, S2, S3);
    RoundTo(3, S3, S4);
  }

  lemma Rounds4()
    requires Scheduled(64) && Rounds(INITIAL, BLOCK, 4) == S4
    ensures Rounds(INITIAL, BLOCK, 6) == S6
  {
    hide Scheduled, Rounds;
    RoundTo(4, S4, S5);
    RoundTo(5, S5, S6);
  }

  lemma Rounds6()
    requires Scheduled(64) && Rounds(INITIAL, BLOCK, 6) == S6
    ensures Rounds(INITIAL, BLOCK, 8) == S8
  {
    hide Scheduled, Rounds;
    RoundTo(6, S6, S7);
    RoundTo(7, S7, S8);
  }

  lemma Rounds8()
    requires Scheduled(64) && Rounds(INITIAL, BLOCK, 8) == S8
    ensures Rounds(INITIAL, BLOCK, 10) == S10
  {
    hide Scheduled, Rounds;
    RoundTo(8, S8, S9);
    RoundTo(9, S9, S10);
  }

  lemma Rounds10()
    requires Scheduled(64) && Rounds(INITIAL, BLOCK, 10) == S10
    ensures Rounds(INITIAL, BLOCK, 12) == S12
  {
    hide Scheduled, Rounds;
    RoundTo(10, S10, S11);
    RoundTo(11, S11, S12);
  }

  lemma Rounds12()
    requires Scheduled(64) && Rounds(INITIAL, BLOCK, 12) == S12
    ensures Rounds(INITIAL, BLOCK, 14) == S14
  {
    hide Scheduled, Rounds;
    RoundTo(12, S12, S13);
    RoundTo(13, S13, S14);
  }

  lemma Rounds14()
    requires Scheduled(64) && Rounds(INITIAL, BLOCK, 14) == S14
    ensures Rounds(INITIAL, BLOCK, 16) == S16
  {
    hide Scheduled, Rounds;
    RoundTo(14, S14, S15);
    RoundTo(15, S15, S16);
  }

  lemma Rounds16()
    requires Scheduled(64) && Rounds(INITIAL, BLOCK, 16) == S16
    ensures Rounds(INITIAL, BLOCK, 18) == S18
  {
    hide Scheduled, Rounds;
    RoundTo(16, S16, S17);
    RoundTo(17, S17, S18);
  }

  lemma Rounds18()
    requires Scheduled(64) && Rounds(INITIAL, BLOCK, 18) == S18
    ensures Rounds(INITIAL, BLOCK, 20) == S20
  {
    hide Scheduled, Rounds;
    RoundTo(18, S18, S19);
    RoundTo(19, S19, S20);
  }

  lemma Rounds20()
    requires Scheduled(64) && Rounds(INITIAL, BLOCK, 20) == S20
    ensures Rounds(INITIAL, BLOCK, 22) == S22
  {
    hide Scheduled, Rounds;
    RoundTo(20, S20, S21);
    RoundTo(21, S21, S22);
  }

  lemma Rounds22()
    requires Scheduled(64) && Rounds(INITIAL, BLOCK, 22) == S22
    ensures Rounds(INITIAL, BLOCK, 24) == S24
  {
    hide Scheduled, Rounds;
    RoundTo(22, S22, S23);
    RoundTo(23, S23, S24);
  }

  lemma Rounds24()
    requires Scheduled(64) && Rounds(INITIAL, BLOCK, 24) == S24
    ensures Rounds(INITIAL, BLOCK, 26) == S26
  {
    hide Scheduled, Rounds;
    RoundTo(24, S24, S25);
    RoundTo(25, S25, S26);
  }

  lemma Rounds26()
    requires Scheduled(64) && Rounds(INITIAL, BLOCK, 26) == S26
    ensures Rounds(INITIAL, BLOCK, 28) == S28
  {
    hide Scheduled, Rounds;
    RoundTo(26, S26, S27);
    RoundTo(27, S27, S28);
  }

  lemma Rounds28()
    requires Scheduled(64) && Rounds(INITIAL, BLOCK, 28) == S28
    ensures Rounds(INITIAL, BLOCK, 30) == S30
  {
    hide Scheduled, Rounds;
    RoundTo(28, S28, S29);
    RoundTo(29, S29, S30);
  }

  lemma Rounds30()
    requires Scheduled(64) && Rounds(INITIAL, BLOCK, 30) == S30
    ensures Rounds(INITIAL, BLOCK, 32) == S32
  {
    hide Scheduled, Rounds;
    RoundTo(30, S30, S31);
    RoundTo(31, S31, S32);
  }

  lemma Rounds32()
    requires Scheduled(64) && Rounds(INITIAL, BLOCK, 32) == S32
    ensures Rounds(INITIAL, BLOCK, 34) == S34
  {
    hide Scheduled, Rounds;
    RoundTo(32, S32, S33);
    RoundTo(33, S33, S34);
  }

  lemma Rounds34()
    requires Scheduled(64) && Rounds(INITIAL, BLOCK, 34) == S34
    ensures Rounds(INITIAL, BLOCK, 36) == S36
  {
    hide Scheduled, Rounds;
    RoundTo(34, S34, S35);
    RoundTo(35, S35, S36);
  }

  lemma Rounds36()
    requires Scheduled(64) && Rounds(INITIAL, BLOCK, 36) == S36
    ensures Rounds(INITIAL, BLOCK, 38) == S38
  {
    hide Scheduled, Rounds;
    RoundTo(36, S36, S37);
    RoundTo(37, S37, S38);
  }

  lemma Rounds38()
    requires Scheduled(64) && Rounds(INITIAL, BLOCK, 38) == S38
    ensures Rounds(INITIAL, BLOCK, 40) == S40
  {
    hide Scheduled, Rounds;
    RoundTo(38, S38, S39);
    RoundTo(39, S39, S40);
  }

  lemma Rounds40()
    requires Scheduled(64) && Rounds(INITIAL, BLOCK, 40) == S40
    ensures Rounds(INITIAL, BLOCK, 42) == S42
  {
    hide Scheduled, Rounds;
    RoundTo(40, S40, S41);
    RoundTo(41, S41, S42);
  }

  lemma Rounds42()
    requires Scheduled(64) && Rounds(INITIAL, BLOCK, 42) == S42
    ensures Rounds(INITIAL, BLOCK, 44) == S44
  {
    hide Scheduled, Rounds;
    RoundTo(42, S42, S43);
    RoundTo(43, S43, S44);
  }

  lemma Rounds44()
    requires Scheduled(64) && Rounds(INITIAL, BLOCK, 44) == S44
    ensures Rounds(INITIAL, BLOCK, 46) == S46
  {
    hide Scheduled, Rounds;
    RoundTo(44, S44, S45);
    RoundTo(45, S45, S46);
  }

  lemma Rounds46()
    requires Scheduled(64) && Rounds(INITIAL, BLOCK, 46) == S46
    ensures Rounds(INITIAL, BLOCK, 48) == S48
  {
    hide Scheduled, Rounds;
    RoundTo(46, S46, S47);
    RoundTo(47, S47, S48);
  }

  lemma Rounds48()
    requires Scheduled(64) && Rounds(INITIAL, BLOCK, 48) == S48
    ensures Rounds(INITIAL, BLOCK, 50) == S50
  {
    hide Scheduled, Rounds;
    RoundTo(48, S48, S49);
    RoundTo(49, S49, S50);
  }

  lemma Rounds50()
    requires Scheduled(64) && Rounds(INITIAL, BLOCK, 50) == S50
    ensures Rounds(INITIAL, BLOCK, 52) == S52
  {
    hide Scheduled, Rounds;
    RoundTo(50, S50, S51);
    RoundTo(51, S51, S52);
  }

  lemma Rounds52()
    requires Scheduled(64) && Rounds(INITIAL, BLOCK, 52) == S52
    ensures Rounds(INITIAL, BLOCK, 54) == S54
  {
    hide Scheduled, Rounds;
    RoundTo(52, S52, S53);
    RoundTo(53, S53, S54);
  }

  lemma Rounds54()
    requires Scheduled(64) && Rounds(INITIAL, BLOCK, 54) == S54
    ensures Rounds(INITIAL, BLOCK, 56) == S56
  {
    hide Scheduled, Rounds;
    RoundTo(54, S54, S55);
    RoundTo(55, S55, S56);
  }

  lemma Rounds56()
    requires Scheduled(64) && Rounds(INITIAL, BLOCK, 56) == S56
    ensures Rounds(INITIAL, BLOCK, 58) == S58
  {
    hide Scheduled, Rounds;
    RoundTo(56, S56, S57);
    RoundTo(57, S57, S58);
  }

  lemma Rounds58()
    requires Scheduled(64) && Rounds(INITIAL, BLOCK, 58) == S58
    ensures Rounds(INITIAL, BLOCK, 60) == S60
  {
    hide Scheduled, Rounds;
    RoundTo(58, S58, S59);
    RoundTo(59, S59, S60);
  }

  lemma Rounds60()
    requires Scheduled(64) && Rounds(INITIAL, BLOCK, 60) == S60
    ensures Rounds(INITIAL, BLOCK, 62) == S62
  {
    hide Scheduled, Rounds;
    RoundTo(60, S60, S61);
    RoundTo(61, S61, S62);
  }

  lemma Rounds62()
    requires Scheduled(64) && Rounds(INITIAL, BLOCK, 62) == S62
    ensures Rounds(INITIAL, BLOCK, 64) == S64
  {
    hide Scheduled, Rounds;
    RoundTo(62, S62, S63);
    RoundTo(63, S63, S64);
  }

  const FINAL := State(0xba7816bf, 0x8f01cfea, 0x414140de, 0x5dae2223, 0xb00361a3, 0x96177a9c, 0xb410ff61, 0xf20015ad)

  lemma FinalState()
    ensures Compress(INITIAL, BLOCK) == FINAL
  {
    AllRounds();
    hide Rounds;
  }

  lemma AllRounds()
    ensures Rounds(INITIAL, BLOCK, 64) == S64
  {
    AllWords();
    assert Rounds(INITIAL, BLOCK, 0) == S0;
    hide Scheduled, Rounds;
    Rounds0(); Rounds2(); Rounds4(); Rounds6();
    Rounds8(); Rounds10(); Rounds12(); Rounds14();
    Rounds16(); Rounds18(); Rounds20(); Rounds22();
    Rounds24(); Rounds26(); Rounds28(); Rounds30();
    Rounds32(); Rounds34(); Rounds36(); Rounds38();
    Rounds40(); Rounds42(); Rounds44(); Rounds46();
    Rounds48(); Rounds50(); Rounds52(); Rounds54();
    Rounds56(); Rounds58(); Rounds60(); Rounds62();
  }

  lemma FirstHalf()
    ensures WordBytes(FINAL.a) == [0xba, 0x78, 0x16, 0xbf]
    ensures WordBytes(FINAL.b) == [0x8f, 0x01, 0xcf, 0xea]
    ensures WordBytes(FINAL.c) == [0x41, 0x41, 0x40, 0xde]
    ensures WordBytes(FINAL.d) == [0x5d, 0xae, 0x22, 0x23]
  {}

  lemma SecondHalf()
    ensures WordBytes(FINAL.e) == [0xb0, 0x03, 0x61, 0xa3]
    ensures WordBytes(FINAL.f) == [0x96, 0x17, 0x7a, 0x9c]
    ensures WordBytes(FINAL.g) == [0xb4, 0x10, 0xff, 0x61]
    ensures WordBytes(FINAL.h) == [0xf2, 0x00, 0x15, 0xad]
  {}

  const DIGEST: seq<byte> :=
    [0xba, 0x78, 0x16, 0xbf, 0x8f, 0x01, 0xcf, 0xea, 0x41, 0x41, 0x40, 0xde, 0x5d, 0xae, 0x22, 0x23] +
    [0xb0, 0x03, 0x61, 0xa3, 0x96, 0x17, 0x7a, 0x9c, 0xb4, 0x10, 0xff, 0x61, 0xf2, 0x00, 0x15, 0xad]

  /** The digest that FIPS 180-4 publishes for it. */
  lemma DigestOfAbc(message: seq<byte>)
    requires message == [0x61, 0x62, 0x63]
    ensures Digest(message) == DIGEST
  {
    hide Compress, WordBytes, Pad;
    PaddedMessage();
    assert BLOCK[..|BLOCK| - 64] == [] && BLOCK[|BLOCK| - 64..] == BLOCK;
    assert Fold(INITIAL, BLOCK) == Compress(INITIAL, BLOCK);
    FinalState();
    FirstHalf();
    SecondHalf();
  }
}
