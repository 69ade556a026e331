/** The words of the hash as big-endian numbers, and its logical functions bit by bit. */
module WordMeaning {
  import opened Octets
  import opened HashWords

  /** The octets as numbers. */
  function Ints(b: Bytes): (r: seq<Byte>)
    ensures |r| == |b|
  {
    seq(|b|, i requires 0 <= i < |b| => b[i] as int)
  }

  lemma FourBe(s: seq<Byte>)
    requires |s| == 4
    ensures FromBe(s) == ((s[0] as int * 256 + s[1] as int) * 256 + s[2] as int) * 256 + s[3] as int
  {
    assert s[..3][..2] == s[..2] && s[..2][..1] == s[..1] && s[..1][..0] == [];
    assert FromBe(s[..1]) == s[0] && FromBe(s[..2]) == s[0] as int * 256 + s[1] as int;
    assert FromBe(s[..3]) == FromBe(s[..2]) * 256 + s[2];
  }

  function Join(b0: bv8, b1: bv8, b2: bv8, b3: bv8): bv32 {
    ((b0 as bv32) << 24) | ((b1 as bv32) << 16) | ((b2 as bv32) << 8) | (b3 as bv32)
  }

  lemma JoinIsBe(b0: bv8, b1: bv8, b2: bv8, b3: bv8)
    ensures Join(b0, b1, b2, b3) as int == ((b0 as int * 256 + b1 as int) * 256 + b2 as int) * 256 + b3 as int
  {
    var w := ((b0 as bv32) << 24) | ((b1 as bv32) << 16) | ((b2 as bv32) << 8) | (b3 as bv32);
    assert w == Join(b0, b1, b2, b3);
    assert w as int == ((b0 as int * 256 + b1 as int) * 256 + b2 as int) * 256 + b3 as int;
  }

  /** A word of a block is its four octets read as a big-endian number. */
  lemma WordIsBe(block: Bytes, i: nat)
    requires 4 * i + 4 <= |block|
    ensures WordAt(block, i) as int == FromBe(Ints(block[4 * i..4 * i + 4]))
  {
    var s := block[4 * i..4 * i + 4];
    FourBe(Ints(s));
    JoinIsBe(s[0], s[1], s[2], s[3]);
    assert WordAt(block, i) == Join(s[0], s[1], s[2], s[3]);
  }

  lemma OctetsJoin(w: bv32)
    ensures var o := WordBytes(w); |o| == 4 && Join(o[0], o[1], o[2], o[3]) == w
  {
    assert (((w >> 24) & 0xff) as bv8 as bv32) << 24 == w & 0xff00_0000;
    assert (((w >> 16) & 0xff) as bv8 as bv32) << 16 == w & 0x00ff_0000;
    assert (((w >> 8) & 0xff) as bv8 as bv32) << 8 == w & 0x0000_ff00;
    assert ((w & 0xff) as bv8 as bv32) == w & 0x0000_00ff;
  }

  /** The octets of a word, read as a big-endian number, are the word. */
  lemma OctetsAreBe(w: bv32)
    ensures |WordBytes(w)| == 4 && FromBe(Ints(WordBytes(w))) == w as int
  {
    var o := WordBytes(w);
    OctetsJoin(w);
    FourBe(Ints(o));
    JoinIsBe(o[0], o[1], o[2], o[3]);
  }

  // ---------------------------------------------------------------- bits

  /** A mask of one bit of a word; turned left it is the mask of a higher bit. */
  predicate OneBit(m: bv32) { m != 0 && m & (m - 1) == 0 }

  predicate PowerOfTwo(m: bv32) {
    || m == 0x1 || m == 0x2 || m == 0x4 || m == 0x8
    || m == 0x10 || m == 0x20 || m == 0x40 || m == 0x80
    || m == 0x100 || m == 0x200 || m == 0x400 || m == 0x800
    || m == 0x1000 || m == 0x2000 || m == 0x4000 || m == 0x8000
    || m == 0x10000 || m == 0x20000 || m == 0x40000 || m == 0x80000
    || m == 0x100000 || m == 0x200000 || m == 0x400000 || m == 0x800000
    || m == 0x1000000 || m == 0x2000000 || m == 0x4000000 || m == 0x8000000
    || m == 0x10000000 || m == 0x20000000 || m == 0x40000000 || m == 0x80000000
  }

  lemma OneBitIsPower(m: bv32)
    requires OneBit(m)
    ensures PowerOfTwo(m)
  {
  }

  predicate Has(x: bv32, m: bv32) { x & m != 0 }
  predicate Xor3(p: bool, q: bool, r: bool) { (p != q) != r }

  lemma OneOrNone(x: bv32, m: bv32)
    requires OneBit(m)
    ensures x & m == 0 || x & m == m
  {
  }

  lemma ChWhereSet(x: bv32, y: bv32, z: bv32, m: bv32)
    requires x & m == m
    ensures ((x & y) ^ (!x & z)) & m == y & m
  {
  }

  lemma ChWhereClear(x: bv32, y: bv32, z: bv32, m: bv32)
    requires x & m == 0
    ensures ((x & y) ^ (!x & z)) & m == z & m
  {
  }

  /** `Ch` takes each bit from `y` or from `z`, as that of `x` says. */
  lemma ChooseBits(x: bv32, y: bv32, z: bv32, m: bv32)
    requires OneBit(m)
    ensures Has(Ch(x, y, z), m) == if Has(x, m) then Has(y, m) else Has(z, m)
  {
    OneOrNone(x, m);
    if x & m == 0 { ChWhereClear(x, y, z, m); } else { ChWhereSet(x, y, z, m); }
  }

  lemma MajWhereEqual(x: bv32, y: bv32, z: bv32, m: bv32)
    requires x & m == y & m
    ensures ((x & y) ^ (x & z) ^ (y & z)) & m == x & m
  {
  }

  lemma MajWhereNot(x: bv32, y: bv32, z: bv32, m: bv32)
    requires (x ^ y) & m == m
    ensures ((x & y) ^ (x & z) ^ (y & z)) & m == z & m
  {
  }

  lemma Differing(x: bv32, y: bv32, m: bv32)
    requires (x & m == 0 && y & m == m) || (x & m == m && y & m == 0)
    ensures (x ^ y) & m == m
  {
  }

  /** `Maj` takes the bit that two of the three have. */
  lemma MajorityBits(x: bv32, y: bv32, z: bv32, m: bv32)
    requires OneBit(m)
    ensures Has(Maj(x, y, z), m) == if Has(x, m) == Has(y, m) then Has(x, m) else Has(z, m)
  {
    OneOrNone(x, m);
    OneOrNone(y, m);
    if x & m == y & m {
      MajWhereEqual(x, y, z, m);
    } else {
      Differing(x, y, m);
      MajWhereNot(x, y, z, m);
    }
  }

  lemma BigSigma0Under(x: bv32, m: bv32)
    requires PowerOfTwo(m)
    ensures ((x.RotateRight(2) ^ x.RotateRight(13) ^ x.RotateRight(22)) & m != 0) ==
            Xor3(Has(x, m.RotateLeft(2)), Has(x, m.RotateLeft(13)), Has(x, m.RotateLeft(22)))
  {
  }

  lemma BigSigma1Under(x: bv32, m: bv32)
    requires PowerOfTwo(m)
    ensures ((x.RotateRight(6) ^ x.RotateRight(11) ^ x.RotateRight(25)) & m != 0) ==
            Xor3(Has(x, m.RotateLeft(6)), Has(x, m.RotateLeft(11)), Has(x, m.RotateLeft(25)))
  {
  }

  lemma SmallSigma0Under(x: bv32, m: bv32)
    requires PowerOfTwo(m)
    ensures ((x.RotateRight(7) ^ x.RotateRight(18) ^ (x >> 3)) & m != 0) ==
            Xor3(Has(x, m.RotateLeft(7)), Has(x, m.RotateLeft(18)), Has(x, m << 3))
  {
  }

  lemma SmallSigma1Under(x: bv32, m: bv32)
    requires PowerOfTwo(m)
    ensures ((x.RotateRight(17) ^ x.RotateRight(19) ^ (x >> 10)) & m != 0) ==
            Xor3(Has(x, m.RotateLeft(17)), Has(x, m.RotateLeft(19)), Has(x, m << 10))
  {
  }

  /** The sigmas: each bit is the sum of three bits that lie higher by the standard's distances, counted
    * around the word. */
  lemma BigSigma0Bits(x: bv32, m: bv32)
    requires OneBit(m)
    ensures Has(BigSigma0(x), m) ==
            Xor3(Has(x, m.RotateLeft(2)), Has(x, m.RotateLeft(13)), Has(x, m.RotateLeft(22)))
  {
    OneBitIsPower(m);
    BigSigma0Under(x, m);
  }

  lemma BigSigma1Bits(x: bv32, m: bv32)
    requires OneBit(m)
    ensures Has(BigSigma1(x), m) ==
            Xor3(Has(x, m.RotateLeft(6)), Has(x, m.RotateLeft(11)), Has(x, m.RotateLeft(25)))
  {
    OneBitIsPower(m);
    BigSigma1Under(x, m);
  }

  /** Those of the schedule take the third bit without going around: there is none beyond the end. */
  lemma SmallSigma0Bits(x: bv32, m: bv32)
    requires OneBit(m)
    ensures Has(SmallSigma0(x), m) ==
            Xor3(Has(x, m.RotateLeft(7)), Has(x, m.RotateLeft(18)), Has(x, m << 3))
  {
    OneBitIsPower(m);
    SmallSigma0Under(x, m);
  }

  lemma SmallSigma1Bits(x: bv32, m: bv32)
    requires OneBit(m)
    ensures Has(SmallSigma1(x), m) ==
            Xor3(Has(x, m.RotateLeft(17)), Has(x, m.RotateLeft(19)), Has(x, m << 10))
  {
    OneBitIsPower(m);
    SmallSigma1Under(x, m);
  }
}

/** The tables of the hash as fractions of roots. */
module TableMeaning {
  import opened Octets
  import opened HashTables

  /** `v` is the first 32 bits of the fraction of the square root of `p`, whose whole part is `n`. */
  predicate SquareRoot(p: nat, n: nat, v: nat) {
    var x := n * TWO_32 + v;
    v < TWO_32 && x * x <= p * TWO_64 < (x + 1) * (x + 1)
  }

  /** The same of the cube root. */
  predicate CubeRoot(p: nat, n: nat, v: nat) {
    var x := n * TWO_32 + v;
    v < TWO_32 && x * x * x <= p * TWO_32 * TWO_64 < (x + 1) * (x + 1) * (x + 1)
  }

  /** The initial hash value: the square roots of the first eight primes. */
  lemma InitialHashIsRoots()
    ensures var h := SHA_256.h0;
      && SquareRoot(2, 1, h.a as int)
      && SquareRoot(3, 1, h.b as int)
      && SquareRoot(5, 2, h.c as int)
      && SquareRoot(7, 2, h.d as int)
      && SquareRoot(11, 3, h.e as int)
      && SquareRoot(13, 3, h.f as int)
      && SquareRoot(17, 4, h.g as int)
      && SquareRoot(19, 4, h.h as int)
  {
    assert SquareRoot(2, 1, 0x6a09e667);
    assert SquareRoot(3, 1, 0xbb67ae85);
    assert SquareRoot(5, 2, 0x3c6ef372);
    assert SquareRoot(7, 2, 0xa54ff53a);
    assert SquareRoot(11, 3, 0x510e527f);
    assert SquareRoot(13, 3, 0x9b05688c);
    assert SquareRoot(17, 4, 0x1f83d9ab);
    assert SquareRoot(19, 4, 0x5be0cd19);
  }

  /** The words of a row of the table are the cube roots of eight numbers. */
  ghost predicate RowIsRoots(primes: seq<nat>, whole: seq<nat>, row: seq<bv32>) {
    |primes| == |whole| == |row| == 8 && forall i :: 0 <= i < 8 ==> CubeRoot(primes[i], whole[i], row[i] as int)
  }

  lemma Row0()
    ensures RowIsRoots([2, 3, 5, 7, 11, 13, 17, 19], [1, 1, 1, 1, 2, 2, 2, 2], ROUND_CONSTANTS_0)
  {
    assert CubeRoot(2, 1, 0x428a2f98);
    assert CubeRoot(3, 1, 0x71374491);
    assert CubeRoot(5, 1, 0xb5c0fbcf);
    assert CubeRoot(7, 1, 0xe9b5dba5);
    assert CubeRoot(11, 2, 0x3956c25b);
    assert CubeRoot(13, 2, 0x59f111f1);
    assert CubeRoot(17, 2, 0x923f82a4);
    assert CubeRoot(19, 2, 0xab1c5ed5);
  }

  lemma Row1()
    ensures RowIsRoots([23, 29, 31, 37, 41, 43, 47, 53], [2, 3, 3, 3, 3, 3, 3, 3], ROUND_CONSTANTS_1)
  {
    assert CubeRoot(23, 2, 0xd807aa98);
    assert CubeRoot(29, 3, 0x12835b01);
    assert CubeRoot(31, 3, 0x243185be);
    assert CubeRoot(37, 3, 0x550c7dc3);
    assert CubeRoot(41, 3, 0x72be5d74);
    assert CubeRoot(43, 3, 0x80deb1fe);
    assert CubeRoot(47, 3, 0x9bdc06a7);
    assert CubeRoot(53, 3, 0xc19bf174);
  }

  lemma Row2()
    ensures RowIsRoots([59, 61, 67, 71, 73, 79, 83, 89], [3, 3, 4, 4, 4, 4, 4, 4], ROUND_CONSTANTS_2)
  {
    assert CubeRoot(59, 3, 0xe49b69c1);
    assert CubeRoot(61, 3, 0xefbe4786);
    assert CubeRoot(67, 4, 0x0fc19dc6);
    assert CubeRoot(71, 4, 0x240ca1cc);
    assert CubeRoot(73, 4, 0x2de92c6f);
    assert CubeRoot(79, 4, 0x4a7484aa);
    assert CubeRoot(83, 4, 0x5cb0a9dc);
    assert CubeRoot(89, 4, 0x76f988da);
  }

  lemma Row3()
    ensures RowIsRoots([97, 101, 103, 107, 109, 113, 127, 131], [4, 4, 4, 4, 4, 4, 5, 5], ROUND_CONSTANTS_3)
  {
    assert CubeRoot(97, 4, 0x983e5152);
    assert CubeRoot(101, 4, 0xa831c66d);
    assert CubeRoot(103, 4, 0xb00327c8);
    assert CubeRoot(107, 4, 0xbf597fc7);
    assert CubeRoot(109, 4, 0xc6e00bf3);
    assert CubeRoot(113, 4, 0xd5a79147);
    assert CubeRoot(127, 5, 0x06ca6351);
    assert CubeRoot(131, 5, 0x14292967);
  }

  lemma Row4()
    ensures RowIsRoots([137, 139, 149, 151, 157, 163, 167, 173], [5, 5, 5, 5, 5, 5, 5, 5], ROUND_CONSTANTS_4)
  {
    assert CubeRoot(137, 5, 0x27b70a85);
    assert CubeRoot(139, 5, 0x2e1b2138);
    assert CubeRoot(149, 5, 0x4d2c6dfc);
    assert CubeRoot(151, 5, 0x53380d13);
    assert CubeRoot(157, 5, 0x650a7354);
    assert CubeRoot(163, 5, 0x766a0abb);
    assert CubeRoot(167, 5, 0x81c2c92e);
    assert CubeRoot(173, 5, 0x92722c85);
  }

  lemma Row5()
    ensures RowIsRoots([179, 181, 191, 193, 197, 199, 211, 223], [5, 5, 5, 5, 5, 5, 5, 6], ROUND_CONSTANTS_5)
  {
    assert CubeRoot(179, 5, 0xa2bfe8a1);
    assert CubeRoot(181, 5, 0xa81a664b);
    assert CubeRoot(191, 5, 0xc24b8b70);
    assert CubeRoot(193, 5, 0xc76c51a3);
    assert CubeRoot(197, 5, 0xd192e819);
    assert CubeRoot(199, 5, 0xd6990624);
    assert CubeRoot(211, 5, 0xf40e3585);
    assert CubeRoot(223, 6, 0x106aa070);
  }

  lemma Row6()
    ensures RowIsRoots([227, 229, 233, 239, 241, 251, 257, 263], [6, 6, 6, 6, 6, 6, 6, 6], ROUND_CONSTANTS_6)
  {
    assert CubeRoot(227, 6, 0x19a4c116);
    assert CubeRoot(229, 6, 0x1e376c08);
    assert CubeRoot(233, 6, 0x2748774c);
    assert CubeRoot(239, 6, 0x34b0bcb5);
    assert CubeRoot(241, 6, 0x391c0cb3);
    assert CubeRoot(251, 6, 0x4ed8aa4a);
    assert CubeRoot(257, 6, 0x5b9cca4f);
    assert CubeRoot(263, 6, 0x682e6ff3);
  }

  lemma Row7()
    ensures RowIsRoots([269, 271, 277, 281, 283, 293, 307, 311], [6, 6, 6, 6, 6, 6, 6, 6], ROUND_CONSTANTS_7)
  {
    assert CubeRoot(269, 6, 0x748f82ee);
    assert CubeRoot(271, 6, 0x78a5636f);
    assert CubeRoot(277, 6, 0x84c87814);
    assert CubeRoot(281, 6, 0x8cc70208);
    assert CubeRoot(283, 6, 0x90befffa);
    assert CubeRoot(293, 6, 0xa4506ceb);
    assert CubeRoot(307, 6, 0xbef9a3f7);
    assert CubeRoot(311, 6, 0xc67178f2);
  }

  /** The round constants: the cube roots of the first sixty-four primes. */
  lemma RoundConstantsAreRoots()
    ensures RowIsRoots([2, 3, 5, 7, 11, 13, 17, 19], [1, 1, 1, 1, 2, 2, 2, 2], SHA_256.k[0..8])
    ensures RowIsRoots([23, 29, 31, 37, 41, 43, 47, 53], [2, 3, 3, 3, 3, 3, 3, 3], SHA_256.k[8..16])
    ensures RowIsRoots([59, 61, 67, 71, 73, 79, 83, 89], [3, 3, 4, 4, 4, 4, 4, 4], SHA_256.k[16..24])
    ensures RowIsRoots([97, 101, 103, 107, 109, 113, 127, 131], [4, 4, 4, 4, 4, 4, 5, 5], SHA_256.k[24..32])
    ensures RowIsRoots([137, 139, 149, 151, 157, 163, 167, 173], [5, 5, 5, 5, 5, 5, 5, 5], SHA_256.k[32..40])
    ensures RowIsRoots([179, 181, 191, 193, 197, 199, 211, 223], [5, 5, 5, 5, 5, 5, 5, 6], SHA_256.k[40..48])
    ensures RowIsRoots([227, 229, 233, 239, 241, 251, 257, 263], [6, 6, 6, 6, 6, 6, 6, 6], SHA_256.k[48..56])
    ensures RowIsRoots([269, 271, 277, 281, 283, 293, 307, 311], [6, 6, 6, 6, 6, 6, 6, 6], SHA_256.k[56..64])
  {
    Row0();
    Row1();
    Row2();
    Row3();
    Row4();
    Row5();
    Row6();
    Row7();
  }
}

/** What the digest of a message and its authentication code mean. */
module HashMeaning {
  import opened Octets
  import opened Sequences
  import opened HashWords
  import opened HashTables
  import opened WordMeaning
  import opened Fips180
  import opened Rfc2104

  function Variable(v: Vars, i: nat): bv32
    requires i < 8
  {
    [v.a, v.b, v.c, v.d, v.e, v.f, v.g, v.h][i]
  }

  /** The digest is the eight words in order, each as a big-endian number. */
  lemma DigestIsBe(v: Vars, i: nat)
    requires i < 8
    ensures FromBe(Ints(Digest(v)[4 * i..4 * i + 4])) == Variable(v, i) as int
  {
    OctetsAreBe(Variable(v, i));
    DigestOctets(v, i);
  }

  lemma EightPieces(a: Bytes, b: Bytes, c: Bytes, d: Bytes, e: Bytes, f: Bytes, g: Bytes, h: Bytes, i: nat)
    requires |a| == |b| == |c| == |d| == |e| == |f| == |g| == |h| == 4 && i < 8
    ensures (a + b + c + d + e + f + g + h)[4 * i..4 * i + 4] == [a, b, c, d, e, f, g, h][i]
  {
    FourPieces(a, b, c, d, i % 4);
    FourPieces(e, f, g, h, i % 4);
    var x, y := a + b + c + d, e + f + g + h;
    assert a + b + c + d + e + f + g + h == x + y;
    if i < 4 {
      assert (x + y)[4 * i..4 * i + 4] == x[4 * i..4 * i + 4];
    } else {
      var k := i - 4;
      assert (x + y)[4 * i..4 * i + 4] == y[4 * k..4 * k + 4];
    }
  }

  lemma FourPieces(a: Bytes, b: Bytes, c: Bytes, d: Bytes, i: nat)
    requires |a| == |b| == |c| == |d| == 4 && i < 4
    ensures (a + b + c + d)[4 * i..4 * i + 4] == [a, b, c, d][i]
  {
  }

  lemma DigestOctets(v: Vars, i: nat)
    requires i < 8
    ensures Digest(v)[4 * i..4 * i + 4] == WordBytes(Variable(v, i))
  {
    EightPieces(WordBytes(v.a), WordBytes(v.b), WordBytes(v.c), WordBytes(v.d),
                WordBytes(v.e), WordBytes(v.f), WordBytes(v.g), WordBytes(v.h), i);
  }

  /** Section 2 of RFC 2104 in full: whatever `ipad` and `opad` are, if each of their octets is that of the
    * key, which is hashed first when longer than a block and is zero beyond its end, plus 0x36 and 0x5c. */
  lemma HmacMeans(p: Consts, key: Bytes, msg: Bytes, ipad: Bytes, opad: Bytes)
    requires |ipad| == |opad| == 64
    requires var k := if |key| <= 64 then key else Sha(p, key);
      forall j :: 0 <= j < 64 ==>
        ipad[j] ^ 0x36 == opad[j] ^ 0x5c == if j < |k| then k[j] else 0
    ensures Hmac(p, key, msg) == Sha(p, opad + Sha(p, ipad + msg))
  {
    var k := KeyBlock(p, key);
    forall j | 0 <= j < 64
      ensures XorWith(k, 0x36)[j] == ipad[j] && XorWith(k, 0x5c)[j] == opad[j]
    {
      Twice(ipad[j], 0x36);
      Twice(opad[j], 0x5c);
    }
    assert XorWith(k, 0x36) == ipad && XorWith(k, 0x5c) == opad;
  }

  lemma Twice(x: bv8, y: bv8)
    ensures (x ^ y) ^ y == x
  {
  }
}
