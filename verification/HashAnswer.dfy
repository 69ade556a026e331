/** The digest of the message `abc`, computed through every word and round: the example of FIPS 180-4. */
module HashAnswer {
  import opened Octets
  import opened Sequences
  import opened HashWords
  import opened HashTables
  import opened Fips180

  const ABC: Bytes := [0x61, 0x62, 0x63]

  /** Eight words of the schedule from place `t`. */
  ghost predicate Words(block: Bytes, t: nat, w: seq<bv32>) {
    && |block| == 64 && t + 8 <= 64 && |w| == 8
    && Schedule(block, t) == w[0] && Schedule(block, t + 1) == w[1]
    && Schedule(block, t + 2) == w[2] && Schedule(block, t + 3) == w[3]
    && Schedule(block, t + 4) == w[4] && Schedule(block, t + 5) == w[5]
    && Schedule(block, t + 6) == w[6] && Schedule(block, t + 7) == w[7]
  }

  /** Eight words from the sixteen before them. */
  predicate Follows(u: seq<bv32>, v: seq<bv32>, w: seq<bv32>) {
    && |u| == |v| == |w| == 8
    && w[0] == NextWord(v[6], v[1], u[1], u[0])
    && w[1] == NextWord(v[7], v[2], u[2], u[1])
    && w[2] == NextWord(w[0], v[3], u[3], u[2])
    && w[3] == NextWord(w[1], v[4], u[4], u[3])
    && w[4] == NextWord(w[2], v[5], u[5], u[4])
    && w[5] == NextWord(w[3], v[6], u[6], u[5])
    && w[6] == NextWord(w[4], v[7], u[7], u[6])
    && w[7] == NextWord(w[5], w[0], v[0], u[7])
  }

  lemma NextOf(block: Bytes, t: nat, w2: bv32, w7: bv32, w15: bv32, w16: bv32)
    requires |block| == 64 && 16 <= t < 64
    requires Schedule(block, t - 2) == w2 && Schedule(block, t - 7) == w7
    requires Schedule(block, t - 15) == w15 && Schedule(block, t - 16) == w16
    ensures Schedule(block, t) == NextWord(w2, w7, w15, w16)
  {
  }

  lemma NextWords(block: Bytes, t: nat, u: seq<bv32>, v: seq<bv32>, w: seq<bv32>)
    requires 16 <= t <= 56 && Words(block, t - 16, u) && Words(block, t - 8, v) && Follows(u, v, w)
    ensures Words(block, t, w)
  {
    NextOf(block, t, v[6], v[1], u[1], u[0]);
    NextOf(block, t + 1, v[7], v[2], u[2], u[1]);
    NextOf(block, t + 2, w[0], v[3], u[3], u[2]);
    NextOf(block, t + 3, w[1], v[4], u[4], u[3]);
    NextOf(block, t + 4, w[2], v[5], u[5], u[4]);
    NextOf(block, t + 5, w[3], v[6], u[6], u[5]);
    NextOf(block, t + 6, w[4], v[7], u[7], u[6]);
    NextOf(block, t + 7, w[5], w[0], v[0], u[7]);
  }

  function Four(x: Vars, k: seq<bv32>, w: seq<bv32>, i: nat): Vars
    requires i + 4 <= |k| == |w|
  {
    Round(Round(Round(Round(x, k[i], w[i]), k[i + 1], w[i + 1]), k[i + 2], w[i + 2]), k[i + 3], w[i + 3])
  }

  lemma RoundStep(k: seq<bv32>, h: Vars, block: Bytes, t: nat, x: Vars)
    requires |block| == 64 && |k| == 64 && t < 64 && Rounds(k, h, block, t) == x
    ensures Rounds(k, h, block, t + 1) == Round(x, k[t], Schedule(block, t))
  {
  }

  lemma RowAt(k: seq<bv32>, t: nat, row: seq<bv32>, i: nat)
    requires t + 8 <= |k| && k[t..t + 8] == row && i <= 4
    ensures k[t + i] == row[i] && k[t + i + 1] == row[i + 1]
    ensures k[t + i + 2] == row[i + 2] && k[t + i + 3] == row[i + 3]
  {
  }

  lemma WordsAt(block: Bytes, t: nat, w: seq<bv32>, i: nat)
    requires Words(block, t, w) && (i == 0 || i == 4)
    ensures Schedule(block, t + i) == w[i] && Schedule(block, t + i + 1) == w[i + 1]
    ensures Schedule(block, t + i + 2) == w[i + 2] && Schedule(block, t + i + 3) == w[i + 3]
  {
  }

  lemma FourRounds(k: seq<bv32>, h: Vars, block: Bytes, t: nat, x: Vars, row: seq<bv32>, w: seq<bv32>, i: nat)
    requires |k| == 64 && t <= 56 && k[t..t + 8] == row && Words(block, t, w) && (i == 0 || i == 4)
    requires Rounds(k, h, block, t + i) == x
    ensures Rounds(k, h, block, t + i + 4) == Four(x, row, w, i)
  {
    var y := Rounds(k, h, block, t + i + 1);
    var z := Rounds(k, h, block, t + i + 2);
    RoundStep(k, h, block, t + i, x);
    RoundStep(k, h, block, t + i + 1, y);
    RoundStep(k, h, block, t + i + 2, z);
    RoundStep(k, h, block, t + i + 3, Rounds(k, h, block, t + i + 3));
    RowAt(k, t, row, i);
    WordsAt(block, t, w, i);
  }

  lemma EightRounds(k: seq<bv32>, h: Vars, block: Bytes, t: nat, x: Vars, row: seq<bv32>, w: seq<bv32>)
    requires |k| == 64 && t <= 56 && k[t..t + 8] == row && Words(block, t, w)
    requires Rounds(k, h, block, t) == x
    ensures Rounds(k, h, block, t + 8) == Four(Four(x, row, w, 0), row, w, 4)
  {
    FourRounds(k, h, block, t, x, row, w, 0);
    FourRounds(k, h, block, t, Four(x, row, w, 0), row, w, 4);
  }

  // ---------------------------------------------------------------- the words and the variables of `abc`

  const W0: seq<bv32> := [
    0x61626380, 0x00000000, 0x00000000, 0x00000000, 0x00000000, 0x00000000, 0x00000000, 0x00000000]
  const W1: seq<bv32> := [
    0x00000000, 0x00000000, 0x00000000, 0x00000000, 0x00000000, 0x00000000, 0x00000000, 0x00000018]
  const W2: seq<bv32> := [
    0x61626380, 0x000f0000, 0x7da86405, 0x600003c6, 0x3e9d7b78, 0x0183fc00, 0x12dcbfdb, 0xe2e2c38e]
  const W3: seq<bv32> := [
    0xc8215c1a, 0xb73679a2, 0xe5bc3909, 0x32663c5b, 0x9d209d67, 0xec8726cb, 0x702138a4, 0xd3b7973b]
  const W4: seq<bv32> := [
    0x93f5997f, 0x3b68ba73, 0xaff4ffc1, 0xf10a5c62, 0x0a8b3996, 0x72af830a, 0x9409e33e, 0x24641522]
  const W5: seq<bv32> := [
    0x9f47bf94, 0xf0a64f5a, 0x3e246a79, 0x27333ba3, 0x0c4763f2, 0x840abf27, 0x7a290d5d, 0x065c43da]
  const W6: seq<bv32> := [
    0xfb3e89cb, 0xcc7617db, 0xb9e66c34, 0xa9993667, 0x84badedd, 0xc21462bc, 0x1487472c, 0xb20f7a99]
  const W7: seq<bv32> := [
    0xef57b9cd, 0xebe6b238, 0x9fe3095e, 0x78bc8d4b, 0xa43fcf15, 0x668b2ff8, 0xeeaba2cc, 0x12b1edeb]

  const X0: Vars := Vars(
    0x6a09e667, 0xbb67ae85, 0x3c6ef372, 0xa54ff53a, 0x510e527f, 0x9b05688c, 0x1f83d9ab, 0x5be0cd19)
  const X1: Vars := Vars(
    0xd550f666, 0xc8c347a7, 0x5a6ad9ad, 0x5d6aebcd, 0x24e00850, 0xf92939eb, 0x78ce7989, 0xfa2a4622)
  const X2: Vars := Vars(
    0x85a07b5f, 0xe5030380, 0x2b4209f5, 0x04409a6a, 0x0c657a79, 0x9b27a401, 0x714260ad, 0x43ada245)
  const X3: Vars := Vars(
    0xf71fc5a9, 0x4798a3f4, 0x8c87346b, 0x8e04ecb9, 0x816fd6e9, 0x436b23e8, 0x1cc92596, 0x32ca2d8c)
  const X4: Vars := Vars(
    0xb0fa238e, 0xc0645fde, 0xd932eb16, 0x87912990, 0x07590dcd, 0x0b92f20c, 0x745a48de, 0x1e578218)
  const X5: Vars := Vars(
    0xe1f20c33, 0xfe777bbf, 0xc2fbd9d1, 0x21da9a9b, 0xb0638179, 0xcc899961, 0x846ee454, 0x8034229c)
  const X6: Vars := Vars(
    0xc5d53d8d, 0xa7a3623f, 0xc2606d6d, 0x9dc68b63, 0xaa47c347, 0x49f5114a, 0xe1257970, 0x8ada8930)
  const X7: Vars := Vars(
    0x77d37528, 0xb62ec4bc, 0xcde8037d, 0x1c2c2838, 0xedffbff8, 0xc74c6516, 0x14383d8e, 0x2823ef91)
  const X8: Vars := Vars(
    0x73b33bf5, 0xea992a22, 0xa0060b30, 0x363482c9, 0xba591112, 0x0109ab3a, 0xade79437, 0x6112a3b7)
  const X9: Vars := Vars(
    0x65a0cfe4, 0xa9a7738c, 0xfe604df5, 0x98e12507, 0xf4b002d6, 0x085f3833, 0x59249dd3, 0x9cd9f5f6)
  const X10: Vars := Vars(
    0x79ea687a, 0x6dc57a8a, 0x34df1604, 0x41a65cb1, 0x1efbc0a0, 0xf0781bc8, 0xa507a53d, 0x0772a26b)
  const X11: Vars := Vars(
    0x9d4baf93, 0x17aa0dfe, 0xdf46652f, 0xd6670766, 0xfda24c2e, 0xdecd4715, 0x838b2711, 0x26352d63)
  const X12: Vars := Vars(
    0x4172328d, 0xa14c14b0, 0x72ab4b91, 0x26628815, 0xfecf0bc6, 0xd57b94a9, 0xb7755da1, 0xa80f11f0)
  const X13: Vars := Vars(
    0x886e7a22, 0x7a0508a1, 0xf11bfaa8, 0x05757ceb, 0x49231c1e, 0x52f1ccf7, 0x6e5c390c, 0xbd714038)
  const X14: Vars := Vars(
    0x38cc9913, 0x3ec45cdb, 0xf5702fdb, 0x101fd28f, 0x54cb266b, 0xe50e1b4f, 0x9f4787c3, 0x529e7d00)
  const X15: Vars := Vars(
    0xb6ae8fff, 0xffb70472, 0xc062d46f, 0xfcd1887b, 0xb21bad3d, 0x6d83bfc6, 0x7e44008e, 0x9b5e906c)
  const X16: Vars := Vars(
    0x506e3058, 0xd39a2165, 0x04d24d6c, 0xb85e2ce9, 0x5ef50f24, 0xfb121210, 0x948d25b6, 0x961f4894)

  lemma WordsFollow()
    ensures Follows(W0, W1, W2) && Follows(W1, W2, W3) && Follows(W2, W3, W4)
    ensures Follows(W3, W4, W5) && Follows(W4, W5, W6) && Follows(W5, W6, W7)
  {
  }

  lemma Rounds0()
    ensures Four(X0, ROUND_CONSTANTS_0, W0, 0) == X1
    ensures Four(X1, ROUND_CONSTANTS_0, W0, 4) == X2
  {
  }

  lemma Rounds1()
    ensures Four(X2, ROUND_CONSTANTS_1, W1, 0) == X3
    ensures Four(X3, ROUND_CONSTANTS_1, W1, 4) == X4
  {
  }

  lemma Rounds2()
    ensures Four(X4, ROUND_CONSTANTS_2, W2, 0) == X5
    ensures Four(X5, ROUND_CONSTANTS_2, W2, 4) == X6
  {
  }

  lemma Rounds3()
    ensures Four(X6, ROUND_CONSTANTS_3, W3, 0) == X7
    ensures Four(X7, ROUND_CONSTANTS_3, W3, 4) == X8
  {
  }

  lemma Rounds4()
    ensures Four(X8, ROUND_CONSTANTS_4, W4, 0) == X9
    ensures Four(X9, ROUND_CONSTANTS_4, W4, 4) == X10
  {
  }

  lemma Rounds5()
    ensures Four(X10, ROUND_CONSTANTS_5, W5, 0) == X11
    ensures Four(X11, ROUND_CONSTANTS_5, W5, 4) == X12
  {
  }

  lemma Rounds6()
    ensures Four(X12, ROUND_CONSTANTS_6, W6, 0) == X13
    ensures Four(X13, ROUND_CONSTANTS_6, W6, 4) == X14
  {
  }

  lemma Rounds7()
    ensures Four(X14, ROUND_CONSTANTS_7, W7, 0) == X15
    ensures Four(X15, ROUND_CONSTANTS_7, W7, 4) == X16
  {
  }

  // ---------------------------------------------------------------- the digest of `abc`

  lemma LengthOctets()
    ensures ToBe(24, 8) == [0, 0, 0, 0, 0, 0, 0, 24]
  {
    assert ToBe(0, 1) == [0];
    assert ToBe(0, 3) == [0, 0, 0];
    assert ToBe(0, 5) == [0, 0, 0, 0, 0];
    assert ToBe(0, 7) == [0, 0, 0, 0, 0, 0, 0];
  }

  /** The one block of the padded message. */
  lemma BlockOctets(i: nat)
    requires i < 64
    ensures var b := Padded(ABC, 24);
      && |b| == 64
      && b[i] == if i < 3 then ABC[i] else if i == 3 then 0x80 else if i == 63 then 0x18 else 0
  {
    LengthOctets();
    assert PadZeros(3) == 52;
  }

  lemma BlockWord(b: Bytes, i: nat)
    requires |b| == 64 && i < 16
    requires forall j :: 0 <= j < 64 ==>
      b[j] == if j < 3 then ABC[j] else if j == 3 then 0x80 else if j == 63 then 0x18 else 0
    ensures Schedule(b, i) == if i == 0 then 0x61626380 else if i == 15 then 0x18 else 0
  {
  }

  lemma FirstWords()
    ensures Words(Padded(ABC, 24), 0, W0) && Words(Padded(ABC, 24), 8, W1)
  {
    var b := Padded(ABC, 24);
    forall j | 0 <= j < 64
      ensures |b| == 64
      ensures b[j] == if j < 3 then ABC[j] else if j == 3 then 0x80 else if j == 63 then 0x18 else 0
    {
      BlockOctets(j);
    }
    forall i: nat | i < 16
      ensures |b| == 64
      ensures Schedule(b, i) == if i == 0 then 0x61626380 else if i == 15 then 0x18 else 0
    {
      BlockOctets(0);
      BlockWord(b, i);
    }
    assert Schedule(b, 0) == W0[0] && Schedule(b, 15) == W1[7];
  }

  lemma AllWords(b: Bytes)
    requires Words(b, 0, W0) && Words(b, 8, W1)
    ensures Words(b, 16, W2) && Words(b, 24, W3) && Words(b, 32, W4)
    ensures Words(b, 40, W5) && Words(b, 48, W6) && Words(b, 56, W7)
  {
    WordsFollow();
    NextWords(b, 16, W0, W1, W2);
    NextWords(b, 24, W1, W2, W3);
    NextWords(b, 32, W2, W3, W4);
    NextWords(b, 40, W3, W4, W5);
    NextWords(b, 48, W4, W5, W6);
    NextWords(b, 56, W5, W6, W7);
  }

  /** Where the eight constants of each row are. */
  lemma Rows(k: seq<bv32>)
    requires k == SHA_256.k
    ensures k[0..8] == ROUND_CONSTANTS_0 && k[8..16] == ROUND_CONSTANTS_1 && k[16..24] == ROUND_CONSTANTS_2
    ensures k[24..32] == ROUND_CONSTANTS_3 && k[32..40] == ROUND_CONSTANTS_4 && k[40..48] == ROUND_CONSTANTS_5
    ensures k[48..56] == ROUND_CONSTANTS_6 && k[56..64] == ROUND_CONSTANTS_7
  {
  }

  lemma {:induction false} AllRounds(k: seq<bv32>, b: Bytes)
    requires k == SHA_256.k && Words(b, 0, W0) && Words(b, 8, W1)
    ensures Rounds(k, X0, b, 64) == X16
  {
    Rows(k);
    AllWords(b);
    FirstRounds(k, b);
    LastRounds(k, b);
  }

  lemma FirstRounds(k: seq<bv32>, b: Bytes)
    requires |k| == 64
    requires k[0..8] == ROUND_CONSTANTS_0 && Words(b, 0, W0)
    requires k[8..16] == ROUND_CONSTANTS_1 && Words(b, 8, W1)
    requires k[16..24] == ROUND_CONSTANTS_2 && Words(b, 16, W2)
    requires k[24..32] == ROUND_CONSTANTS_3 && Words(b, 24, W3)
    ensures Rounds(k, X0, b, 32) == X8
  {
    Rounds0();
    EightRounds(k, X0, b, 0, X0, ROUND_CONSTANTS_0, W0);
    Rounds1();
    EightRounds(k, X0, b, 8, X2, ROUND_CONSTANTS_1, W1);
    Rounds2();
    EightRounds(k, X0, b, 16, X4, ROUND_CONSTANTS_2, W2);
    Rounds3();
    EightRounds(k, X0, b, 24, X6, ROUND_CONSTANTS_3, W3);
  }

  lemma LastRounds(k: seq<bv32>, b: Bytes)
    requires |k| == 64
    requires k[32..40] == ROUND_CONSTANTS_4 && Words(b, 32, W4)
    requires k[40..48] == ROUND_CONSTANTS_5 && Words(b, 40, W5)
    requires k[48..56] == ROUND_CONSTANTS_6 && Words(b, 48, W6)
    requires k[56..64] == ROUND_CONSTANTS_7 && Words(b, 56, W7)
    requires Rounds(k, X0, b, 32) == X8
    ensures Rounds(k, X0, b, 64) == X16
  {
    Rounds4();
    EightRounds(k, X0, b, 32, X8, ROUND_CONSTANTS_4, W4);
    Rounds5();
    EightRounds(k, X0, b, 40, X10, ROUND_CONSTANTS_5, W5);
    Rounds6();
    EightRounds(k, X0, b, 48, X12, ROUND_CONSTANTS_6, W6);
    Rounds7();
    EightRounds(k, X0, b, 56, X14, ROUND_CONSTANTS_7, W7);
  }

  /** FIPS 180-4: the digest of the three octets `abc`. */
  lemma AbcDigest()
    ensures Sha(SHA_256, ABC) == [
      0xba, 0x78, 0x16, 0xbf, 0x8f, 0x01, 0xcf, 0xea, 0x41, 0x41, 0x40, 0xde, 0x5d, 0xae, 0x22, 0x23,
      0xb0, 0x03, 0x61, 0xa3, 0x96, 0x17, 0x7a, 0x9c, 0xb4, 0x10, 0xff, 0x61, 0xf2, 0x00, 0x15, 0xad]
  {
    var b := Padded(ABC, 24);
    BlockOctets(0);
    FirstWords();
    AllRounds(SHA_256.k, b);
    assert SHA_256.h0 == X0;
    assert b[..0] == [] && b[0..] == b;
    assert Fold(SHA_256, []) == X0;
    assert Fold(SHA_256, b) == Compress(SHA_256, X0, b) == AddVars(X16, X0);
    FinalOctets();
  }

  lemma FinalOctets()
    ensures Digest(AddVars(X16, X0)) == [
      0xba, 0x78, 0x16, 0xbf, 0x8f, 0x01, 0xcf, 0xea, 0x41, 0x41, 0x40, 0xde, 0x5d, 0xae, 0x22, 0x23,
      0xb0, 0x03, 0x61, 0xa3, 0x96, 0x17, 0x7a, 0x9c, 0xb4, 0x10, 0xff, 0x61, 0xf2, 0x00, 0x15, 0xad]
  {
    assert WordBytes(X16.a + X0.a) == [0xba, 0x78, 0x16, 0xbf];
    assert WordBytes(X16.b + X0.b) == [0x8f, 0x01, 0xcf, 0xea];
    assert WordBytes(X16.c + X0.c) == [0x41, 0x41, 0x40, 0xde];
    assert WordBytes(X16.d + X0.d) == [0x5d, 0xae, 0x22, 0x23];
    assert WordBytes(X16.e + X0.e) == [0xb0, 0x03, 0x61, 0xa3];
    assert WordBytes(X16.f + X0.f) == [0x96, 0x17, 0x7a, 0x9c];
    assert WordBytes(X16.g + X0.g) == [0xb4, 0x10, 0xff, 0x61];
    assert WordBytes(X16.h + X0.h) == [0xf2, 0x00, 0x15, 0xad];
  }
}
