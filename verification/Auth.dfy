/** The words that SHA-256 works on and the functions of section 4.1.2 of FIPS 180-4. */
module HashWords {
  type Bytes = seq<bv8>

  // Section 4.1.2.
  function Ch(x: bv32, y: bv32, z: bv32): bv32 { (x & y) ^ (!x & z) }
  function Maj(x: bv32, y: bv32, z: bv32): bv32 { (x & y) ^ (x & z) ^ (y & z) }
  function BigSigma0(x: bv32): bv32 { x.RotateRight(2) ^ x.RotateRight(13) ^ x.RotateRight(22) }
  function BigSigma1(x: bv32): bv32 { x.RotateRight(6) ^ x.RotateRight(11) ^ x.RotateRight(25) }
  function SmallSigma0(x: bv32): bv32 { x.RotateRight(7) ^ x.RotateRight(18) ^ (x >> 3) }
  function SmallSigma1(x: bv32): bv32 { x.RotateRight(17) ^ x.RotateRight(19) ^ (x >> 10) }

  /** Word `i` of a block, big-endian. */
  function WordAt(block: Bytes, i: nat): bv32
    requires 4 * i + 4 <= |block|
  {
    ((block[4 * i] as bv32) << 24) | ((block[4 * i + 1] as bv32) << 16)
    | ((block[4 * i + 2] as bv32) << 8) | (block[4 * i + 3] as bv32)
  }

  function WordBytes(w: bv32): Bytes {
    [((w >> 24) & 0xff) as bv8, ((w >> 16) & 0xff) as bv8, ((w >> 8) & 0xff) as bv8, (w & 0xff) as bv8]
  }
}

/** What FIPS 180-4 fixes by table. */
module HashTables {

  /** The eight working variables, or the eight words of a hash value. */
  datatype Vars = Vars(a: bv32, b: bv32, c: bv32, d: bv32, e: bv32, f: bv32, g: bv32, h: bv32)

  /** What the standard fixes by table: the initial hash value and one constant for each round. */
  datatype Tables = Tables(h0: Vars, k: seq<bv32>)

  type Consts = t: Tables | |t.k| == 64 witness Tables(Vars(0, 0, 0, 0, 0, 0, 0, 0), seq(64, i => 0 as bv32))

  // Section 4.2.2, eight constants at a time.
  const ROUND_CONSTANTS_0: seq<bv32> := [
    0x428a2f98, 0x71374491, 0xb5c0fbcf, 0xe9b5dba5, 0x3956c25b, 0x59f111f1, 0x923f82a4, 0xab1c5ed5]
  const ROUND_CONSTANTS_1: seq<bv32> := [
    0xd807aa98, 0x12835b01, 0x243185be, 0x550c7dc3, 0x72be5d74, 0x80deb1fe, 0x9bdc06a7, 0xc19bf174]
  const ROUND_CONSTANTS_2: seq<bv32> := [
    0xe49b69c1, 0xefbe4786, 0x0fc19dc6, 0x240ca1cc, 0x2de92c6f, 0x4a7484aa, 0x5cb0a9dc, 0x76f988da]
  const ROUND_CONSTANTS_3: seq<bv32> := [
    0x983e5152, 0xa831c66d, 0xb00327c8, 0xbf597fc7, 0xc6e00bf3, 0xd5a79147, 0x06ca6351, 0x14292967]
  const ROUND_CONSTANTS_4: seq<bv32> := [
    0x27b70a85, 0x2e1b2138, 0x4d2c6dfc, 0x53380d13, 0x650a7354, 0x766a0abb, 0x81c2c92e, 0x92722c85]
  const ROUND_CONSTANTS_5: seq<bv32> := [
    0xa2bfe8a1, 0xa81a664b, 0xc24b8b70, 0xc76c51a3, 0xd192e819, 0xd6990624, 0xf40e3585, 0x106aa070]
  const ROUND_CONSTANTS_6: seq<bv32> := [
    0x19a4c116, 0x1e376c08, 0x2748774c, 0x34b0bcb5, 0x391c0cb3, 0x4ed8aa4a, 0x5b9cca4f, 0x682e6ff3]
  const ROUND_CONSTANTS_7: seq<bv32> := [
    0x748f82ee, 0x78a5636f, 0x84c87814, 0x8cc70208, 0x90befffa, 0xa4506ceb, 0xbef9a3f7, 0xc67178f2]

  /** Section 5.3.3. */
  const INITIAL_HASH: Vars := Vars(0x6a09e667, 0xbb67ae85, 0x3c6ef372, 0xa54ff53a,
                                   0x510e527f, 0x9b05688c, 0x1f83d9ab, 0x5be0cd19)

  const SHA_256: Consts := Tables(INITIAL_HASH,
    ROUND_CONSTANTS_0 + ROUND_CONSTANTS_1 + ROUND_CONSTANTS_2 + ROUND_CONSTANTS_3
    + ROUND_CONSTANTS_4 + ROUND_CONSTANTS_5 + ROUND_CONSTANTS_6 + ROUND_CONSTANTS_7)
}

/** SHA-256 as FIPS 180-4 defines it, on octets and 32-bit words. */
module Fips180 {
  import opened Octets
  import opened Sequences
  import opened HashWords
  import opened HashTables

  /** The message schedule, section 6.2.2 step 1. */
  function Schedule(block: Bytes, t: nat): bv32
    requires |block| == 64 && t < 64
  {
    if t < 16 then WordAt(block, t)
    else NextWord(Schedule(block, t - 2), Schedule(block, t - 7), Schedule(block, t - 15), Schedule(block, t - 16))
  }

  /** A later word of the schedule from the words 2, 7, 15 and 16 places before it. */
  function NextWord(w2: bv32, w7: bv32, w15: bv32, w16: bv32): bv32 {
    SmallSigma1(w2) + w7 + SmallSigma0(w15) + w16
  }

  function Plus(x: bv32, y: bv32): bv32 { x + y }
  function T1(e: bv32, f: bv32, g: bv32, h: bv32, k: bv32, w: bv32): bv32 { h + BigSigma1(e) + Ch(e, f, g) + k + w }
  function T2(a: bv32, b: bv32, c: bv32): bv32 { BigSigma0(a) + Maj(a, b, c) }

  /** Section 6.2.2 step 3. */
  function Round(v: Vars, k: bv32, w: bv32): Vars {
    var t1 := T1(v.e, v.f, v.g, v.h, k, w);
    Vars(Plus(t1, T2(v.a, v.b, v.c)), v.a, v.b, v.c, Plus(v.d, t1), v.e, v.f, v.g)
  }

  function Rounds(k: seq<bv32>, v: Vars, block: Bytes, t: nat): Vars
    requires |block| == 64 && |k| == 64 && t <= 64
  {
    if t == 0 then v else Round(Rounds(k, v, block, t - 1), k[t - 1], Schedule(block, t - 1))
  }

  function AddVars(v: Vars, h: Vars): Vars {
    Vars(v.a + h.a, v.b + h.b, v.c + h.c, v.d + h.d, v.e + h.e, v.f + h.f, v.g + h.g, v.h + h.h)
  }

  /** Section 6.2.2 step 4. */
  function Compress(p: Consts, h: Vars, block: Bytes): Vars
    requires |block| == 64
  {
    var v := Rounds(p.k, h, block, 64);
    AddVars(v, h)
  }

  /** All the blocks of a message, first to last, from the initial hash value. */
  function Fold(p: Consts, m: Bytes): Vars
    requires |m| % 64 == 0
    decreases |m|
  {
    if |m| == 0 then p.h0 else Compress(p, Fold(p, m[..|m| - 64]), m[|m| - 64..])
  }

  /** Zero octets between the octet 0x80 and the length. */
  function PadZeros(n: nat): nat { (55 - n) % 64 }

  predicate Fits(bits: nat, zeroBits: nat) { (bits + 1 + zeroBits) % 512 == 448 }

  /** In bits, as section 5.1.1 puts it: after the bit 1 come the fewest zero bits that make the
    * length 448 modulo 512. */
  lemma PaddingIsLeast(n: nat)
    ensures var k := 7 + 8 * PadZeros(n);
      Fits(8 * n, k) && forall j :: 0 <= j < k ==> !Fits(8 * n, j)
  {
    assert (n + 1 + PadZeros(n)) % 64 == 56;
  }

  function ToBytes(s: seq<Byte>): (r: Bytes)
    ensures |r| == |s|
  {
    seq(|s|, i requires 0 <= i < |s| => s[i] as bv8)
  }

  /** The message, padded, with `bits` as its length. */
  function Padded(m: Bytes, bits: nat): (p: Bytes)
    ensures |p| % 64 == 0
  {
    m + [0x80 as bv8] + Copies(0 as bv8, PadZeros(|m|)) + ToBytes(ToBe(bits, 8))
  }

  function Digest(v: Vars): (r: Bytes)
    ensures |r| == 32
  {
    WordBytes(v.a) + WordBytes(v.b) + WordBytes(v.c) + WordBytes(v.d)
    + WordBytes(v.e) + WordBytes(v.f) + WordBytes(v.g) + WordBytes(v.h)
  }

  /** Section 6.2 for any tables; SHA-256 is `Sha(SHA_256, m)`. */
  function Sha(p: Consts, m: Bytes): (r: Bytes)
    ensures |r| == 32
  {
    Digest(Fold(p, Padded(m, 8 * |m|)))
  }
}

/** HMAC as section 2 of RFC 2104 defines it, over SHA-256 with 64-octet blocks. */
module Rfc2104 {
  import opened Fips180
  import opened HashTables
  import opened HashWords
  import opened Sequences

  function KeyBlock(p: Consts, key: Bytes): (k: Bytes)
    ensures |k| == 64
  {
    if |key| > 64 then Sha(p, key) + Copies(0 as bv8, 32) else key + Copies(0 as bv8, 64 - |key|)
  }

  function XorWith(k: Bytes, pad: bv8): (r: Bytes)
    ensures |r| == |k|
  {
    seq(|k|, i requires 0 <= i < |k| => k[i] ^ pad)
  }

  function Hmac(p: Consts, key: Bytes, msg: Bytes): (r: Bytes)
    ensures |r| == 32
  {
    Sha(p, XorWith(KeyBlock(p, key), 0x5c) + Sha(p, XorWith(KeyBlock(p, key), 0x36) + msg))
  }
}

/** The incremental hasher and the keyed authenticator of frames. */
module Auth {
  import opened Octets
  import opened Sequences
  import opened Fips180
  import opened HashTables
  import opened HashWords
  import opened Rfc2104

  const BLOCK: nat := 64
  const HMAC_SHA256_TAG_LEN: nat := 32

  function VarsOf(s: seq<bv32>): Vars
    requires |s| == 8
  {
    Vars(s[0], s[1], s[2], s[3], s[4], s[5], s[6], s[7])
  }

  method StoreVars(state: array<bv32>, v: Vars)
    requires state.Length == 8
    modifies state
    ensures VarsOf(state[..]) == v
  {
    state[0], state[1], state[2], state[3] := v.a, v.b, v.c, v.d;
    state[4], state[5], state[6], state[7] := v.e, v.f, v.g, v.h;
  }

  ghost predicate Scheduled(w: seq<bv32>, block: Bytes)
    requires |block| == 64 && |w| <= 64
  {
    forall j :: 0 <= j < |w| ==> w[j] == Schedule(block, j)
  }

  method MixWords(w2: bv32, w7: bv32, w15: bv32, w16: bv32) returns (r: bv32)
    ensures r == NextWord(w2, w7, w15, w16)
  {
    r := w16 + SmallSigma0(w15) + w7 + SmallSigma1(w2);
  }

  method MakeSchedule(block: Bytes) returns (w: array<bv32>)
    requires |block| == 64
    ensures fresh(w) && w.Length == 64 && Scheduled(w[..], block)
  {
    w := new bv32[64];
    for i := 0 to 16
      invariant Scheduled(w[..i], block)
    {
      w[i] := WordAt(block, i);
      assert w[..i + 1] == w[..i] + [WordAt(block, i)];
    }
    for i := 16 to 64
      invariant Scheduled(w[..i], block)
    {
      assert forall j :: 0 <= j < i ==> w[j] == w[..i][j];
      var word := MixWords(w[i - 2], w[i - 7], w[i - 15], w[i - 16]);
      ghost var before := w[..i];
      w[i] := word;
      assert w[..i + 1] == before + [word];
    }
    assert w[..] == w[..64];
  }

  method OneRound(v: Vars, k: bv32, w: bv32) returns (r: Vars)
    ensures r == Round(v, k, w)
  {
    var t1 := T1(v.e, v.f, v.g, v.h, k, w);
    var t2 := T2(v.a, v.b, v.c);
    r := Vars(Plus(t1, t2), v.a, v.b, v.c, Plus(v.d, t1), v.e, v.f, v.g);
  }

  method RunRounds(k: seq<bv32>, h: Vars, block: Bytes, w: seq<bv32>) returns (v: Vars)
    requires |block| == 64 && |k| == 64 && |w| == 64
    requires Scheduled(w, block)
    ensures v == Rounds(k, h, block, 64)
  {
    v := h;
    for i := 0 to 64
      invariant v == Rounds(k, h, block, i)
    {
      v := OneRound(v, k[i], w[i]);
    }
  }

  /** One block into the state, in place. */
  method CompressBlock(p: Consts, state: array<bv32>, block: Bytes)
    requires state.Length == 8 && |block| == 64
    modifies state
    ensures VarsOf(state[..]) == Compress(p, old(VarsOf(state[..])), block)
  {
    var w := MakeSchedule(block);
    var h := VarsOf(state[..]);
    var v := RunRounds(p.k, h, block, w[..]);
    StoreVars(state, AddVars(v, h));
  }

  lemma FoldBlock(p: Consts, m: Bytes, block: Bytes)
    requires |m| % 64 == 0 && |block| == 64
    ensures Fold(p, m + block) == Compress(p, Fold(p, m), block)
  {
    assert (m + block)[..|m + block| - 64] == m && (m + block)[|m + block| - 64..] == block;
  }

  /** Hash value `h` and unfinished block `held` after the octets `fed`. */
  ghost predicate Absorbed(p: Consts, h: Vars, held: Bytes, fed: Bytes) {
    && |held| < 64 && |held| <= |fed| && (|fed| - |held|) % 64 == 0
    && held == fed[|fed| - |held|..]
    && h == Fold(p, fed[..|fed| - |held|])
  }

  lemma AbsorbPart(p: Consts, h: Vars, held: Bytes, fed: Bytes, part: Bytes)
    requires Absorbed(p, h, held, fed) && |held| + |part| < 64
    ensures Absorbed(p, h, held + part, fed + part)
  {
    var n := |fed| - |held|;
    assert (fed + part)[..n] == fed[..n];
    assert (fed + part)[n..] == held + part;
  }

  lemma AbsorbBlock(p: Consts, h: Vars, held: Bytes, fed: Bytes, part: Bytes)
    requires Absorbed(p, h, held, fed) && |held| + |part| == 64
    ensures Absorbed(p, Compress(p, h, held + part), [], fed + part)
  {
    var n := |fed| - |held|;
    FoldBlock(p, fed[..n], held + part);
    TailThenPart(fed, n, part);
  }

  lemma TailThenPart(fed: Bytes, n: nat, part: Bytes)
    requires n <= |fed|
    ensures fed + part == fed[..n] + (fed[n..] + part)
    ensures (fed + part)[..|fed + part|] == fed + part && (fed + part)[|fed + part|..] == []
  {
  }

  lemma SplitConcat(done: Bytes, data: Bytes, n: nat)
    requires n <= |data|
    ensures (done + data[..n]) + data[n..] == done + data
  {
  }

  /** Copies a slice into part of an array. */
  method CopyInto(dst: array<bv8>, at: nat, src: Bytes)
    requires at + |src| <= dst.Length
    modifies dst
    ensures dst[..at + |src|] == old(dst[..at]) + src
  {
    forall i | 0 <= i < |src| { dst[at + i] := src[i]; }
  }

  lemma RemainderIs(q: nat, r: nat)
    requires r < TWO_64
    ensures (TWO_64 * q + r) % TWO_64 == r
  {
  }

  lemma SameRemainder(x: nat, q: nat)
    ensures (TWO_64 * q + x) % TWO_64 == x % TWO_64
  {
    RemainderIs(q + x / TWO_64, x % TWO_64);
    assert TWO_64 * q + x == TWO_64 * (q + x / TWO_64) + x % TWO_64;
  }

  /** The wrapping counter is as good as the exact one for what is computed from it. */
  lemma CountModulo(total: nat, n: nat, more: nat)
    requires total == n % TWO_64
    ensures (total + more) % TWO_64 == (n + more) % TWO_64
    ensures total * 8 % TWO_64 == 8 * n % TWO_64
  {
    SameRemainder(total + more, n / TWO_64);
    SameRemainder(total * 8, 8 * (n / TWO_64));
  }

  class Hasher {
    /** The tables; `SHA_256` in every use. */
    const p: Consts
    var state: array<bv32>
    var buf: array<bv8>
    var bufLen: nat
    var total: U64
    /** Every octet taken in so far, padding included. */
    ghost var fed: Bytes

    ghost predicate Valid()
      reads this, state, buf
    {
      && state.Length == 8 && buf.Length == BLOCK && bufLen < BLOCK
      && Absorbed(p, VarsOf(state[..]), buf[..bufLen], fed)
    }

    constructor (tables: Consts)
      ensures Valid() && p == tables && fed == [] && total == 0
      ensures fresh(state) && fresh(buf)
    {
      var s := new bv32[8];
      StoreVars(s, tables.h0);
      var b := new bv8[BLOCK](_ => 0);
      p, state, buf, bufLen, total, fed := tables, s, b, 0, 0, [];
    }

    /** Completes the block in the buffer, or puts what there is into it. */
    method TopUp(data: Bytes) returns (rest: Bytes)
      requires Valid() && bufLen > 0
      modifies this`bufLen, this`fed, state, buf
      ensures Valid() && fed + rest == old(fed) + data
      ensures rest != [] ==> bufLen == 0
    {
      var need := BLOCK - bufLen;
      var take := if need <= |data| then need else |data|;
      ghost var held, part := buf[..bufLen], data[..take];
      SplitConcat(fed, data, take);
      CopyInto(buf, bufLen, data[..take]);
      if take == need {
        AbsorbBlock(p, VarsOf(state[..]), held, fed, part);
        assert buf[..] == buf[..BLOCK];
        CompressBlock(p, state, buf[..]);
        bufLen := 0;
      } else {
        AbsorbPart(p, VarsOf(state[..]), held, fed, part);
        bufLen := bufLen + take;
      }
      fed := fed + part;
      rest := data[take..];
    }

    /** Compresses the whole blocks at the front. */
    method EatBlocks(input: Bytes) returns (data: Bytes)
      requires Valid() && (input != [] ==> bufLen == 0)
      modifies this`bufLen, this`fed, state
      ensures Valid() && |data| < BLOCK && (data != [] ==> bufLen == 0)
      ensures fed + data == old(fed) + input
    {
      data := input;
      while |data| >= BLOCK
        invariant Valid() && (data != [] ==> bufLen == 0)
        invariant fed + data == old(fed) + input
      {
        AbsorbBlock(p, VarsOf(state[..]), [], fed, data[..BLOCK]);
        assert [] + data[..BLOCK] == data[..BLOCK];
        SplitConcat(fed, data, BLOCK);
        CompressBlock(p, state, data[..BLOCK]);
        fed := fed + data[..BLOCK];
        data := data[BLOCK..];
      }
    }

    /** Keeps what is left for the next call. */
    method Stash(data: Bytes)
      requires Valid() && |data| < BLOCK && (data != [] ==> bufLen == 0)
      modifies this`bufLen, this`fed, buf
      ensures Valid() && fed == old(fed) + data
    {
      if data != [] {
        AbsorbPart(p, VarsOf(state[..]), [], fed, data);
        CopyInto(buf, 0, data);
        bufLen := |data|;
        fed := fed + data;
      }
    }

    /** Takes octets in without counting them. */
    method Consume(input: Bytes)
      requires Valid()
      modifies this`bufLen, this`fed, state, buf
      ensures Valid() && fed == old(fed) + input
    {
      var data := input;
      if bufLen > 0 { data := TopUp(data); }
      data := EatBlocks(data);
      Stash(data);
    }

    method Update(data: Bytes)
      requires Valid() && total == |fed| % TWO_64
      modifies this`bufLen, this`fed, this`total, state, buf
      ensures Valid() && fed == old(fed) + data && total == |fed| % TWO_64
    {
      CountModulo(total, |fed|, |data|);
      total := (total + |data|) % TWO_64;
      Consume(data);
    }

    /** Feeds the padding and the length: what has been fed is then a whole number of blocks. */
    method Pad()
      requires Valid() && total == |fed| % TWO_64
      modifies this`bufLen, this`fed, state, buf
      ensures Valid() && bufLen == 0 && fed == Padded(old(fed), 8 * |old(fed)| % TWO_64)
    {
      var bitLen := total * 8 % TWO_64;
      var zeros := ZerosFor(bufLen);
      PadPlan(fed, bufLen, total, zeros);
      Consume([0x80 as bv8] + Copies(0 as bv8, zeros));
      Consume(ToBytes(ToBe(bitLen, 8)));
      HeldCount(|fed|, bufLen);
    }

    /** Pads, and gives the digest; nothing is left in the buffer. */
    method Finalize() returns (out: Bytes)
      requires Valid() && total == |fed| % TWO_64
      modifies this`bufLen, this`fed, state, buf
      ensures Valid() && bufLen == 0
      ensures out == Digest(Fold(p, Padded(old(fed), 8 * |old(fed)| % TWO_64)))
    {
      Pad();
      assert fed[..|fed|] == fed;
      out := WordsOut(state[..]);
    }
  }

  lemma HeldCount(n: nat, held: nat)
    requires held < 64 && held <= n && (n - held) % 64 == 0
    ensures held == n % 64
  {
  }

  method ZerosFor(bufLen: nat) returns (zeros: nat)
    requires bufLen < 64
    ensures zeros == PadZeros(bufLen)
  {
    var rem := (bufLen + 1) % BLOCK;
    zeros := if rem <= 56 then 56 - rem else 56 + BLOCK - rem;
  }

  lemma PadPlan(m: Bytes, held: nat, total: nat, zeros: nat)
    requires held < 64 && held <= |m| && (|m| - held) % 64 == 0
    requires total == |m| % TWO_64 && zeros == PadZeros(held)
    ensures (m + ([0x80 as bv8] + Copies(0 as bv8, zeros))) + ToBytes(ToBe(total * 8 % TWO_64, 8))
            == Padded(m, 8 * |m| % TWO_64)
  {
    HeldCount(|m|, held);
    assert zeros == PadZeros(|m|);
    CountModulo(total, |m|, 0);
    ConcatFour(m, [0x80 as bv8], Copies(0 as bv8, zeros), ToBytes(ToBe(8 * |m| % TWO_64, 8)));
  }

  /** Below 2^61 octets the counter has not wrapped, and the digest is the standard's. */
  lemma ShaOfShort(p: Consts, m: Bytes)
    requires 8 * |m| < TWO_64
    ensures Digest(Fold(p, Padded(m, 8 * |m| % TWO_64))) == Sha(p, m)
  {
  }

  method WordsOut(ws: seq<bv32>) returns (out: Bytes)
    requires |ws| == 8
    ensures out == Digest(VarsOf(ws))
  {
    out := [];
    for i := 0 to 8
      invariant out == WordsBytes(ws[..i])
    {
      out := out + WordBytes(ws[i]);
      assert ws[..i + 1][..i] == ws[..i];
    }
    assert ws == ws[..8];
    DigestWords(ws);
  }

  function WordsBytes(ws: seq<bv32>): Bytes {
    if |ws| == 0 then [] else WordsBytes(ws[..|ws| - 1]) + WordBytes(ws[|ws| - 1])
  }

  lemma DigestWords(ws: seq<bv32>)
    requires |ws| == 8
    ensures WordsBytes(ws) == Digest(VarsOf(ws))
  {
    forall i | 0 < i <= 8
      ensures WordsBytes(ws[..i]) == WordsBytes(ws[..i - 1]) + WordBytes(ws[i - 1])
    {
      assert ws[..i][..i - 1] == ws[..i - 1];
    }
    assert ws[..8] == ws && ws[..0] == [];
    assert [] + WordBytes(ws[0]) == WordBytes(ws[0]);
  }

  function Flatten(chunks: seq<Bytes>): Bytes {
    if |chunks| == 0 then [] else Flatten(chunks[..|chunks| - 1]) + chunks[|chunks| - 1]
  }

  lemma FlattenSnoc(chunks: seq<Bytes>, i: nat)
    requires i < |chunks|
    ensures Flatten(chunks[..i + 1]) == Flatten(chunks[..i]) + chunks[i]
  {
    assert chunks[..i + 1][..i] == chunks[..i];
  }

  /** However a message is cut into updates, the digest is that of the message. */
  method HashChunks(p: Consts, chunks: seq<Bytes>) returns (digest: Bytes)
    ensures digest == Digest(Fold(p, Padded(Flatten(chunks), 8 * |Flatten(chunks)| % TWO_64)))
    ensures 8 * |Flatten(chunks)| < TWO_64 ==> digest == Sha(p, Flatten(chunks))
  {
    var h := new Hasher(p);
    for i := 0 to |chunks|
      invariant h.Valid() && fresh(h) && fresh(h.state) && fresh(h.buf)
      invariant h.p == p && h.fed == Flatten(chunks[..i]) && h.total == |h.fed| % TWO_64
    {
      FlattenSnoc(chunks, i);
      h.Update(chunks[i]);
    }
    assert chunks[..|chunks|] == chunks;
    digest := h.Finalize();
    if 8 * |Flatten(chunks)| < TWO_64 { ShaOfShort(p, Flatten(chunks)); }
  }

  lemma FlattenTwo(a: Bytes, b: Bytes)
    ensures Flatten([a]) == a && Flatten([a, b]) == a + b
  {
    FlattenSnoc([a], 0);
    FlattenSnoc([a, b], 1);
    assert [a][..1] == [a] && [a, b][..2] == [a, b] && [a, b][..1] == [a] && [a][..0] == [];
  }

  method Sha256(msg: Bytes) returns (digest: Bytes)
    ensures 8 * |msg| < TWO_64 ==> digest == Sha(SHA_256, msg)
  {
    FlattenTwo(msg, []);
    digest := HashChunks(SHA_256, [msg]);
  }

  /** Both pads, each with the key block on it. */
  method Pads(k: Bytes) returns (ip: array<bv8>, op: array<bv8>)
    requires |k| == BLOCK
    ensures fresh(ip) && fresh(op) && ip[..] == XorWith(k, 0x36) && op[..] == XorWith(k, 0x5c)
  {
    ip := new bv8[BLOCK](_ => 0x36);
    op := new bv8[BLOCK](_ => 0x5c);
    for i := 0 to BLOCK
      invariant forall j :: 0 <= j < BLOCK ==> ip[j] == if j < i then k[j] ^ 0x36 else 0x36
      invariant forall j :: 0 <= j < BLOCK ==> op[j] == if j < i then k[j] ^ 0x5c else 0x5c
    {
      ip[i] := ip[i] ^ k[i];
      op[i] := op[i] ^ k[i];
    }
  }

  class HmacKey {
    const p: Consts
    const ipad: array<bv8>
    const opad: array<bv8>
    /** The material the key was made from. */
    ghost const key: Bytes

    ghost predicate Valid()
      reads ipad, opad
    {
      && ipad[..] == XorWith(KeyBlock(p, key), 0x36)
      && opad[..] == XorWith(KeyBlock(p, key), 0x5c)
    }

    constructor (tables: Consts, material: Bytes)
      requires 8 * |material| < TWO_64
      ensures Valid() && p == tables && key == material && fresh(ipad) && fresh(opad)
    {
      var k := KeyOctets(tables, material);
      var ip, op := Pads(k);
      p, ipad, opad, key := tables, ip, op, material;
    }

    method Mac(msg: Bytes) returns (tag: Bytes)
      requires Valid() && 8 * (|msg| + 64) < TWO_64
      ensures tag == Hmac(p, key, msg)
    {
      FlattenTwo(ipad[..], msg);
      var innerHash := HashChunks(p, [ipad[..], msg]);
      FlattenTwo(opad[..], innerHash);
      tag := HashChunks(p, [opad[..], innerHash]);
    }

    /** Accepts the tag of the message and no other. */
    method Verify(msg: Bytes, tag: Bytes) returns (ok: bool)
      requires Valid() && 8 * (|msg| + 64) < TWO_64
      ensures ok <==> tag == Hmac(p, key, msg)
    {
      if |tag| != HMAC_SHA256_TAG_LEN { return false; }
      var mac := Mac(msg);
      ok := CtEq(mac, tag);
    }
  }

  /** The block made of the key material: hashed when longer than a block, then filled with zeros. */
  method KeyOctets(p: Consts, material: Bytes) returns (out: Bytes)
    requires 8 * |material| < TWO_64
    ensures out == KeyBlock(p, material)
  {
    var k := new bv8[BLOCK](_ => 0);
    if |material| > BLOCK {
      FlattenTwo(material, []);
      var digest := HashChunks(p, [material]);
      forall i | 0 <= i < 32 { k[i] := digest[i]; }
    } else {
      forall i | 0 <= i < |material| { k[i] := material[i]; }
    }
    out := k[..];
  }

  /** Comparison that looks at every octet. */
  method CtEq(a: Bytes, b: Bytes) returns (eq: bool)
    ensures eq <==> a == b
  {
    if |a| != |b| { return false; }
    var diff: bv8 := 0;
    for i := 0 to |a|
      invariant diff == 0 <==> a[..i] == b[..i]
    {
      OrXorZero(diff, a[i], b[i]);
      assert a[..i + 1] == a[..i] + [a[i]] && b[..i + 1] == b[..i] + [b[i]];
      diff := diff | (a[i] ^ b[i]);
    }
    assert a[..|a|] == a && b[..|b|] == b;
    eq := diff == 0;
  }

  lemma OrXorZero(d: bv8, x: bv8, y: bv8)
    ensures d | (x ^ y) == 0 <==> d == 0 && x == y
  {
  }
}
