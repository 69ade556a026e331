/** BER lengths and the contents of the primitive types. */
module BerPrim {
  import opened Wrappers
  import opened Octets
  import opened Sequences

  datatype BerError =
    | UnexpectedEof | IndefiniteLength | LengthOverflow | BadInteger | BadBool
    | BadString | BadBitString | UnexpectedStructure | DepthExceeded

  /** The shortest big-endian form: no leading zero, except for zero itself. */
  function MinBe(v: nat): (r: seq<Byte>)
    ensures |r| > 0 && (v > 0 ==> r[0] != 0)
  {
    if v < 256 then [v] else MinBe(v / 256) + [v % 256]
  }

  lemma {:induction false} FromMinBe(v: nat)
    ensures FromBe(MinBe(v)) == v
  {
    if v < 256 {
      assert [v][..0] == [] && FromBe([]) == 0;
    } else {
      FromMinBe(v / 256);
      assert MinBe(v)[..|MinBe(v)| - 1] == MinBe(v / 256);
    }
  }

  lemma {:induction false} ToBeZero(n: nat)
    ensures ToBe(0, n) == Copies(0, n)
  {
    if n > 0 { ToBeZero(n - 1); }
  }

  /** A machine word is its shortest form behind zeros. */
  lemma {:induction false} WordIsMin(v: nat, n: nat)
    requires 0 < n && v < Pow256(n)
    ensures |MinBe(v)| <= n && ToBe(v, n) == Copies(0, n - |MinBe(v)|) + MinBe(v)
  {
    if v < 256 {
      assert v / 256 == 0 && v % 256 == v;
      ToBeZero(n - 1);
    } else {
      assert n > 1;
      WordIsMin(v / 256, n - 1);
    }
  }

  // ---------------------------------------------------------------- lengths

  function LenBytes(n: U64): (r: seq<Byte>)
    ensures |r| >= 1
  {
    if n < 0x80 then [n]
    else
      WordLength(n);
      [0x80 + |MinBe(n)|] + MinBe(n)
  }

  lemma WordLength(n: U64)
    ensures |MinBe(n)| <= 8 && ToBe(n, 8) == Copies(0, 8 - |MinBe(n)|) + MinBe(n)
  {
    Pow256Eight();
    WordIsMin(n, 8);
  }

  /** Index of the first octet that is not zero, or of the last octet. */
  method FirstNonzero(bytes: seq<Byte>) returns (k: nat)
    requires |bytes| > 0
    ensures k < |bytes| && (forall i :: 0 <= i < k ==> bytes[i] == 0)
    ensures bytes[k] != 0 || k == |bytes| - 1
  {
    k := 0;
    while k < |bytes| - 1 && bytes[k] == 0
      invariant k < |bytes| && forall i :: 0 <= i < k ==> bytes[i] == 0
    {
      k := k + 1;
    }
  }

  lemma FirstSignificant(n: U64, k: nat)
    requires n > 0 && k < 8 && (forall i :: 0 <= i < k ==> ToBe(n, 8)[i] == 0)
    requires ToBe(n, 8)[k] != 0 || k == 7
    ensures ToBe(n, 8)[k..] == MinBe(n) && k == 8 - |MinBe(n)|
  {
    WordLength(n);
    var z := 8 - |MinBe(n)|;
    assert ToBe(n, 8)[z] == MinBe(n)[0];
    assert forall i :: 0 <= i < z ==> ToBe(n, 8)[i] == 0;
  }

  method EncodeLen(out: seq<Byte>, len: U64) returns (r: seq<Byte>)
    ensures r == out + LenBytes(len)
  {
    if len < 0x80 { return out + [len]; }
    var bytes := ToBe(len, 8);
    var first := FirstNonzero(bytes);
    FirstSignificant(len, first);
    var significant := bytes[first..];
    r := out + [0x80 + |significant|];
    r := r + significant;
    assert r == out + ([0x80 + |significant|] + significant);
  }

  method LenEncodedSize(len: U64) returns (size: nat)
    ensures size == |LenBytes(len)|
  {
    if len < 0x80 { return 1; }
    var bytes := ToBe(len, 8);
    var first := FirstNonzero(bytes);
    FirstSignificant(len, first);
    size := 1 + (|bytes| - first);
  }

  /** The value and the number of octets it took. */
  function DecLen(data: seq<Byte>): Result<(nat, nat), BerError> {
    if |data| == 0 then Err(UnexpectedEof)
    else if data[0] < 0x80 then Ok((data[0], 1))
    else if data[0] == 0x80 then Err(IndefiniteLength)
    else
      var n := data[0] - 0x80;
      if n > 8 then Err(LengthOverflow)
      else if |data| < 1 + n then Err(UnexpectedEof)
      else Ok((FromBe(data[1..1 + n]), 1 + n))
  }

  method DecodeLen(data: seq<Byte>) returns (r: Result<(nat, nat), BerError>)
    ensures r == DecLen(data)
  {
    if |data| == 0 { return Err(UnexpectedEof); }
    var first := data[0];
    if first < 0x80 { return Ok((first, 1)); }
    if first == 0x80 { return Err(IndefiniteLength); }
    var n := first - 0x80;
    if n > 8 { return Err(LengthOverflow); }
    var len: nat := 0;
    for i := 0 to n
      invariant i < |data| && len == FromBe(data[1..1 + i])
    {
      if 1 + i >= |data| { return Err(UnexpectedEof); }
      assert data[1..2 + i][..i] == data[1..1 + i];
      len := len * 256 + data[1 + i];
    }
    r := Ok((len, 1 + n));
  }

  /** Every 64-bit length comes back, whatever follows it. */
  lemma LenRoundTrip(n: U64, rest: seq<Byte>)
    ensures DecLen(LenBytes(n) + rest) == Ok((n as nat, |LenBytes(n)|))
  {
    if n >= 0x80 {
      WordLength(n);
      FromMinBe(n);
      var m := MinBe(n);
      assert (LenBytes(n) + rest)[1..1 + |m|] == m;
    }
  }

  // ---------------------------------------------------------------- integers

  /** Two's complement, section 8.3.3 of X.690. */
  function SignedBe(s: seq<Byte>): int
    requires |s| > 0
  {
    FromBe(s) - if s[0] >= 128 then Pow256(|s|) else 0
  }

  lemma {:induction false} FromBeHead(s: seq<Byte>)
    requires |s| > 0
    ensures FromBe(s) == s[0] * Pow256(|s| - 1) + FromBe(s[1..])
  {
    var n := |s|;
    if n == 1 {
      assert s[..0] == [] && s[1..] == [] && FromBe([]) == 0;
    } else {
      FromBeHead(s[..n - 1]);
      assert s[..n - 1][1..] == s[1..][..n - 2];
      var p, f := Pow256(n - 2), FromBe(s[1..][..n - 2]);
      assert Pow256(n - 1) == 256 * p;
      assert FromBe(s[1..]) == f * 256 + s[n - 1];
      assert (s[0] * p + f) * 256 == s[0] * (256 * p) + f * 256;
    }
  }

  lemma SignedSnoc(s: seq<Byte>, b: Byte)
    requires |s| > 0
    ensures SignedBe(s + [b]) == SignedBe(s) * 256 + b
  {
    assert (s + [b])[..|s|] == s;
  }

  /** Section 8.3.2 of X.690: the first nine bits are neither all zero nor all one. */
  predicate Redundant(s: seq<Byte>) {
    |s| > 1 && ((s[0] == 0 && s[1] < 128) || (s[0] == 255 && s[1] >= 128))
  }

  lemma RedundantDrops(s: seq<Byte>)
    requires Redundant(s)
    ensures SignedBe(s[1..]) == SignedBe(s)
  {
    FromBeHead(s);
    var p := Pow256(|s| - 1);
    assert Pow256(|s|) == 256 * p;
    if s[0] == 255 { assert s[0] * p == 255 * p; }
  }

  function Shortest(s: seq<Byte>): (r: seq<Byte>)
    requires |s| > 0
    ensures 0 < |r| <= |s| && !Redundant(r)
  {
    if Redundant(s) then Shortest(s[1..]) else s
  }

  lemma {:induction false} ShortestKeeps(s: seq<Byte>)
    requires |s| > 0
    ensures SignedBe(Shortest(s)) == SignedBe(s)
  {
    if Redundant(s) {
      RedundantDrops(s);
      ShortestKeeps(s[1..]);
    }
  }

  /** `v.to_be_bytes()` of a signed word. */
  function WordOf(v: I64): seq<Byte> { ToBe(v % TWO_64, 8) }

  function IntBytes(v: I64): (r: seq<Byte>)
    ensures 0 < |r| <= 8 && !Redundant(r)
  {
    Shortest(WordOf(v))
  }

  /** The first octet of an eight-octet word holds the sign. */
  lemma SevenOctets()
    ensures Pow256(7) == 0x100_0000_0000_0000
  {
    Pow256Eight();
    assert Pow256(8) == 256 * Pow256(7);
  }

  lemma SignBit(w: seq<Byte>, u: nat)
    requires |w| == 8 && FromBe(w) == u
    ensures w[0] >= 128 <==> u >= 0x8000_0000_0000_0000
  {
    SevenOctets();
    FromBeHead(w);
    ToFromBe(w[1..]);
  }

  lemma WordValue(v: I64)
    ensures SignedBe(WordOf(v)) == v
  {
    var u: nat := if v >= 0 then v else v + TWO_64;
    assert v % TWO_64 == u;
    Pow256Eight();
    FromToBe(u, 8);
    SignBit(ToBe(u, 8), u);
  }

  /** The shortest encoding of the value. */
  lemma IntBytesMean(v: I64)
    ensures SignedBe(IntBytes(v)) == v
  {
    WordValue(v);
    ShortestKeeps(WordOf(v));
  }

  method EncodeInteger(v: I64) returns (bytes: seq<Byte>)
    ensures bytes == IntBytes(v)
  {
    bytes := WordOf(v);
    while |bytes| > 1
      invariant |bytes| > 0 && Shortest(bytes) == IntBytes(v)
      decreases |bytes|
    {
      var first, second := bytes[0], bytes[1];
      if (first == 0x00 && second < 0x80) || (first == 0xFF && second >= 0x80) {
        bytes := bytes[1..];
      } else {
        break;
      }
    }
  }

  function DecInteger(content: seq<Byte>): Result<int, BerError> {
    if |content| == 0 || |content| > 8 then Err(BadInteger) else Ok(SignedBe(content))
  }

  method DecodeInteger(content: seq<Byte>) returns (r: Result<int, BerError>)
    ensures r == DecInteger(content)
  {
    if |content| == 0 || |content| > 8 { return Err(BadInteger); }
    var first: int := content[0];
    var acc: int := if first >= 128 then first - 256 else first;
    assert FromBe([]) == 0;
    assert content[..1] == [content[0]] && [content[0]][..0] == [] && Pow256(1) == 256 * Pow256(0);
    for i := 1 to |content|
      invariant acc == SignedBe(content[..i])
    {
      SignedSnoc(content[..i], content[i]);
      assert content[..i + 1] == content[..i] + [content[i]];
      acc := acc * 256 + content[i];
    }
    assert content[..|content|] == content;
    r := Ok(acc);
  }

  lemma {:induction false} SignedRange(s: seq<Byte>)
    requires |s| > 0
    ensures -128 * Pow256(|s| - 1) <= SignedBe(s) < 128 * Pow256(|s| - 1)
  {
    var n := |s|;
    if n == 1 {
      assert s[..0] == [] && FromBe([]) == 0 && Pow256(1) == 256 * Pow256(0);
    } else {
      SignedRange(s[..n - 1]);
      SignedSnoc(s[..n - 1], s[n - 1]);
      assert s == s[..n - 1] + [s[n - 1]];
      assert Pow256(n - 1) == 256 * Pow256(n - 2);
    }
  }

  /** Eight octets at most hold a 64-bit value: the accumulator never overflows. */
  lemma SignedFits(s: seq<Byte>)
    requires 0 < |s| <= 8
    ensures -0x8000_0000_0000_0000 <= SignedBe(s) < 0x8000_0000_0000_0000
  {
    SignedRange(s);
    PowGrows(|s| - 1, 7);
    SevenOctets();
  }

  lemma {:induction false} PowGrows(a: nat, b: nat)
    requires a <= b
    ensures Pow256(a) <= Pow256(b)
  {
    if a < b { PowGrows(a, b - 1); }
  }

  // ---------------------------------------------------------------- unsigned and boolean

  function UintBytes(v: U64): (r: seq<Byte>)
    ensures |r| > 0
  {
    if MinBe(v)[0] >= 128 then [0] + MinBe(v) else MinBe(v)
  }

  method EncodeUnsigned(v: U64) returns (bytes: seq<Byte>)
    ensures bytes == UintBytes(v)
  {
    if v == 0 { return [0]; }
    bytes := ToBe(v, 8);
    WordLength(v);
    ghost var m := MinBe(v);
    while |bytes| > 1 && bytes[0] == 0
      invariant |m| <= |bytes| && bytes == Copies(0, |bytes| - |m|) + m
      decreases |bytes|
    {
      assert |bytes| > |m|;
      assert bytes[1..] == Copies(0, |bytes| - 1 - |m|) + m;
      bytes := bytes[1..];
    }
    assert |bytes| == |m|;
    assert bytes == m;
    if bytes[0] >= 0x80 { bytes := [0] + bytes; }
  }

  function Trimmed(content: seq<Byte>): seq<Byte> {
    if |content| > 1 && content[0] == 0 then content[1..] else content
  }

  function DecUnsigned(content: seq<Byte>): Result<nat, BerError> {
    if |content| == 0 then Err(BadInteger)
    else if |Trimmed(content)| > 8 then Err(LengthOverflow)
    else Ok(FromBe(Trimmed(content)))
  }

  method DecodeUnsigned(content: seq<Byte>) returns (r: Result<nat, BerError>)
    ensures r == DecUnsigned(content)
  {
    if |content| == 0 { return Err(BadInteger); }
    var trimmed := if content[0] == 0 && |content| > 1 then content[1..] else content;
    if |trimmed| > 8 { return Err(LengthOverflow); }
    var acc: nat := 0;
    for i := 0 to |trimmed|
      invariant acc == FromBe(trimmed[..i])
    {
      assert trimmed[..i + 1][..i] == trimmed[..i];
      acc := acc * 256 + trimmed[i];
    }
    assert trimmed[..|trimmed|] == trimmed;
    r := Ok(acc);
  }

  /** Both integer codecs give back every value; the signed one in its shortest form. */
  lemma IntegersRoundTrip(i: I64, u: U64)
    ensures DecInteger(IntBytes(i)) == Ok(i as int)
    ensures DecUnsigned(UintBytes(u)) == Ok(u as nat)
  {
    IntBytesMean(i);
    WordLength(u);
    FromMinBe(u);
    if MinBe(u)[0] >= 128 {
      assert ([0] + MinBe(u))[1..] == MinBe(u);
    } else if u == 0 {
      assert MinBe(u) == [0];
    }
  }

  function BoolBytes(b: bool): seq<Byte> { [if b then 0xFF else 0x00] }

  function DecBool(content: seq<Byte>): Result<bool, BerError> {
    if |content| == 1 then Ok(content[0] != 0) else Err(BadBool)
  }

  // ---------------------------------------------------------------- shortest forms

  lemma {:induction false} MinBeIsShortest(v: nat, s: seq<Byte>)
    requires |s| > 0 && FromBe(s) == v
    ensures |MinBe(v)| <= |s|
  {
    ToFromBe(s);
    WordIsMin(v, |s|);
  }

  /** A length below 128 is one octet; above it is 128 plus the number of octets of the shortest big-endian
    * form, and that form. */
  lemma LenForm(n: U64)
    ensures n < 128 ==> LenBytes(n) == [n]
    ensures n >= 128 ==>
      var b := LenBytes(n);
      && 2 <= |b| <= 9 && b[0] == 128 + (|b| - 1) && FromBe(b[1..]) == n
      && forall s :: |s| > 0 && FromBe(s) == n ==> |b| - 1 <= |s|
  {
    if n >= 128 {
      WordLength(n);
      FromMinBe(n);
      assert LenBytes(n)[1..] == MinBe(n);
      forall s: seq<Byte> | |s| > 0 && FromBe(s) == n
        ensures |LenBytes(n)| - 1 <= |s|
      {
        MinBeIsShortest(n, s);
      }
    }
  }

  /** Every input: the length, or why there is none. */
  lemma LenReads(data: seq<Byte>)
    ensures DecLen(data) ==
      if |data| == 0 then Err(UnexpectedEof)
      else if data[0] < 128 then Ok((data[0] as nat, 1))
      else if data[0] == 128 then Err(IndefiniteLength)
      else if data[0] > 136 then Err(LengthOverflow)
      else if |data| <= data[0] as nat - 128 then Err(UnexpectedEof)
      else Ok((FromBe(data[1..data[0] as nat - 127]), data[0] as nat - 127))
  {
  }

  /** A signed content of one octet; `SignedSnoc` says what each further octet adds. */
  lemma SignedOctet(b: Byte)
    ensures SignedBe([b]) == if b < 128 then b as int else b as int - 256
  {
    assert [b][..0] == [] && FromBe([]) == 0 && Pow256(1) == 256 * Pow256(0);
  }

  /** Beyond the reach of fewer octets. */
  lemma NeedsAll(s: seq<Byte>)
    requires |s| > 1 && !(s[0] == 0 && s[1] < 128) && !(s[0] == 255 && s[1] >= 128)
    ensures var p := Pow256(|s| - 2); SignedBe(s) < -128 * p || SignedBe(s) >= 128 * p
  {
    FromBeHead(s);
    FromBeHead(s[1..]);
    ToFromBe(s[1..][1..]);
    var p := Pow256(|s| - 2);
    assert Pow256(|s| - 1) == 256 * p && Pow256(|s|) == 256 * (256 * p);
    assert FromBe(s) == s[0] * (256 * p) + s[1] * p + FromBe(s[1..][1..]);
    HeadBounds(s[0], s[1], p, FromBe(s[1..][1..]));
  }

  lemma HeadBounds(a: Byte, b: Byte, p: nat, rest: nat)
    requires !(a == 0 && b < 128) && !(a == 255 && b >= 128) && rest < p
    ensures var x := a * (256 * p) + b * p + rest;
      if a < 128 then x >= 128 * p else x - 256 * (256 * p) < -128 * p
  {
    var c := 256 * a as int + b as int;
    assert a * (256 * p) + b * p == c * p;
    if a < 128 { assert c >= 128; Times(128, c, p); } else { assert c <= 65535 - 128; Times(c, 65407, p); }
  }

  lemma Times(a: int, b: int, p: nat)
    requires a <= b
    ensures a * p <= b * p
  {
  }

  /** No content in fewer octets has the value, signed or not. */
  lemma IntegersAreShortest(i: I64, u: U64, s: seq<Byte>)
    requires |s| > 0
    ensures SignedBe(s) == i ==> |IntBytes(i)| <= |s|
    ensures SignedBe(s) == u ==> |UintBytes(u)| <= |s|
  {
    if SignedBe(s) == i {
      IntBytesMean(i);
      SignedRange(s);
      if |IntBytes(i)| > |s| {
        NeedsAll(IntBytes(i));
        PowGrows(|s| - 1, |IntBytes(i)| - 2);
      }
    }
    if SignedBe(s) == u { UintIsShortest(u, s); }
  }

  lemma UintIsShortest(u: U64, s: seq<Byte>)
    requires |s| > 0 && SignedBe(s) == u
    ensures |UintBytes(u)| <= |s|
  {
    ToFromBe(s);
    assert s[0] < 128;
    MinBeIsShortest(u, s);
    FromMinBe(u);
    if |MinBe(u)| == |s| { SameNumber(MinBe(u), s); }
  }

  lemma SameNumber(a: seq<Byte>, b: seq<Byte>)
    requires |a| == |b| && FromBe(a) == FromBe(b)
    ensures a == b
  {
    ToFromBe(a);
    ToFromBe(b);
  }
}
