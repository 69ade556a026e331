/** Which octet strings are texts: the test that the decoder makes, against the encoding of characters. */
module Utf8 {
  import opened Octets
  import opened BerData

  /** A Unicode scalar value: no surrogate. */
  type Scalar = c: int | 0 <= c < 0x110000 && !(0xD800 <= c < 0xE000)

  /** The encoding of one character: table 3-6 of the Unicode standard. */
  function Encoded(c: Scalar): (r: seq<Byte>)
    ensures 1 <= |r| <= 4
  {
    if c < 0x80 then [c]
    else if c < 0x800 then [0xC0 + c / 64, 0x80 + c % 64]
    else if c < 0x10000 then [0xE0 + c / 4096, 0x80 + c / 64 % 64, 0x80 + c % 64]
    else [0xF0 + c / 262144, 0x80 + c / 4096 % 64, 0x80 + c / 64 % 64, 0x80 + c % 64]
  }

  function Text(cs: seq<Scalar>): seq<Byte> { if |cs| == 0 then [] else Encoded(cs[0]) + Text(cs[1..]) }

  /** Octets of the first character of a valid text. */
  function Width(s: seq<Byte>): nat
    requires |s| > 0
  {
    if s[0] < 0x80 then 1 else if s[0] < 0xE0 then 2 else if s[0] < 0xF0 then 3 else 4
  }

  function FirstOf(s: seq<Byte>): int
    requires |s| > 0 && |s| >= Width(s)
  {
    var a, n := s[0] as int, Width(s);
    if n == 1 then a
    else if n == 2 then (a - 0xC0) * 64 + (s[1] as int - 0x80)
    else if n == 3 then (a - 0xE0) * 4096 + (s[1] as int - 0x80) * 64 + (s[2] as int - 0x80)
    else (a - 0xF0) * 262144 + (s[1] as int - 0x80) * 4096 + (s[2] as int - 0x80) * 64 + (s[3] as int - 0x80)
  }

  predicate IsScalar(c: int) { 0 <= c < 0x110000 && !(0xD800 <= c < 0xE000) }

  lemma TwoOctets(a: Byte, b: Byte)
    requires 0xC2 <= a < 0xE0 && 0x80 <= b < 0xC0
    ensures var c := (a as int - 0xC0) * 64 + (b as int - 0x80); IsScalar(c) && Encoded(c) == [a, b]
  {
  }

  lemma ThreeOctets(a: Byte, b: Byte, d: Byte)
    requires 0xE0 <= a < 0xF0 && 0x80 <= b < 0xC0 && 0x80 <= d < 0xC0
    requires (a == 0xE0 ==> b >= 0xA0) && (a == 0xED ==> b < 0xA0)
    ensures var c := (a as int - 0xE0) * 4096 + (b as int - 0x80) * 64 + (d as int - 0x80);
      IsScalar(c) && Encoded(c) == [a, b, d]
  {
    var c := (a as int - 0xE0) * 4096 + (b as int - 0x80) * 64 + (d as int - 0x80);
    assert c / 64 == (a as int - 0xE0) * 64 + (b as int - 0x80) && c % 64 == d as int - 0x80;
    assert c / 4096 == a as int - 0xE0;
  }

  lemma FourOctets(a: Byte, b: Byte, d: Byte, e: Byte)
    requires 0xF0 <= a < 0xF5 && 0x80 <= b < 0xC0 && 0x80 <= d < 0xC0 && 0x80 <= e < 0xC0
    requires (a == 0xF0 ==> b >= 0x90) && (a == 0xF4 ==> b < 0x90)
    ensures var c := (a as int - 0xF0) * 262144 + (b as int - 0x80) * 4096 + (d as int - 0x80) * 64 + (e as int - 0x80);
      IsScalar(c) && Encoded(c) == [a, b, d, e]
  {
    var c := (a as int - 0xF0) * 262144 + (b as int - 0x80) * 4096 + (d as int - 0x80) * 64 + (e as int - 0x80);
    var x := (a as int - 0xF0) * 4096 + (b as int - 0x80) * 64 + (d as int - 0x80);
    assert c / 64 == x && c % 64 == e as int - 0x80;
    assert x / 64 == (a as int - 0xF0) * 64 + (b as int - 0x80) && x % 64 == d as int - 0x80;
    assert c / 4096 == x / 64 && c / 262144 == a as int - 0xF0;
  }

  lemma ValidTail(s: seq<Byte>)
    requires |s| > 0 && ValidUtf8(s)
    ensures |s| >= Width(s) && ValidUtf8(s[Width(s)..])
    ensures Width(s) == 2 ==> 0xC2 <= s[0] < 0xE0 && 0x80 <= s[1] < 0xC0
    ensures Width(s) == 3 ==>
      && 0xE0 <= s[0] < 0xF0 && 0x80 <= s[1] < 0xC0 && 0x80 <= s[2] < 0xC0
      && (s[0] == 0xE0 ==> s[1] >= 0xA0) && (s[0] == 0xED ==> s[1] < 0xA0)
    ensures Width(s) == 4 ==>
      && 0xF0 <= s[0] < 0xF5 && 0x80 <= s[1] < 0xC0 && 0x80 <= s[2] < 0xC0 && 0x80 <= s[3] < 0xC0
      && (s[0] == 0xF0 ==> s[1] >= 0x90) && (s[0] == 0xF4 ==> s[1] < 0x90)
  {
  }

  lemma Heads(s: seq<Byte>)
    ensures |s| >= 1 ==> s[..1] == [s[0]]
    ensures |s| >= 2 ==> s[..2] == [s[0], s[1]]
    ensures |s| >= 3 ==> s[..3] == [s[0], s[1], s[2]]
    ensures |s| >= 4 ==> s[..4] == [s[0], s[1], s[2], s[3]]
  {
  }

  lemma WideDecodes(s: seq<Byte>)
    requires |s| > 0 && |s| >= Width(s) > 1
    requires Width(s) == 2 ==> 0xC2 <= s[0] < 0xE0 && 0x80 <= s[1] < 0xC0
    requires Width(s) == 3 ==>
      && 0xE0 <= s[0] < 0xF0 && 0x80 <= s[1] < 0xC0 && 0x80 <= s[2] < 0xC0
      && (s[0] == 0xE0 ==> s[1] >= 0xA0) && (s[0] == 0xED ==> s[1] < 0xA0)
    requires Width(s) == 4 ==>
      && 0xF0 <= s[0] < 0xF5 && 0x80 <= s[1] < 0xC0 && 0x80 <= s[2] < 0xC0 && 0x80 <= s[3] < 0xC0
      && (s[0] == 0xF0 ==> s[1] >= 0x90) && (s[0] == 0xF4 ==> s[1] < 0x90)
    ensures IsScalar(FirstOf(s)) && s[..Width(s)] == Encoded(FirstOf(s))
  {
    Heads(s);
    if Width(s) == 2 { TwoOctets(s[0], s[1]); }
    else if Width(s) == 3 { ThreeOctets(s[0], s[1], s[2]); }
    else { FourOctets(s[0], s[1], s[2], s[3]); }
  }

  lemma FirstDecodes(s: seq<Byte>)
    requires |s| > 0 && ValidUtf8(s)
    ensures |s| >= Width(s) && IsScalar(FirstOf(s)) && ValidUtf8(s[Width(s)..])
    ensures s[..Width(s)] == Encoded(FirstOf(s))
  {
    ValidTail(s);
    if Width(s) > 1 { WideDecodes(s); } else { Heads(s); }
  }

  lemma TextCons(c: Scalar, rest: seq<Scalar>, s: seq<Byte>, n: nat)
    requires n <= |s| && s[..n] == Encoded(c) && s[n..] == Text(rest)
    ensures Text([c] + rest) == s
  {
    assert ([c] + rest)[1..] == rest && s == s[..n] + s[n..];
  }

  lemma {:induction false} ValidIsText(s: seq<Byte>) returns (cs: seq<Scalar>)
    requires ValidUtf8(s)
    ensures Text(cs) == s
    decreases |s|
  {
    if |s| == 0 {
      cs := [];
    } else {
      FirstDecodes(s);
      var n := Width(s);
      var rest := ValidIsText(s[n..]);
      cs := [FirstOf(s)] + rest;
      TextCons(FirstOf(s), rest, s, n);
    }
  }

  lemma EncodedIsValid(c: Scalar, rest: seq<Byte>)
    requires ValidUtf8(rest)
    ensures ValidUtf8(Encoded(c) + rest)
  {
    var s := Encoded(c) + rest;
    assert s[|Encoded(c)|..] == rest;
  }

  lemma {:induction false} TextIsValid(cs: seq<Scalar>)
    ensures ValidUtf8(Text(cs))
  {
    if |cs| > 0 {
      TextIsValid(cs[1..]);
      EncodedIsValid(cs[0], Text(cs[1..]));
    }
  }

  /** The test accepts exactly the encodings of sequences of characters. */
  lemma ValidIffText(s: seq<Byte>)
    ensures ValidUtf8(s) <==> exists cs: seq<Scalar> :: Text(cs) == s
  {
    if ValidUtf8(s) { var cs := ValidIsText(s); }
    forall cs: seq<Scalar> | Text(cs) == s
      ensures ValidUtf8(s)
    {
      TextIsValid(cs);
    }
  }
}
