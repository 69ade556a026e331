/** Option and Result: the two shapes the Rust code returns instead of raising. */
module Wrappers {

  datatype Option<+T> = None | Some(value: T)

  datatype Result<+T, +E> = Ok(value: T) | Err(error: E)
}

/** Sequences that several components build. */
module Sequences {

  function Copies<T>(x: T, n: nat): (r: seq<T>)
    ensures |r| == n
  {
    seq(n, i => x)
  }

  lemma ConcatFour<T>(a: seq<T>, b: seq<T>, c: seq<T>, d: seq<T>)
    ensures a + b + c + d == a + (b + c + d)
    ensures (a + (b + c)) + d == a + b + c + d
  {
  }
}

/** Small arithmetic that several components count with. */
module Numbers {

  function Min(a: nat, b: nat): nat { if a <= b then a else b }

  /** Octets in one file block, in either direction. */
  const FILE_READ_CHUNK: nat := 8192

  /** Blocks in which `n` octets are read: an empty file takes one read as well. */
  function ReadsFor(n: nat): nat { if n == 0 then 1 else (n + FILE_READ_CHUNK - 1) / FILE_READ_CHUNK }

  /** As many blocks of 8192 octets as are needed, and at least one. */
  lemma ReadsForIs(n: nat)
    ensures var r := ReadsFor(n);
      r >= 1 && n <= r * 8192 && (r > 1 ==> (r - 1) * 8192 < n)
  {
  }
}

/** The order in which the server keeps names. */
module Names {

  /** Order of names, character by character; a proper prefix comes first. */
  predicate Less(a: string, b: string) {
    if |b| == 0 then false
    else if |a| == 0 then true
    else a[0] < b[0] || (a[0] == b[0] && Less(a[1..], b[1..]))
  }

  predicate AtMost(a: string, b: string) { !Less(b, a) }

  lemma {:induction false} LessAsymmetric(a: string, b: string)
    requires Less(a, b)
    ensures !Less(b, a)
  {
    if |a| > 0 && a[0] == b[0] { LessAsymmetric(a[1..], b[1..]); }
  }

  lemma {:induction false} LessIrreflexive(a: string)
    ensures !Less(a, a)
  {
    if |a| > 0 { LessIrreflexive(a[1..]); }
  }

  /** The first character that differs decides; a text comes before those that go on from it. */
  lemma {:induction false} LessMeans(front: string, x: char, s: string, y: char, t: string)
    ensures x != y ==> (Less(front + [x] + s, front + [y] + t) <==> x < y)
    ensures Less(front, front + [y] + t) && !Less(front + [y] + t, front)
  {
    if front == "" {
      assert front + [x] + s == [x] + s && front + [y] + t == [y] + t;
    } else {
      LessMeans(front[1..], x, s, y, t);
      assert (front + [x] + s)[1..] == front[1..] + [x] + s && (front + [y] + t)[1..] == front[1..] + [y] + t;
    }
  }

  /** What sorting and removing duplicates leaves. */
  ghost predicate StrictlySorted(names: seq<string>) {
    forall i, j :: 0 <= i < j < |names| ==> Less(names[i], names[j])
  }
}

/** Octets and the big-endian numbers that every codec of the stack reads and writes. */
module Octets {

  type Byte = x: int | 0 <= x < 256
  type U16 = x: int | 0 <= x < 0x1_0000
  type U32 = x: int | 0 <= x < 0x1_0000_0000
  type U64 = x: int | 0 <= x < 0x1_0000_0000_0000_0000
  type I64 = x: int | -0x8000_0000_0000_0000 <= x < 0x8000_0000_0000_0000

  const TWO_32: int := 0x1_0000_0000
  const TWO_64: int := 0x1_0000_0000_0000_0000

  function Pow256(n: nat): (r: nat)
    ensures r >= 1
  {
    if n == 0 then 1 else 256 * Pow256(n - 1)
  }

  /** Value of a big-endian octet string. */
  function FromBe(s: seq<Byte>): nat {
    if |s| == 0 then 0 else FromBe(s[..|s| - 1]) * 256 + s[|s| - 1]
  }

  /** The `n` low-order octets of `v`, most significant first. */
  function ToBe(v: nat, n: nat): (r: seq<Byte>)
    ensures |r| == n
  {
    if n == 0 then [] else ToBe(v / 256, n - 1) + [v % 256]
  }

  lemma {:induction false} FromToBe(v: nat, n: nat)
    requires v < Pow256(n)
    ensures FromBe(ToBe(v, n)) == v
  {
    if n > 0 {
      FromToBe(v / 256, n - 1);
      assert ToBe(v, n)[..n - 1] == ToBe(v / 256, n - 1);
    }
  }

  lemma {:induction false} ToFromBe(s: seq<Byte>)
    ensures FromBe(s) < Pow256(|s|) && ToBe(FromBe(s), |s|) == s
  {
    if |s| > 0 {
      var front, last: nat := s[..|s| - 1], s[|s| - 1];
      ToFromBe(front);
      assert FromBe(s) / 256 == FromBe(front) && FromBe(s) % 256 == last;
      assert s == front + [s[|s| - 1]];
    }
  }

  lemma Pow256Eight()
    ensures Pow256(8) == TWO_64 && Pow256(4) == TWO_32 && Pow256(2) == 0x1_0000
  {
    assert Pow256(2) == 0x1_0000;
    assert Pow256(4) == 0x1_0000 * Pow256(2);
    assert Pow256(6) == 0x1_0000 * Pow256(4);
    assert Pow256(8) == 0x1_0000 * Pow256(6);
  }
}

/** The `Data` values of MMS as the server stores them and the codec transports them. */
module MmsValues {
  import opened Octets

  /** An item as its segments: the domain, then what `$` separates in the item name. */
  type Path = seq<string>
  type Store = map<Path, MmsData>

  /** `Float` carries the IEEE 754 octets as they travel; strings are UTF-8 octets. */
  datatype MmsData =
    | Bool(b: bool)
    | Int(i: I64)
    | Uint(u: U64)
    | Float(ieee: seq<Byte>)
    | BitStr(unused: Byte, bits: seq<Byte>)
    | Octet(o: seq<Byte>)
    | Visible(vs: seq<Byte>)
    | MmsStr(ms: seq<Byte>)
    | Utc(raw: seq<Byte>)
    | BinaryTime(bt: seq<Byte>)
    | Structure(items: seq<MmsData>)
    | Array(elems: seq<MmsData>)
}
