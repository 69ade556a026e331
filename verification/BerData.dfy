/** The BER codec of `Data`, with its nesting limit. */
module BerData {
  import opened Wrappers
  import opened Octets
  import opened Sequences
  import opened MmsValues
  import opened BerPrim
  import opened BerTlv

  const MAX_NESTING_DEPTH: nat := 32

  function Ctx(number: U32, constructed: bool): Tag { Tag(Context, constructed, number) }

  // ---------------------------------------------------------------- leaf contents

  /** Well-formed UTF-8: table 3-7 of the Unicode standard. */
  predicate ValidUtf8(s: seq<Byte>) {
    if |s| == 0 then true
    else if s[0] < 0x80 then ValidUtf8(s[1..])
    else if 0xC2 <= s[0] < 0xE0 then |s| >= 2 && 0x80 <= s[1] < 0xC0 && ValidUtf8(s[2..])
    else if 0xE0 <= s[0] < 0xF0 then
      && |s| >= 3 && 0x80 <= s[1] < 0xC0 && 0x80 <= s[2] < 0xC0
      && (s[0] == 0xE0 ==> s[1] >= 0xA0) && (s[0] == 0xED ==> s[1] < 0xA0)
      && ValidUtf8(s[3..])
    else if 0xF0 <= s[0] < 0xF5 then
      && |s| >= 4 && 0x80 <= s[1] < 0xC0 && 0x80 <= s[2] < 0xC0 && 0x80 <= s[3] < 0xC0
      && (s[0] == 0xF0 ==> s[1] >= 0x90) && (s[0] == 0xF4 ==> s[1] < 0x90)
      && ValidUtf8(s[4..])
    else false
  }

  /** Exponent width, then the IEEE 754 octets. */
  function FloatBytes(ieee: seq<Byte>): seq<Byte> { [if |ieee| == 4 then 8 else 11] + ieee }

  function DecFloat(c: seq<Byte>): Result<MmsData, BerError> {
    if |c| == 5 || |c| == 9 then Ok(Float(c[1..])) else Err(UnexpectedStructure)
  }

  function DecBitStr(c: seq<Byte>): Result<MmsData, BerError> {
    if |c| == 0 || c[0] > 7 then Err(BadBitString) else Ok(BitStr(c[0], c[1..]))
  }

  function DecInt(c: seq<Byte>): Result<MmsData, BerError> {
    match DecInteger(c)
    case Err(e) => Err(e)
    case Ok(v) =>
      SignedFits(c);
      Ok(Int(v))
  }

  function DecUint(c: seq<Byte>): Result<MmsData, BerError> {
    match DecUnsigned(c)
    case Err(e) => Err(e)
    case Ok(v) =>
      UnsignedFits(Trimmed(c));
      Ok(Uint(v))
  }

  lemma UnsignedFits(s: seq<Byte>)
    requires |s| <= 8
    ensures FromBe(s) < TWO_64
  {
    ToFromBe(s);
    PowGrows(|s|, 8);
    Pow256Eight();
  }

  // ---------------------------------------------------------------- encoding

  function TagOf(v: MmsData): Tag {
    match v
    case Bool(_) => Ctx(3, false)
    case Int(_) => Ctx(5, false)
    case Uint(_) => Ctx(6, false)
    case Float(_) => Ctx(7, false)
    case BitStr(_, _) => Ctx(4, false)
    case Octet(_) => Ctx(9, false)
    case Visible(_) => Ctx(10, false)
    case MmsStr(_) => Ctx(16, false)
    case Utc(_) => Ctx(17, false)
    case BinaryTime(_) => Ctx(12, false)
    case Structure(_) => Ctx(2, true)
    case Array(_) => Ctx(1, true)
  }

  function ContentOf(v: MmsData): seq<Byte>
    decreases v, 0
  {
    match v
    case Bool(b) => BoolBytes(b)
    case Int(i) => IntBytes(i)
    case Uint(u) => UintBytes(u)
    case Float(ieee) => FloatBytes(ieee)
    case BitStr(unused, bits) => [unused] + bits
    case Octet(o) => o
    case Visible(s) => s
    case MmsStr(s) => s
    case Utc(raw) => raw
    case BinaryTime(b) => b
    case Structure(items) => ListBytes(items)
    case Array(items) => ListBytes(items)
  }

  function DataBytes(v: MmsData): seq<Byte>
    decreases v, 1
  {
    TlvBytes(TagOf(v), ContentOf(v))
  }

  function ListBytes(items: seq<MmsData>): seq<Byte> {
    if |items| == 0 then [] else ListBytes(items[..|items| - 1]) + DataBytes(items[|items| - 1])
  }

  /** The value appended to what the writer already holds. */
  method Encode(v: MmsData, w: BerWriter)
    modifies w
    ensures w.buf == old(w.buf) + DataBytes(v)
    decreases v, 1
  {
    match v {
      case Structure(items) => EncodeList(Ctx(2, true), items, w);
      case Array(items) => EncodeList(Ctx(1, true), items, w);
      case Int(i) =>
        var c := EncodeInteger(i);
        w.Primitive(Ctx(5, false), c);
      case Uint(u) =>
        var c := EncodeUnsigned(u);
        w.Primitive(Ctx(6, false), c);
      case _ => w.Primitive(TagOf(v), ContentOf(v));
    }
  }

  method EncodeList(tag: Tag, items: seq<MmsData>, w: BerWriter)
    modifies w
    ensures w.buf == old(w.buf) + TlvBytes(tag, ListBytes(items))
    decreases items, 1
  {
    ghost var before := w.buf;
    var contentStart := w.Open(tag);
    EncodeItems(items, w);
    ghost var content := ListBytes(items);
    assert w.buf[..contentStart] == before + TagBytes(tag) && w.buf[contentStart..] == content;
    w.Close(contentStart);
    ConcatFour(before, TagBytes(tag), LenBytes(|content| % TWO_64), content);
  }

  method EncodeItems(items: seq<MmsData>, w: BerWriter)
    modifies w
    ensures w.buf == old(w.buf) + ListBytes(items)
    decreases items, 0
  {
    for i := 0 to |items|
      invariant w.buf == old(w.buf) + ListBytes(items[..i])
    {
      AppendItem(old(w.buf), items, i);
      Encode(items[i], w);
    }
    assert items[..|items|] == items;
  }

  lemma AppendItem(front: seq<Byte>, items: seq<MmsData>, i: nat)
    requires i < |items|
    ensures front + ListBytes(items[..i + 1]) == front + ListBytes(items[..i]) + DataBytes(items[i])
  {
    ListPrefix(items, i);
  }

  // ---------------------------------------------------------------- decoding

  /** The class of the tag is not looked at. */
  function DecodeAt(t: Tlv, depth: nat): Result<MmsData, BerError>
    decreases |t.content|, 1, 0
  {
    var c, n := t.content, t.tag.number;
    if t.tag.constructed then
      if n == 2 then
        match DecodeFrom(c, 0, depth)
        case Ok(items) => Ok(Structure(items))
        case Err(e) => Err(e)
      else if n == 1 then
        match DecodeFrom(c, 0, depth)
        case Ok(items) => Ok(Array(items))
        case Err(e) => Err(e)
      else Err(UnexpectedStructure)
    else DecodeLeaf(n, c)
  }

  function DecodeLeaf(n: U32, c: seq<Byte>): Result<MmsData, BerError> {
    if n == 3 then
      match DecBool(c)
      case Ok(b) => Ok(Bool(b))
      case Err(e) => Err(e)
    else if n == 5 then DecInt(c)
    else if n == 6 then DecUint(c)
    else if n == 7 then DecFloat(c)
    else if n == 9 then Ok(Octet(c))
    else if n == 10 then if ValidUtf8(c) then Ok(Visible(c)) else Err(BadString)
    else if n == 16 then if ValidUtf8(c) then Ok(MmsStr(c)) else Err(BadString)
    else if n == 4 || n == 14 then DecBitStr(c)
    else if n == 12 then Ok(BinaryTime(c))
    else if n == 17 then if |c| == 8 then Ok(Utc(c)) else Err(UnexpectedStructure)
    else Err(UnexpectedStructure)
  }

  /** The members from `pos` on of a list nested `depth` deep. */
  function DecodeFrom(content: seq<Byte>, pos: nat, depth: nat): Result<seq<MmsData>, BerError>
    requires pos <= |content|
    decreases |content|, 0, |content| - pos
  {
    if depth >= MAX_NESTING_DEPTH then Err(DepthExceeded)
    else if pos == |content| then Ok([])
    else
      match ReadAt(content, pos)
      case Err(e) => Err(e)
      case Ok(p) =>
        match DecodeAt(p.0, depth + 1)
        case Err(e) => Err(e)
        case Ok(v) => Prepend([v], DecodeFrom(content, p.1, depth))
  }

  function Prepend(front: seq<MmsData>, r: Result<seq<MmsData>, BerError>): Result<seq<MmsData>, BerError> {
    match r
    case Ok(items) => Ok(front + items)
    case Err(e) => Err(e)
  }

  method DecodeList(content: seq<Byte>, depth: nat) returns (r: Result<seq<MmsData>, BerError>)
    requires |content| < TWO_64
    ensures r == DecodeFrom(content, 0, depth)
    decreases |content|, 0
  {
    if depth >= MAX_NESTING_DEPTH { return Err(DepthExceeded); }
    PrependNone(DecodeFrom(content, 0, depth));
    var reader := new BerReader(content);
    var out: seq<MmsData> := [];
    while reader.pos < |reader.data|
      invariant reader.Valid() && reader.data == content
      invariant DecodeFrom(content, 0, depth) == Prepend(out, DecodeFrom(content, reader.pos, depth))
      decreases |content| - reader.pos
    {
      var tlv := reader.ReadTlv();
      if tlv.Err? { return Err(tlv.error); }
      var v := DecodeValue(tlv.value, depth + 1);
      if v.Err? { return Err(v.error); }
      PrependTwice(out, v.value, DecodeFrom(content, reader.pos, depth));
      out := out + [v.value];
    }
    assert out + [] == out;
    r := Ok(out);
  }

  lemma PrependTwice(out: seq<MmsData>, v: MmsData, r: Result<seq<MmsData>, BerError>)
    ensures Prepend(out, Prepend([v], r)) == Prepend(out + [v], r)
  {
    if r.Ok? { assert out + ([v] + r.value) == out + [v] + r.value; }
  }

  lemma PrependNone(r: Result<seq<MmsData>, BerError>)
    ensures Prepend([], r) == r
  {
    if r.Ok? { assert [] + r.value == r.value; }
  }

  method DecodeValue(t: Tlv, depth: nat) returns (r: Result<MmsData, BerError>)
    requires |t.content| < TWO_64
    ensures r == DecodeAt(t, depth)
    decreases |t.content|, 1
  {
    if t.tag.constructed && (t.tag.number == 1 || t.tag.number == 2) {
      var items := DecodeList(t.content, depth);
      match items {
        case Err(e) => r := Err(e);
        case Ok(vs) => r := Ok(if t.tag.number == 2 then Structure(vs) else Array(vs));
      }
    } else if t.tag.constructed {
      r := Err(UnexpectedStructure);
    } else {
      r := DecodeLeaf(t.tag.number, t.content);
    }
  }

  function DecodeData(bytes: seq<Byte>): Result<MmsData, BerError> {
    match ReadAt(bytes, 0)
    case Err(e) => Err(e)
    case Ok(p) => DecodeAt(p.0, 0)
  }

  // ---------------------------------------------------------------- round trip

  /** What the Rust types guarantee of a value, and a bit string no one built by hand. */
  ghost predicate Encodable(v: MmsData) {
    match v
    case BitStr(unused, _) => unused <= 7
    case Float(ieee) => |ieee| == 4 || |ieee| == 8
    case Visible(s) => ValidUtf8(s)
    case MmsStr(s) => ValidUtf8(s)
    case Utc(raw) => |raw| == 8
    case Structure(items) => forall i :: 0 <= i < |items| ==> Encodable(items[i])
    case Array(items) => forall i :: 0 <= i < |items| ==> Encodable(items[i])
    case _ => true
  }

  /** Structures and arrays around the innermost value. */
  function Depth(v: MmsData): nat {
    match v
    case Structure(items) => 1 + DepthOf(items)
    case Array(items) => 1 + DepthOf(items)
    case _ => 0
  }

  function DepthOf(items: seq<MmsData>): nat {
    if |items| == 0 then 0
    else
      var rest, last := DepthOf(items[..|items| - 1]), Depth(items[|items| - 1]);
      if rest < last then last else rest
  }

  lemma {:induction false} LeafRoundTrip(v: MmsData)
    requires Encodable(v) && !v.Structure? && !v.Array?
    ensures DecodeLeaf(TagOf(v).number, ContentOf(v)) == Ok(v)
  {
    match v
    case Int(i) => IntegersRoundTrip(i, 0);
    case Uint(u) => IntegersRoundTrip(0, u);
    case Float(ieee) => assert FloatBytes(ieee)[1..] == ieee;
    case BitStr(unused, bits) => assert ([unused] + bits)[1..] == bits;
    case _ =>
  }

  lemma ContentShorter(v: MmsData)
    ensures |ContentOf(v)| < |DataBytes(v)|
  {
  }

  /** Decoding what was encoded, wherever it sits: the value if it fits below `depth`. */
  lemma {:induction false} DecodeEncoded(v: MmsData, depth: nat)
    requires Encodable(v) && |ContentOf(v)| < TWO_64 && depth <= MAX_NESTING_DEPTH
    ensures DecodeAt(Tlv(TagOf(v), ContentOf(v)), depth) ==
            if depth + Depth(v) <= MAX_NESTING_DEPTH then Ok(v) else Err(DepthExceeded)
    decreases v, 1
  {
    match v
    case Structure(items) => DecodeItems(items, items, depth);
    case Array(items) => DecodeItems(items, items, depth);
    case _ => LeafRoundTrip(v);
  }

  lemma ListPrefix(items: seq<MmsData>, k: nat)
    requires k < |items|
    ensures ListBytes(items[..k + 1]) == ListBytes(items[..k]) + DataBytes(items[k])
  {
    assert items[..k + 1][..k] == items[..k];
  }

  lemma {:induction false} ListMonotone(items: seq<MmsData>, k: nat)
    requires k <= |items|
    ensures |ListBytes(items[..k])| <= |ListBytes(items)|
    ensures ListBytes(items)[..|ListBytes(items[..k])|] == ListBytes(items[..k])
    decreases |items| - k
  {
    if k < |items| {
      ListPrefix(items, k);
      ListMonotone(items, k + 1);
      var a, b, all := ListBytes(items[..k]), ListBytes(items[..k + 1]), ListBytes(items);
      assert all[..|a|] == all[..|b|][..|a|] == a;
    } else {
      assert items[..k] == items;
    }
  }

  lemma MiddleSlice<T>(data: seq<T>, a: seq<T>, b: seq<T>)
    requires |a| + |b| <= |data| && data[..|a + b|] == a + b
    ensures data[|a|..|a| + |b|] == b
  {
    assert data[|a|..|a| + |b|] == data[..|a + b|][|a|..];
  }

  /** Where the octets of item `k` are. */
  lemma ItemSlice(items: seq<MmsData>, k: nat)
    requires k < |items|
    ensures var p, end := |ListBytes(items[..k])|, |ListBytes(items[..k + 1])|;
      end == p + |DataBytes(items[k])| && end <= |ListBytes(items)| && ListBytes(items)[p..end] == DataBytes(items[k])
  {
    ListPrefix(items, k);
    ListMonotone(items, k + 1);
    MiddleSlice(ListBytes(items), ListBytes(items[..k]), DataBytes(items[k]));
  }

  lemma ReadsItem(data: seq<Byte>, p: nat, v: MmsData, end: nat)
    requires end == p + |DataBytes(v)| && end <= |data| < TWO_64 && data[p..end] == DataBytes(v)
    ensures ReadAt(data, p) == Ok((Tlv(TagOf(v), ContentOf(v)), end))
  {
    ContentShorter(v);
    TlvRoundTrip(data, p, TagOf(v), ContentOf(v));
  }

  /** The item after the first `k` is read whole from where those end. */
  lemma ItemAt(items: seq<MmsData>, k: nat)
    requires k < |items| && |ListBytes(items)| < TWO_64
    ensures var p := |ListBytes(items[..k])|;
      && p < |ListBytes(items)|
      && ReadAt(ListBytes(items), p) ==
         Ok((Tlv(TagOf(items[k]), ContentOf(items[k])), |ListBytes(items[..k + 1])|))
  {
    ItemSlice(items, k);
    ContentShorter(items[k]);
    ReadsItem(ListBytes(items), |ListBytes(items[..k])|, items[k], |ListBytes(items[..k + 1])|);
  }

  ghost predicate AllFit(items: seq<MmsData>, k: nat, depth: nat) {
    forall i :: k <= i < |items| ==> depth + Depth(items[i]) <= MAX_NESTING_DEPTH
  }

  lemma {:induction false} DepthIsMax(items: seq<MmsData>)
    ensures forall i :: 0 <= i < |items| ==> Depth(items[i]) <= DepthOf(items)
    ensures items != [] ==> exists i :: 0 <= i < |items| && Depth(items[i]) == DepthOf(items)
  {
    if |items| > 0 {
      var n := |items| - 1;
      DepthIsMax(items[..n]);
      if DepthOf(items) == Depth(items[n]) {
      } else {
        var i :| 0 <= i < n && Depth(items[..n][i]) == DepthOf(items[..n]);
        assert Depth(items[i]) == DepthOf(items);
      }
    }
  }

  lemma FirstAndRest<T>(s: seq<T>, k: nat)
    requires k < |s|
    ensures s[k..] == [s[k]] + s[k + 1..]
  {
  }

  lemma AllFitFrom(items: seq<MmsData>, k: nat, depth: nat)
    requires k < |items|
    ensures AllFit(items, k, depth) <==> depth + Depth(items[k]) <= MAX_NESTING_DEPTH && AllFit(items, k + 1, depth)
  {
  }

  lemma DecodeOne(content: seq<Byte>, pos: nat, depth: nat)
    requires pos < |content| && depth < MAX_NESTING_DEPTH && ReadAt(content, pos).Ok?
    ensures var p := ReadAt(content, pos).value;
      DecodeFrom(content, pos, depth) ==
      match DecodeAt(p.0, depth + 1)
      case Err(e) => Err(e)
      case Ok(v) => Prepend([v], DecodeFrom(content, p.1, depth))
  {
  }

  /** Members are decoded in order, and the first that nests too deep decides. */
  lemma {:induction false} DecodeSuffix(owner: seq<MmsData>, items: seq<MmsData>, k: nat, depth: nat)
    requires owner == items && k <= |items| && depth < MAX_NESTING_DEPTH
    requires |ListBytes(items)| < TWO_64
    requires forall i :: 0 <= i < |items| ==> Encodable(items[i])
    ensures |ListBytes(items[..k])| <= |ListBytes(items)|
    ensures DecodeFrom(ListBytes(items), |ListBytes(items[..k])|, depth) ==
            if AllFit(items, k, depth + 1) then Ok(items[k..]) else Err(DepthExceeded)
    decreases owner, 0, |items| - k
  {
    ListMonotone(items, k);
    if k == |items| {
      assert items[..k] == items && items[k..] == [];
    } else {
      ItemAt(items, k);
      ListPrefix(items, k);
      ListMonotone(items, k + 1);
      ContentShorter(items[k]);
      DecodeEncoded(items[k], depth + 1);
      DecodeSuffix(owner, items, k + 1, depth);
      FirstAndRest(items, k);
      AllFitFrom(items, k, depth + 1);
      DecodeOne(ListBytes(items), |ListBytes(items[..k])|, depth);
    }
  }

  lemma {:induction false} DecodeItems(owner: seq<MmsData>, items: seq<MmsData>, depth: nat)
    requires owner == items && depth <= MAX_NESTING_DEPTH
    requires |ListBytes(items)| < TWO_64
    requires forall i :: 0 <= i < |items| ==> Encodable(items[i])
    ensures DecodeFrom(ListBytes(items), 0, depth) ==
            if depth + 1 + DepthOf(items) <= MAX_NESTING_DEPTH then Ok(items) else Err(DepthExceeded)
    decreases owner, 1, 0
  {
    if depth < MAX_NESTING_DEPTH {
      DecodeSuffix(owner, items, 0, depth);
      DepthIsMax(items);
      assert items[..0] == [] && items[0..] == items;
    }
  }

  /** Every encodable value comes back, whatever follows it, if it nests at most 32 structures and
    * arrays; otherwise the decoder says that it nests too deep. */
  lemma DataRoundTrip(v: MmsData, trailing: seq<Byte>)
    requires Encodable(v) && |DataBytes(v) + trailing| < TWO_64
    ensures DecodeData(DataBytes(v) + trailing) ==
            if Depth(v) <= 32 then Ok(v) else Err(DepthExceeded)
  {
    var data := DataBytes(v) + trailing;
    assert data[0..|DataBytes(v)|] == DataBytes(v);
    ContentShorter(v);
    TlvRoundTrip(data, 0, TagOf(v), ContentOf(v));
    DecodeEncoded(v, 0);
  }

  /** Hence no two values that nest that little share an encoding. */
  lemma EncodingInjective(v: MmsData, w: MmsData)
    requires Encodable(v) && Encodable(w) && Depth(v) <= 32 && Depth(w) <= 32
    requires |DataBytes(v)| < TWO_64 && DataBytes(v) == DataBytes(w)
    ensures v == w
  {
    DataRoundTrip(v, []);
    DataRoundTrip(w, []);
  }

  // ---------------------------------------------------------------- octet by octet

  /** The identifier octet of each kind of value: context class, constructed for the two kinds of list. */
  function Identifier(v: MmsData): Byte {
    match v
    case Array(_) => 0xA1
    case Structure(_) => 0xA2
    case Bool(_) => 0x83
    case BitStr(_, _) => 0x84
    case Int(_) => 0x85
    case Uint(_) => 0x86
    case Float(_) => 0x87
    case Octet(_) => 0x89
    case Visible(_) => 0x8A
    case BinaryTime(_) => 0x8C
    case MmsStr(_) => 0x90
    case Utc(_) => 0x91
  }

  /** The encoding is that octet, the length of the content, and the content. */
  lemma DataOctets(v: MmsData)
    ensures DataBytes(v) == [Identifier(v)] + LenBytes(|ContentOf(v)| % TWO_64) + ContentOf(v)
  {
    assert TagBytes(TagOf(v)) == [Identifier(v)];
  }

  /** Contents: FF or 00; the number of unused bits, then the bits; the width of the exponent, then the
    * IEEE 754 octets; texts and times as they are; lists one member after the other. */
  lemma {:induction false} ContentOctets(v: MmsData, front: seq<MmsData>, last: MmsData)
    ensures v == Bool(true) ==> ContentOf(v) == [0xFF]
    ensures v == Bool(false) ==> ContentOf(v) == [0x00]
    ensures v.Float? && |v.ieee| == 4 ==> ContentOf(v) == [8] + v.ieee
    ensures v.Float? && |v.ieee| == 8 ==> ContentOf(v) == [11] + v.ieee
    ensures v.BitStr? ==> ContentOf(v) == [v.unused] + v.bits
    ensures v.Octet? ==> ContentOf(v) == v.o
    ensures v.Utc? ==> ContentOf(v) == v.raw
    ensures v.Int? ==> SignedBe(ContentOf(v)) == v.i
    ensures v.Uint? ==> SignedBe(ContentOf(v)) == v.u
    ensures ContentOf(Structure([])) == [] && ContentOf(Array([])) == []
    ensures ContentOf(Structure(front + [last])) == ContentOf(Structure(front)) + DataBytes(last)
    ensures ContentOf(Array(front + [last])) == ContentOf(Array(front)) + DataBytes(last)
  {
    assert (front + [last])[..|front|] == front;
    if v.Int? { IntBytesMean(v.i); }
    if v.Uint? { UintIsSigned(v.u); }
  }

  lemma UintIsSigned(u: U64)
    ensures SignedBe(UintBytes(u)) == u
  {
    FromMinBe(u);
    if MinBe(u)[0] >= 128 {
      FromBeHead([0] + MinBe(u));
      assert ([0] + MinBe(u))[1..] == MinBe(u);
    }
  }

  /** What the decoder refuses, and with which error: a content that cannot be one of its kind, a number
    * that is no kind of value, and a list nested too deep. */
  lemma DecodeRefuses(n: U32, c: seq<Byte>, depth: nat, class_: TagClass)
    ensures var leaf := DecodeAt(Tlv(Tag(class_, false, n), c), depth);
      var list := DecodeAt(Tlv(Tag(class_, true, n), c), depth);
      && (n == 3 && |c| != 1 ==> leaf == Err(BadBool))
      && ((n == 4 || n == 14) && (|c| == 0 || c[0] > 7) ==> leaf == Err(BadBitString))
      && (n == 5 && (|c| == 0 || |c| > 8) ==> leaf == Err(BadInteger))
      && (n == 6 && |c| == 0 ==> leaf == Err(BadInteger))
      && (n == 6 && (|c| > 9 || (|c| == 9 && c[0] != 0)) ==> leaf == Err(LengthOverflow))
      && (n == 7 && |c| != 5 && |c| != 9 ==> leaf == Err(UnexpectedStructure))
      && ((n == 10 || n == 16) && !ValidUtf8(c) ==> leaf == Err(BadString))
      && (n == 17 && |c| != 8 ==> leaf == Err(UnexpectedStructure))
      && (n !in {3, 4, 5, 6, 7, 9, 10, 12, 14, 16, 17} ==> leaf == Err(UnexpectedStructure))
      && (n != 1 && n != 2 ==> list == Err(UnexpectedStructure))
      && ((n == 1 || n == 2) && depth >= 32 ==> list == Err(DepthExceeded))
  {
  }
}
