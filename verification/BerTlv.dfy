/** Identifier octets, the reader of tag-length-value triples and the back-patching writer. */
module BerTlv {
  import opened Wrappers
  import opened Octets
  import opened BerPrim

  datatype TagClass = Universal | Application | Context | Private

  datatype Tag = Tag(class_: TagClass, constructed: bool, number: U32)

  function ClassBits(c: TagClass): (b: nat)
    ensures b < 4
  {
    match c
    case Universal => 0
    case Application => 1
    case Context => 2
    case Private => 3
  }

  function ClassOf(b: nat): TagClass {
    if b == 0 then Universal else if b == 1 then Application else if b == 2 then Context else Private
  }

  /** Base 128, most significant first; `more` is the continuation bit of the last octet. */
  function Base128(v: nat, more: bool): (r: seq<Byte>)
    ensures |r| > 0
  {
    var last := if more then v % 128 + 128 else v % 128;
    if v < 128 then [last] else Base128(v / 128, true) + [last]
  }

  function TagBytes(t: Tag): (r: seq<Byte>)
    ensures |r| > 0
  {
    var first := 64 * ClassBits(t.class_) + if t.constructed then 32 else 0;
    if t.number < 31 then [first + t.number] else [first + 31] + Base128(t.number, false)
  }

  /** The number keeps its low 32 bits, whatever the number of octets. */
  function DecNumber(data: seq<Byte>, i: nat, acc: U32): Result<(U32, nat), BerError>
    requires i <= |data|
    decreases |data| - i
  {
    if i == |data| then Err(UnexpectedEof)
    else
      ShiftFits(acc, data[i]);
      var acc' := (acc * 128) % TWO_32 + data[i] % 128;
      if data[i] < 128 then Ok((acc', i + 1)) else DecNumber(data, i + 1, acc')
  }

  lemma ShiftFits(acc: U32, b: Byte)
    ensures (acc * 128) % TWO_32 + b % 128 < TWO_32
  {
    var k := acc / 0x200_0000;
    assert acc * 128 == k * TWO_32 + (acc % 0x200_0000) * 128;
  }

  function DecTag(data: seq<Byte>): Result<(Tag, nat), BerError> {
    if |data| == 0 then Err(UnexpectedEof)
    else
      var class_, constructed, low := ClassOf(data[0] / 64), data[0] / 32 % 2 == 1, data[0] % 32;
      if low != 31 then Ok((Tag(class_, constructed, low), 1))
      else
        match DecNumber(data, 1, 0)
        case Ok(p) => Ok((Tag(class_, constructed, p.0), p.1))
        case Err(e) => Err(e)
  }

  /** Septets stacked least significant first, in the order and form they are sent. */
  function Emitted(stack: seq<Byte>): seq<Byte>
    requires Septets(stack)
  {
    if |stack| == 0 then []
    else
      var n := |stack| - 1;
      [if n > 0 then stack[n] + 128 else stack[n]] + Emitted(stack[..n])
  }

  ghost predicate Septets(stack: seq<Byte>) { forall i :: 0 <= i < |stack| ==> stack[i] < 128 }

  method EncodeTag(out: seq<Byte>, t: Tag) returns (r: seq<Byte>)
    ensures r == out + TagBytes(t)
  {
    var first := 64 * ClassBits(t.class_) + if t.constructed then 0x20 else 0;
    if t.number < 0x1F {
      r := out + [first + t.number];
    } else {
      var stack := StackSeptets(t.number);
      r := EmitSeptets(out + [first + 0x1F], stack);
      assert r == out + ([first + 0x1F] + Base128(t.number, false));
    }
  }

  /** With `v` still to be stacked the octets are those of `target`. */
  ghost predicate Stacking(stack: seq<Byte>, v: nat, target: seq<Byte>) {
    v > 0 && Septets(stack) && Base128(v, stack != []) + Emitted(stack) == target
  }

  lemma EmittedSnoc(stack: seq<Byte>, x: Byte)
    requires Septets(stack) && x < 128
    ensures Septets(stack + [x])
    ensures Emitted(stack + [x]) == [if stack != [] then x + 128 else x] + Emitted(stack)
  {
    assert (stack + [x])[..|stack|] == stack;
  }

  lemma StackOne(stack: seq<Byte>, v: nat, target: seq<Byte>)
    requires Stacking(stack, v, target)
    ensures Septets(stack + [v % 128])
    ensures if v / 128 == 0 then Emitted(stack + [v % 128]) == target
            else Stacking(stack + [v % 128], v / 128, target)
  {
    var x := v % 128;
    EmittedSnoc(stack, x);
    var last := if stack != [] then x + 128 else x;
    if v >= 128 {
      assert Base128(v, stack != []) == Base128(v / 128, true) + [last];
      assert Base128(v / 128, true) + ([last] + Emitted(stack)) == target;
    } else {
      assert Base128(v, stack != []) == [last];
    }
  }

  method StackSeptets(number: U32) returns (stack: seq<Byte>)
    requires number > 0
    ensures Septets(stack) && Emitted(stack) == Base128(number, false)
  {
    stack := [];
    var v: nat := number;
    assert Base128(number, false) + Emitted([]) == Base128(number, false);
    while true
      invariant Stacking(stack, v, Base128(number, false))
      decreases v
    {
      StackOne(stack, v, Base128(number, false));
      stack := stack + [v % 128];
      if v / 128 == 0 { break; }
      v := v / 128;
    }
  }

  method EmitSeptets(start: seq<Byte>, stack: seq<Byte>) returns (r: seq<Byte>)
    requires Septets(stack)
    ensures r == start + Emitted(stack)
  {
    r := start;
    var i := |stack|;
    assert stack[..i] == stack;
    while i > 0
      invariant 0 <= i <= |stack|
      invariant r + Emitted(stack[..i]) == start + Emitted(stack)
    {
      i := i - 1;
      assert stack[..i + 1][..i] == stack[..i];
      r := r + [if i != 0 then stack[i] + 128 else stack[i]];
    }
  }

  lemma JoinSeptet(v: nat)
    requires v < TWO_32
    ensures (v / 128 * 128) % TWO_32 + v % 128 == v
  {
  }

  lemma StepNumber(data: seq<Byte>, i: nat, v: nat, b: Byte)
    requires i < |data| && v < TWO_32 && data[i] == b && b % 128 == v % 128
    ensures DecNumber(data, i, v / 128) == if b < 128 then Ok((v as U32, i + 1)) else DecNumber(data, i + 1, v)
  {
    JoinSeptet(v);
  }

  lemma SliceAt<T>(data: seq<T>, i: nat, front: seq<T>, last: T)
    requires i + |front| + 1 <= |data| && data[i..i + |front| + 1] == front + [last]
    ensures data[i..i + |front|] == front && data[i + |front|] == last
  {
    assert data[i..i + |front| + 1][..|front|] == front;
    assert data[i..i + |front| + 1][|front|] == last;
  }

  /** Reading the leading septets of `v` leaves `v` in the accumulator. */
  lemma {:induction false} ReadSeptets(data: seq<Byte>, i: nat, v: nat)
    requires 0 < v < TWO_32 && i + |Base128(v, true)| <= |data|
    requires data[i..i + |Base128(v, true)|] == Base128(v, true)
    ensures DecNumber(data, i, 0) == DecNumber(data, i + |Base128(v, true)|, v)
    decreases v
  {
    if v < 128 {
      SliceAt(data, i, [], v % 128 + 128);
      StepNumber(data, i, v, v % 128 + 128);
    } else {
      var front := Base128(v / 128, true);
      SliceAt(data, i, front, v % 128 + 128);
      ReadSeptets(data, i, v / 128);
      StepNumber(data, i + |front|, v, v % 128 + 128);
    }
  }

  lemma ReadNumber(data: seq<Byte>, i: nat, v: U32)
    requires v > 0 && i + |Base128(v, false)| <= |data|
    requires data[i..i + |Base128(v, false)|] == Base128(v, false)
    ensures DecNumber(data, i, 0) == Ok((v, i + |Base128(v, false)|))
  {
    if v < 128 {
      SliceAt(data, i, [], v % 128);
      StepNumber(data, i, v, v % 128);
    } else {
      var front := Base128(v / 128, true);
      SliceAt(data, i, front, v % 128);
      ReadSeptets(data, i, v / 128);
      StepNumber(data, i + |front|, v, v % 128);
    }
  }

  /** Every tag comes back, whatever follows it. */
  lemma TagRoundTrip(t: Tag, rest: seq<Byte>)
    ensures DecTag(TagBytes(t) + rest) == Ok((t, |TagBytes(t)|))
  {
    FirstOctet(ClassBits(t.class_), t.constructed, if t.number < 31 then t.number else 31);
    if t.number >= 31 {
      var data, b := TagBytes(t) + rest, Base128(t.number, false);
      assert data[1..1 + |b|] == b;
      ReadNumber(data, 1, t.number);
    }
  }

  lemma FirstOctet(c: nat, constructed: bool, low: nat)
    requires c < 4 && low < 32
    ensures var b := 64 * c + (if constructed then 32 else 0) + low;
      b < 256 && b / 64 == c && (b / 32 % 2 == 1 <==> constructed) && b % 32 == low
  {
  }

  // ---------------------------------------------------------------- triples

  datatype Tlv = Tlv(tag: Tag, content: seq<Byte>)

  /** Lengths are machine words. */
  function TlvBytes(tag: Tag, content: seq<Byte>): (r: seq<Byte>)
    ensures |r| >= 2 + |content|
  {
    TagBytes(tag) + LenBytes(|content| % TWO_64) + content
  }

  /** The triple at `pos` and the position after it. */
  function ReadAt(data: seq<Byte>, pos: nat): (r: Result<(Tlv, nat), BerError>)
    requires pos <= |data|
    ensures r.Ok? ==> pos + 2 + |r.value.0.content| <= r.value.1 <= |data|
  {
    match DecTag(data[pos..])
    case Err(e) => Err(e)
    case Ok(t) =>
      DecTagFits(data[pos..]);
      match DecLen(data[pos + t.1..])
      case Err(e) => Err(e)
      case Ok(l) =>
        var start := pos + t.1 + l.1;
        if start + l.0 >= TWO_64 then Err(LengthOverflow)
        else if start + l.0 > |data| then Err(UnexpectedEof)
        else Ok((Tlv(t.0, data[start..start + l.0]), start + l.0))
  }

  lemma {:induction false} DecNumberFits(data: seq<Byte>, i: nat, acc: U32)
    requires i <= |data|
    ensures DecNumber(data, i, acc).Ok? ==> i < DecNumber(data, i, acc).value.1 <= |data|
    decreases |data| - i
  {
    if i < |data| && data[i] >= 128 {
      ShiftFits(acc, data[i]);
      DecNumberFits(data, i + 1, (acc * 128) % TWO_32 + data[i] % 128);
    }
  }

  lemma DecTagFits(data: seq<Byte>)
    ensures DecTag(data).Ok? ==> 1 <= DecTag(data).value.1 <= |data|
  {
    if |data| > 0 { DecNumberFits(data, 1, 0); }
  }

  lemma Slices(data: seq<Byte>, pos: nat, t: seq<Byte>, l: seq<Byte>, c: seq<Byte>)
    requires pos + |t| + |l| + |c| <= |data|
    requires data[pos..pos + |t| + |l| + |c|] == t + l + c
    ensures var rest := data[pos + |t| + |l| + |c|..];
      && data[pos..] == t + (l + (c + rest))
      && data[pos + |t|..] == l + (c + rest)
      && data[pos + |t| + |l|..pos + |t| + |l| + |c|] == c
  {
    var n := |t| + |l| + |c|;
    assert data[pos..] == data[pos..pos + n] + data[pos + n..];
    assert data[pos + |t|..] == data[pos..][|t|..];
    assert data[pos + |t| + |l|..pos + n] == data[pos..pos + n][|t| + |l|..];
  }

  lemma TlvRoundTrip(data: seq<Byte>, pos: nat, tag: Tag, content: seq<Byte>)
    requires |data| < TWO_64 && pos + |TlvBytes(tag, content)| <= |data|
    requires data[pos..pos + |TlvBytes(tag, content)|] == TlvBytes(tag, content)
    ensures ReadAt(data, pos) == Ok((Tlv(tag, content), pos + |TlvBytes(tag, content)|))
  {
    var t, l := TagBytes(tag), LenBytes(|content|);
    ShortContent(tag, content);
    assert |TlvBytes(tag, content)| == |t| + |l| + |content|;
    TripleAt(data, pos, tag, content, |t| + |l| + |content|);
  }

  /** Tag `t`, length `l` and `content` lie one after the other at `pos`. */
  predicate Triple(data: seq<Byte>, pos: nat, t: seq<Byte>, l: seq<Byte>, content: seq<Byte>) {
    pos + |t| + |l| + |content| <= |data| && data[pos..pos + |t| + |l| + |content|] == t + l + content
  }

  lemma TripleAt(data: seq<Byte>, pos: nat, tag: Tag, content: seq<Byte>, n: nat)
    requires |content| < TWO_64 && n == |TagBytes(tag)| + |LenBytes(|content|)| + |content|
    requires pos + n <= |data| < TWO_64 && data[pos..pos + n] == TagBytes(tag) + LenBytes(|content|) + content
    ensures ReadAt(data, pos) == Ok((Tlv(tag, content), pos + n))
  {
    ReadTriple(data, pos, tag, TagBytes(tag), LenBytes(|content|), content);
  }

  lemma ReadTriple(data: seq<Byte>, pos: nat, tag: Tag, t: seq<Byte>, l: seq<Byte>, content: seq<Byte>)
    requires |content| < TWO_64 && t == TagBytes(tag) && l == LenBytes(|content|)
    requires |data| < TWO_64 && Triple(data, pos, t, l, content)
    ensures ReadAt(data, pos) == Ok((Tlv(tag, content), pos + |t| + |l| + |content|))
  {
    TagAt(data, pos, tag, t, l, content);
    LenAt(data, pos, t, l, content);
    Slices(data, pos, t, l, content);
    ReadParts(data, pos, tag, |t|, |content|, |l|);
  }

  lemma TagAt(data: seq<Byte>, pos: nat, tag: Tag, t: seq<Byte>, l: seq<Byte>, content: seq<Byte>)
    requires t == TagBytes(tag) && Triple(data, pos, t, l, content)
    ensures DecTag(data[pos..]) == Ok((tag, |t|))
  {
    Slices(data, pos, t, l, content);
    TagRoundTrip(tag, l + (content + data[pos + |t| + |l| + |content|..]));
  }

  lemma LenAt(data: seq<Byte>, pos: nat, t: seq<Byte>, l: seq<Byte>, content: seq<Byte>)
    requires |content| < TWO_64 && l == LenBytes(|content|) && Triple(data, pos, t, l, content)
    ensures DecLen(data[pos + |t|..]) == Ok((|content|, |l|))
  {
    Slices(data, pos, t, l, content);
    LenRoundTrip(|content|, content + data[pos + |t| + |l| + |content|..]);
  }

  lemma ShortContent(tag: Tag, content: seq<Byte>)
    requires |content| < TWO_64
    ensures TlvBytes(tag, content) == TagBytes(tag) + LenBytes(|content|) + content
  {
  }

  lemma ReadParts(data: seq<Byte>, pos: nat, tag: Tag, tn: nat, len: nat, ln: nat)
    requires pos + tn + ln + len <= |data| < TWO_64
    requires DecTag(data[pos..]) == Ok((tag, tn)) && DecLen(data[pos + tn..]) == Ok((len, ln))
    ensures var start := pos + tn + ln;
      ReadAt(data, pos) == Ok((Tlv(tag, data[start..start + len]), start + len))
  {
  }

  class BerReader {
    const data: seq<Byte>
    var pos: nat

    ghost predicate Valid()
      reads this
    {
      pos <= |data| < TWO_64
    }

    constructor (d: seq<Byte>)
      requires |d| < TWO_64
      ensures Valid() && data == d && pos == 0
    {
      data, pos := d, 0;
    }

    /** On an error the reader does not move. */
    method ReadTlv() returns (r: Result<Tlv, BerError>)
      requires Valid()
      modifies this
      ensures Valid()
      ensures match ReadAt(data, old(pos))
        case Ok(p) => r == Ok(p.0) && pos == p.1
        case Err(e) => r == Err(e) && pos == old(pos)
    {
      var rest := data[pos..];
      DecTagFits(rest);
      var tag := DecTag(rest);
      if tag.Err? { return Err(tag.error); }
      var tn := tag.value.1;
      assert rest[tn..] == data[pos + tn..];
      var len := DecodeLen(rest[tn..]);
      if len.Err? { return Err(len.error); }
      var start := pos + tn + len.value.1;
      var end := start + len.value.0;
      if end >= TWO_64 { return Err(LengthOverflow); }
      if end > |data| { return Err(UnexpectedEof); }
      var content := data[start..end];
      pos := end;
      r := Ok(Tlv(tag.value.0, content));
    }
  }

  class BerWriter {
    var buf: seq<Byte>

    constructor ()
      ensures buf == []
    {
      buf := [];
    }

    method Primitive(tag: Tag, content: seq<Byte>)
      modifies this
      ensures buf == old(buf) + TlvBytes(tag, content)
    {
      buf := EncodeTag(buf, tag);
      buf := EncodeLen(buf, |content| % TWO_64);
      buf := buf + content;
    }

    /** Start of a triple whose content is written next. */
    method Open(tag: Tag) returns (contentStart: nat)
      modifies this
      ensures buf == old(buf) + TagBytes(tag) && contentStart == |buf|
    {
      buf := EncodeTag(buf, tag);
      contentStart := |buf|;
    }

    /** Slips the length in before the content written since. */
    method Close(contentStart: nat)
      requires contentStart <= |buf|
      modifies this
      ensures var content := old(buf)[contentStart..];
        buf == old(buf)[..contentStart] + LenBytes(|content| % TWO_64) + content
    {
      var contentLen := |buf| - contentStart;
      var lenBytes := EncodeLen([], contentLen % TWO_64);
      assert [] + LenBytes(contentLen % TWO_64) == LenBytes(contentLen % TWO_64);
      buf := buf[..contentStart] + lenBytes + buf[contentStart..];
    }
  }

  // ---------------------------------------------------------------- identifier octets

  /** Value of base 128 octets, whatever their continuation bits. */
  function FromBase128(s: seq<Byte>): nat {
    if |s| == 0 then 0 else FromBase128(s[..|s| - 1]) * 128 + s[|s| - 1] as nat % 128
  }

  lemma {:induction false} Base128Form(v: nat, more: bool)
    ensures var s := Base128(v, more);
      && FromBase128(s) == v && (s[|s| - 1] >= 128 <==> more)
      && (forall i :: 0 <= i < |s| - 1 ==> s[i] >= 128)
      && (v > 0 ==> s[0] as nat % 128 != 0)
  {
    var s := Base128(v, more);
    if v < 128 {
      assert s[..0] == [] && FromBase128([]) == 0;
    } else {
      Base128Form(v / 128, true);
      assert s[..|s| - 1] == Base128(v / 128, true);
    }
  }

  /** Section 8.1.2 of X.690: the class in the two high bits, then the bit of the constructed form, then
    * the number below 31; or 31 and the number in base 128, with the high bit on all octets but the last
    * and none of them superfluous. */
  lemma TagForm(t: Tag)
    ensures var b := TagBytes(t);
      && b[0] / 64 == (match t.class_
                       case Universal => 0
                       case Application => 1
                       case Context => 2
                       case Private => 3)
      && (b[0] / 32 % 2 == 1 <==> t.constructed)
      && (t.number < 31 ==> |b| == 1 && b[0] % 32 == t.number)
      && (t.number >= 31 ==>
            && |b| > 1 && b[0] % 32 == 31 && FromBase128(b[1..]) == t.number
            && b[|b| - 1] < 128 && (forall i :: 1 <= i < |b| - 1 ==> b[i] >= 128) && b[1] != 128)
  {
    if t.number >= 31 {
      Base128Form(t.number, false);
      assert TagBytes(t)[1..] == Base128(t.number, false);
    }
  }

  /** Every input whose identifier is one octet and whose length is below 128: the triple, or why not. */
  lemma ShortTlvReads(data: seq<Byte>, pos: nat)
    requires pos < |data| < TWO_64 && data[pos] % 32 != 31
    ensures var rest := |data| - pos;
      if rest == 1 then ReadAt(data, pos) == Err(UnexpectedEof)
      else if data[pos + 1] == 128 then ReadAt(data, pos) == Err(IndefiniteLength)
      else if data[pos + 1] < 128 then
        var end := pos + 2 + data[pos + 1];
        if end > |data| then end < TWO_64 ==> ReadAt(data, pos) == Err(UnexpectedEof)
        else
          && ReadAt(data, pos).Ok? && ReadAt(data, pos).value.1 == end
          && ReadAt(data, pos).value.0.content == data[pos + 2..end]
          && ReadAt(data, pos).value.0.tag.number == data[pos] % 32
          && (ReadAt(data, pos).value.0.tag.constructed <==> data[pos] / 32 % 2 == 1)
          && ClassBits(ReadAt(data, pos).value.0.tag.class_) == data[pos] / 64
      else true
  {
    var rest := data[pos..];
    assert rest[0] == data[pos] && data[pos + 1..] == rest[1..];
    if |rest| > 1 { assert data[pos + 1..][0] == data[pos + 1]; }
  }

  lemma NothingToRead(data: seq<Byte>)
    ensures ReadAt(data, |data|) == Err(UnexpectedEof)
  {
    assert data[|data|..] == [];
  }
}
