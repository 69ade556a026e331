/** Ethernet header, optional 802.1Q tag and application header of GOOSE and SV frames. */
module Eth {
  import opened Wrappers
  import opened Octets

  const TPID_8021Q: U16 := 0x8100
  const MIN_ETH_FRAME: nat := 60
  const RESERVED1_SIMULATED: U16 := 0x8000

  type MacAddr = a: seq<Byte> | |a| == 6 witness [0, 0, 0, 0, 0, 0]

  datatype VlanTag = VlanTag(pcp: Byte, dei: bool, vid: U16) {
    function Tci(): U16 { (pcp % 8) * 8192 + (if dei then 4096 else 0) + vid % 4096 }
  }

  datatype EthHeader = EthHeader(dst: MacAddr, src: MacAddr, vlan: Option<VlanTag>, ethertype: U16, simulation: bool)

  datatype L2Error = Truncated | WrongEthertype(found: U16) | Malformed

  /** `signedData` is empty when the frame carries no tag. */
  datatype Parsed = Parsed(hdr: EthHeader, appid: U16, apdu: seq<Byte>, signedData: seq<Byte>, authTag: seq<Byte>)

  /** Length of the tag, and the tag of what is signed. */
  datatype Signer = Signer(tagLen: nat, sign: seq<Byte> -> seq<Byte>)

  /** A cast to 16 bits keeps the low ones. */
  function Be2(v: nat): (r: seq<Byte>)
    ensures |r| == 2
  {
    [v / 256 % 256, v % 256]
  }

  function U16At(s: seq<Byte>, i: nat): U16
    requires i + 2 <= |s|
  {
    var hi: nat, lo: nat := s[i], s[i + 1];
    hi * 256 + lo
  }

  // ---------------------------------------------------------------- writing

  function VlanBytes(vlan: Option<VlanTag>): (r: seq<Byte>)
    ensures |r| == if vlan.Some? then 4 else 0
  {
    match vlan
    case Some(v) => Be2(TPID_8021Q) + Be2(v.Tci())
    case None => []
  }

  function EthBytes(hdr: EthHeader): (r: seq<Byte>)
    ensures |r| == if hdr.vlan.Some? then 18 else 14
  {
    hdr.dst + hdr.src + VlanBytes(hdr.vlan) + Be2(hdr.ethertype)
  }

  function AppHeader(appid: U16, length: nat, simulation: bool, tagLen: nat): (r: seq<Byte>)
    ensures |r| == 8
  {
    Be2(appid) + Be2(length) + Be2(if simulation then RESERVED1_SIMULATED else 0) + Be2(tagLen)
  }

  function SignedData(hdr: EthHeader, appid: U16, apdu: seq<Byte>, tagLen: nat): seq<Byte> {
    AppHeader(appid, 8 + |apdu| + tagLen, hdr.simulation, tagLen) + apdu
  }

  function Padded(s: seq<Byte>): seq<Byte> {
    if |s| < MIN_ETH_FRAME then s + seq(MIN_ETH_FRAME - |s|, i => 0) else s
  }

  /** The finished frame. */
  function FrameBytes(hdr: EthHeader, appid: U16, apdu: seq<Byte>, tag: seq<Byte>): seq<Byte> {
    Padded(EthBytes(hdr) + SignedData(hdr, appid, apdu, |tag|) + tag)
  }

  class FrameBuffer {
    var out: seq<Byte>

    constructor ()
      ensures out == []
    {
      out := [];
    }

    /** The headers, with Length and Reserved2 still zero; gives the position of Length. */
    method WriteEthAppid(hdr: EthHeader, appid: U16) returns (lenPos: nat)
      modifies this
      ensures out == old(out) + EthBytes(hdr) + AppHeader(appid, 0, hdr.simulation, 0)
      ensures lenPos == |old(out)| + |EthBytes(hdr)| + 2
    {
      out := out + hdr.dst;
      out := out + hdr.src;
      if hdr.vlan.Some? {
        out := out + Be2(TPID_8021Q);
        out := out + Be2(hdr.vlan.value.Tci());
      }
      out := out + Be2(hdr.ethertype);
      assert out == old(out) + EthBytes(hdr);
      out := out + Be2(appid);
      lenPos := |out|;
      out := out + [0, 0];
      out := out + Be2(if hdr.simulation then RESERVED1_SIMULATED else 0);
      out := out + [0, 0];
      assert out == old(out) + EthBytes(hdr) + AppHeader(appid, 0, hdr.simulation, 0);
    }

    method Extend(apdu: seq<Byte>)
      modifies this
      ensures out == old(out) + apdu
    {
      out := out + apdu;
    }

    method Patch(at: nat, v: nat)
      requires at + 2 <= |out|
      modifies this
      ensures out == old(out)[..at] + Be2(v) + old(out)[at + 2..]
    {
      out := out[..at] + Be2(v) + out[at + 2..];
    }

    method Resize()
      modifies this
      ensures out == Padded(old(out))
    {
      while |out| < MIN_ETH_FRAME
        invariant Padded(out) == Padded(old(out))
      {
        assert out + seq(MIN_ETH_FRAME - |out|, i => 0) == (out + [0]) + seq(MIN_ETH_FRAME - |out| - 1, i => 0);
        out := out + [0];
      }
    }

    /** After the headers and the application data: an unsigned frame. */
    method FinishL2Frame(lenPos: nat, apduLen: nat, ghost hdr: EthHeader, ghost appid: U16, ghost apdu: seq<Byte>)
      requires lenPos == |EthBytes(hdr)| + 2 && apduLen == |apdu|
      requires out == EthBytes(hdr) + AppHeader(appid, 0, hdr.simulation, 0) + apdu
      modifies this
      ensures out == FrameBytes(hdr, appid, apdu, [])
    {
      var length := 8 + apduLen;
      Patch(lenPos, length);
      Patched(EthBytes(hdr), appid, length, hdr.simulation, 0, apdu);
      assert out == EthBytes(hdr) + SignedData(hdr, appid, apdu, 0) + [];
      Resize();
    }

    /** The same with the tag of the application header and the data appended, and its length put
      * into Reserved2 before it is computed. */
    method FinishL2FrameSigned(lenPos: nat, apduLen: nat, signer: Signer,
                               ghost hdr: EthHeader, ghost appid: U16, ghost apdu: seq<Byte>)
      requires lenPos == |EthBytes(hdr)| + 2 && apduLen == |apdu|
      requires out == EthBytes(hdr) + AppHeader(appid, 0, hdr.simulation, 0) + apdu
      requires |signer.sign(SignedData(hdr, appid, apdu, signer.tagLen))| == signer.tagLen
      modifies this
      ensures out == FrameBytes(hdr, appid, apdu, signer.sign(SignedData(hdr, appid, apdu, signer.tagLen)))
    {
      var tagLen := signer.tagLen;
      var length := 8 + apduLen + tagLen;
      Patch(lenPos, length);
      Patched(EthBytes(hdr), appid, length, hdr.simulation, 0, apdu);
      Patch(lenPos + 4, tagLen);
      PatchedTag(EthBytes(hdr), appid, length, hdr.simulation, tagLen, apdu);
      var start := lenPos - 2;
      var end := lenPos + 6 + apduLen;
      SignedSlice(EthBytes(hdr), AppHeader(appid, length, hdr.simulation, tagLen), apdu);
      var tag := signer.sign(out[start..end]);
      out := out + tag;
      Resize();
    }
  }

  method EncodeFrame(hdr: EthHeader, appid: U16, apdu: seq<Byte>) returns (frame: seq<Byte>)
    ensures frame == FrameBytes(hdr, appid, apdu, [])
  {
    var b := new FrameBuffer();
    var lenPos := b.WriteEthAppid(hdr, appid);
    assert b.out == EthBytes(hdr) + AppHeader(appid, 0, hdr.simulation, 0);
    b.Extend(apdu);
    b.FinishL2Frame(lenPos, |apdu|, hdr, appid, apdu);
    frame := b.out;
  }

  /** The signature covers the application header, with both lengths in place, and the data. */
  method EncodeSigned(hdr: EthHeader, appid: U16, apdu: seq<Byte>, signer: Signer) returns (frame: seq<Byte>)
    requires |signer.sign(SignedData(hdr, appid, apdu, signer.tagLen))| == signer.tagLen
    ensures frame == FrameBytes(hdr, appid, apdu, signer.sign(SignedData(hdr, appid, apdu, signer.tagLen)))
  {
    var b := new FrameBuffer();
    var lenPos := b.WriteEthAppid(hdr, appid);
    assert b.out == EthBytes(hdr) + AppHeader(appid, 0, hdr.simulation, 0);
    b.Extend(apdu);
    b.FinishL2FrameSigned(lenPos, |apdu|, signer, hdr, appid, apdu);
    frame := b.out;
  }

  lemma Patched(eth: seq<Byte>, appid: U16, length: nat, simulation: bool, tagLen: nat, apdu: seq<Byte>)
    ensures var at, before := |eth| + 2, eth + AppHeader(appid, 0, simulation, tagLen) + apdu;
      before[..at] + Be2(length) + before[at + 2..] == eth + (AppHeader(appid, length, simulation, tagLen) + apdu)
    ensures Be2(0) == [0, 0]
  {
  }

  lemma SignedSlice(eth: seq<Byte>, app: seq<Byte>, apdu: seq<Byte>)
    ensures (eth + (app + apdu))[|eth|..|eth| + |app| + |apdu|] == app + apdu
  {
  }

  lemma PatchedTag(eth: seq<Byte>, appid: U16, length: nat, simulation: bool, tagLen: nat, apdu: seq<Byte>)
    ensures var at, before := |eth| + 6, eth + (AppHeader(appid, length, simulation, 0) + apdu);
      before[..at] + Be2(tagLen) + before[at + 2..] == eth + (AppHeader(appid, length, simulation, tagLen) + apdu)
  {
  }

  // ---------------------------------------------------------------- parsing

  function ParseVlan(tci: U16): VlanTag { VlanTag(tci / 8192 % 8, tci / 4096 % 2 == 1, tci % 4096) }

  /** The tag, the offset of the application header and the EtherType. */
  function ParseEth(bytes: seq<Byte>): (r: Result<(Option<VlanTag>, nat, U16), L2Error>)
    ensures r.Ok? ==> |bytes| >= r.value.1 && r.value.1 == if r.value.0.Some? then 18 else 14
  {
    if |bytes| < 14 then Err(Truncated)
    else if U16At(bytes, 12) == TPID_8021Q then
      if |bytes| < 18 then Err(Truncated)
      else Ok((Some(ParseVlan(U16At(bytes, 14))), 18, U16At(bytes, 16)))
    else Ok((None, 14, U16At(bytes, 12)))
  }

  function Parse(bytes: seq<Byte>, expected: U16): Result<Parsed, L2Error> {
    match ParseEth(bytes)
    case Err(e) => Err(e)
    case Ok(p) =>
      var vlan, off, ethertype := p.0, p.1, p.2;
      if ethertype != expected then Err(WrongEthertype(ethertype))
      else if off + 8 > |bytes| then Err(Malformed)
      else
        var simulation := U16At(bytes, off + 4) >= RESERVED1_SIMULATED;
        ParseApp(bytes, off, EthHeader(bytes[0..6], bytes[6..12], vlan, ethertype, simulation))
  }

  function ParseApp(bytes: seq<Byte>, off: nat, hdr: EthHeader): Result<Parsed, L2Error>
    requires off + 8 <= |bytes|
  {
    ParseBody(bytes, off, hdr, U16At(bytes, off), U16At(bytes, off + 2), U16At(bytes, off + 6))
  }

  function ParseBody(bytes: seq<Byte>, off: nat, hdr: EthHeader, appid: U16, length: U16, authLen: U16)
    : Result<Parsed, L2Error>
  {
    var end := off + length;
    if length < 8 + authLen || end > |bytes| then Err(Malformed)
    else
      Ok(Parsed(hdr, appid, bytes[off + 8..end - authLen],
                if authLen == 0 then [] else bytes[off..end - authLen],
                if authLen == 0 then [] else bytes[end - authLen..end]))
  }

  /** On every input that parses, header, application data and tag lie one after the other inside
    * the input, and what is signed is exactly what comes before the tag. */
  lemma SlicesAdjacent(bytes: seq<Byte>, expected: U16)
    requires Parse(bytes, expected).Ok?
    ensures var p := Parse(bytes, expected).value;
      var off := if p.hdr.vlan.Some? then 18 else 14;
      var mid := off + 8 + |p.apdu|;
      && mid + |p.authTag| <= |bytes| && 8 + |p.apdu| + |p.authTag| == U16At(bytes, off + 2)
      && |p.authTag| == U16At(bytes, off + 6)
      && p.apdu == bytes[off + 8..mid]
      && p.authTag == bytes[mid..mid + |p.authTag|]
      && p.signedData == (if p.authTag == [] then [] else bytes[off..mid])
  {
  }

  // ---------------------------------------------------------------- round trip

  function SignedPart(app: seq<Byte>, apdu: seq<Byte>, tag: seq<Byte>): seq<Byte> {
    if tag == [] then [] else app + apdu
  }

  function ExpectedParse(hdr: EthHeader, appid: U16, apdu: seq<Byte>, tag: seq<Byte>): Parsed {
    var app := AppHeader(appid, 8 + |apdu| + |tag|, hdr.simulation, |tag|);
    Parsed(hdr, appid, apdu, SignedPart(app, apdu, tag), tag)
  }

  /** Fields that fit where they travel, and an EtherType that is not taken for a VLAN tag. */
  predicate Representable(hdr: EthHeader, apdu: seq<Byte>, tag: seq<Byte>) {
    && (match hdr.vlan
        case Some(v) => v.pcp < 8 && v.vid < 4096
        case None => hdr.ethertype != TPID_8021Q)
    && 8 + |apdu| + |tag| <= 65535
  }

  lemma Be2RoundTrip(v: U16)
    ensures U16At(Be2(v), 0) == v
  {
  }

  lemma TciRoundTrip(v: VlanTag)
    ensures ParseVlan(v.Tci()) == VlanTag(v.pcp % 8, v.dei, v.vid % 4096)
  {
    var low := v.vid % 4096;
    assert v.Tci() / 4096 == 2 * (v.pcp % 8) + (if v.dei then 1 else 0) && v.Tci() % 4096 == low;
  }

  /** Where the two octets of each field of the Ethernet header are. */
  lemma EthFields(hdr: EthHeader, rest: seq<Byte>)
    ensures var b := EthBytes(hdr) + rest;
      && b[0..6] == hdr.dst && b[6..12] == hdr.src
      && (hdr.vlan.None? ==> U16At(b, 12) == hdr.ethertype)
      && (hdr.vlan.Some? ==>
            && U16At(b, 12) == TPID_8021Q && U16At(b, 14) == hdr.vlan.value.Tci() && U16At(b, 16) == hdr.ethertype)
  {
    Be2RoundTrip(hdr.ethertype);
    var b, e := EthBytes(hdr) + rest, Be2(hdr.ethertype);
    match hdr.vlan
    case None =>
      assert b[12] == e[0] && b[13] == e[1];
    case Some(v) =>
      Be2RoundTrip(v.Tci());
      assert b[12] == Be2(TPID_8021Q)[0] && b[13] == Be2(TPID_8021Q)[1];
      assert b[14] == Be2(v.Tci())[0] && b[15] == Be2(v.Tci())[1];
      assert b[16] == e[0] && b[17] == e[1];
  }

  lemma AppFields(front: seq<Byte>, appid: U16, length: U16, simulation: bool, tagLen: U16, rest: seq<Byte>)
    ensures var b, off := front + AppHeader(appid, length, simulation, tagLen) + rest, |front|;
      && U16At(b, off) == appid
      && U16At(b, off + 2) == length
      && U16At(b, off + 4) == (if simulation then RESERVED1_SIMULATED else 0)
      && U16At(b, off + 6) == tagLen
  {
    Be2RoundTrip(length);
    Be2RoundTrip(tagLen);
    Be2RoundTrip(appid);
    var h := AppHeader(appid, length, simulation, tagLen);
    var b := front + h + rest;
    assert forall i :: 0 <= i < 8 ==> b[|front| + i] == h[i];
  }

  lemma PaddedParts(hdr: EthHeader, appid: U16, apdu: seq<Byte>, tag: seq<Byte>) returns (pad: seq<Byte>)
    ensures FrameBytes(hdr, appid, apdu, tag) ==
            EthBytes(hdr) + (AppHeader(appid, 8 + |apdu| + |tag|, hdr.simulation, |tag|) + (apdu + tag + pad))
    ensures FrameBytes(hdr, appid, apdu, tag) ==
            EthBytes(hdr) + AppHeader(appid, 8 + |apdu| + |tag|, hdr.simulation, |tag|) + (apdu + tag + pad)
  {
    var body := EthBytes(hdr) + SignedData(hdr, appid, apdu, |tag|) + tag;
    pad := Padded(body)[|body|..];
    assert Padded(body) == body + pad;
  }

  lemma BodySlices(front: seq<Byte>, app: seq<Byte>, apdu: seq<Byte>, tag: seq<Byte>, pad: seq<Byte>)
    requires |app| == 8
    ensures var b, off := front + app + (apdu + tag + pad), |front|;
      && b[off + 8..off + 8 + |apdu|] == apdu
      && b[off..off + 8 + |apdu|] == app + apdu
      && b[off + 8 + |apdu|..off + 8 + |apdu| + |tag|] == tag
  {
  }

  lemma ParseRepresentable(hdr: EthHeader, appid: U16, apdu: seq<Byte>, tag: seq<Byte>)
    requires Representable(hdr, apdu, tag)
    ensures Parse(FrameBytes(hdr, appid, apdu, tag), hdr.ethertype) == Ok(ExpectedParse(hdr, appid, apdu, tag))
  {
    var pad := PaddedParts(hdr, appid, apdu, tag);
    EthRepresentable(hdr, AppHeader(appid, 8 + |apdu| + |tag|, hdr.simulation, |tag|) + (apdu + tag + pad));
    AppExpected(FrameBytes(hdr, appid, apdu, tag), hdr, appid, apdu, tag, pad);
    ParseSplit(FrameBytes(hdr, appid, apdu, tag), hdr);
  }

  lemma AppExpected(b: seq<Byte>, hdr: EthHeader, appid: U16, apdu: seq<Byte>, tag: seq<Byte>, pad: seq<Byte>)
    requires 8 + |apdu| + |tag| <= 65535
    requires b == EthBytes(hdr) + AppHeader(appid, 8 + |apdu| + |tag|, hdr.simulation, |tag|) + (apdu + tag + pad)
    ensures U16At(b, |EthBytes(hdr)| + 4) >= RESERVED1_SIMULATED <==> hdr.simulation
    ensures ParseApp(b, |EthBytes(hdr)|, hdr) == Ok(ExpectedParse(hdr, appid, apdu, tag))
  {
    var app := AppHeader(appid, 8 + |apdu| + |tag|, hdr.simulation, |tag|);
    AppFields(EthBytes(hdr), appid, 8 + |apdu| + |tag|, hdr.simulation, |tag|, apdu + tag + pad);
    AppParsed(b, EthBytes(hdr), app, hdr, appid, apdu, tag, pad);
  }

  lemma AppParsed(b: seq<Byte>, front: seq<Byte>, app: seq<Byte>, hdr: EthHeader, appid: U16, apdu: seq<Byte>,
                  tag: seq<Byte>, pad: seq<Byte>)
    requires |app| == 8 && 8 + |apdu| + |tag| <= 65535 && b == front + app + (apdu + tag + pad)
    requires U16At(b, |front|) == appid && U16At(b, |front| + 2) == 8 + |apdu| + |tag|
    requires U16At(b, |front| + 6) == |tag|
    ensures ParseApp(b, |front|, hdr) == Ok(Parsed(hdr, appid, apdu, SignedPart(app, apdu, tag), tag))
  {
    BodyExpected(b, front, app, hdr, appid, apdu, tag, pad);
    var parsed := Parsed(hdr, appid, apdu, SignedPart(app, apdu, tag), tag);
    AppRead(b, |front|, hdr, appid, 8 + |apdu| + |tag|, |tag|, parsed);
  }

  lemma AppRead(b: seq<Byte>, off: nat, hdr: EthHeader, appid: U16, length: U16, authLen: U16, p: Parsed)
    requires off + 8 <= |b|
    requires U16At(b, off) == appid && U16At(b, off + 2) == length && U16At(b, off + 6) == authLen
    requires ParseBody(b, off, hdr, appid, length, authLen) == Ok(p)
    ensures ParseApp(b, off, hdr) == Ok(p)
  {
  }

  lemma BodyExpected(b: seq<Byte>, front: seq<Byte>, app: seq<Byte>, hdr: EthHeader, appid: U16, apdu: seq<Byte>,
                     tag: seq<Byte>, pad: seq<Byte>)
    requires |app| == 8 && 8 + |apdu| + |tag| <= 65535 && b == front + app + (apdu + tag + pad)
    ensures ParseBody(b, |front|, hdr, appid, 8 + |apdu| + |tag|, |tag|) ==
            Ok(Parsed(hdr, appid, apdu, SignedPart(app, apdu, tag), tag))
  {
    BodySlices(front, app, apdu, tag, pad);
    AppRepresentable(b, |front|, hdr, appid, 8 + |apdu| + |tag|, app, apdu, tag);
  }

  lemma EthRepresentable(hdr: EthHeader, rest: seq<Byte>)
    requires Representable(hdr, [], [])
    ensures var b := EthBytes(hdr) + rest;
      ParseEth(b) == Ok((hdr.vlan, |EthBytes(hdr)|, hdr.ethertype)) && b[0..6] == hdr.dst && b[6..12] == hdr.src
  {
    EthFields(hdr, rest);
    if hdr.vlan.Some? { TciRoundTrip(hdr.vlan.value); }
  }

  lemma ParseSplit(b: seq<Byte>, hdr: EthHeader)
    requires ParseEth(b) == Ok((hdr.vlan, |EthBytes(hdr)|, hdr.ethertype))
    requires |EthBytes(hdr)| + 8 <= |b| && b[0..6] == hdr.dst && b[6..12] == hdr.src
    requires U16At(b, |EthBytes(hdr)| + 4) >= RESERVED1_SIMULATED <==> hdr.simulation
    ensures Parse(b, hdr.ethertype) == ParseApp(b, |EthBytes(hdr)|, hdr)
  {
  }

  lemma AppRepresentable(b: seq<Byte>, off: nat, hdr: EthHeader, appid: U16, length: U16, app: seq<Byte>,
                         apdu: seq<Byte>, tag: seq<Byte>)
    requires 8 + |apdu| + |tag| <= 65535 && off + 8 + |apdu| + |tag| <= |b|
    requires length == 8 + |apdu| + |tag|
    requires b[off + 8..off + 8 + |apdu|] == apdu
    requires b[off..off + 8 + |apdu|] == app + apdu
    requires b[off + 8 + |apdu|..off + 8 + |apdu| + |tag|] == tag
    ensures ParseBody(b, off, hdr, appid, length, |tag|) ==
            Ok(Parsed(hdr, appid, apdu, SignedPart(app, apdu, tag), tag))
  {
  }

  /** Exactly when parsing the finished frame gives back what it was made from. */
  lemma FrameRoundTripIff(hdr: EthHeader, appid: U16, apdu: seq<Byte>, tag: seq<Byte>)
    ensures Parse(FrameBytes(hdr, appid, apdu, tag), hdr.ethertype) == Ok(ExpectedParse(hdr, appid, apdu, tag))
            <==> Representable(hdr, apdu, tag)
  {
    var b := FrameBytes(hdr, appid, apdu, tag);
    if Representable(hdr, apdu, tag) {
      ParseRepresentable(hdr, appid, apdu, tag);
    } else if Parse(b, hdr.ethertype).Ok? {
      SlicesAdjacent(b, hdr.ethertype);
      VlanInRange(b, hdr.ethertype);
      var pad := PaddedParts(hdr, appid, apdu, tag);
      EthFields(hdr, AppHeader(appid, 8 + |apdu| + |tag|, hdr.simulation, |tag|) + (apdu + tag + pad));
    }
  }

  lemma VlanInRange(bytes: seq<Byte>, expected: U16)
    requires Parse(bytes, expected).Ok?
    ensures match Parse(bytes, expected).value.hdr.vlan
      case Some(v) => v.pcp < 8 && v.vid < 4096
      case None => U16At(bytes, 12) != TPID_8021Q
  {
  }

  /** A verifier that accepts the signer's tags accepts the frame it signed. */
  lemma SignedFrameAccepted(hdr: EthHeader, appid: U16, apdu: seq<Byte>, signer: Signer,
                            verify: (seq<Byte>, seq<Byte>) -> bool)
    requires forall m :: |signer.sign(m)| == signer.tagLen && verify(m, signer.sign(m))
    requires signer.tagLen > 0
    ensures var tag := signer.sign(SignedData(hdr, appid, apdu, signer.tagLen));
      Representable(hdr, apdu, tag) ==>
        var r := Parse(FrameBytes(hdr, appid, apdu, tag), hdr.ethertype);
        r.Ok? && r.value.apdu == apdu && r.value.hdr == hdr && verify(r.value.signedData, r.value.authTag)
  {
    var m := SignedData(hdr, appid, apdu, signer.tagLen);
    var tag := signer.sign(m);
    assert |tag| == signer.tagLen;
    if Representable(hdr, apdu, tag) { ParseRepresentable(hdr, appid, apdu, tag); }
  }

  /** What is signed fixes everything the application takes from the frame except addresses, VLAN
    * tag and EtherType: two signed frames with the same signed octets agree on all of it. */
  lemma SignedDataFixes(a: seq<Byte>, b: seq<Byte>, expected: U16)
    requires Parse(a, expected).Ok? && Parse(b, expected).Ok?
    requires Parse(a, expected).value.signedData == Parse(b, expected).value.signedData != []
    ensures var p, q := Parse(a, expected).value, Parse(b, expected).value;
      && p.appid == q.appid && p.apdu == q.apdu && |p.authTag| == |q.authTag|
      && p.hdr.simulation == q.hdr.simulation
  {
    SignedHead(a, expected);
    SignedHead(b, expected);
  }

  lemma SignedHead(a: seq<Byte>, expected: U16)
    requires Parse(a, expected).Ok? && Parse(a, expected).value.signedData != []
    ensures var p := Parse(a, expected).value;
      var s := p.signedData;
      && |s| == 8 + |p.apdu| && s[8..] == p.apdu
      && p.appid == U16At(s, 0) && |p.authTag| == U16At(s, 6)
      && (p.hdr.simulation <==> U16At(s, 4) >= RESERVED1_SIMULATED)
  {
    SlicesAdjacent(a, expected);
    var p := Parse(a, expected).value;
    var off := if p.hdr.vlan.Some? then 18 else 14;
    HeadSlice(a, off, |p.apdu|);
  }

  lemma HeadSlice(a: seq<Byte>, off: nat, n: nat)
    requires off + 8 + n <= |a|
    ensures var s := a[off..off + 8 + n];
      && s[8..] == a[off + 8..off + 8 + n]
      && U16At(s, 0) == U16At(a, off) && U16At(s, 4) == U16At(a, off + 4) && U16At(s, 6) == U16At(a, off + 6)
  {
  }

  // ---------------------------------------------------------------- octet by octet

  lemma EthOctets(hdr: EthHeader, rest: seq<Byte>)
    ensures var b, off := EthBytes(hdr) + rest, if hdr.vlan.Some? then 18 else 14;
      && |EthBytes(hdr)| == off && b[0..6] == hdr.dst && b[6..12] == hdr.src
      && b[off - 2] == hdr.ethertype / 256 && b[off - 1] == hdr.ethertype % 256
      && (hdr.vlan.Some? ==>
            var v := hdr.vlan.value;
            && b[12] == 0x81 && b[13] == 0x00
            && b[14] == (v.pcp % 8) * 32 + (if v.dei then 16 else 0) + v.vid % 4096 / 256
            && b[15] == v.vid % 256)
  {
    if hdr.vlan.Some? {
      TciOctets(hdr.vlan.value);
      var e, tci := EthBytes(hdr), Be2(hdr.vlan.value.Tci());
      assert e[14] == tci[0] && e[15] == tci[1] && e[16] == Be2(hdr.ethertype)[0] && e[17] == Be2(hdr.ethertype)[1];
      assert e[12] == Be2(TPID_8021Q)[0] && e[13] == Be2(TPID_8021Q)[1];
    } else {
      var e := EthBytes(hdr);
      assert e[12] == Be2(hdr.ethertype)[0] && e[13] == Be2(hdr.ethertype)[1];
    }
  }

  lemma TciOctets(v: VlanTag)
    ensures Be2(v.Tci()) == [(v.pcp % 8) * 32 + (if v.dei then 16 else 0) + v.vid % 4096 / 256, v.vid % 256]
  {
    var low := v.vid % 4096;
    assert low == 256 * (low / 256) + low % 256 && low % 256 == v.vid % 256;
    assert v.Tci() == 256 * ((v.pcp % 8) * 32 + (if v.dei then 16 else 0) + low / 256) + low % 256;
  }

  lemma AppOctets(appid: U16, length: nat, simulation: bool, tagLen: nat)
    requires length <= 65535 && tagLen <= 65535
    ensures AppHeader(appid, length, simulation, tagLen) ==
            [appid / 256, appid % 256, length / 256, length % 256, if simulation then 0x80 else 0, 0,
             tagLen / 256, tagLen % 256]
  {
  }

  /** The finished frame, octet by octet: addresses; 81 00 and the tag control word if there is a VLAN tag;
    * EtherType; APPID, Length, 80 00 when simulated, the length of the tag; the data; the tag; and zeros
    * up to sixty octets. */
  lemma FrameOctets(hdr: EthHeader, appid: U16, apdu: seq<Byte>, tag: seq<Byte>)
    requires 8 + |apdu| + |tag| <= 65535
    ensures var f, off, len := FrameBytes(hdr, appid, apdu, tag), if hdr.vlan.Some? then 18 else 14, 8 + |apdu| + |tag|;
      && |f| == (if off + len < 60 then 60 else off + len)
      && f[0..6] == hdr.dst && f[6..12] == hdr.src
      && f[off - 2] == hdr.ethertype / 256 && f[off - 1] == hdr.ethertype % 256
      && (hdr.vlan.Some? ==>
            var v := hdr.vlan.value;
            && f[12] == 0x81 && f[13] == 0x00
            && f[14] == (v.pcp % 8) * 32 + (if v.dei then 16 else 0) + v.vid % 4096 / 256
            && f[15] == v.vid % 256)
      && f[off..off + 8] == [appid / 256, appid % 256, len / 256, len % 256,
                             if hdr.simulation then 0x80 else 0, 0, |tag| / 256, |tag| % 256]
      && f[off + 8..off + 8 + |apdu|] == apdu && f[off + 8 + |apdu|..off + len] == tag
      && forall i :: off + len <= i < |f| ==> f[i] == 0
  {
    var app := AppHeader(appid, 8 + |apdu| + |tag|, hdr.simulation, |tag|);
    var body := EthBytes(hdr) + SignedData(hdr, appid, apdu, |tag|) + tag;
    var pad := Padded(body)[|body|..];
    assert Padded(body) == body + pad;
    EthOctets(hdr, app + apdu + tag + pad);
    AppOctets(appid, 8 + |apdu| + |tag|, hdr.simulation, |tag|);
    FrameSplit(EthBytes(hdr), app, apdu, tag, pad);
  }

  lemma FrameSplit(eth: seq<Byte>, app: seq<Byte>, apdu: seq<Byte>, tag: seq<Byte>, pad: seq<Byte>)
    requires |app| == 8
    ensures var f, off := eth + (app + apdu) + tag + pad, |eth|;
      && f == eth + (app + apdu + tag + pad)
      && f[off..off + 8] == app && f[off + 8..off + 8 + |apdu|] == apdu
      && f[off + 8 + |apdu|..off + 8 + |apdu| + |tag|] == tag
      && forall i :: off + 8 + |apdu| + |tag| <= i < |f| ==> f[i] == pad[i - (off + 8 + |apdu| + |tag|)]
  {
  }

  function At2(b: seq<Byte>, i: nat): nat
    requires i + 1 < |b|
  {
    var hi: nat, lo: nat := b[i], b[i + 1];
    256 * hi + lo
  }

  /** Every input: what parsing reads and from where, or why it fails. */
  lemma ParseReads(b: seq<Byte>, expected: U16)
    ensures var tagged := |b| >= 14 && b[12] == 0x81 && b[13] == 0x00;
      var off, r := if tagged then 18 else 14, Parse(b, expected);
      if |b| < off then r == Err(Truncated)
      else if At2(b, off - 2) != expected then r == Err(WrongEthertype(At2(b, off - 2)))
      else if |b| < off + 8 then r == Err(Malformed)
      else if At2(b, off + 2) < 8 + At2(b, off + 6) || |b| < off + At2(b, off + 2) then r == Err(Malformed)
      else
        && r.Ok? && r.value.appid == At2(b, off)
        && r.value.hdr.dst == b[0..6] && r.value.hdr.src == b[6..12] && r.value.hdr.ethertype == expected
        && (r.value.hdr.simulation <==> b[off + 4] >= 0x80)
        && r.value.hdr.vlan == if !tagged then None
                               else Some(VlanTag(b[14] / 32, b[14] / 16 % 2 == 1,
                                                 (b[14] as nat % 16) * 256 + b[15] as nat))
  {
    if |b| >= 18 { TciParts(b[14], b[15]); }
  }

  lemma TciParts(hi: Byte, lo: Byte)
    ensures hi as nat * 256 + lo as nat < 0x1_0000
    ensures ParseVlan(hi as nat * 256 + lo as nat) ==
            VlanTag(hi / 32, hi / 16 % 2 == 1, (hi as nat % 16) * 256 + lo as nat)
  {
    var x: nat := hi as nat * 256 + lo as nat;
    assert x / 4096 == hi as nat / 16 && x % 4096 == hi as nat % 16 * 256 + lo as nat;
    assert x / 8192 == hi as nat / 32;
  }
}
