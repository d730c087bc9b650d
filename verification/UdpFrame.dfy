/** The frames the TAP verification script builds, and its receiver-side test of both checksums. */
module UdpFrame {
  import opened Wrappers
  import opened Bytes
  import opened Checksum
  import opened Parser
  import opened Grammar
  import opened Actions
  import opened Rewrite
  import opened RewriteLaws
  import opened FrameBytes
  import opened ReceiverView

  const SRC_IP: u32 := 0xC000_0201
  const SRC_PORT: u16 := 12345

  const MACS: seq<byte> := [2, 0, 0, 0, 0, 2, 2, 0, 0, 0, 0, 1]

  /** `build_udp_frame`; packing fails when a length does not fit its 16-bit field. */
  function BuildUdpFrame(dst: u32, dstPort: u16, marker: seq<byte>, ident: u16): Option<seq<byte>> {
    if 28 + |marker| > 0xFFFF then None
    else
      var ethernet := MACS + Be16(ETHER_TYPE_IPV4);
      var udpLength: u16 := 8 + |marker|;
      var ipv4Length: u16 := 20 + udpLength;
      var ipv4Checksum := Internet(PackIpv4(ipv4Length, ident, 0, dst));
      var pseudo := Pseudo(Be32(SRC_IP), Be32(dst), IPPROTO_UDP, udpLength);
      var computed := Internet(pseudo + PackUdp(dstPort, udpLength, 0) + marker);
      var udpChecksum := if computed == 0 then 0xFFFF else computed;
      Some(ethernet + PackIpv4(ipv4Length, ident, ipv4Checksum, dst) + PackUdp(dstPort, udpLength, udpChecksum) + marker)
  }

  function PackIpv4(length: u16, ident: u16, checksum: u16, dst: u32): seq<byte> {
    [0x45, 0, Hi(length), Lo(length), Hi(ident), Lo(ident), 0, 0, 64, IPPROTO_UDP, Hi(checksum), Lo(checksum)]
    + Be32(SRC_IP) + Be32(dst)
  }

  function PackUdp(dstPort: u16, length: u16, checksum: u16): seq<byte> {
    Be16(SRC_PORT) + Be16(dstPort) + Be16(length) + Be16(checksum)
  }

  /** `verify_ipv4_udp_checksums`: it takes the header to be 20 bytes long; a short frame cannot be unpacked. */
  predicate ScriptAccepts(f: seq<byte>) {
    && |f| >= 42
    && Get16(f, 24) == Internet(Patch(f[14..34], 10, Be16(0)))
    && var udp := Patch(f[34..], 6, Be16(0));
       var length := Get16(udp, 4);
       var expected := Internet(Pseudo(f[26..30], f[30..34], IPPROTO_UDP, length)
                                + if length <= |udp| then udp[..length] else udp);
       Get16(f, 40) == if expected == 0 then 0xFFFF else expected
  }

  /** The packet the script means to build, before its checksums are filled in. */
  function Draft(dst: u32, dstPort: u16, marker: seq<byte>, ident: u16): Packet
    requires 28 + |marker| <= 0xFFFF
  {
    Packet(MACS, 0, 28 + |marker|, ident, 0, 64, 0, SRC_IP, dst, [], Udp(SRC_PORT, dstPort, 8 + |marker|, 0, marker), [])
  }

  lemma DraftSupported(dst: u32, dstPort: u16, marker: seq<byte>, ident: u16)
    requires 28 + |marker| <= 0xFFFF
    ensures Supported(Draft(dst, dstPort, marker, ident))
  {
    var d := Draft(dst, dstPort, marker, ident);
    assert Shaped(d);
    assert |TransportBytes(d.transport)| == 8 + |marker|;
  }

  lemma PackedIpv4(p: Packet, marker: seq<byte>)
    requires 28 + |marker| <= 0xFFFF && Shaped(p)
    requires p == Draft(p.dst, p.transport.dstPort, marker, p.ident).(checksum := p.checksum, transport := p.transport)
    requires p.transport.Udp?
    ensures Ipv4Header(p) == PackIpv4(28 + |marker|, p.ident, p.checksum, p.dst)
  {
    assert p.options == [];
    assert Ipv4Front(p) == PackIpv4(28 + |marker|, p.ident, p.checksum, p.dst)[..12];
  }

  lemma PackedUdp(t: Transport)
    requires t.Udp? && t.srcPort == SRC_PORT
    ensures UdpFixed(t) == PackUdp(t.dstPort, t.length, t.checksum)
  {
  }

  lemma CoveredWhole(t: Transport)
    requires t.Udp? && t.length == 8 + |t.body|
    ensures Covered(t) == UdpFixed(t) + t.body
  {
  }

  /** What `build_udp_frame` returns is the encoding of its draft with the rewrite's checksums. */
  lemma BuiltFrame(dst: u32, dstPort: u16, marker: seq<byte>, ident: u16)
    requires 28 + |marker| <= 0xFFFF
    ensures Supported(Draft(dst, dstPort, marker, ident))
    ensures BuildUdpFrame(dst, dstPort, marker, ident) == Some(Serialize(Sealed(Draft(dst, dstPort, marker, ident))))
  {
    var d := Draft(dst, dstPort, marker, ident);
    DraftSupported(dst, dstPort, marker, ident);
    var q := Sealed(d);
    PackedIpv4(d, marker);
    PackedIpv4(q, marker);
    PackedUdp(d.transport);
    PackedUdp(q.transport);
    CoveredWhole(d.transport);
    var pseudo := Pseudo(Be32(SRC_IP), Be32(dst), IPPROTO_UDP, 8 + |marker|);
    Assoc(pseudo, UdpFixed(d.transport), marker);
    assert ChecksumInput(d) == pseudo + UdpFixed(d.transport) + marker;
    BuiltLayout(q);
  }

  lemma BuiltLayout(q: Packet)
    requires Shaped(q) && q.transport.Udp? && q.trailer == []
    ensures Serialize(q) == EthernetHeader(q) + Ipv4Header(q) + UdpFixed(q.transport) + q.transport.body
  {
    Assoc(EthernetHeader(q) + Ipv4Header(q), UdpFixed(q.transport), q.transport.body);
  }

  /** Rewriting the destination of a built frame gives, byte for byte, the frame built for the new destination. */
  lemma RewriteEqualsRebuild(dst: u32, dstPort: u16, newDst: u32, newPort: u16, marker: seq<byte>, ident: u16, a: RuleAction)
    requires 42 + |marker| <= 0xFFFF
    requires a.rewriteMask == REWRITE_DST_IPV4 | REWRITE_DST_PORT && a.dstIpv4 == newDst && a.dstPort == newPort
    ensures var built := BuildUdpFrame(dst, dstPort, marker, ident);
            && built.Some? && |built.value| == 42 + |marker| && ParseFrame(built.value).Ok?
            && BuildUdpFrame(newDst, newPort, marker, ident) == Some(RewriteFrame(built.value, a))
  {
    var d, e := Draft(dst, dstPort, marker, ident), Draft(newDst, newPort, marker, ident);
    BuiltFrame(dst, dstPort, marker, ident);
    BuiltFrame(newDst, newPort, marker, ident);
    DraftSupported(dst, dstPort, marker, ident);
    SealedSupported(d);
    SerializeParts(Sealed(d));
    TransportFields(Sealed(d).transport);
    ParseSerialize(Sealed(d));
    DissectSerialize(Sealed(d));
    SelectsDestination(a);
    assert Blank(Redirect(Sealed(d), a)) == e;
    assert RewritePacket(Sealed(d), a) == Sealed(e);
  }

  lemma SelectsDestination(a: RuleAction)
    requires a.rewriteMask == REWRITE_DST_IPV4 | REWRITE_DST_PORT
    ensures Selects(a, REWRITE_DST_IPV4) && Selects(a, REWRITE_DST_PORT)
    ensures !Selects(a, REWRITE_SRC_IPV4) && !Selects(a, REWRITE_SRC_PORT)
  {
  }

  lemma SealedSupported(blank: Packet)
    requires Supported(blank) && blank.checksum == 0 && blank.transport.checksum == 0
    ensures var q := Sealed(blank);
            && Supported(q) && Blank(q) == blank
            && HeaderVerifies(q) && TransportVerifies(q) && Canonical(q)
  {
    var q := Sealed(blank);
    assert Blank(q) == blank;
    SealedHeader(q);
    SealedTransport(q);
  }

  /** The script's test accepts a plain UDP packet exactly when both checksums verify canonically. */
  lemma ScriptAcceptsIff(p: Packet)
    requires Supported(p) && p.transport.Udp? && p.options == []
    ensures ScriptAccepts(Serialize(p)) <==> HeaderVerifies(p) && TransportVerifies(p) && Canonical(p)
  {
    BlankSupported(p);
    ScriptRecomputes(p);
    var header, input, at := Ipv4Header(Blank(p)), ChecksumInput(Blank(p)), 18;
    HeaderAsPatch(p);
    InputAsPatch(p);
    if ScriptAccepts(Serialize(p)) {
      SealedHeader(p);
      SealedTransport(p);
    }
    if HeaderVerifies(p) && TransportVerifies(p) && Canonical(p) {
      ChecksumUnique(header, 10, p.checksum);
      ChecksumBelowOnes(header, 0);
      ChecksumUnique(input, at, p.transport.checksum);
      ChecksumBelowOnes(input, 9);
    }
  }

  lemma ScriptRecomputes(p: Packet)
    requires Supported(p) && p.transport.Udp? && p.options == [] && Supported(Blank(p))
    ensures ScriptAccepts(Serialize(p)) <==>
            && p.checksum == Internet(Ipv4Header(Blank(p)))
            && p.transport.checksum == Sent(IPPROTO_UDP, Internet(ChecksumInput(Blank(p))))
  {
    var f := Serialize(p);
    ScriptHeader(p);
    ScriptDatagram(p);
  }

  lemma ScriptHeader(p: Packet)
    requires Supported(p) && p.options == [] && Supported(Blank(p))
    ensures var f := Serialize(p);
            && |f| >= 34 && Get16(f, 24) == p.checksum
            && Patch(f[14..34], 10, Be16(0)) == Ipv4Header(Blank(p))
            && f[26..30] == Be32(p.src) && f[30..34] == Be32(p.dst)
  {
    var f, b := Serialize(p), Blank(p);
    SerializeParts(p);
    SliceIndex(f, 14, 34, Ipv4Fixed(p));
    Join16(p.checksum);
    assert Ipv4Header(p) == Ipv4Fixed(p);
    HeaderAsPatch(b);
    HeaderAsPatch(p);
    PatchTwice(Ipv4Header(b), 10, Be16(p.checksum), Be16(0));
    SliceInside(f, 14, Ipv4Fixed(p), 12, 16);
    SliceInside(f, 14, Ipv4Fixed(p), 16, 20);
    assert Ipv4Fixed(p)[12..16] == Be32(p.src) && Ipv4Fixed(p)[16..20] == Be32(p.dst);
  }

  lemma PatchTwice(s: seq<byte>, at: nat, first: seq<byte>, second: seq<byte>)
    requires |first| == |second| && at + |first| <= |s|
    ensures Patch(Patch(s, at, first), at, second) == Patch(s, at, second)
  {
  }

  lemma DatagramBytes(p: Packet)
    requires Supported(p) && p.transport.Udp? && p.options == []
    ensures var f, s := Serialize(p), TransportBytes(p.transport);
            |f| >= 42 && |s| >= 8 && f[34..] == s + p.trailer && Get16(f, 40) == Get16(s, 6)
  {
    var f, s := Serialize(p), TransportBytes(p.transport);
    SerializeParts(p);
    SliceIndex(f, 34, 34 + |s|, s);
    JoinSlices(f, 34, 34 + |s|, |f|);
    assert f[34..] == f[34..|f|];
  }

  lemma ZeroedDatagram(t: Transport, u: Transport, trailer: seq<byte>)
    requires u == t.(checksum := 0)
    requires t.Udp?
    ensures Patch(TransportBytes(t) + trailer, 6, Be16(0)) == TransportBytes(u) + trailer
  {
    PatchTransportChecksum(t, 0);
    PatchInto(TransportBytes(t), trailer, 6, Be16(0));
  }

  lemma ScriptDatagram(p: Packet)
    requires Supported(p) && p.transport.Udp? && p.options == [] && Supported(Blank(p))
    ensures var f := Serialize(p);
            && |f| >= 42 && Get16(f, 40) == p.transport.checksum
            && var udp := Patch(f[34..], 6, Be16(0));
            && Get16(udp, 4) == p.transport.length <= |udp|
            && udp[..p.transport.length] == Covered(Blank(p).transport)
  {
    hide Patch, Serialize, TransportBytes, Get16;
    var t, u := p.transport, Blank(p).transport;
    DatagramBytes(p);
    TransportFields(t);
    TransportFields(u);
    ZeroedDatagram(t, u, p.trailer);
    PrefixOfSum(TransportBytes(u), p.trailer, t.length);
  }

  lemma PrefixOfSum(a: seq<byte>, b: seq<byte>, n: nat)
    requires n <= |a|
    ensures (a + b)[..n] == a[..n] && |a + b| >= n
    ensures n >= 6 ==> Get16(a + b, 4) == Get16(a, 4)
  {
  }

  /** Every frame the script builds passes the script's own test, and parses to its own fields. */
  lemma BuiltFrameAccepted(dst: u32, dstPort: u16, marker: seq<byte>, ident: u16)
    requires 28 + |marker| <= 0xFFFF
    ensures var built := BuildUdpFrame(dst, dstPort, marker, ident);
            && built.Some? && ScriptAccepts(built.value)
            && ParseFrame(built.value)
               == Ok(Meta(ETHER_TYPE_IPV4, SRC_IP, dst, IPPROTO_UDP, SRC_PORT, dstPort, 14, 20, 8, 34))
  {
    hide ScriptAccepts, BuildUdpFrame, ParseFrame, Serialize, HeaderVerifies, TransportVerifies, Canonical;
    var d := Draft(dst, dstPort, marker, ident);
    BuiltFrame(dst, dstPort, marker, ident);
    DraftSupported(dst, dstPort, marker, ident);
    SealedSupported(d);
    ScriptAcceptsIff(Sealed(d));
    ParseSerialize(Sealed(d));
  }

  // ---------- On the bytes ----------

  /** Every byte of the frame the script means to send, but for the two checksums, which must verify. */
  ghost predicate IsBuilt(dst: u32, dstPort: u16, marker: seq<byte>, ident: u16, g: seq<byte>) {
    && |g| == 42 + |marker| && IsBuiltHeader(dst, marker, ident, g)
    && Number16(g, 34) == 12345 && Number16(g, 36) == dstPort && Number16(g, 38) == 8 + |marker| && g[42..] == marker
    && Acceptable(g) && Verified(g)
  }

  predicate IsBuiltHeader(dst: u32, marker: seq<byte>, ident: u16, g: seq<byte>)
    requires |g| >= 42
  {
    && g[..12] == [2, 0, 0, 0, 0, 2, 2, 0, 0, 0, 0, 1] && g[12] == 8 && g[13] == 0
    && g[14] == 0x45 && g[15] == 0 && Number16(g, 16) == 28 + |marker| && Number16(g, 18) == ident
    && Number16(g, 20) == 0 && g[22] == 64 && g[23] == 17 && Number32(g, 26) == 0xC000_0201 && Number32(g, 30) == dst
  }

  lemma NumbersAreGets(f: seq<byte>, at: nat)
    requires at + 4 <= |f|
    ensures Number16(f, at) == Get16(f, at) && Number32(f, at) == Get32(f, at)
  {
  }

  lemma BuiltHeader(d: Packet, dst: u32, dstPort: u16, marker: seq<byte>, ident: u16, q: Packet)
    requires 28 + |marker| <= 0xFFFF && d == Draft(dst, dstPort, marker, ident)
    requires Supported(q) && q == TransportChecksum(d, q.transport.checksum).(checksum := q.checksum)
    ensures |Serialize(q)| >= 42 && IsBuiltHeader(dst, marker, ident, Serialize(q))
  {
    var g := Serialize(q);
    SerializeParts(q);
    TransportFields(q.transport);
    FrameFields(q);
    UncheckedFields(q);
    HeaderInFrame(q);
    hide Serialize, TransportBytes, Supported, Number16, Number32, Get16, Get32, Acceptable;
    assert 14 + 28 <= |g|;
    NumbersAreGets(g, 16);
    NumbersAreGets(g, 18);
    NumbersAreGets(g, 20);
    NumbersAreGets(g, 26);
    NumbersAreGets(g, 30);
    NumbersAreGets(g, 12);
    EtherBytes(g);
  }

  lemma EtherBytes(g: seq<byte>)
    requires |g| >= 14 && Get16(g, 12) == ETHER_TYPE_IPV4
    ensures g[12] == 8 && g[13] == 0
  {
  }

  lemma BuiltDatagram(d: Packet, dst: u32, dstPort: u16, marker: seq<byte>, ident: u16, q: Packet)
    requires 28 + |marker| <= 0xFFFF && d == Draft(dst, dstPort, marker, ident)
    requires Supported(q) && q == TransportChecksum(d, q.transport.checksum).(checksum := q.checksum)
    ensures var g := Serialize(q);
            && |g| == 42 + |marker| && Number16(g, 34) == 12345 && Number16(g, 36) == dstPort && Number16(g, 38) == 8 + |marker|
            && g[42..] == marker
  {
    var g, s := Serialize(q), TransportBytes(q.transport);
    SerializeParts(q);
    TransportFields(q.transport);
    TransportTail(q.transport);
    SliceIndex(g, 34, 34 + |s|, s);
    hide Serialize, TransportBytes, Supported, Number32, Get32;
    assert g[34..34 + |s|][8..] == s[8..];
    assert g[42..] == g[34..34 + |s|][8..];
  }

  lemma BuiltIsBuilt(dst: u32, dstPort: u16, marker: seq<byte>, ident: u16)
    requires 28 + |marker| <= 0xFFFF
    ensures var built := BuildUdpFrame(dst, dstPort, marker, ident);
            built.Some? && IsBuilt(dst, dstPort, marker, ident, built.value)
  {
    hide BuildUdpFrame, Serialize, HeaderVerifies, TransportVerifies, Canonical, IsBuiltHeader, Number16, Acceptable,
      HeaderSumsToOnes, SegmentSumsToOnes, SentEncoding;
    var d := Draft(dst, dstPort, marker, ident);
    BuiltFrame(dst, dstPort, marker, ident);
    DraftSupported(dst, dstPort, marker, ident);
    SealedSupported(d);
    BuiltHeader(d, dst, dstPort, marker, ident, Sealed(d));
    BuiltDatagram(d, dst, dstPort, marker, ident, Sealed(d));
    VerifiedOnBytes(Sealed(d));
  }

  lemma HeadersAgree(dst: u32, marker: seq<byte>, ident: u16, g: seq<byte>, r: seq<byte>)
    requires |g| == |r| >= 42 && IsBuiltHeader(dst, marker, ident, g) && IsBuiltHeader(dst, marker, ident, r)
    ensures forall k | 0 <= k < 34 && !(24 <= k < 26) :: g[k] == r[k]
  {
    hide Number16;
    PairEqual(g, r, 16);
    PairEqual(g, r, 18);
    PairEqual(g, r, 20);
    QuadEqual(g, r, 26);
    QuadEqual(g, r, 30);
    hide Number32;
    PairEqual(g, r, 26);
    PairEqual(g, r, 28);
    PairEqual(g, r, 30);
    PairEqual(g, r, 32);
    assert forall k | 0 <= k < 12 :: g[..12][k] == r[..12][k];
  }

  lemma BuiltAgree(dst: u32, dstPort: u16, marker: seq<byte>, ident: u16, g: seq<byte>, r: seq<byte>)
    requires IsBuilt(dst, dstPort, marker, ident, g) && IsBuilt(dst, dstPort, marker, ident, r)
    ensures SameButChecksums(g, r)
  {
    hide Verified;
    assert ChecksumOffset(g) == 40;
    HeadersAgree(dst, marker, ident, g, r);
    hide Acceptable, ChecksumOffset, IsBuiltHeader, Number16;
    PairEqual(g, r, 34);
    PairEqual(g, r, 36);
    PairEqual(g, r, 38);
    forall k | 0 <= k < |g| && !(24 <= k < 26) && !(40 <= k < 42)
      ensures g[k] == r[k]
    {
      if k >= 42 {
        assert g[42..][k - 42] == r[42..][k - 42];
      }
    }
  }

  /** Of all byte strings, `build_udp_frame` returns the one with these fields and verifying checksums. */
  lemma BuiltOnBytes(dst: u32, dstPort: u16, marker: seq<byte>, ident: u16, g: seq<byte>)
    requires 28 + |marker| <= 0xFFFF
    ensures BuildUdpFrame(dst, dstPort, marker, ident) == Some(g) <==> IsBuilt(dst, dstPort, marker, ident, g)
  {
    BuiltIsBuilt(dst, dstPort, marker, ident);
    hide BuildUdpFrame, Verified;
    if IsBuilt(dst, dstPort, marker, ident, g) {
      var r := BuildUdpFrame(dst, dstPort, marker, ident).value;
      BuiltAgree(dst, dstPort, marker, ident, g, r);
      VerifiedUnique(g, r);
    }
  }

  /** The script accepts a plain UDP frame exactly when the receiver's sums over its bytes come out. */
  lemma ScriptAcceptsVerified(f: Frame)
    requires ParseFrame(f).Ok? && f[14] == 0x45 && f[23] == 17
    ensures Acceptable(f) && (ScriptAccepts(f) <==> Verified(f))
  {
    var p := Dissect(f);
    SerializeDissect(f);
    HeaderInFrame(p);
    hide ScriptAccepts, Serialize, Dissect, LengthsFit, ParseFrame, HeaderVerifies, TransportVerifies, Canonical, Acceptable,
      HeaderSumsToOnes, SegmentSumsToOnes, SentEncoding;
    assert |p.options| == 0;
    ScriptAcceptsIff(p);
    VerifiedOnBytes(p);
  }
}
