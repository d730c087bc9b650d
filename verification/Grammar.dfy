/**
 The frames the router supports, described by what they are made of instead of by how they are
 checked (section 3.1 of RFC 791, section 3.1 of RFC 9293, RFC 768), and the proof that the parser
 accepts exactly these.
 */
module Grammar {
  import opened Bytes
  import opened Parser

  datatype Transport =
    | Tcp(srcPort: u16, dstPort: u16, numbers: seq<byte>, dataOffset: byte, flags: byte, window: u16,
          checksum: u16, rest: seq<byte>)
    | Udp(srcPort: u16, dstPort: u16, length: u16, checksum: u16, body: seq<byte>)

  /** A frame taken apart. `trailer` is Ethernet padding, `rest` starts with TCP's urgent pointer. */
  datatype Packet = Packet(macs: seq<byte>, tos: byte, totalLength: u16, ident: u16, fragment: u16, ttl: byte,
                           checksum: u16, src: u32, dst: u32, options: seq<byte>, transport: Transport,
                           trailer: seq<byte>)

  function Protocol(t: Transport): byte {
    if t.Tcp? then IPPROTO_TCP else IPPROTO_UDP
  }

  /** Sizes only: what `Serialize` needs to lay the fields out. */
  predicate Shaped(p: Packet) {
    && |p.macs| == 12
    && |p.options| % 4 == 0 && |p.options| <= 40
    && (p.transport.Tcp? ==> |p.transport.numbers| == 8 && |p.transport.rest| >= 2)
  }

  /** The length fields also tell the truth, and the datagram is not a fragment. */
  predicate Supported(p: Packet) {
    && Shaped(p)
    && p.totalLength == IPV4_HEADER + |p.options| + |TransportBytes(p.transport)|
    && p.fragment % FRAGMENT_BITS == 0
    && match p.transport
       case Tcp(_, _, _, dataOffset, _, _, _, rest) =>
         TCP_HEADER <= dataOffset / 0x10 * 4 <= TCP_HEADER - 2 + |rest|
       case Udp(_, _, length, _, body) =>
         UDP_HEADER <= length <= UDP_HEADER + |body|
  }

  function TcpFixed(t: Transport): (s: seq<byte>)
    requires t.Tcp? && |t.numbers| == 8
    ensures |s| == 18
  {
    var n := t.numbers;
    [Hi(t.srcPort), Lo(t.srcPort), Hi(t.dstPort), Lo(t.dstPort), n[0], n[1], n[2], n[3], n[4], n[5], n[6], n[7],
     t.dataOffset, t.flags, Hi(t.window), Lo(t.window), Hi(t.checksum), Lo(t.checksum)]
  }

  function UdpFixed(t: Transport): (s: seq<byte>)
    requires t.Udp?
    ensures |s| == UDP_HEADER
  {
    [Hi(t.srcPort), Lo(t.srcPort), Hi(t.dstPort), Lo(t.dstPort), Hi(t.length), Lo(t.length), Hi(t.checksum), Lo(t.checksum)]
  }

  function TransportBytes(t: Transport): seq<byte>
    requires t.Tcp? ==> |t.numbers| == 8
  {
    match t
    case Tcp(_, _, _, _, _, _, _, rest) => TcpFixed(t) + rest
    case Udp(_, _, _, _, body) => UdpFixed(t) + body
  }

  function VersionIhl(p: Packet): byte
    requires Shaped(p)
  {
    0x45 + |p.options| / 4
  }

  /** The IPv4 header up to the addresses. */
  function Ipv4Front(p: Packet): (s: seq<byte>)
    requires Shaped(p)
    ensures |s| == 12
  {
    [VersionIhl(p), p.tos, Hi(p.totalLength), Lo(p.totalLength), Hi(p.ident), Lo(p.ident), Hi(p.fragment), Lo(p.fragment),
     p.ttl, Protocol(p.transport), Hi(p.checksum), Lo(p.checksum)]
  }

  function Ipv4Fixed(p: Packet): (s: seq<byte>)
    requires Shaped(p)
    ensures |s| == IPV4_HEADER
  {
    Ipv4Front(p) + Be32(p.src) + Be32(p.dst)
  }

  function Ipv4Header(p: Packet): (s: seq<byte>)
    requires Shaped(p)
    ensures |s| == IPV4_HEADER + |p.options|
  {
    Ipv4Fixed(p) + p.options
  }

  function EthernetHeader(p: Packet): (s: seq<byte>)
    requires Shaped(p)
    ensures |s| == ETHERNET_HEADER
  {
    p.macs + Be16(ETHER_TYPE_IPV4)
  }

  function Serialize(p: Packet): (f: seq<byte>)
    requires Shaped(p)
  {
    EthernetHeader(p) + Ipv4Header(p) + TransportBytes(p.transport) + p.trailer
  }

  /** What the parser reports of a supported packet. */
  function PacketMeta(p: Packet): Meta
    requires Supported(p)
  {
    var ihl := IPV4_HEADER + |p.options|;
    Meta(ETHER_TYPE_IPV4, p.src, p.dst, Protocol(p.transport), p.transport.srcPort, p.transport.dstPort,
         ETHERNET_HEADER, ihl, if p.transport.Tcp? then p.transport.dataOffset / 0x10 * 4 else UDP_HEADER,
         ETHERNET_HEADER + ihl)
  }

  // ---------- Where the parts lie ----------

  lemma SerializeParts(p: Packet)
    requires Shaped(p)
    ensures var f, l4 := Serialize(p), ETHERNET_HEADER + IPV4_HEADER + |p.options|;
            && |f| == l4 + |TransportBytes(p.transport)| + |p.trailer|
            && f[..14] == EthernetHeader(p)
            && f[14..34] == Ipv4Fixed(p)
            && f[14..l4] == Ipv4Header(p)
            && f[l4..l4 + |TransportBytes(p.transport)|] == TransportBytes(p.transport)
            && f[l4 + |TransportBytes(p.transport)|..] == p.trailer
  {
    var f, l4 := Serialize(p), ETHERNET_HEADER + IPV4_HEADER + |p.options|;
    FourSlices(EthernetHeader(p), Ipv4Header(p), TransportBytes(p.transport), p.trailer);
    FixedFirst(p);
    hide Serialize, EthernetHeader, Ipv4Header, Ipv4Fixed, TransportBytes;
    assert f[14..34] == f[14..l4][..20];
  }

  lemma FourSlices(a: seq<byte>, b: seq<byte>, c: seq<byte>, d: seq<byte>)
    ensures var s, n, m := a + b + c + d, |a| + |b|, |a| + |b| + |c|;
            |s| == m + |d| && s[..|a|] == a && s[|a|..n] == b && s[n..m] == c && s[m..] == d
  {
  }

  lemma FixedFirst(p: Packet)
    requires Shaped(p)
    ensures Ipv4Header(p)[..20] == Ipv4Fixed(p)
  {
    hide Ipv4Fixed;
  }

  lemma SliceIndex(f: seq<byte>, lo: nat, hi: nat, part: seq<byte>)
    requires lo <= hi <= |f| && f[lo..hi] == part
    ensures |part| == hi - lo && forall k | lo <= k < hi :: f[k] == part[k - lo]
  {
  }

  lemma Join16(w: u16)
    ensures Word(Hi(w), Lo(w)) == w
  {
  }

  lemma Join32(a: u32)
    ensures Get32(Be32(a), 0) == a
  {
  }

  lemma HeaderFields(p: Packet)
    requires Shaped(p)
    ensures var h := Ipv4Fixed(p);
            && h[0] == VersionIhl(p) && h[9] == Protocol(p.transport)
            && Get16(h, 2) == p.totalLength && Get16(h, 6) == p.fragment
            && Get32(h, 12) == p.src && Get32(h, 16) == p.dst
  {
    var h := Ipv4Fixed(p);
    Join16(p.totalLength);
    Join16(p.fragment);
    assert h[12..16] == Be32(p.src);
    assert h[16..20] == Be32(p.dst);
    SliceIndex(h, 12, 16, Be32(p.src));
    SliceIndex(h, 16, 20, Be32(p.dst));
    Join32(p.src);
    Join32(p.dst);
  }

  /** The fixed offsets of a serialized packet hold its fields. */
  lemma FrameFields(p: Packet)
    requires Shaped(p)
    ensures var f := Serialize(p);
            && |f| >= 34 && Get16(f, 12) == ETHER_TYPE_IPV4
            && f[14] == VersionIhl(p) && f[23] == Protocol(p.transport)
            && HeaderLength(f) == IPV4_HEADER + |p.options|
            && TotalLength(f) == p.totalLength && Get16(f, 20) == p.fragment
            && Get32(f, 26) == p.src && Get32(f, 30) == p.dst
  {
    var f := Serialize(p);
    SerializeParts(p);
    FieldsOfParts(f, EthernetHeader(p), Ipv4Fixed(p));
    HeaderFields(p);
    EthernetType(p);
    HeaderLengthOf(f, p);
  }

  lemma HeaderLengthOf(f: seq<byte>, p: Packet)
    requires |f| >= 34 && Shaped(p) && f[14] == VersionIhl(p)
    ensures HeaderLength(f) == IPV4_HEADER + |p.options| && f[14] / 0x10 == 4
  {
    HeaderWords(|p.options|);
  }

  lemma FieldsOfParts(f: seq<byte>, ethernet: seq<byte>, header: seq<byte>)
    requires |f| >= 34 && f[..14] == ethernet && f[14..34] == header
    ensures Get16(f, 12) == Get16(ethernet, 12) && f[14] == header[0] && f[23] == header[9]
    ensures Get16(f, 16) == Get16(header, 2) && Get16(f, 20) == Get16(header, 6)
    ensures Get32(f, 26) == Get32(header, 12) && Get32(f, 30) == Get32(header, 16)
  {
  }

  lemma EthernetType(p: Packet)
    requires Shaped(p)
    ensures Get16(EthernetHeader(p), 12) == ETHER_TYPE_IPV4
  {
    assert EthernetHeader(p)[12..14] == Be16(ETHER_TYPE_IPV4);
    Join16(ETHER_TYPE_IPV4);
  }

  lemma HeaderWords(options: nat)
    requires options % 4 == 0 && options <= 40
    ensures (0x45 + options / 4) % 0x10 * 4 == IPV4_HEADER + options && (0x45 + options / 4) / 0x10 == 4
  {
  }

  lemma TransportFields(t: Transport)
    requires t.Tcp? ==> |t.numbers| == 8
    ensures var s := TransportBytes(t);
            && |s| == (if t.Tcp? then 18 + |t.rest| else UDP_HEADER + |t.body|)
            && Get16(s, 0) == t.srcPort && Get16(s, 2) == t.dstPort
            && (t.Tcp? ==> s[12] == t.dataOffset && Get16(s, 16) == t.checksum)
            && (t.Udp? ==> Get16(s, 4) == t.length && Get16(s, 6) == t.checksum)
  {
    Join16(t.srcPort);
    Join16(t.dstPort);
    Join16(t.checksum);
    if t.Udp? {
      Join16(t.length);
    }
  }

  // ---------- The parser accepts exactly the supported packets ----------

  /** Every supported packet parses, to its own fields. */
  lemma ParseSerialize(p: Packet)
    requires Supported(p)
    ensures ParseFrame(Serialize(p)) == Ok(PacketMeta(p))
  {
    var f := Serialize(p);
    FrameFields(p);
    SerializeParts(p);
    assert Ipv4Fits(f);
    assert Payload(f) == TransportBytes(p.transport);
    TransportFields(p.transport);
  }

  function DissectTransport(proto: byte, s: seq<byte>): Transport
    requires proto == IPPROTO_TCP ==> TcpFits(s)
    requires proto != IPPROTO_TCP ==> UdpFits(s)
  {
    if proto == IPPROTO_TCP then
      Tcp(Get16(s, 0), Get16(s, 2), s[4..12], s[12], s[13], Get16(s, 14), Get16(s, 16), s[18..])
    else
      Udp(Get16(s, 0), Get16(s, 2), Get16(s, 4), Get16(s, 6), s[8..])
  }

  lemma TransportRebuilt(proto: byte, s: seq<byte>)
    requires proto == IPPROTO_TCP ==> TcpFits(s)
    requires proto != IPPROTO_TCP ==> UdpFits(s)
    ensures TransportBytes(DissectTransport(proto, s)) == s
  {
    var t := DissectTransport(proto, s);
    if t.Tcp? {
      assert TcpFixed(t) == s[..18];
    } else {
      assert UdpFixed(t) == s[..8];
    }
  }

  /** All length checks of the parser hold of `f`. */
  predicate LengthsFit(f: seq<byte>) {
    && Ipv4Fits(f)
    && (f[23] == IPPROTO_TCP ==> TcpFits(Payload(f)))
    && (f[23] != IPPROTO_TCP ==> f[23] == IPPROTO_UDP && UdpFits(Payload(f)))
  }

  lemma ParseOkMeans(f: seq<byte>)
    ensures ParseFrame(f).Ok? <==>
            LengthsFit(f) && Get16(f, 12) == ETHER_TYPE_IPV4 && Get16(f, 20) % FRAGMENT_BITS == 0
  {
  }

  /** The packet a parsed frame is the encoding of. */
  function Dissect(f: seq<byte>): Packet
    requires LengthsFit(f)
  {
    var ihl := HeaderLength(f);
    Packet(f[..12], f[15], TotalLength(f), Get16(f, 18), Get16(f, 20), f[22], Get16(f, 24), Get32(f, 26), Get32(f, 30),
           f[34..14 + ihl], DissectTransport(f[23], Payload(f)), f[14 + TotalLength(f)..])
  }

  lemma HeaderShape(f: seq<byte>)
    requires Ipv4Fits(f)
    ensures HeaderLength(f) == (f[14] % 0x10) * 4
    ensures (HeaderLength(f) - IPV4_HEADER) % 4 == 0 && HeaderLength(f) <= 60
    ensures f[14] == 0x45 + (HeaderLength(f) - IPV4_HEADER) / 4
  {
    var words := f[14] % 0x10;
    assert HeaderLength(f) - IPV4_HEADER == (words - 5) * 4;
  }

  lemma DissectShaped(f: seq<byte>)
    requires LengthsFit(f)
    ensures Shaped(Dissect(f)) && VersionIhl(Dissect(f)) == f[14]
  {
    HeaderShape(f);
  }

  lemma Split16(s: seq<byte>, at: nat)
    requires at + 2 <= |s|
    ensures Hi(Get16(s, at)) == s[at] && Lo(Get16(s, at)) == s[at + 1]
  {
  }

  lemma Halves(high: u16, low: u16)
    ensures High16(Double(high, low)) == high && Low16(Double(high, low)) == low
  {
  }

  lemma Split32(s: seq<byte>, at: nat)
    requires at + 4 <= |s|
    ensures Be32(Get32(s, at)) == [s[at], s[at + 1], s[at + 2], s[at + 3]]
  {
    Split16(s, at);
    Split16(s, at + 2);
    Halves(Get16(s, at), Get16(s, at + 2));
  }

  lemma JoinSlices(s: seq<byte>, a: nat, b: nat, c: nat)
    requires a <= b <= c <= |s|
    ensures s[a..b] + s[b..c] == s[a..c]
  {
  }

  lemma FrontRebuilt(f: seq<byte>)
    requires LengthsFit(f) && Shaped(Dissect(f)) && VersionIhl(Dissect(f)) == f[14]
    ensures Ipv4Front(Dissect(f)) == f[14..26]
  {
    Split16(f, 16);
    Split16(f, 18);
    Split16(f, 20);
    Split16(f, 24);
    assert Protocol(Dissect(f).transport) == f[23];
  }

  lemma HeaderRebuilt(f: seq<byte>)
    requires LengthsFit(f) && Shaped(Dissect(f)) && VersionIhl(Dissect(f)) == f[14]
    ensures Ipv4Header(Dissect(f)) == f[14..14 + HeaderLength(f)]
  {
    FrontRebuilt(f);
    Split32(f, 26);
    Split32(f, 30);
    assert Be32(Get32(f, 26)) == f[26..30] && Be32(Get32(f, 30)) == f[30..34];
    JoinSlices(f, 14, 26, 30);
    JoinSlices(f, 14, 30, 34);
    JoinSlices(f, 14, 34, 14 + HeaderLength(f));
  }

  lemma EthernetRebuilt(f: seq<byte>, p: Packet)
    requires |f| >= 14 && Shaped(p) && p.macs == f[..12]
    requires Get16(f, 12) == ETHER_TYPE_IPV4
    ensures EthernetHeader(p) == f[..14]
  {
    Split16(f, 12);
    assert Be16(ETHER_TYPE_IPV4) == f[12..14];
    JoinSlices(f, 0, 12, 14);
  }

  /** Every frame the parser accepts is the encoding of a supported packet. */
  lemma SerializeDissect(f: Frame)
    requires ParseFrame(f).Ok?
    ensures LengthsFit(f) && Supported(Dissect(f)) && Serialize(Dissect(f)) == f
    ensures ParseFrame(f) == Ok(PacketMeta(Dissect(f)))
  {
    ParseOkMeans(f);
    DissectShaped(f);
    DissectSupported(f);
    DissectSerializes(f);
    ParseSerialize(Dissect(f));
  }

  lemma DissectSupported(f: Frame)
    requires LengthsFit(f) && Shaped(Dissect(f)) && Get16(f, 20) % FRAGMENT_BITS == 0
    ensures Supported(Dissect(f))
  {
    TransportRebuilt(f[23], Payload(f));
  }

  lemma DissectSerializes(f: seq<byte>)
    requires LengthsFit(f) && Get16(f, 12) == ETHER_TYPE_IPV4
    requires Shaped(Dissect(f)) && VersionIhl(Dissect(f)) == f[14]
    ensures Serialize(Dissect(f)) == f
  {
    HeaderRebuilt(f);
    EthernetRebuilt(f, Dissect(f));
    TransportRebuilt(f[23], Payload(f));
    var l4, end := 14 + HeaderLength(f), 14 + TotalLength(f);
    FourParts(f, 14, l4, end);
  }

  lemma FourParts(f: seq<byte>, a: nat, b: nat, c: nat)
    requires a <= b <= c <= |f|
    ensures f == f[..a] + f[a..b] + f[b..c] + f[c..]
  {
  }

  ghost predicate IsSupportedFrame(f: seq<byte>) {
    exists p :: Supported(p) && Serialize(p) == f
  }

  /** Soundness and completeness: OK exactly on the frames of the grammar. */
  lemma ParseOkIffSupported(f: Frame)
    ensures ParseFrame(f).Ok? <==> IsSupportedFrame(f)
  {
    if ParseFrame(f).Ok? {
      SerializeDissect(f);
    }
    if IsSupportedFrame(f) {
      var p :| Supported(p) && Serialize(p) == f;
      ParseSerialize(p);
    }
  }

  /** The encoding loses nothing: a supported packet is recovered from its bytes. */
  lemma DissectSerialize(p: Packet)
    requires Supported(p)
    ensures LengthsFit(Serialize(p)) && Dissect(Serialize(p)) == p
  {
    ParseSerialize(p);
    ParseOkMeans(Serialize(p));
    DissectHeader(p);
    DissectPayload(p);
  }

  /** The header bytes that no check looks at. */
  lemma UncheckedFields(p: Packet)
    requires Supported(p)
    ensures var f := Serialize(p);
            && |f| >= 34 && |f| >= 14 + p.totalLength >= 34 + |p.options|
            && f[..12] == p.macs && f[15] == p.tos && f[22] == p.ttl
            && Get16(f, 18) == p.ident && Get16(f, 24) == p.checksum
            && f[34..34 + |p.options|] == p.options && f[14 + p.totalLength..] == p.trailer
  {
    var f, h, l4 := Serialize(p), Ipv4Fixed(p), 34 + |p.options|;
    SerializeParts(p);
    SliceIndex(f, 14, 34, h);
    HeaderRest(p);
    hide Serialize, Ipv4Fixed, TransportBytes, EthernetHeader, Ipv4Header;
    assert f[..12] == f[..14][..12];
    assert f[34..l4] == f[14..l4][20..];
  }

  lemma HeaderRest(p: Packet)
    requires Shaped(p)
    ensures EthernetHeader(p)[..12] == p.macs && Ipv4Header(p)[20..] == p.options
    ensures var h := Ipv4Fixed(p); h[1] == p.tos && h[8] == p.ttl && Get16(h, 4) == p.ident && Get16(h, 10) == p.checksum
  {
    Join16(p.ident);
    Join16(p.checksum);
    assert Ipv4Fixed(p)[..12] == Ipv4Front(p);
  }

  lemma DissectHeader(p: Packet)
    requires Supported(p) && LengthsFit(Serialize(p))
    ensures var q := Dissect(Serialize(p)); q == p.(transport := q.transport)
  {
    hide Serialize, Get16, Get32, HeaderLength, TotalLength, Payload, DissectTransport, TransportBytes, LengthsFit;
    FrameFields(p);
    UncheckedFields(p);
  }

  lemma DissectPayload(p: Packet)
    requires Supported(p) && LengthsFit(Serialize(p))
    ensures Dissect(Serialize(p)).transport == p.transport
  {
    var f, s := Serialize(p), TransportBytes(p.transport);
    FrameFields(p);
    SerializeParts(p);
    TransportFields(p.transport);
    TransportRead(p.transport);
    hide Serialize, TransportBytes, HeaderLength, TotalLength, DissectTransport, TcpFits, UdpFits, Get16, Get32;
    assert Payload(f) == s;
  }

  lemma TransportRead(t: Transport)
    requires t.Tcp? ==> |t.numbers| == 8 && |t.rest| >= 2 && TcpFits(TransportBytes(t))
    requires t.Udp? ==> UdpFits(TransportBytes(t))
    ensures DissectTransport(Protocol(t), TransportBytes(t)) == t
  {
    var s := TransportBytes(t);
    TransportFields(t);
    TransportTail(t);
    hide TransportBytes, Get16, TcpFits, UdpFits;
  }

  /** The transport bytes that no check looks at. */
  lemma TransportTail(t: Transport)
    requires t.Tcp? ==> |t.numbers| == 8
    ensures var s := TransportBytes(t);
            if t.Tcp? then |s| >= 18 && s[4..12] == t.numbers && s[13] == t.flags && Get16(s, 14) == t.window && s[18..] == t.rest
            else |s| >= 8 && s[8..] == t.body
  {
    var s := TransportBytes(t);
    if t.Tcp? {
      Join16(t.window);
      assert s[4..12] == t.numbers;
      assert s[18..] == t.rest;
    } else {
      assert s[8..] == t.body;
    }
  }

  /** Bytes after the IPv4 datagram (Ethernet padding) do not change an OK outcome. */
  lemma PaddingIgnored(f: Frame, padding: seq<byte>)
    requires ParseFrame(f).Ok? && |f + padding| < 0x1_0000
    ensures ParseFrame(f + padding) == ParseFrame(f)
  {
    SerializeDissect(f);
    var p := Dissect(f);
    var q := p.(trailer := p.trailer + padding);
    SerializeTrailer(p, padding);
    ParseSerialize(q);
  }

  lemma SerializeTrailer(p: Packet, padding: seq<byte>)
    requires Shaped(p)
    ensures Serialize(p.(trailer := p.trailer + padding)) == Serialize(p) + padding
  {
  }
}
