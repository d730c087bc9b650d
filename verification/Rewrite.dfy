/**
 The masked in-place rewrite and its checksums. The DPDK checksum helpers are given their contract:
 the RFC 1071 checksum of the bytes the header delimits.
 */
module Rewrite {
  import opened Bytes
  import opened Checksum
  import opened Parser
  import opened Grammar
  import opened Actions

  // ---------- The rewrite of a packet ----------

  /** `p` with exactly the masked fields replaced. */
  function Redirect(p: Packet, a: RuleAction): Packet {
    p.(src := if Selects(a, REWRITE_SRC_IPV4) then a.srcIpv4 else p.src,
       dst := if Selects(a, REWRITE_DST_IPV4) then a.dstIpv4 else p.dst,
       transport := RedirectPorts(p.transport, a))
  }

  function RedirectPorts(t: Transport, a: RuleAction): Transport {
    t.(srcPort := if Selects(a, REWRITE_SRC_PORT) then a.srcPort else t.srcPort,
       dstPort := if Selects(a, REWRITE_DST_PORT) then a.dstPort else t.dstPort)
  }

  function TransportChecksum(p: Packet, v: u16): Packet {
    p.(transport := p.transport.(checksum := v))
  }

  /** What the transport checksum covers: a TCP segment, or a UDP datagram of its own length. */
  function Covered(t: Transport): seq<byte>
    requires t.Tcp? ==> |t.numbers| == 8
    requires t.Udp? ==> UDP_HEADER <= t.length <= UDP_HEADER + |t.body|
  {
    if t.Tcp? then TransportBytes(t) else TransportBytes(t)[..t.length]
  }

  function Pseudo(src: seq<byte>, dst: seq<byte>, proto: byte, length: u16): seq<byte> {
    src + dst + [0, proto] + Be16(length)
  }

  /** Pseudo header and covered bytes (section 3.1 of RFC 9293, RFC 768). */
  function ChecksumInput(p: Packet): seq<byte>
    requires Supported(p)
  {
    Pseudo(Be32(p.src), Be32(p.dst), Protocol(p.transport), |Covered(p.transport)|) + Covered(p.transport)
  }

  /** Offset of the checksum field in the transport header. */
  function ChecksumAt(t: Transport): nat {
    if t.Tcp? then 16 else 6
  }

  function Sent(proto: byte, checksum: u16): u16 {
    if proto == IPPROTO_UDP && checksum == 0 then 0xFFFF else checksum
  }

  /** `p` without its two checksums. */
  function Blank(p: Packet): Packet {
    TransportChecksum(p, 0).(checksum := 0)
  }

  /** A packet without checksums, with both filled in. */
  function Sealed(blank: Packet): Packet
    requires Supported(blank)
  {
    TransportChecksum(blank, Sent(Protocol(blank.transport), Internet(ChecksumInput(blank))))
      .(checksum := Internet(Ipv4Header(blank)))
  }

  function RewritePacket(p: Packet, a: RuleAction): Packet
    requires Supported(p)
  {
    RedirectSupported(p, a);
    BlankSupported(Redirect(p, a));
    Sealed(Blank(Redirect(p, a)))
  }

  /** `p` with only its masked addresses replaced, and its checksums left stale. */
  function Readdress(p: Packet, a: RuleAction): Packet {
    Redirect(p, a).(transport := p.transport)
  }

  lemma RedirectSupported(p: Packet, a: RuleAction)
    requires Supported(p)
    ensures Supported(Redirect(p, a)) && Supported(Readdress(p, a))
  {
  }

  lemma BlankSupported(p: Packet)
    requires Supported(p)
    ensures Supported(Blank(p))
  {
  }

  // ---------- The checksum helpers, on frame bytes ----------

  /** `rte_ipv4_cksum` on the header at its fixed offset. */
  function Ipv4Cksum(f: seq<byte>): u16
    requires |f| >= 34 && ETHERNET_HEADER + HeaderLength(f) <= |f|
  {
    Internet(f[14..14 + HeaderLength(f)])
  }

  /** `rte_ipv4_udptcp_cksum`: the length comes from `total_length`, not from the transport header. */
  function UdpTcpCksum(f: seq<byte>): u16
    requires |f| >= 34 && ETHERNET_HEADER + TotalLength(f) <= |f|
  {
    if TotalLength(f) < HeaderLength(f) then 0xFFFF
    else
      TransportCksum(f[26..30], f[30..34], f[23], f[14 + HeaderLength(f)..14 + TotalLength(f)])
  }

  /** RFC 768: a UDP checksum that comes out zero is sent as all ones. */
  function TransportCksum(src: seq<byte>, dst: seq<byte>, proto: byte, l4: seq<byte>): u16
    requires |l4| < 0x1_0000
  {
    Sent(proto, Internet(Pseudo(src, dst, proto, |l4|) + l4))
  }

  // ---------- Overwriting one field of a serialized packet ----------

  lemma PatchInside(a: seq<byte>, b: seq<byte>, c: seq<byte>, at: nat, patch: seq<byte>)
    requires at + |patch| <= |b|
    ensures Patch(a + b + c, |a| + at, patch) == a + Patch(b, at, patch) + c
  {
  }

  lemma Assoc(a: seq<byte>, b: seq<byte>, c: seq<byte>)
    ensures a + b + c == a + (b + c)
  {
  }

  lemma Assoc4(a: seq<byte>, b: seq<byte>, c: seq<byte>, d: seq<byte>)
    ensures a + (b + c + d) == a + b + c + d
  {
  }

  /** Everything after the addresses. */
  function Rest(p: Packet): seq<byte>
    requires Shaped(p)
  {
    p.options + TransportBytes(p.transport) + p.trailer
  }

  lemma Layout(p: Packet)
    requires Shaped(p)
    ensures Serialize(p) == EthernetHeader(p) + Ipv4Front(p) + Be32(p.src) + Be32(p.dst) + Rest(p)
  {
    var e, h, o := EthernetHeader(p), Ipv4Fixed(p), p.options;
    var t, r := TransportBytes(p.transport), p.trailer;
    Assoc4(e, Ipv4Front(p), Be32(p.src), Be32(p.dst));
    Assoc(e, h, o);
    Assoc4(e + h, o, t, r);
  }

  lemma PatchFront(p: Packet, at: nat, patch: seq<byte>, q: Packet)
    requires Shaped(p) && Shaped(q) && at + |patch| <= 12
    requires Ipv4Front(q) == Patch(Ipv4Front(p), at, patch)
    requires q == p.(checksum := q.checksum, totalLength := q.totalLength)
    ensures Patch(Serialize(p), 14 + at, patch) == Serialize(q)
  {
    var e, s, d, r := EthernetHeader(p), Be32(p.src), Be32(p.dst), Rest(p);
    Layout(p);
    Layout(q);
    FirstOfFive(e, Ipv4Front(p), s, d, r);
    FirstOfFive(e, Ipv4Front(q), s, d, r);
    PatchInside(e, Ipv4Front(p), s + d + r, at, patch);
  }

  lemma FirstOfFive(e: seq<byte>, f: seq<byte>, s: seq<byte>, d: seq<byte>, r: seq<byte>)
    ensures e + f + s + d + r == e + f + (s + d + r)
  {
  }

  lemma PatchChecksum(p: Packet, v: u16)
    requires Shaped(p)
    ensures Patch(Serialize(p), 24, Be16(v)) == Serialize(p.(checksum := v))
  {
    PatchFront(p, 10, Be16(v), p.(checksum := v));
  }

  lemma PatchTotalLength(p: Packet, v: u16)
    requires Shaped(p)
    ensures Patch(Serialize(p), 16, Be16(v)) == Serialize(p.(totalLength := v))
  {
    PatchFront(p, 2, Be16(v), p.(totalLength := v));
  }

  lemma PatchSrc(p: Packet, v: u32)
    requires Shaped(p)
    ensures Patch(Serialize(p), 26, Be32(v)) == Serialize(p.(src := v))
  {
    Layout(p);
    Layout(p.(src := v));
    SameRest(p, v);
    hide Serialize, EthernetHeader, Ipv4Front, Rest, Be32, Patch;
    ReplacePart(EthernetHeader(p) + Ipv4Front(p), Be32(p.src), Be32(p.dst), Rest(p), Be32(v));
  }

  lemma SameRest(p: Packet, v: u32)
    requires Shaped(p)
    ensures var q := p.(dst := v);
            EthernetHeader(q) == EthernetHeader(p) && Ipv4Front(q) == Ipv4Front(p) && Rest(q) == Rest(p)
    ensures var q := p.(src := v);
            EthernetHeader(q) == EthernetHeader(p) && Ipv4Front(q) == Ipv4Front(p) && Rest(q) == Rest(p)
  {
  }

  lemma ReplacePart(a: seq<byte>, b: seq<byte>, c: seq<byte>, d: seq<byte>, patch: seq<byte>)
    requires |patch| == |b|
    ensures Patch(a + b + c + d, |a|, patch) == a + patch + c + d
  {
  }

  lemma ReplaceLast(a: seq<byte>, b: seq<byte>, c: seq<byte>, patch: seq<byte>)
    requires |patch| == |b|
    ensures Patch(a + b + c, |a|, patch) == a + patch + c
  {
  }

  lemma PatchDst(p: Packet, v: u32)
    requires Shaped(p)
    ensures Patch(Serialize(p), 30, Be32(v)) == Serialize(p.(dst := v))
  {
    var before := EthernetHeader(p) + Ipv4Front(p) + Be32(p.src);
    Layout(p);
    Layout(p.(dst := v));
    SameRest(p, v);
    hide Serialize, EthernetHeader, Ipv4Front, Rest, Be32, Patch;
    ReplaceLast(before, Be32(p.dst), Rest(p), Be32(v));
  }

  lemma PatchTransport(p: Packet, at: nat, patch: seq<byte>, t: Transport)
    requires Shaped(p) && Shaped(p.(transport := t)) && Protocol(t) == Protocol(p.transport)
    requires at + |patch| <= |TransportBytes(p.transport)|
    requires TransportBytes(t) == Patch(TransportBytes(p.transport), at, patch)
    ensures Patch(Serialize(p), ETHERNET_HEADER + IPV4_HEADER + |p.options| + at, patch) == Serialize(p.(transport := t))
  {
    var before := EthernetHeader(p) + Ipv4Header(p);
    assert EthernetHeader(p.(transport := t)) == EthernetHeader(p) && Ipv4Header(p.(transport := t)) == Ipv4Header(p);
    hide EthernetHeader, Ipv4Header, TransportBytes, Patch;
    PatchInside(before, TransportBytes(p.transport), p.trailer, at, patch);
  }

  lemma PatchInto(fixed: seq<byte>, rest: seq<byte>, at: nat, patch: seq<byte>)
    requires at + |patch| <= |fixed|
    ensures Patch(fixed + rest, at, patch) == Patch(fixed, at, patch) + rest
  {
  }

  // Each overwritten field lies in the fixed part of the transport header.

  lemma SrcPortFixed(t: Transport, v: u16)
    requires t.Tcp? ==> |t.numbers| == 8
    ensures var u := t.(srcPort := v);
            && (t.Tcp? ==> TcpFixed(u) == Patch(TcpFixed(t), 0, Be16(v)))
            && (t.Udp? ==> UdpFixed(u) == Patch(UdpFixed(t), 0, Be16(v)))
  {
    hide Hi, Lo;
  }

  lemma DstPortFixed(t: Transport, v: u16)
    requires t.Tcp? ==> |t.numbers| == 8
    ensures var u := t.(dstPort := v);
            && (t.Tcp? ==> TcpFixed(u) == Patch(TcpFixed(t), 2, Be16(v)))
            && (t.Udp? ==> UdpFixed(u) == Patch(UdpFixed(t), 2, Be16(v)))
  {
    hide Hi, Lo;
  }

  lemma ChecksumFixed(t: Transport, v: u16)
    requires t.Tcp? ==> |t.numbers| == 8
    ensures var u := t.(checksum := v);
            && (t.Tcp? ==> TcpFixed(u) == Patch(TcpFixed(t), 16, Be16(v)))
            && (t.Udp? ==> UdpFixed(u) == Patch(UdpFixed(t), 6, Be16(v)))
  {
    hide Hi, Lo;
  }

  lemma PatchSrcPort(t: Transport, v: u16)
    requires t.Tcp? ==> |t.numbers| == 8
    ensures |TransportBytes(t)| >= 2
    ensures TransportBytes(t.(srcPort := v)) == Patch(TransportBytes(t), 0, Be16(v))
  {
    hide Patch, Be16, TcpFixed, UdpFixed;
    SrcPortFixed(t, v);
    PatchFixed(t, 0, Be16(v));
  }

  lemma PatchDstPort(t: Transport, v: u16)
    requires t.Tcp? ==> |t.numbers| == 8
    ensures |TransportBytes(t)| >= 4
    ensures TransportBytes(t.(dstPort := v)) == Patch(TransportBytes(t), 2, Be16(v))
  {
    hide Patch, Be16, TcpFixed, UdpFixed;
    DstPortFixed(t, v);
    PatchFixed(t, 2, Be16(v));
  }

  lemma PatchTransportChecksum(t: Transport, v: u16)
    requires t.Tcp? ==> |t.numbers| == 8
    ensures |TransportBytes(t)| >= ChecksumAt(t) + 2
    ensures TransportBytes(t.(checksum := v)) == Patch(TransportBytes(t), ChecksumAt(t), Be16(v))
  {
    hide Patch, Be16, TcpFixed, UdpFixed;
    ChecksumFixed(t, v);
    PatchFixed(t, ChecksumAt(t), Be16(v));
  }

  lemma PatchFixed(t: Transport, at: nat, patch: seq<byte>)
    requires t.Tcp? ==> |t.numbers| == 8
    requires at + |patch| <= if t.Tcp? then 18 else 8
    ensures |TransportBytes(t)| >= at + |patch|
    ensures t.Tcp? ==> Patch(TransportBytes(t), at, patch) == Patch(TcpFixed(t), at, patch) + t.rest
    ensures t.Udp? ==> Patch(TransportBytes(t), at, patch) == Patch(UdpFixed(t), at, patch) + t.body
  {
    hide Patch, TcpFixed, UdpFixed;
    if t.Tcp? {
      PatchInto(TcpFixed(t), t.rest, at, patch);
    } else {
      PatchInto(UdpFixed(t), t.body, at, patch);
    }
  }

  // ---------- The in-place rewrite ----------

  method Put16(data: array<byte>, at: nat, w: u16)
    requires at + 2 <= data.Length
    modifies data
    ensures data[..] == Patch(old(data[..]), at, Be16(w))
  {
    data[at] := Hi(w);
    data[at + 1] := Lo(w);
  }

  method Put32(data: array<byte>, at: nat, a: u32)
    requires at + 4 <= data.Length
    modifies data
    ensures data[..] == Patch(old(data[..]), at, Be32(a))
  {
    data[at] := Hi(High16(a));
    data[at + 1] := Lo(High16(a));
    data[at + 2] := Hi(Low16(a));
    data[at + 3] := Lo(Low16(a));
  }

  method PutAddresses(data: array<byte>, a: RuleAction, ghost p: Packet)
    requires Shaped(p) && data[..] == Serialize(p)
    modifies data
    ensures data[..] == Serialize(Readdress(p, a))
  {
    SerializeParts(p);
    ghost var q := p;
    if Selects(a, REWRITE_SRC_IPV4) {
      PatchSrc(q, a.srcIpv4);
      Put32(data, ETHERNET_HEADER + 12, a.srcIpv4);
      q := q.(src := a.srcIpv4);
    }
    if Selects(a, REWRITE_DST_IPV4) {
      PatchDst(q, a.dstIpv4);
      Put32(data, ETHERNET_HEADER + 16, a.dstIpv4);
      q := q.(dst := a.dstIpv4);
    }
  }

  method PutPorts(data: array<byte>, l4: nat, a: RuleAction, ghost p: Packet)
    requires Shaped(p) && data[..] == Serialize(p)
    requires l4 == ETHERNET_HEADER + IPV4_HEADER + |p.options|
    modifies data
    ensures data[..] == Serialize(p.(transport := RedirectPorts(p.transport, a)))
  {
    SerializeParts(p);
    ghost var q := p;
    if Selects(a, REWRITE_SRC_PORT) {
      PatchSrcPort(q.transport, a.srcPort);
      ghost var t := q.transport.(srcPort := a.srcPort);
      PatchTransport(q, 0, Be16(a.srcPort), t);
      Put16(data, l4, a.srcPort);
      q := q.(transport := t);
    }
    if Selects(a, REWRITE_DST_PORT) {
      PatchDstPort(q.transport, a.dstPort);
      ghost var t := q.transport.(dstPort := a.dstPort);
      PatchTransport(q, 2, Be16(a.dstPort), t);
      Put16(data, l4 + 2, a.dstPort);
      q := q.(transport := t);
    }
  }

  method PutTransportChecksum(data: array<byte>, l4: nat, at: nat, v: u16, ghost p: Packet)
    requires Shaped(p) && data[..] == Serialize(p)
    requires l4 == ETHERNET_HEADER + IPV4_HEADER + |p.options| && at == ChecksumAt(p.transport)
    modifies data
    ensures data[..] == Serialize(TransportChecksum(p, v))
  {
    SerializeParts(p);
    PatchTransportChecksum(p.transport, v);
    PatchTransport(p, at, Be16(v), p.transport.(checksum := v));
    Put16(data, l4 + at, v);
  }

  method PutHeaderChecksum(data: array<byte>, v: u16, ghost p: Packet)
    requires Shaped(p) && data[..] == Serialize(p)
    modifies data
    ensures data[..] == Serialize(p.(checksum := v))
  {
    SerializeParts(p);
    PatchChecksum(p, v);
    Put16(data, ETHERNET_HEADER + 10, v);
  }

  method PutTotalLength(data: array<byte>, v: u16, ghost p: Packet)
    requires Shaped(p) && data[..] == Serialize(p)
    modifies data
    ensures data[..] == Serialize(p.(totalLength := v))
  {
    SerializeParts(p);
    PatchTotalLength(p, v);
    Put16(data, ETHERNET_HEADER + 2, v);
  }

  lemma Ipv4CksumOf(p: Packet)
    requires Shaped(p)
    ensures var f := Serialize(p);
            |f| >= 34 && ETHERNET_HEADER + HeaderLength(f) <= |f| && Ipv4Cksum(f) == Internet(Ipv4Header(p))
  {
    FrameFields(p);
    SerializeParts(p);
  }

  /** The helper covers the bytes `total_length` delimits, wherever the real datagram ends. */
  lemma UdpTcpCksumOf(p: Packet, covered: nat)
    requires Shaped(p) && covered <= |TransportBytes(p.transport)|
    requires p.totalLength == IPV4_HEADER + |p.options| + covered
    ensures |Serialize(p)| >= 34 && ETHERNET_HEADER + TotalLength(Serialize(p)) <= |Serialize(p)|
    ensures UdpTcpCksum(Serialize(p))
            == TransportCksum(Be32(p.src), Be32(p.dst), Protocol(p.transport), TransportBytes(p.transport)[..covered])
  {
    var f, ihl := Serialize(p), IPV4_HEADER + |p.options|;
    assert |f| >= 34 && HeaderLength(f) == ihl && TotalLength(f) == p.totalLength && f[23] == Protocol(p.transport) by {
      FrameFields(p);
    }
    CoveredSlices(p, covered);
    CksumReads(f, ihl, Be32(p.src), Be32(p.dst), Protocol(p.transport),
               TransportBytes(p.transport)[..covered]);
  }

  lemma CksumReads(f: seq<byte>, ihl: nat, src: seq<byte>, dst: seq<byte>, proto: byte, l4: seq<byte>)
    requires |f| >= 34 && HeaderLength(f) == ihl && TotalLength(f) == ihl + |l4|
    requires ETHERNET_HEADER + ihl + |l4| <= |f|
    requires f[26..30] == src && f[30..34] == dst && f[23] == proto
    requires f[ETHERNET_HEADER + ihl..ETHERNET_HEADER + ihl + |l4|] == l4
    ensures UdpTcpCksum(f) == TransportCksum(src, dst, proto, l4)
  {
  }

  lemma CoveredSlices(p: Packet, covered: nat)
    requires Shaped(p) && covered <= |TransportBytes(p.transport)|
    ensures var f, l4 := Serialize(p), ETHERNET_HEADER + IPV4_HEADER + |p.options|;
            && l4 + covered <= |f| && f[l4..l4 + covered] == TransportBytes(p.transport)[..covered]
            && f[26..30] == Be32(p.src) && f[30..34] == Be32(p.dst)
  {
    var f, l4, t := Serialize(p), ETHERNET_HEADER + IPV4_HEADER + |p.options|, TransportBytes(p.transport);
    SerializeParts(p);
    SlicePrefix(f, l4, t, covered);
    SliceInside(f, 14, Ipv4Fixed(p), 12, 16);
    SliceInside(f, 14, Ipv4Fixed(p), 16, 20);
    assert Ipv4Fixed(p)[12..16] == Be32(p.src) && Ipv4Fixed(p)[16..20] == Be32(p.dst);
  }

  lemma SlicePrefix(f: seq<byte>, at: nat, part: seq<byte>, n: nat)
    requires at + |part| <= |f| && f[at..at + |part|] == part && n <= |part|
    ensures f[at..at + n] == part[..n]
  {
  }

  lemma SliceInside(f: seq<byte>, at: nat, part: seq<byte>, lo: nat, hi: nat)
    requires at + |part| <= |f| && f[at..at + |part|] == part && lo <= hi <= |part|
    ensures f[at + lo..at + hi] == part[lo..hi]
  {
    forall k | 0 <= k < hi - lo
      ensures f[at + lo..at + hi][k] == part[lo..hi][k]
    {
      assert f[at..at + |part|][lo + k] == part[lo + k];
    }
  }

  /**
   `dp_apply_action` on a frame the parser accepted. Metadata of another protocol is refused, but only
   after the addresses have been written.
   */
  method ApplyAction(m: Mbuf, meta: Meta, a: RuleAction) returns (ret: int)
    requires m.data.Length < 0x1_0000
    requires ParseFrame(m.data[..]).Ok?
    requires meta == ParseFrame(m.data[..]).meta
             || (meta.l2Len == ETHERNET_HEADER && meta.l4Proto != IPPROTO_TCP && meta.l4Proto != IPPROTO_UDP)
    modifies m.data
    ensures ret == if a.kind == ACTION_DROP || a.kind == ACTION_FORWARD then 0
                   else if a.kind == ACTION_REWRITE && a.rewriteMask != 0 && meta.l4Proto in {IPPROTO_TCP, IPPROTO_UDP} then 0
                   else -EINVAL
    ensures LengthsFit(old(m.data[..])) && Supported(Dissect(old(m.data[..])))
    ensures var p := Dissect(old(m.data[..]));
            m.data[..] == if a.kind != ACTION_REWRITE || a.rewriteMask == 0 then old(m.data[..])
                          else if meta.l4Proto in {IPPROTO_TCP, IPPROTO_UDP} then Serialize(RewritePacket(p, a))
                          else Serialize(Readdress(p, a))
  {
    SerializeDissect(m.data[..]);
    if a.kind == ACTION_DROP || a.kind == ACTION_FORWARD {
      return 0;
    }
    if a.kind != ACTION_REWRITE || a.rewriteMask == 0 {
      return -EINVAL;
    }
    ghost var p := Dissect(m.data[..]);
    PutAddresses(m.data, a, p);
    if meta.l4Proto != IPPROTO_TCP && meta.l4Proto != IPPROTO_UDP {
      return -EINVAL;
    }
    RewriteTransport(m.data, meta, a, p);
    return 0;
  }

  method RewriteTransport(data: array<byte>, meta: Meta, a: RuleAction, ghost p: Packet)
    requires Supported(p) && meta == PacketMeta(p) && data[..] == Serialize(Readdress(p, a))
    modifies data
    ensures data[..] == Serialize(RewritePacket(p, a))
  {
    var l4 := meta.l4Offset;
    RedirectSupported(p, a);
    PutPorts(data, l4, a, Readdress(p, a));
    BlankSupported(Redirect(p, a));
    if meta.l4Proto == IPPROTO_TCP {
      RewriteTcp(data, l4, Redirect(p, a));
    } else {
      RewriteUdp(data, l4, meta, Redirect(p, a));
    }
  }

  method RewriteTcp(data: array<byte>, l4: nat, ghost p: Packet)
    requires Supported(p) && p.transport.Tcp? && data[..] == Serialize(p)
    requires l4 == ETHERNET_HEADER + IPV4_HEADER + |p.options|
    modifies data
    ensures Supported(Blank(p)) && data[..] == Serialize(Sealed(Blank(p)))
  {
    PutTransportChecksum(data, l4, 16, 0, p);
    ghost var q := TransportChecksum(p, 0);
    PutHeaderChecksum(data, 0, q);
    ghost var blank := q.(checksum := 0);
    Ipv4CksumOf(blank);
    var headerChecksum := Ipv4Cksum(data[..]);
    PutHeaderChecksum(data, headerChecksum, blank);
    q := blank.(checksum := headerChecksum);
    UdpTcpCksumOf(q, |TransportBytes(q.transport)|);
    assert TransportBytes(q.transport)[..|TransportBytes(q.transport)|] == Covered(blank.transport);
    var checksum := UdpTcpCksum(data[..]);
    PutTransportChecksum(data, l4, 16, checksum, q);
  }

  method RewriteUdp(data: array<byte>, l4: nat, meta: Meta, ghost p: Packet)
    requires Supported(p) && p.transport.Udp? && data[..] == Serialize(p)
    requires l4 == ETHERNET_HEADER + IPV4_HEADER + |p.options|
    requires meta.l3Len == IPV4_HEADER + |p.options|
    modifies data
    ensures Supported(Blank(p)) && data[..] == Serialize(Sealed(Blank(p)))
  {
    PutTransportChecksum(data, l4, 6, 0, p);
    ghost var q := TransportChecksum(p, 0);
    PutHeaderChecksum(data, 0, q);
    ghost var blank := q.(checksum := 0);
    Ipv4CksumOf(blank);
    var headerChecksum := Ipv4Cksum(data[..]);
    PutHeaderChecksum(data, headerChecksum, blank);
    q := blank.(checksum := headerChecksum);
    PutUdpChecksum(data, l4, meta, q);
  }

  /** `total_length` is shrunk to the datagram's own end while the helper runs, then restored. */
  method PutUdpChecksum(data: array<byte>, l4: nat, meta: Meta, ghost q: Packet)
    requires Supported(q) && q.transport.Udp? && data[..] == Serialize(q)
    requires l4 == ETHERNET_HEADER + IPV4_HEADER + |q.options|
    requires meta.l3Len == IPV4_HEADER + |q.options|
    modifies data
    ensures data[..] == Serialize(TransportChecksum(q, Sent(IPPROTO_UDP, Internet(ChecksumInput(q)))))
  {
    hide Serialize, TransportBytes, Pseudo, Be32, UdpTcpCksum;
    TransportFields(q.transport);
    ReadLengths(q);
    var ipv4TotalLength := Word(data[ETHERNET_HEADER + 2], data[ETHERNET_HEADER + 3]);
    var udpLength := Word(data[l4 + 4], data[l4 + 5]);
    PutTotalLength(data, meta.l3Len + udpLength, q);
    ghost var shrunk := q.(totalLength := meta.l3Len + udpLength);
    UdpTcpCksumOf(shrunk, udpLength);
    var checksum := UdpTcpCksum(data[..]);
    PutTransportChecksum(data, l4, 6, checksum, shrunk);
    PutTotalLength(data, ipv4TotalLength, TransportChecksum(shrunk, checksum));
  }

  lemma ReadLengths(p: Packet)
    requires Supported(p) && p.transport.Udp?
    ensures var f, l4 := Serialize(p), ETHERNET_HEADER + IPV4_HEADER + |p.options|;
            && l4 + 6 <= |f| && Get16(f, 16) == p.totalLength && Get16(f, l4 + 4) == p.transport.length
  {
    var f, l4 := Serialize(p), ETHERNET_HEADER + IPV4_HEADER + |p.options|;
    FrameFields(p);
    SerializeParts(p);
    TransportFields(p.transport);
    SliceIndex(f, l4, l4 + |TransportBytes(p.transport)|, TransportBytes(p.transport));
  }
}
