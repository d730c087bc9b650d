/** The Ethernet / IPv4 / TCP / UDP parser of a worker, over one contiguous mbuf segment. */
module Parser {
  import opened Bytes

  const ETHERNET_HEADER := 14
  const IPV4_HEADER := 20
  const TCP_HEADER := 20
  const UDP_HEADER := 8
  const ETHER_TYPE_IPV4: u16 := 0x0800
  const IPPROTO_TCP: byte := 6
  const IPPROTO_UDP: byte := 17

  /** More-fragments flag and fragment offset, the low 14 bits of the fragment word. */
  const FRAGMENT_BITS := 0x4000

  datatype ParseResult = OK | UNSUPPORTED | MALFORMED

  /** Protocol fields in host order; all zero before the parser fills it. */
  datatype Meta = Meta(etherType: u16, srcIpv4: u32, dstIpv4: u32, l4Proto: byte, srcPort: u16, dstPort: u16,
                       l2Len: u16, l3Len: u16, l4Len: u16, l4Offset: u16)

  const BLANK_META := Meta(0, 0, 0, 0, 0, 0, 0, 0, 0, 0)

  datatype Outcome = Ok(meta: Meta) | Unsupported | Malformed {
    function Result(): ParseResult {
      match this
      case Ok(_) => OK
      case Unsupported => UNSUPPORTED
      case Malformed => MALFORMED
    }
  }

  /** A frame: the bytes of one segment. The C data length has 16 bits. */
  type Frame = f: seq<byte> | |f| < 0x1_0000

  /** `data` holds exactly the `data_len` bytes of the first segment, so no read can pass them. */
  class Mbuf {
    const data: array<byte>
    const segments: nat
    const packetLength: u32

    constructor (data: array<byte>, segments: nat, packetLength: u32)
      ensures this.data == data && this.segments == segments && this.packetLength == packetLength
    {
      this.data, this.segments, this.packetLength := data, segments, packetLength;
    }
  }

  // ---------- What the parser decides, as a function of the bytes ----------

  function HeaderLength(f: seq<byte>): nat
    requires |f| >= ETHERNET_HEADER + IPV4_HEADER
  {
    f[14] % 0x10 * 4
  }

  function TotalLength(f: seq<byte>): u16
    requires |f| >= ETHERNET_HEADER + IPV4_HEADER
  {
    Get16(f, 16)
  }

  predicate Ipv4Fits(f: seq<byte>) {
    && |f| >= ETHERNET_HEADER + IPV4_HEADER
    && f[14] / 0x10 == 4
    && IPV4_HEADER <= HeaderLength(f) <= TotalLength(f) <= |f| - ETHERNET_HEADER
  }

  /** The IPv4 payload: what follows the header up to `total_length`, without Ethernet padding. */
  function Payload(f: seq<byte>): seq<byte>
    requires Ipv4Fits(f)
  {
    f[ETHERNET_HEADER + HeaderLength(f)..ETHERNET_HEADER + TotalLength(f)]
  }

  predicate TcpFits(payload: seq<byte>) {
    && |payload| >= TCP_HEADER
    && TCP_HEADER <= payload[12] / 0x10 * 4 <= |payload|
  }

  predicate UdpFits(payload: seq<byte>) {
    && |payload| >= UDP_HEADER
    && UDP_HEADER <= Get16(payload, 4) <= |payload|
  }

  function MetaOf(f: seq<byte>, l4Len: u16): Meta
    requires Ipv4Fits(f) && |Payload(f)| >= 4
  {
    Meta(Get16(f, 12), Get32(f, 26), Get32(f, 30), f[23], Get16(Payload(f), 0), Get16(Payload(f), 2),
         ETHERNET_HEADER, HeaderLength(f), l4Len, ETHERNET_HEADER + HeaderLength(f))
  }

  function ParseFrame(f: seq<byte>): Outcome {
    if |f| < ETHERNET_HEADER then Malformed
    else if Get16(f, 12) != ETHER_TYPE_IPV4 then Unsupported
    else if !Ipv4Fits(f) then Malformed
    else if Get16(f, 20) % FRAGMENT_BITS != 0 then Unsupported
    else if f[23] == IPPROTO_TCP then
      if TcpFits(Payload(f)) then Ok(MetaOf(f, Payload(f)[12] / 0x10 * 4)) else Malformed
    else if f[23] == IPPROTO_UDP then
      if UdpFits(Payload(f)) then Ok(MetaOf(f, UDP_HEADER)) else Malformed
    else Unsupported
  }

  function ParseMbuf(segments: nat, packetLength: nat, f: seq<byte>): Outcome {
    if segments != 1 then Unsupported
    else if packetLength != |f| then Malformed
    else ParseFrame(f)
  }

  // ---------- The parser ----------

  method ParseTcp(data: array<byte>, at: nat, payloadLen: u16, meta: Meta) returns (result: ParseResult, filled: Meta)
    requires at + payloadLen <= data.Length
    ensures var payload := data[at..at + payloadLen];
            && result == (if TcpFits(payload) then OK else MALFORMED)
            && (result == OK ==>
                  filled == meta.(srcPort := Get16(payload, 0), dstPort := Get16(payload, 2), l4Len := payload[12] / 0x10 * 4))
  {
    filled := meta;
    if payloadLen < TCP_HEADER {
      return MALFORMED, filled;
    }
    var dataOffsetWords := data[at + 12] / 0x10;
    if dataOffsetWords < 5 {
      return MALFORMED, filled;
    }
    var headerLen := dataOffsetWords * 4;
    if headerLen > payloadLen {
      return MALFORMED, filled;
    }
    filled := filled.(srcPort := Word(data[at], data[at + 1]));
    filled := filled.(dstPort := Word(data[at + 2], data[at + 3]));
    filled := filled.(l4Len := headerLen);
    return OK, filled;
  }

  method ParseUdp(data: array<byte>, at: nat, payloadLen: u16, meta: Meta) returns (result: ParseResult, filled: Meta)
    requires at + payloadLen <= data.Length
    ensures var payload := data[at..at + payloadLen];
            && result == (if UdpFits(payload) then OK else MALFORMED)
            && (result == OK ==>
                  filled == meta.(srcPort := Get16(payload, 0), dstPort := Get16(payload, 2), l4Len := UDP_HEADER))
  {
    filled := meta;
    if payloadLen < UDP_HEADER {
      return MALFORMED, filled;
    }
    var datagramLen := Word(data[at + 4], data[at + 5]);
    if datagramLen < UDP_HEADER || datagramLen > payloadLen {
      return MALFORMED, filled;
    }
    filled := filled.(srcPort := Word(data[at], data[at + 1]));
    filled := filled.(dstPort := Word(data[at + 2], data[at + 3]));
    filled := filled.(l4Len := UDP_HEADER);
    return OK, filled;
  }

  /** What `dp_parse_ipv4` has filled in before it looks at the transport header. */
  function HeaderMeta(f: seq<byte>): Meta
    requires Ipv4Fits(f)
  {
    Meta(ETHER_TYPE_IPV4, Get32(f, 26), Get32(f, 30), f[23], 0, 0,
         ETHERNET_HEADER, HeaderLength(f), 0, ETHERNET_HEADER + HeaderLength(f))
  }

  /** Once the IPv4 header is accepted, the outcome is that of the transport header. */
  lemma TransportDecides(f: seq<byte>, header: Meta)
    requires Ipv4Fits(f) && Get16(f, 12) == ETHER_TYPE_IPV4 && Get16(f, 20) % FRAGMENT_BITS == 0
    requires header == HeaderMeta(f)
    ensures var payload := Payload(f);
            ParseFrame(f) ==
            if f[23] == IPPROTO_TCP then
              if TcpFits(payload)
              then Ok(header.(srcPort := Get16(payload, 0), dstPort := Get16(payload, 2), l4Len := payload[12] / 0x10 * 4))
              else Malformed
            else if f[23] == IPPROTO_UDP then
              if UdpFits(payload)
              then Ok(header.(srcPort := Get16(payload, 0), dstPort := Get16(payload, 2), l4Len := UDP_HEADER)) else Malformed
            else Unsupported
  {
  }

  lemma AddressesRead(f: seq<byte>)
    requires |f| >= ETHERNET_HEADER + IPV4_HEADER
    ensures Double(Word(f[26], f[27]), Word(f[28], f[29])) == Get32(f, 26)
    ensures Double(Word(f[30], f[31]), Word(f[32], f[33])) == Get32(f, 30)
  {
  }

  method ParseIpv4(data: array<byte>, frameLen: u16, meta: Meta) returns (result: ParseResult, filled: Meta)
    requires frameLen == data.Length && frameLen >= ETHERNET_HEADER
    requires meta == BLANK_META.(etherType := ETHER_TYPE_IPV4, l2Len := ETHERNET_HEADER)
    requires Get16(data[..], 12) == ETHER_TYPE_IPV4
    ensures result == ParseFrame(data[..]).Result()
    ensures result == OK ==> Ok(filled) == ParseFrame(data[..])
  {
    filled := meta;
    ghost var f := data[..];
    if frameLen < meta.l2Len + IPV4_HEADER {
      return MALFORMED, filled;
    }
    var ip := meta.l2Len;
    assert HeaderLength(f) == data[ip] % 0x10 * 4 && TotalLength(f) == Word(data[ip + 2], data[ip + 3]);
    var version, ihlWords := data[ip] / 0x10, data[ip] % 0x10;
    if version != 4 || ihlWords < 5 {
      return MALFORMED, filled;
    }
    var ihlBytes := ihlWords * 4;
    if ihlBytes > frameLen - meta.l2Len {
      return MALFORMED, filled;
    }
    var totalLen := Word(data[ip + 2], data[ip + 3]);
    if totalLen < ihlBytes || totalLen > frameLen - meta.l2Len {
      return MALFORMED, filled;
    }
    assert Ipv4Fits(f);
    var fragment := Word(data[ip + 6], data[ip + 7]);
    if fragment % FRAGMENT_BITS != 0 {
      return UNSUPPORTED, filled;
    }
    filled := filled.(srcIpv4 := Double(Word(data[ip + 12], data[ip + 13]), Word(data[ip + 14], data[ip + 15])));
    filled := filled.(dstIpv4 := Double(Word(data[ip + 16], data[ip + 17]), Word(data[ip + 18], data[ip + 19])));
    filled := filled.(l4Proto := data[ip + 9]);
    filled := filled.(l3Len := ihlBytes);
    filled := filled.(l4Offset := meta.l2Len + ihlBytes);

    AddressesRead(f);
    hide ParseFrame, Payload, Double, Get32, Word;
    result, filled := ParsePayload(data, filled.l4Offset, totalLen - ihlBytes, filled);
  }

  /** The end of `dp_parse_ipv4`: the transport header of an accepted, unfragmented datagram. */
  method ParsePayload(data: array<byte>, l4: nat, payloadLen: u16, header: Meta) returns (result: ParseResult, filled: Meta)
    requires Ipv4Fits(data[..]) && Get16(data[..], 12) == ETHER_TYPE_IPV4 && Get16(data[..], 20) % FRAGMENT_BITS == 0
    requires header == HeaderMeta(data[..])
    requires l4 == header.l4Offset && payloadLen == TotalLength(data[..]) - HeaderLength(data[..])
    ensures result == ParseFrame(data[..]).Result()
    ensures result == OK ==> Ok(filled) == ParseFrame(data[..])
  {
    ghost var f := data[..];
    assert data[l4..l4 + payloadLen] == Payload(f);
    TransportDecides(f, header);
    hide ParseFrame, Payload, HeaderLength, TotalLength, Ipv4Fits, TcpFits, UdpFits, Get16, Get32;
    if header.l4Proto == IPPROTO_TCP {
      result, filled := ParseTcp(data, l4, payloadLen, header);
    } else if header.l4Proto == IPPROTO_UDP {
      result, filled := ParseUdp(data, l4, payloadLen, header);
    } else {
      result, filled := UNSUPPORTED, header;
    }
  }

  method ParsePacket(m: Mbuf) returns (result: ParseResult, meta: Meta)
    requires m.data.Length < 0x1_0000
    ensures result == ParseMbuf(m.segments, m.packetLength, m.data[..]).Result()
    ensures result == OK ==> Ok(meta) == ParseMbuf(m.segments, m.packetLength, m.data[..])
  {
    meta := BLANK_META;
    if m.segments != 1 {
      return UNSUPPORTED, meta;
    }
    var packetLen, dataLen := m.packetLength, m.data.Length;
    if packetLen != dataLen || packetLen > 0xFFFF {
      return MALFORMED, meta;
    }
    if dataLen < ETHERNET_HEADER {
      return MALFORMED, meta;
    }
    var data := m.data;
    meta := meta.(etherType := Word(data[12], data[13]));
    meta := meta.(l2Len := ETHERNET_HEADER);
    if meta.etherType != ETHER_TYPE_IPV4 {
      return UNSUPPORTED, meta;
    }
    result, meta := ParseIpv4(data, dataLen, meta);
  }

  // ---------- Consequences for every frame ----------

  /** On OK every length fits the frame, so the later header accesses stay inside it and no sum wraps. */
  lemma ParsedLengthsFit(f: Frame)
    requires ParseFrame(f).Ok?
    ensures var m := ParseFrame(f).meta;
            && m.l2Len + m.l3Len == m.l4Offset
            && m.l4Offset + m.l4Len <= m.l2Len + TotalLength(f) <= |f| < 0x1_0000
            && (m.l4Proto == IPPROTO_UDP ==> m.l3Len + Get16(f, m.l4Offset + 4) <= TotalLength(f))
            && m.l4Proto in {IPPROTO_TCP, IPPROTO_UDP}
  {
    assert forall k | 0 <= k < |Payload(f)| :: Payload(f)[k] == f[14 + HeaderLength(f) + k];
  }
}
