/**
 What the parser answers, said of the bytes of a frame alone: no field reader, header constant or
 mask of the parser occurs in these statements.
 */
module FrameBytes {
  import opened Bytes
  import opened Parser

  // ---------- The fields, at their byte offsets ----------

  function Number16(f: seq<byte>, at: nat): u16
    requires at + 2 <= |f|
  {
    var high: int, low: int := f[at], f[at + 1];
    high * 0x100 + low
  }

  function Number32(f: seq<byte>, at: nat): u32
    requires at + 4 <= |f|
  {
    var high: int, low: int := Number16(f, at), Number16(f, at + 2);
    high * 0x1_0000 + low
  }

  function Ihl(f: seq<byte>): nat
    requires |f| >= 34
  {
    f[14] % 16 * 4
  }

  function Total(f: seq<byte>): nat
    requires |f| >= 34
  {
    Number16(f, 16)
  }

  predicate EtherIpv4(f: seq<byte>)
    requires |f| >= 14
  {
    f[12] == 8 && f[13] == 0
  }

  /** A version 4 header that lies within the datagram, and the datagram within the frame. */
  predicate HeaderFits(f: seq<byte>) {
    |f| >= 34 && f[14] / 16 == 4 && 20 <= Ihl(f) <= Total(f) <= |f| - 14
  }

  /** More fragments follow, or the offset is not zero; the reserved bit and DF do not count. */
  predicate Fragmented(f: seq<byte>)
    requires |f| >= 34
  {
    (f[20] as bv8) & 0x3F != 0 || f[21] != 0
  }

  /** The transport header lies within the datagram. */
  predicate SegmentFits(f: seq<byte>)
    requires HeaderFits(f)
  {
    var l4, n := 14 + Ihl(f), Total(f) - Ihl(f);
    if f[23] == 6 then n >= 20 && 20 <= f[l4 + 12] / 16 * 4 <= n
    else n >= 8 && 8 <= Number16(f, l4 + 4) <= n
  }

  predicate Acceptable(f: seq<byte>) {
    HeaderFits(f) && EtherIpv4(f) && !Fragmented(f) && (f[23] == 6 || f[23] == 17) && SegmentFits(f)
  }

  /** What the parser refuses without calling it malformed. */
  predicate Foreign(f: seq<byte>) {
    |f| >= 14 && (!EtherIpv4(f) || (HeaderFits(f) && (Fragmented(f) || (f[23] != 6 && f[23] != 17))))
  }

  // ---------- The parser ----------

  lemma LowBits(b: byte)
    ensures (b as bv8) & 0x3F != 0 <==> b % 64 != 0
  {
  }

  lemma Remainder(n: nat, q: nat, r: nat)
    requires n == 0x4000 * q + r && r < 0x4000
    ensures n % 0x4000 == r
  {
  }

  lemma FragmentWord(f: seq<byte>)
    requires |f| >= 34
    ensures Get16(f, 20) % FRAGMENT_BITS != 0 <==> Fragmented(f)
  {
    LowBits(f[20]);
    var q: nat, r: nat := f[20] / 64, f[20] % 64;
    Remainder(Get16(f, 20), q, 0x100 * r + f[21]);
  }

  /** Each of the three outcomes, on every mbuf. */
  lemma ParserOnBytes(segments: nat, packetLength: nat, f: seq<byte>)
    ensures var r := ParseMbuf(segments, packetLength, f);
            && (r.Ok? <==> segments == 1 && packetLength == |f| && Acceptable(f))
            && (r.Unsupported? <==> segments != 1 || (packetLength == |f| && Foreign(f)))
  {
    hide Fragmented;
    if |f| >= 34 {
      FragmentWord(f);
    }
  }

  /** Addresses, protocol, ports and lengths, read off an acceptable frame. */
  function ReadMeta(f: seq<byte>): Meta
    requires Acceptable(f)
  {
    var l4: u16 := 14 + Ihl(f);
    Meta(0x0800, Number32(f, 26), Number32(f, 30), f[23], Number16(f, l4), Number16(f, l4 + 2),
         14, Ihl(f), if f[23] == 6 then f[l4 + 12] / 16 * 4 else 8, l4)
  }

  /** The parser takes exactly the acceptable frames. */
  lemma OkIsAcceptable(f: seq<byte>)
    ensures ParseFrame(f).Ok? <==> Acceptable(f)
  {
    hide ParseFrame, Acceptable, Foreign;
    ParserOnBytes(1, |f|, f);
  }

  lemma HeaderOnBytes(f: seq<byte>)
    requires Acceptable(f)
    ensures Ipv4Fits(f) && HeaderLength(f) == Ihl(f) && TotalLength(f) == Total(f) && Get16(f, 12) == ETHER_TYPE_IPV4
    ensures Get32(f, 26) == Number32(f, 26) && Get32(f, 30) == Number32(f, 30)
  {
    hide Fragmented, SegmentFits;
  }

  lemma PayloadOnBytes(f: seq<byte>)
    requires Acceptable(f) && Ipv4Fits(f) && HeaderLength(f) == Ihl(f) && TotalLength(f) == Total(f)
    ensures var s, l4 := Payload(f), 14 + Ihl(f);
            && |s| >= 8 && Get16(s, 0) == Number16(f, l4) && Get16(s, 2) == Number16(f, l4 + 2)
            && (f[23] == 6 ==> TcpFits(s) && s[12] == f[l4 + 12]) && (f[23] != 6 ==> UdpFits(s))
  {
    hide Fragmented, Total, TotalLength, Ihl, HeaderLength;
    assert forall k | 0 <= k < |Payload(f)| :: Payload(f)[k] == f[14 + Ihl(f) + k];
  }

  /** Every field the parser reports is the number at its offset. */
  lemma MetaOnBytes(f: seq<byte>)
    requires Acceptable(f)
    ensures ParseFrame(f) == Ok(ReadMeta(f))
  {
    HeaderOnBytes(f);
    FragmentWord(f);
    PayloadOnBytes(f);
    hide Fragmented, ParseFrame, Payload, TcpFits, UdpFits, Ipv4Fits, HeaderLength, TotalLength, Get16, Get32, Number16, Number32;
    TransportDecides(f, HeaderMeta(f));
  }

  /** DF and the reserved bit of the fragment word change nothing, whatever the outcome. */
  lemma DontFragmentIgnored(f: seq<byte>, b: byte)
    requires |f| > 20 && (b as bv8) & 0x3F == (f[20] as bv8) & 0x3F
    ensures ParseFrame(f[20 := b]) == ParseFrame(f)
  {
    var g := f[20 := b];
    if |f| >= 34 {
      FragmentWord(f);
      FragmentWord(g);
      assert Fragmented(g) <==> Fragmented(f);
      hide Fragmented;
      if Ipv4Fits(f) {
        assert Payload(g) == Payload(f);
      }
    }
  }
}
