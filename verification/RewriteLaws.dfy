/** What a rewritten frame is worth to its receiver: both checksums verify, and only the masked fields differ. */
module RewriteLaws {
  import opened Bytes
  import opened Checksum
  import opened Parser
  import opened Grammar
  import opened Actions
  import opened Rewrite

  lemma HeaderAsPatch(p: Packet)
    requires Supported(p)
    ensures var h := Ipv4Header(Blank(p));
            |h| >= 20 && h[0] >= 0x45 && h[10] == 0 && h[11] == 0 && Ipv4Header(p) == Patch(h, 10, Be16(p.checksum))
  {
    var b := Blank(p);
    FrontAsPatch(p);
    HeaderSplit(p);
    HeaderSplit(b);
    hide Ipv4Header, Ipv4Front, Patch, Be16, Be32;
    PatchInto(Ipv4Front(b), Be32(p.src) + Be32(p.dst) + p.options, 10, Be16(p.checksum));
  }

  lemma FrontAsPatch(p: Packet)
    requires Supported(p)
    ensures var h := Ipv4Front(Blank(p));
            h[0] >= 0x45 && h[10] == 0 && h[11] == 0 && Ipv4Front(p) == Patch(h, 10, Be16(p.checksum))
  {
  }

  lemma HeaderSplit(p: Packet)
    requires Shaped(p)
    ensures Ipv4Header(p) == Ipv4Front(p) + (Be32(p.src) + Be32(p.dst) + p.options)
  {
    hide Ipv4Front, Be32;
  }

  lemma ChecksumBytes(t: Transport)
    requires t.Tcp? ==> |t.numbers| == 8
    ensures var s, at := TransportBytes(t), ChecksumAt(t);
            at + 2 <= |s| && s[at] == Hi(t.checksum) && s[at + 1] == Lo(t.checksum)
  {
  }

  lemma CoveredAsPatch(t: Transport, u: Transport)
    requires t.Tcp? ==> |t.numbers| == 8
    requires t.Udp? ==> UDP_HEADER <= t.length <= UDP_HEADER + |t.body|
    requires u == t.(checksum := 0)
    ensures var c, at := Covered(u), ChecksumAt(t);
            && at + 2 <= |c| && c[at] == 0 && c[at + 1] == 0 && Covered(t) == Patch(c, at, Be16(t.checksum))
  {
    PatchTransportChecksum(u, t.checksum);
    assert u.(checksum := t.checksum) == t;
    ChecksumBytes(u);
    if t.Udp? {
      PatchPrefix(TransportBytes(u), t.length, 6, Be16(t.checksum));
    }
  }

  lemma PatchPrefix(s: seq<byte>, n: nat, at: nat, patch: seq<byte>)
    requires at + |patch| <= n <= |s|
    ensures Patch(s, at, patch)[..n] == Patch(s[..n], at, patch)
  {
  }

  /** The pseudo header is 12 bytes long, names the protocol, and does not depend on the checksums. */
  lemma InputAsPatch(p: Packet)
    requires Supported(p) && Supported(Blank(p))
    ensures var input, at := ChecksumInput(Blank(p)), 12 + ChecksumAt(p.transport);
            && at % 2 == 0 && at + 2 <= |input| && input[9] != 0 && input[at] == 0 && input[at + 1] == 0
            && ChecksumInput(p) == Patch(input, at, Be16(p.transport.checksum))
  {
    var t, proto := p.transport, Protocol(p.transport);
    CoveredAsPatch(t, t.(checksum := 0));
    var c := Covered(t.(checksum := 0));
    var pseudo := Pseudo(Be32(p.src), Be32(p.dst), proto, |c|);
    assert |pseudo| == 12 && pseudo[9] == proto;
    PatchAfter(pseudo, c, ChecksumAt(t), Be16(t.checksum));
  }

  lemma PatchAfter(a: seq<byte>, b: seq<byte>, at: nat, patch: seq<byte>)
    requires at + |patch| <= |b|
    ensures Patch(a + b, |a| + at, patch) == a + Patch(b, at, patch)
  {
  }

  /** Data with a nonzero byte has a nonzero word sum, so its checksum is never all ones. */
  lemma {:induction false} NonzeroSum(s: seq<byte>, k: nat)
    requires k < |s| && s[k] != 0
    ensures WordSum(s) > 0
  {
    if k < 2 {
    } else {
      NonzeroSum(s[2..], k - 2);
    }
  }

  lemma ChecksumBelowOnes(s: seq<byte>, k: nat)
    requires k < |s| && s[k] != 0
    ensures Internet(s) != 0xFFFF
  {
    NonzeroSum(s, k);
    FoldPreserves(WordSum(s));
  }

  // ---------- The receiver's view ----------

  ghost predicate HeaderVerifies(p: Packet)
    requires Supported(p)
  {
    Verifies(Ipv4Header(p))
  }

  ghost predicate TransportVerifies(p: Packet)
    requires Supported(p)
  {
    Verifies(ChecksumInput(p))
  }

  /** The one encoding of each checksum that a sender uses: never all ones, except that UDP never sends zero. */
  predicate Canonical(p: Packet) {
    && p.checksum != 0xFFFF
    && p.transport.checksum != if p.transport.Udp? then 0 else 0xFFFF
  }

  /** The meaning of a rewrite, without saying how it is computed. */
  ghost predicate IsRewrite(p: Packet, a: RuleAction, q: Packet)
    requires Supported(p)
  {
    && Blank(q) == Blank(Redirect(p, a))
    && Supported(q) && HeaderVerifies(q) && TransportVerifies(q) && Canonical(q)
  }

  lemma RewriteMeetsSpec(p: Packet, a: RuleAction)
    requires Supported(p)
    ensures IsRewrite(p, a, RewritePacket(p, a))
  {
    var q := RewritePacket(p, a);
    RedirectSupported(p, a);
    BlankSupported(Redirect(p, a));
    assert Blank(q) == Blank(Redirect(p, a));
    assert Supported(q);
    SealedHeader(q);
    SealedTransport(q);
  }

  lemma SealedHeader(q: Packet)
    requires Supported(q) && q.checksum == Internet(Ipv4Header(Blank(q)))
    ensures HeaderVerifies(q) && q.checksum != 0xFFFF
  {
    HeaderAsPatch(q);
    ChecksumVerifies(Ipv4Header(Blank(q)), 10);
    ChecksumBelowOnes(Ipv4Header(Blank(q)), 0);
  }

  lemma SealedTransport(q: Packet)
    requires Supported(q) && Supported(Blank(q))
    requires q.transport.checksum == Sent(Protocol(q.transport), Internet(ChecksumInput(Blank(q))))
    ensures TransportVerifies(q) && q.transport.checksum != if q.transport.Udp? then 0 else 0xFFFF
  {
    var input, at := ChecksumInput(Blank(q)), 12 + ChecksumAt(q.transport);
    InputAsPatch(q);
    ChecksumBelowOnes(input, 9);
    if Internet(input) == 0 && q.transport.Udp? {
      AllOnesVerifies(input, at);
    } else {
      ChecksumVerifies(input, at);
    }
  }

  /** The specification determines the packet: no other one is a rewrite of `p` by `a`. */
  lemma RewriteUnique(p: Packet, a: RuleAction, q: Packet)
    requires Supported(p) && IsRewrite(p, a, q)
    ensures q == RewritePacket(p, a)
  {
    RedirectSupported(p, a);
    BlankSupported(Redirect(p, a));
    var header, input := Ipv4Header(Blank(q)), ChecksumInput(Blank(q));
    HeaderAsPatch(q);
    ChecksumUnique(header, 10, q.checksum);
    ChecksumBelowOnes(header, 0);
    InputAsPatch(q);
    ChecksumUnique(input, 12 + ChecksumAt(q.transport), q.transport.checksum);
    ChecksumBelowOnes(input, 9);
    assert q == TransportChecksum(Blank(q), q.transport.checksum).(checksum := q.checksum);
  }

  // ---------- The frame after the rewrite ----------

  /** The masked fields of the metadata replaced, and nothing else. */
  function RedirectMeta(m: Meta, a: RuleAction): Meta {
    m.(srcIpv4 := if Selects(a, REWRITE_SRC_IPV4) then a.srcIpv4 else m.srcIpv4,
       dstIpv4 := if Selects(a, REWRITE_DST_IPV4) then a.dstIpv4 else m.dstIpv4,
       srcPort := if Selects(a, REWRITE_SRC_PORT) then a.srcPort else m.srcPort,
       dstPort := if Selects(a, REWRITE_DST_PORT) then a.dstPort else m.dstPort)
  }

  /** `dp_apply_action` seen as a function of the frame. */
  function RewriteFrame(f: Frame, a: RuleAction): (g: Frame)
    requires ParseFrame(f).Ok?
    ensures |g| == |f|
  {
    SerializeDissect(f);
    RewriteKeepsLength(Dissect(f), a);
    Serialize(RewritePacket(Dissect(f), a))
  }

  lemma RewriteKeepsLength(p: Packet, a: RuleAction)
    requires Supported(p)
    ensures Supported(RewritePacket(p, a)) && |Serialize(RewritePacket(p, a))| == |Serialize(p)|
  {
    RewriteMeetsSpec(p, a);
    SerializeParts(p);
    SerializeParts(RewritePacket(p, a));
  }

  /** The REWRITE branch of `dp_process_packet`: the frame is rewritten exactly when the mask is not empty. */
  method RewriteInPlace(m: Mbuf, meta: Meta, a: RuleAction) returns (ret: int)
    requires m.data.Length < 0x1_0000 && a.kind == ACTION_REWRITE
    requires ParseFrame(m.data[..]) == Ok(meta)
    modifies m.data
    ensures ret == if a.rewriteMask != 0 then 0 else -EINVAL
    ensures m.data[..] == if a.rewriteMask != 0 then RewriteFrame(old(m.data[..]), a) else old(m.data[..])
  {
    ret := ApplyAction(m, meta, a);
  }

  /** Parsing and rewriting commute. */
  lemma ReparseRewritten(f: Frame, a: RuleAction)
    requires ParseFrame(f).Ok?
    ensures ParseFrame(RewriteFrame(f, a)) == Ok(RedirectMeta(ParseFrame(f).meta, a))
  {
    SerializeDissect(f);
    var q := RewritePacket(Dissect(f), a);
    RewriteMeetsSpec(Dissect(f), a);
    ParseSerialize(q);
  }

  /** The receiver of a rewritten frame finds both checksums right, each in its canonical encoding. */
  lemma RewrittenFrameVerifies(f: Frame, a: RuleAction)
    requires ParseFrame(f).Ok?
    ensures var g := RewriteFrame(f, a);
            && LengthsFit(g)
            && var q := Dissect(g);
            Supported(q) && HeaderVerifies(q) && TransportVerifies(q) && Canonical(q)
  {
    SerializeDissect(f);
    RewriteMeetsSpec(Dissect(f), a);
    DissectSerialize(RewritePacket(Dissect(f), a));
  }

  /** Bytes a mask lets the rewrite touch: the selected fields and the two checksums. */
  predicate Rewritable(m: Meta, a: RuleAction, k: nat) {
    || 24 <= k < 26
    || (Selects(a, REWRITE_SRC_IPV4) && 26 <= k < 30)
    || (Selects(a, REWRITE_DST_IPV4) && 30 <= k < 34)
    || (Selects(a, REWRITE_SRC_PORT) && m.l4Offset <= k < m.l4Offset + 2)
    || (Selects(a, REWRITE_DST_PORT) && m.l4Offset + 2 <= k < m.l4Offset + 4)
    || (var at := m.l4Offset + if m.l4Proto == IPPROTO_TCP then 16 else 6; at <= k < at + 2)
  }

  lemma OnlyMaskedBytesChange(f: Frame, a: RuleAction, k: nat)
    requires ParseFrame(f).Ok? && k < |f|
    requires !Rewritable(ParseFrame(f).meta, a, k)
    ensures RewriteFrame(f, a)[k] == f[k]
  {
    SerializeDissect(f);
    var p := Dissect(f);
    var q := RewritePacket(p, a);
    RewriteMeetsSpec(p, a);
    if k < 34 {
      HeaderByte(p, q, a, k);
    } else {
      TailByte(p, q, a, k);
    }
  }

  lemma TailByte(p: Packet, q: Packet, a: RuleAction, k: nat)
    requires Supported(p) && Supported(q) && Blank(q) == Blank(Redirect(p, a))
    requires 34 <= k < |Serialize(p)| && !Rewritable(PacketMeta(p), a, k)
    ensures k < |Serialize(q)| && Serialize(q)[k] == Serialize(p)[k]
  {
    var l4, s, r := 34 + |p.options|, TransportBytes(p.transport), TransportBytes(q.transport);
    TailIndex(p, k);
    TailIndex(q, k);
    TransportFields(p.transport);
    TransportFields(q.transport);
    if l4 <= k < l4 + |s| {
      TransportByte(p, q, a, k - l4);
    }
  }

  lemma TailIndex(p: Packet, k: nat)
    requires Shaped(p) && 34 <= k < |Serialize(p)|
    ensures var l4, s := 34 + |p.options|, TransportBytes(p.transport);
            && |Serialize(p)| == l4 + |s| + |p.trailer|
            && Serialize(p)[k] == if k < l4 then p.options[k - 34] else if k < l4 + |s| then s[k - l4] else p.trailer[k - l4 - |s|]
  {
    Layout(p);
    RestIndex(p.options, TransportBytes(p.transport), p.trailer, k - 34);
    assert Serialize(p)[34..] == Rest(p);
  }

  lemma RestIndex(a: seq<byte>, b: seq<byte>, c: seq<byte>, k: nat)
    requires k < |a| + |b| + |c|
    ensures (a + b + c)[k] == if k < |a| then a[k] else if k < |a| + |b| then b[k - |a|] else c[k - |a| - |b|]
  {
  }

  lemma HeaderByte(p: Packet, q: Packet, a: RuleAction, k: nat)
    requires Supported(p) && Supported(q) && Blank(q) == Blank(Redirect(p, a)) && k < 34
    requires !(24 <= k < 26)
    requires Selects(a, REWRITE_SRC_IPV4) ==> !(26 <= k < 30)
    requires Selects(a, REWRITE_DST_IPV4) ==> !(30 <= k < 34)
    ensures k < |Serialize(p)| && k < |Serialize(q)| && Serialize(q)[k] == Serialize(p)[k]
  {
    Layout(p);
    Layout(q);
    assert EthernetHeader(p) == EthernetHeader(q);
    assert Ipv4Front(p)[..10] == Ipv4Front(q)[..10];
    hide Serialize, EthernetHeader, Ipv4Front, Be32, Rest;
    FiveIndex(EthernetHeader(p), Ipv4Front(p), Be32(p.src), Be32(p.dst), Rest(p), k);
    FiveIndex(EthernetHeader(q), Ipv4Front(q), Be32(q.src), Be32(q.dst), Rest(q), k);
    if 14 <= k < 24 {
      assert Ipv4Front(p)[..10][k - 14] == Ipv4Front(q)[..10][k - 14];
    }
  }

  lemma FiveIndex(e: seq<byte>, f: seq<byte>, s: seq<byte>, d: seq<byte>, r: seq<byte>, k: nat)
    requires |e| == 14 && |f| == 12 && |s| == 4 && |d| == 4 && k < 34
    ensures (e + f + s + d + r)[k] ==
            if k < 14 then e[k] else if k < 26 then f[k - 14] else if k < 30 then s[k - 26] else d[k - 30]
  {
  }

  lemma TransportByte(p: Packet, q: Packet, a: RuleAction, k: nat)
    requires Supported(p) && Supported(q) && Blank(q) == Blank(Redirect(p, a)) && k < |TransportBytes(p.transport)|
    requires !(ChecksumAt(p.transport) <= k < ChecksumAt(p.transport) + 2)
    requires Selects(a, REWRITE_SRC_PORT) ==> k >= 2
    requires Selects(a, REWRITE_DST_PORT) ==> !(2 <= k < 4)
    ensures k < |TransportBytes(q.transport)| && TransportBytes(q.transport)[k] == TransportBytes(p.transport)[k]
  {
  }
}
