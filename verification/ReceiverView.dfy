/**
 What a receiver of a rewritten frame computes from its bytes: both checksums added up over the
 frame itself, with every length and address read at its offset. The rewrite is the one frame that
 passes and carries the masked fields.
 */
module ReceiverView {
  import opened Bytes
  import opened Checksum
  import opened Parser
  import opened Grammar
  import opened Actions
  import opened Rewrite
  import opened RewriteLaws
  import opened FrameBytes

  /** A TCP segment fills the datagram; a UDP datagram has a length of its own. */
  function SegmentLength(f: seq<byte>): nat
    requires Acceptable(f)
  {
    if f[23] == 6 then Total(f) - Ihl(f) else Number16(f, 14 + Ihl(f) + 4)
  }

  function Segment(f: seq<byte>): seq<byte>
    requires Acceptable(f)
  {
    f[14 + Ihl(f)..14 + Ihl(f) + SegmentLength(f)]
  }

  function ChecksumOffset(f: seq<byte>): nat
    requires Acceptable(f)
  {
    14 + Ihl(f) + if f[23] == 6 then 16 else 6
  }

  function AddressSum(f: seq<byte>): nat
    requires |f| >= 34
  {
    Number16(f, 26) + Number16(f, 28) + Number16(f, 30) + Number16(f, 32)
  }

  ghost predicate HeaderSumsToOnes(f: seq<byte>)
    requires Acceptable(f)
  {
    Fold(WordSum(f[14..14 + Ihl(f)])) == 0xFFFF
  }

  /** Addresses, protocol and length of the pseudo header, and the segment. */
  ghost predicate SegmentSumsToOnes(f: seq<byte>)
    requires Acceptable(f)
  {
    Fold(AddressSum(f) + f[23] + SegmentLength(f) + WordSum(Segment(f))) == 0xFFFF
  }

  /** The encoding a sender uses: all ones in neither field, except that UDP sends them for zero. */
  predicate SentEncoding(f: seq<byte>)
    requires Acceptable(f)
  {
    Number16(f, 24) != 0xFFFF && Number16(f, ChecksumOffset(f)) != if f[23] == 6 then 0xFFFF else 0
  }

  ghost predicate Verified(f: seq<byte>)
    requires Acceptable(f)
  {
    HeaderSumsToOnes(f) && SegmentSumsToOnes(f) && SentEncoding(f)
  }

  // ---------- The receiver's sums are those of the packet ----------

  lemma NumberOfBytes(f: seq<byte>, at: nat, w: u16)
    requires at + 2 <= |f| && f[at] == Hi(w) && f[at + 1] == Lo(w)
    ensures Number16(f, at) == w
  {
    Join16(w);
  }

  lemma NumberIsGet(f: seq<byte>, at: nat)
    requires at + 2 <= |f|
    ensures Number16(f, at) == Get16(f, at)
  {
  }

  lemma AddressWords(a: u32)
    ensures WordSum(Be32(a)) == High16(a) + Low16(a)
  {
    assert Be32(a) == Be16(High16(a)) + Be16(Low16(a));
    WordSumConcat(Be16(High16(a)), Be16(Low16(a)));
    WordSumOne(High16(a));
    WordSumOne(Low16(a));
  }

  lemma PseudoSum(src: u32, dst: u32, proto: byte, n: u16)
    ensures var s := Pseudo(Be32(src), Be32(dst), proto, n);
            |s| % 2 == 0 && WordSum(s) == High16(src) + Low16(src) + High16(dst) + Low16(dst) + proto + n
  {
    WordSumMiddle(Be32(src), Be32(dst), [0, proto]);
    WordSumConcat(Be32(src) + Be32(dst) + [0, proto], Be16(n));
    AddressWords(src);
    AddressWords(dst);
    WordSumOne(n);
    assert [0, proto][2..] == [];
  }

  lemma AddressesInFrame(p: Packet)
    requires Shaped(p)
    ensures var f := Serialize(p);
            |f| >= 34 && AddressSum(f) == High16(p.src) + Low16(p.src) + High16(p.dst) + Low16(p.dst)
  {
    var f := Serialize(p);
    CoveredSlices(p, 0);
    SliceIndex(f, 26, 30, Be32(p.src));
    SliceIndex(f, 30, 34, Be32(p.dst));
    hide Serialize;
    NumberOfBytes(f, 26, High16(p.src));
    NumberOfBytes(f, 28, Low16(p.src));
    NumberOfBytes(f, 30, High16(p.dst));
    NumberOfBytes(f, 32, Low16(p.dst));
  }

  lemma HeaderInFrame(p: Packet)
    requires Supported(p)
    ensures var f := Serialize(p);
            && Acceptable(f) && Ihl(f) == 20 + |p.options| && Total(f) == p.totalLength && f[23] == Protocol(p.transport)
            && f[14..14 + Ihl(f)] == Ipv4Header(p) && Number16(f, 24) == p.checksum
  {
    var f := Serialize(p);
    ParseSerialize(p);
    ParserOnBytes(1, |f|, f);
    FrameFields(p);
    SerializeParts(p);
    UncheckedFields(p);
    hide Serialize, TransportBytes, ParseFrame, Ipv4Header, Supported, Acceptable;
    NumberIsGet(f, 24);
    NumberIsGet(f, 16);
  }

  lemma CoveredIsPrefix(t: Transport)
    requires t.Tcp? ==> |t.numbers| == 8
    requires t.Udp? ==> UDP_HEADER <= t.length <= UDP_HEADER + |t.body|
    ensures var c, s := Covered(t), TransportBytes(t); |c| <= |s| && c == s[..|c|]
  {
  }

  /** The transport fields of an encoding, at their offsets. */
  lemma TransportInFrame(p: Packet)
    requires Supported(p)
    ensures var f, l4 := Serialize(p), 34 + |p.options|;
            && l4 + ChecksumAt(p.transport) + 2 <= |f|
            && Number16(f, l4 + ChecksumAt(p.transport)) == p.transport.checksum
            && (p.transport.Udp? ==> Number16(f, l4 + 4) == p.transport.length)
            && l4 + |Covered(p.transport)| <= |f| && f[l4..l4 + |Covered(p.transport)|] == Covered(p.transport)
  {
    var f, l4, s := Serialize(p), 34 + |p.options|, TransportBytes(p.transport);
    CoveredIsPrefix(p.transport);
    hide Serialize, TransportBytes, Covered, Number16;
    SerializeParts(p);
    TransportFields(p.transport);
    SliceIndex(f, l4, l4 + |s|, s);
    SlicePrefix(f, l4, s, |Covered(p.transport)|);
    NumberIsGet(f, l4 + ChecksumAt(p.transport));
    if p.transport.Udp? {
      NumberIsGet(f, l4 + 4);
    }
  }

  /** Where a supported packet's header, segment and checksums lie in its encoding. */
  lemma PartsInFrame(p: Packet)
    requires Supported(p)
    ensures var f := Serialize(p);
            && Acceptable(f) && Ihl(f) == 20 + |p.options| && f[23] == Protocol(p.transport)
            && f[14..14 + Ihl(f)] == Ipv4Header(p) && Segment(f) == Covered(p.transport)
            && SegmentLength(f) == |Covered(p.transport)|
            && Number16(f, 24) == p.checksum && Number16(f, ChecksumOffset(f)) == p.transport.checksum
  {
    HeaderInFrame(p);
    TransportInFrame(p);
    TransportFields(p.transport);
    hide Serialize, TransportBytes, Ipv4Header, Acceptable;
  }

  lemma InputSum(p: Packet, c: seq<byte>)
    requires Supported(p) && c == Covered(p.transport)
    ensures WordSum(ChecksumInput(p))
            == High16(p.src) + Low16(p.src) + High16(p.dst) + Low16(p.dst) + Protocol(p.transport) + |c| + WordSum(c)
  {
    assert |c| < 0x1_0000;
    hide WordSum, Pseudo, Covered, Supported, High16, Low16, Be32;
    PseudoSum(p.src, p.dst, Protocol(p.transport), |c|);
    WordSumConcat(Pseudo(Be32(p.src), Be32(p.dst), Protocol(p.transport), |c|), c);
  }

  /** The checks on the packet and on its bytes are the same. */
  lemma VerifiedOnBytes(p: Packet)
    requires Supported(p)
    ensures var f := Serialize(p);
            && Acceptable(f)
            && (HeaderVerifies(p) <==> HeaderSumsToOnes(f))
            && (TransportVerifies(p) <==> SegmentSumsToOnes(f))
            && (Canonical(p) <==> SentEncoding(f))
  {
    hide Serialize, Covered, Ipv4Header, AddressSum, Acceptable, WordSum, Fold, Segment, SegmentLength,
      ChecksumInput, ChecksumOffset, High16, Low16, Ihl, Number16;
    PartsInFrame(p);
    AddressesInFrame(p);
    InputSum(p, Covered(p.transport));
  }

  // ---------- The rewrite, on the bytes ----------

  /** Offsets the rewrite may write: checksums, addresses, ports. */
  predicate Writable(f: seq<byte>, k: nat)
    requires Acceptable(f)
  {
    var l4 := 14 + Ihl(f);
    24 <= k < 34 || l4 <= k < l4 + 4 || ChecksumOffset(f) <= k < ChecksumOffset(f) + 2
  }

  /** The field a mask bit stands for holds the action's value, or the old one. */
  predicate Chosen(mask: bv8, bit: bv8, after: nat, before: nat, value: nat) {
    after == if mask & bit != 0 then value else before
  }

  predicate SameElsewhere(f: seq<byte>, g: seq<byte>)
    requires Acceptable(f)
  {
    |g| == |f| && forall k | 0 <= k < |f| && !Writable(f, k) :: g[k] == f[k]
  }

  /** Addresses and ports are the action's or the old ones, as the bits of the mask say. */
  predicate FieldsChosen(f: seq<byte>, a: RuleAction, g: seq<byte>)
    requires Acceptable(f) && Acceptable(g)
  {
    var l4, m4 := 14 + Ihl(f), 14 + Ihl(g);
    && Chosen(a.rewriteMask, 1, Number32(g, 26), Number32(f, 26), a.srcIpv4)
    && Chosen(a.rewriteMask, 2, Number32(g, 30), Number32(f, 30), a.dstIpv4)
    && Chosen(a.rewriteMask, 4, Number16(g, m4), Number16(f, l4), a.srcPort)
    && Chosen(a.rewriteMask, 8, Number16(g, m4 + 2), Number16(f, l4 + 2), a.dstPort)
  }

  /** `g` is `f` with exactly the masked fields replaced, and passes the receiver's checks. */
  ghost predicate Rewritten(f: seq<byte>, a: RuleAction, g: seq<byte>)
    requires Acceptable(f)
  {
    SameElsewhere(f, g) && Acceptable(g) && FieldsChosen(f, a, g) && Verified(g)
  }

  lemma RewriteVerified(f: Frame, a: RuleAction)
    requires ParseFrame(f).Ok?
    ensures var g := RewriteFrame(f, a); Acceptable(g) && Verified(g)
  {
    SerializeDissect(f);
    var q := RewritePacket(Dissect(f), a);
    RewriteMeetsSpec(Dissect(f), a);
    hide Serialize, Supported, HeaderVerifies, TransportVerifies, Canonical, Acceptable, HeaderSumsToOnes, SegmentSumsToOnes,
      SentEncoding, RewritePacket, LengthsFit, Dissect, ParseFrame;
    VerifiedOnBytes(q);
  }

  lemma NotRewritable(f: seq<byte>, m: Meta, a: RuleAction, k: nat)
    requires Acceptable(f) && !Writable(f, k)
    requires m.l4Offset == 14 + Ihl(f) && m.l4Proto == f[23]
    ensures !Rewritable(m, a, k)
  {
    hide Acceptable, Selects;
  }

  lemma RewriteElsewhere(f: Frame, a: RuleAction)
    requires ParseFrame(f).Ok? && Acceptable(f)
    ensures SameElsewhere(f, RewriteFrame(f, a))
  {
    OkIsAcceptable(f);
    MetaOnBytes(f);
    hide RewriteFrame, ParseFrame, Acceptable, Writable, Rewritable;
    forall k | 0 <= k < |f| && !Writable(f, k)
      ensures RewriteFrame(f, a)[k] == f[k]
    {
      NotRewritable(f, ParseFrame(f).meta, a, k);
      OnlyMaskedBytesChange(f, a, k);
    }
  }

  lemma ChosenFields(m: Meta, a: RuleAction)
    ensures var n := RedirectMeta(m, a);
            && n.l4Offset == m.l4Offset
            && Chosen(a.rewriteMask, 1, n.srcIpv4, m.srcIpv4, a.srcIpv4)
            && Chosen(a.rewriteMask, 2, n.dstIpv4, m.dstIpv4, a.dstIpv4)
            && Chosen(a.rewriteMask, 4, n.srcPort, m.srcPort, a.srcPort)
            && Chosen(a.rewriteMask, 8, n.dstPort, m.dstPort, a.dstPort)
  {
  }

  lemma ChosenBytes(f: seq<byte>, g: seq<byte>, a: RuleAction)
    requires Acceptable(f) && Acceptable(g) && ReadMeta(g) == RedirectMeta(ReadMeta(f), a)
    ensures FieldsChosen(f, a, g)
  {
    ChosenFields(ReadMeta(f), a);
    hide Acceptable, Chosen, RedirectMeta, Number16, Number32;
  }

  lemma RewriteIsRewritten(f: Frame, a: RuleAction)
    requires ParseFrame(f).Ok?
    ensures Acceptable(f) && Rewritten(f, a, RewriteFrame(f, a))
  {
    hide RewriteFrame, ParseFrame, Verified, Acceptable, SameElsewhere, RedirectMeta, FieldsChosen, ReadMeta;
    var g := RewriteFrame(f, a);
    OkIsAcceptable(f);
    MetaOnBytes(f);
    ReparseRewritten(f, a);
    OkIsAcceptable(g);
    MetaOnBytes(g);
    ChosenBytes(f, g, a);
    RewriteVerified(f, a);
    RewriteElsewhere(f, a);
  }

  // ---------- Nothing else passes ----------

  lemma PairEqual(f: seq<byte>, g: seq<byte>, at: nat)
    requires at + 2 <= |f| && at + 2 <= |g| && Number16(f, at) == Number16(g, at)
    ensures f[at] == g[at] && f[at + 1] == g[at + 1]
  {
  }

  lemma QuadEqual(f: seq<byte>, g: seq<byte>, at: nat)
    requires at + 4 <= |f| && at + 4 <= |g| && Number32(f, at) == Number32(g, at)
    ensures Number16(f, at) == Number16(g, at) && Number16(f, at + 2) == Number16(g, at + 2)
  {
  }

  /** Two stored values that both complete a nonzero sum to all ones are one, given how senders encode zero. */
  lemma CompletionUnique(n: nat, v: u16, w: u16, never: u16)
    requires n > 0 && Fold(n + v) == 0xFFFF && Fold(n + w) == 0xFFFF
    requires never == 0 || never == 0xFFFF
    requires v != never && w != never
    ensures v == w
  {
    ComplementUnique(n, v);
    ComplementUnique(n, w);
    FoldPreserves(n);
    hide Fold;
  }

  /** Byte strings that differ at one aligned word only: the rest contributes the same to both sums. */
  lemma SumsBut(s: seq<byte>, t: seq<byte>, at: nat) returns (rest: nat)
    requires |s| == |t| && at % 2 == 0 && at + 2 <= |s|
    requires forall k | 0 <= k < |s| && !(at <= k < at + 2) :: s[k] == t[k]
    ensures WordSum(s) == rest + Number16(s, at) && WordSum(t) == rest + Number16(t, at)
    ensures at > 0 && s[0] != 0 ==> rest > 0
  {
    WordSumAt(s, at);
    WordSumAt(t, at);
    assert s[..at] == t[..at] && s[at + 2..] == t[at + 2..];
    rest := WordSum(s[..at]) + WordSum(s[at + 2..]);
    if at > 0 && s[0] != 0 {
      NonzeroSum(s[..at], 0);
    }
  }

  /** Frames that agree outside the two checksum fields. */
  predicate SameButChecksums(f: seq<byte>, g: seq<byte>)
    requires Acceptable(f)
  {
    && |f| == |g|
    && forall k | 0 <= k < |f| && !(24 <= k < 26) && !(ChecksumOffset(f) <= k < ChecksumOffset(f) + 2) :: f[k] == g[k]
  }

  /** Such frames have the same lengths, addresses and protocol, and differ in header and segment only there. */
  lemma SameOutline(f: seq<byte>, g: seq<byte>)
    requires Acceptable(f) && Acceptable(g) && SameButChecksums(f, g)
    ensures Ihl(f) == Ihl(g) && f[23] == g[23] && AddressSum(f) == AddressSum(g)
    ensures SegmentLength(f) == SegmentLength(g) && ChecksumOffset(f) == ChecksumOffset(g)
  {
    hide Fragmented;
  }

  lemma SegmentBounds(f: seq<byte>)
    requires Acceptable(f)
    ensures var l4, end := 14 + Ihl(f), 14 + Ihl(f) + SegmentLength(f);
            && 34 <= l4 && |f| >= 34 && f[14] != 0
            && l4 < ChecksumOffset(f) && ChecksumOffset(f) + 2 <= end <= |f| && (ChecksumOffset(f) - l4) % 2 == 0
  {
    hide Fragmented;
  }

  /** The same for a stretch of two frames. */
  lemma StretchSums(f: seq<byte>, g: seq<byte>, lo: nat, hi: nat, at: nat) returns (rest: nat)
    requires lo <= at && at + 2 <= hi <= |f| && |f| == |g| && (at - lo) % 2 == 0
    requires forall k | lo <= k < hi && !(at <= k < at + 2) :: f[k] == g[k]
    ensures WordSum(f[lo..hi]) == rest + Number16(f, at) && WordSum(g[lo..hi]) == rest + Number16(g, at)
    ensures lo < at && f[lo] != 0 ==> rest > 0
  {
    rest := SumsBut(f[lo..hi], g[lo..hi], at - lo);
  }

  /** The three checks, on stretches of the frame. */
  lemma VerifiedMeans(f: seq<byte>)
    requires Acceptable(f) && Verified(f)
    ensures var l4, n := 14 + Ihl(f), SegmentLength(f);
            && Fold(WordSum(f[14..l4])) == 0xFFFF && Number16(f, 24) != 0xFFFF
            && l4 + n <= |f| && Fold(AddressSum(f) + f[23] + n + WordSum(f[l4..l4 + n])) == 0xFFFF
            && Number16(f, ChecksumOffset(f)) != if f[23] == 6 then 0xFFFF else 0
    ensures f[23] == 6 || f[23] == 17
  {
    SegmentBounds(f);
    hide Fragmented, Fold, WordSum, Number16, HeaderFits, SegmentFits;
  }

  lemma HeaderDetermined(f: seq<byte>, g: seq<byte>)
    requires Acceptable(f) && Acceptable(g) && SameButChecksums(f, g) && Verified(f) && Verified(g)
    ensures Number16(f, 24) == Number16(g, 24)
  {
    hide Acceptable, Verified, Ihl, AddressSum, SegmentLength, ChecksumOffset, Number16, WordSum, Fold;
    SameOutline(f, g);
    SegmentBounds(f);
    VerifiedMeans(f);
    VerifiedMeans(g);
    var rest := StretchSums(f, g, 14, 14 + Ihl(f), 24);
    CompletionUnique(rest, Number16(f, 24), Number16(g, 24), 0xFFFF);
  }

  lemma SegmentDetermined(f: seq<byte>, g: seq<byte>)
    requires Acceptable(f) && Acceptable(g) && SameButChecksums(f, g) && Verified(f) && Verified(g)
    ensures Number16(f, ChecksumOffset(f)) == Number16(g, ChecksumOffset(f))
  {
    hide Acceptable, Verified, Ihl, AddressSum, SegmentLength, ChecksumOffset, Number16, WordSum, Fold;
    SameOutline(f, g);
    SegmentBounds(f);
    VerifiedMeans(f);
    VerifiedMeans(g);
    var l4, at := 14 + Ihl(f), ChecksumOffset(f);
    var rest := StretchSums(f, g, l4, l4 + SegmentLength(f), at);
    CompletionUnique(AddressSum(f) + f[23] + SegmentLength(f) + rest, Number16(f, at), Number16(g, at),
                     if f[23] == 6 then 0xFFFF else 0);
  }

  lemma VerifiedUnique(f: seq<byte>, g: seq<byte>)
    requires Acceptable(f) && Acceptable(g) && SameButChecksums(f, g) && Verified(f) && Verified(g)
    ensures f == g
  {
    hide Verified, Acceptable, Number16, ChecksumOffset, Ihl, SegmentLength;
    SegmentBounds(f);
    HeaderDetermined(f, g);
    SegmentDetermined(f, g);
    PairEqual(f, g, 24);
    PairEqual(f, g, ChecksumOffset(f));
  }

  /** The rewrite on bytes, both ways: of all frames, `RewriteFrame` is the one that `Rewritten` describes. */
  lemma RewriteOnBytes(f: Frame, a: RuleAction, g: seq<byte>)
    requires ParseFrame(f).Ok?
    ensures Acceptable(f) && (g == RewriteFrame(f, a) <==> Rewritten(f, a, g))
  {
    var r := RewriteFrame(f, a);
    RewriteIsRewritten(f, a);
    hide RewriteFrame, ParseFrame, Verified;
    if Rewritten(f, a, g) {
      SameFields(f, a, g, r);
      VerifiedUnique(g, r);
    }
  }

  lemma SameShape(f: seq<byte>, g: seq<byte>)
    requires Acceptable(f) && Acceptable(g) && SameElsewhere(f, g)
    ensures Ihl(g) == Ihl(f) && ChecksumOffset(g) == ChecksumOffset(f) >= 14 + Ihl(f) + 6 && Ihl(f) >= 20
    ensures 34 <= ChecksumOffset(f) + 2 <= |f| == |g|
  {
    hide Fragmented;
  }

  lemma SameFields(f: seq<byte>, a: RuleAction, g: seq<byte>, r: seq<byte>)
    requires Acceptable(f) && Rewritten(f, a, g) && Rewritten(f, a, r)
    ensures SameButChecksums(g, r)
  {
    hide Verified, Acceptable, ChecksumOffset, Ihl, Number16, Number32, Writable, SameElsewhere, SameButChecksums;
    SameShape(f, g);
    SameShape(f, r);
    var l4 := 14 + Ihl(f);
    QuadEqual(g, r, 26);
    QuadEqual(g, r, 30);
    hide Chosen;
    PairEqual(g, r, 26);
    PairEqual(g, r, 28);
    PairEqual(g, r, 30);
    PairEqual(g, r, 32);
    PairEqual(g, r, l4);
    PairEqual(g, r, l4 + 2);
    SameBytes(f, g, r);
  }

  lemma SameBytes(f: seq<byte>, g: seq<byte>, r: seq<byte>)
    requires Acceptable(f) && Acceptable(g) && SameElsewhere(f, g) && SameElsewhere(f, r)
    requires ChecksumOffset(g) == ChecksumOffset(f) && |f| >= 34
    requires var s, t := g[26..34], r[26..34];
             forall k | 0 <= k < 8 :: s[k] == t[k]
    requires var l4 := 14 + Ihl(f);
             && l4 + 4 <= |f|
             && g[l4] == r[l4] && g[l4 + 1] == r[l4 + 1] && g[l4 + 2] == r[l4 + 2] && g[l4 + 3] == r[l4 + 3]
    ensures SameButChecksums(g, r)
  {
    hide Acceptable, Ihl, ChecksumOffset;
    forall k | 0 <= k < |g| && !(24 <= k < 26) && !(ChecksumOffset(g) <= k < ChecksumOffset(g) + 2)
      ensures g[k] == r[k]
    {
      if Writable(f, k) {
        if 26 <= k < 34 {
          assert g[26..34][k - 26] == r[26..34][k - 26];
        }
      } else {
        assert g[k] == f[k] && r[k] == f[k];
      }
    }
  }
}
