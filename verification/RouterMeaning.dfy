/**
 The router, from bytes to bytes: which frames a valid rule set lets through, and as what, with the
 frame read at its offsets and the rules read as numbers.
 */
module RouterMeaning {
  import opened Wrappers
  import opened Bytes
  import opened Actions
  import opened Parser
  import opened Rules
  import opened RuleIndex
  import opened RewriteLaws
  import opened Router
  import opened FrameBytes
  import opened ReceiverView
  import opened RuleMeaning

  /** What is left to be sent of an acceptable frame once `d` has been decided. */
  ghost predicate LeftToSend(d: Decision, f: seq<byte>, out: Option<seq<byte>>)
    requires Acceptable(f)
  {
    if d.Miss? || d.action.kind == 0 then out.None?
    else if d.action.kind == 1 then out == Some(f)
    else out.Some? && Rewritten(f, d.action, out.value)
  }

  /** One segment that holds the whole packet, and a frame the parser takes. */
  predicate Taken(b: Buffer) {
    b.segments == 1 && b.packetLength == |b.bytes| && Acceptable(b.bytes)
  }

  ghost predicate Handled(rs: RuleSet, b: Buffer, out: Option<seq<byte>>) {
    if !Taken(b) then out.None?
    else exists d: Decision :: Answers(rs, ReadMeta(b.bytes), d) && LeftToSend(d, b.bytes, out)
  }

  lemma ValidActionOf(rs: RuleSet, m: Meta, d: Decision)
    requires ValidRules(rs) && Answers(rs, m, d) && !d.Miss?
    ensures WireAction(d.action)
  {
    ValidOnWire(rs);
    hide ValidRules, WireAction, Named, Tightest, Names;
  }

  lemma ActLeaves(d: Decision, f: Frame, out: Option<seq<byte>>)
    requires ParseFrame(f).Ok? && Acceptable(f) && (!d.Miss? ==> WireAction(d.action))
    ensures ActOn(d, f) == out <==> LeftToSend(d, f, out)
  {
    hide ParseFrame, Acceptable, Rewritten, RewriteFrame;
    if !d.Miss? && d.action.kind == 2 && out.Some? {
      RewriteOnBytes(f, d.action, out.value);
    }
  }

  /** The specification of the router, both ways: `Route` gives `out` exactly if bytes and rules say so. */
  lemma RouteMeans(rs: RuleSet, b: Buffer, out: Option<seq<byte>>)
    requires ValidRules(rs)
    ensures Route(rs, b) == out <==> Handled(rs, b, out)
  {
    hide ValidRules, Answers, Naive, LeftToSend, ActOn, ParseFrame, Acceptable, Foreign, WireAction;
    ParserOnBytes(b.segments, b.packetLength, b.bytes);
    if Taken(b) {
      MetaOnBytes(b.bytes);
      var m := ReadMeta(b.bytes);
      hide ReadMeta;
      DecidedOn(rs, m, b.bytes, out);
    }
  }

  lemma DecidedOn(rs: RuleSet, m: Meta, f: Frame, out: Option<seq<byte>>)
    requires ValidRules(rs) && ParseFrame(f).Ok? && Acceptable(f)
    ensures ActOn(Naive(rs, m), f) == out <==> exists d: Decision :: Answers(rs, m, d) && LeftToSend(d, f, out)
  {
    hide ValidRules, Answers, Naive, LeftToSend, ActOn, ParseFrame, Acceptable, WireAction;
    var n := Naive(rs, m);
    LookupMeans(rs, m, n);
    if !n.Miss? {
      ValidActionOf(rs, m, n);
    }
    ActLeaves(n, f, out);
    if d: Decision :| Answers(rs, m, d) && LeftToSend(d, f, out) {
      LookupMeans(rs, m, d);
    }
  }
}
