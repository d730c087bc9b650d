/** The whole router as a function: what one rule set makes of one received buffer. */
module Router {
  import opened Wrappers
  import opened Bytes
  import opened Actions
  import opened Parser
  import opened RewriteLaws
  import opened Rules
  import opened RuleIndex

  /** The value of an mbuf: segment count, packet length, bytes of the first segment. */
  datatype Buffer = Buffer(segments: nat, packetLength: u32, bytes: Frame)

  function Parsed(b: Buffer): Outcome {
    ParseMbuf(b.segments, b.packetLength, b.bytes)
  }

  /** The frame an action leaves to be sent, if any. */
  function Act(a: RuleAction, f: Frame): Option<Frame>
    requires ParseFrame(f).Ok?
  {
    if a.kind == ACTION_FORWARD then Some(f)
    else if a.kind == ACTION_REWRITE && a.rewriteMask != 0 then Some(RewriteFrame(f, a))
    else None
  }

  /** The frame a decision leaves to be sent; a miss is dropped. */
  function ActOn(d: Decision, f: Frame): Option<Frame>
    requires ParseFrame(f).Ok?
  {
    if d.Miss? then None else Act(d.action, f)
  }

  /** Drop, or send this frame: parse, exact flow, longest prefix, default drop, then the action. */
  function Route(rs: RuleSet, b: Buffer): Option<Frame> {
    match Parsed(b)
    case Unsupported => None
    case Malformed => None
    case Ok(meta) => ActOn(Naive(rs, meta), b.bytes)
  }

  // ---------- A whole burst ----------

  /** The routing results of a burst, packet by packet. */
  function Routes(rs: RuleSet, burst: seq<Buffer>): (outs: seq<Option<Frame>>)
    ensures |outs| == |burst|
  {
    if burst == [] then [] else Routes(rs, burst[..|burst| - 1]) + [Route(rs, burst[|burst| - 1])]
  }

  lemma {:induction false} RoutesAt(rs: RuleSet, burst: seq<Buffer>, i: nat)
    requires i < |burst|
    ensures Routes(rs, burst)[i] == Route(rs, burst[i])
  {
    if i == |burst| - 1 {
    } else {
      RoutesAt(rs, burst[..|burst| - 1], i);
    }
  }

  /** The frames to be sent, in RX order. */
  function Somes<T>(outs: seq<Option<T>>): seq<T> {
    if outs == [] then []
    else
      var last := outs[|outs| - 1];
      Somes(outs[..|outs| - 1]) + if last.Some? then [last.value] else []
  }

  /** The frames a burst offers to TX: the route of every packet, under one rule set. */
  function RouteAll(rs: RuleSet, burst: seq<Buffer>): seq<Frame> {
    Somes(Routes(rs, burst))
  }

  /** The items whose packet is sent on, in RX order. */
  function Kept<S, T>(outs: seq<Option<S>>, items: seq<T>): (r: seq<T>)
    requires |items| == |outs|
    ensures |r| == |Somes(outs)| <= |outs|
  {
    if outs == [] then []
    else
      var n := |outs| - 1;
      Kept(outs[..n], items[..n]) + if outs[n].Some? then [items[n]] else []
  }

  /** The items whose packet is dropped, in RX order. */
  function Dropped<S, T>(outs: seq<Option<S>>, items: seq<T>): seq<T>
    requires |items| == |outs|
  {
    if outs == [] then []
    else
      var n := |outs| - 1;
      Dropped(outs[..n], items[..n]) + if outs[n].Some? then [] else [items[n]]
  }

  /** Conservation: each received item is kept or dropped, exactly once. */
  lemma {:induction false} KeptOrDropped<S, T>(outs: seq<Option<S>>, items: seq<T>)
    requires |items| == |outs|
    ensures multiset(Kept(outs, items)) + multiset(Dropped(outs, items)) == multiset(items)
  {
    if outs == [] {
    } else {
      var n := |outs| - 1;
      assert outs[..n + 1] == outs && items[..n + 1] == items;
      if outs[n].Some? {
        KeptNext(outs, items, n);
      } else {
        DroppedNext(outs, items, n);
      }
      hide Kept, Dropped, Somes;
      KeptOrDropped(outs[..n], items[..n]);
      OneMore(Kept(outs[..n], items[..n]), Dropped(outs[..n], items[..n]), items[..n], items[n]);
      assert items == items[..n] + [items[n]];
    }
  }

  lemma OneMore<T>(kept: seq<T>, dropped: seq<T>, items: seq<T>, x: T)
    requires multiset(kept) + multiset(dropped) == multiset(items)
    ensures multiset(kept + [x]) + multiset(dropped) == multiset(items + [x])
    ensures multiset(kept) + multiset(dropped + [x]) == multiset(items + [x])
  {
  }

  lemma {:induction false} KeptWithin<S, T>(outs: seq<Option<S>>, items: seq<T>)
    requires |items| == |outs|
    ensures forall x | x in Kept(outs, items) :: x in items
  {
    if outs == [] {
    } else {
      KeptWithin(outs[..|outs| - 1], items[..|outs| - 1]);
    }
  }

  lemma KeptNext<S, T>(outs: seq<Option<S>>, items: seq<T>, i: nat)
    requires |items| == |outs| && i < |outs| && outs[i].Some?
    ensures Somes(outs[..i + 1]) == Somes(outs[..i]) + [outs[i].value]
    ensures Kept(outs[..i + 1], items[..i + 1]) == Kept(outs[..i], items[..i]) + [items[i]]
    ensures Dropped(outs[..i + 1], items[..i + 1]) == Dropped(outs[..i], items[..i])
  {
    assert outs[..i + 1][..i] == outs[..i] && items[..i + 1][..i] == items[..i];
  }

  lemma DroppedNext<S, T>(outs: seq<Option<S>>, items: seq<T>, i: nat)
    requires |items| == |outs| && i < |outs| && outs[i].None?
    ensures Somes(outs[..i + 1]) == Somes(outs[..i])
    ensures Kept(outs[..i + 1], items[..i + 1]) == Kept(outs[..i], items[..i])
    ensures Dropped(outs[..i + 1], items[..i + 1]) == Dropped(outs[..i], items[..i]) + [items[i]]
  {
    assert outs[..i + 1][..i] == outs[..i] && items[..i + 1][..i] == items[..i];
  }
}
