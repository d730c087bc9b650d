/** Rule actions as they cross the native boundary, and their validity. */
module Actions {
  import opened Bytes

  const ACTION_DROP: byte := 0
  const ACTION_FORWARD: byte := 1
  const ACTION_REWRITE: byte := 2

  const REWRITE_SRC_IPV4: bv8 := 1
  const REWRITE_DST_IPV4: bv8 := 2
  const REWRITE_SRC_PORT: bv8 := 4
  const REWRITE_DST_PORT: bv8 := 8

  const EIO := 5
  const ENOMEM := 12
  const EBUSY := 16
  const EEXIST := 17
  const ENODEV := 19
  const EINVAL := 22
  const ENOSPC := 28
  const EALREADY := 114

  datatype RuleAction = RuleAction(kind: byte, rewriteMask: bv8, srcIpv4: u32, dstIpv4: u32, srcPort: u16, dstPort: u16)

  predicate Selects(a: RuleAction, bit: bv8) {
    a.rewriteMask & bit != 0
  }

  /** DROP and FORWARD carry no mask; REWRITE a nonempty one made of the four known bits. */
  predicate ValidAction(a: RuleAction) {
    if a.kind == ACTION_DROP || a.kind == ACTION_FORWARD then a.rewriteMask == 0
    else a.kind == ACTION_REWRITE && a.rewriteMask != 0 && a.rewriteMask & 0xF0 == 0
  }

  /** What the Go binding writes into the reserved bytes of the native structs. */
  const RESERVED: byte := 0

  /** `dp_validate_action`; the native struct carries a reserved byte beside the action. */
  method ValidateAction(a: RuleAction, reserved: byte) returns (ret: int)
    ensures ret == if reserved == 0 && ValidAction(a) then 0 else -EINVAL
  {
    var validMask := REWRITE_SRC_IPV4 | REWRITE_DST_IPV4 | REWRITE_SRC_PORT | REWRITE_DST_PORT;
    if reserved != 0 {
      return -EINVAL;
    }
    if a.kind == ACTION_DROP || a.kind == ACTION_FORWARD {
      return if a.rewriteMask == 0 then 0 else -EINVAL;
    }
    if a.kind != ACTION_REWRITE {
      return -EINVAL;
    }
    if a.rewriteMask == 0 || a.rewriteMask & !validMask != 0 {
      return -EINVAL;
    }
    return 0;
  }
}
