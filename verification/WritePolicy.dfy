/** Range and mask rules that MMIO accesses are checked against. */
module WritePolicy {
  import opened Words

  datatype WriteRule = WriteRule(offset: u32, writableMask: u32)

  datatype WriteDecision = Allowed | DeniedUnknownRegister | DeniedBitOutsideMask

  function CheckWrite(rules: seq<WriteRule>, offset: u32, oldValue: u32, newValue: u32): WriteDecision
  {
    if rules == [] then DeniedUnknownRegister
    else if rules[0].offset != offset then CheckWrite(rules[1..], offset, oldValue, newValue)
    else if AndNot32(Xor32(oldValue, newValue), rules[0].writableMask) == 0 then Allowed
    else DeniedBitOutsideMask
  }

  datatype RegionRule = RegionRule(offset: u32, length: u32, alignment: u32)

  datatype RegionDecision =
    | RegionAllowed
    | DeniedEmpty
    | DeniedOverflow
    | DeniedUnaligned
    | DeniedUnknownRange

  function CheckRegion(rules: seq<RegionRule>, offset: u32, bytes: u64): RegionDecision
  {
    if bytes == 0 then DeniedEmpty
    else if bytes > MAX32 || offset + bytes > MAX32 + 1 then DeniedOverflow
    else FindRegion(rules, offset, bytes)
  }

  function FindRegion(rules: seq<RegionRule>, offset: u32, bytes: u64): RegionDecision
  {
    if rules == [] then DeniedUnknownRange
    else
      var rule := rules[0];
      if rule.length == 0 || rule.alignment == 0 || rule.offset + rule.length > MAX32 + 1
         || offset < rule.offset || offset + bytes > rule.offset + rule.length
      then FindRegion(rules[1..], offset, bytes)
      else if offset % rule.alignment != 0 || bytes % rule.alignment != 0 then DeniedUnaligned
      else RegionAllowed
  }

  /** A rule that covers the whole register admits every value. */
  lemma FullMaskAdmits(offset: u32, oldValue: u32, newValue: u32)
    ensures CheckWrite([WriteRule(offset, MAX32)], offset, oldValue, newValue) == Allowed
  {
    Pow2Of32();
    LowMask(32, Xor32(oldValue, newValue), 32);
  }

  /** What a single region rule admits. */
  lemma RegionAdmits(rule: RegionRule, offset: u32, bytes: u64)
    requires rule.length > 0 && rule.alignment > 0 && rule.offset + rule.length <= MAX32 + 1
    ensures CheckRegion([rule], offset, bytes) == RegionAllowed <==>
            && 0 < bytes
            && rule.offset <= offset && offset + bytes <= rule.offset + rule.length
            && offset % rule.alignment == 0 && bytes % rule.alignment == 0
  {
    assert FindRegion([rule][1..], offset, bytes) == DeniedUnknownRange;
  }
}
