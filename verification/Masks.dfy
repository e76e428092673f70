/** The uint64 masks that hold a cron field's values, as the sets of their bit positions. */
module Masks {

  type Mask = set<nat>

  /** bits |= 1 << uint(v). A negative v is a huge shift count; shifting past bit 63 leaves nothing. */
  function SetBit(bits: Mask, v: int): Mask {
    if 0 <= v < 64 then bits + {v} else bits
  }
}
