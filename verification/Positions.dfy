/** Positions in stored lists, which are 16 bit numbers. */
module Positions {
  /** The largest value of uint16_t, at which a member list is cut off. */
  const CUT := 65535
  const HALF := 32768

  /** static_cast<int16_t> */
  function Int16(i: int): int { (i + HALF) % 65536 - HALF }

  lemma Int16Value(i: nat)
    requires i < CUT
    ensures Int16(i) == if i < HALF then i else i - 65536
  {
  }
}
