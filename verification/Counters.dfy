/** The eight counters of a statistics record. */
module Counters {
  const WORD_RANGE: nat := 0x1_0000_0000
  const COUNTERS: nat := 8

  function Blank(): (s: seq<nat>)
    ensures |s| == COUNTERS
  {
    [0, 0, 0, 0, 0, 0, 0, 0]
  }
}
