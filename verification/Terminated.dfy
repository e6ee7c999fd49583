/** Sequences that a terminator ends: call stacks and names end with a zero word or character. */
module Terminated {
  /** What a reader gets that starts at an offset and stops at the terminator. */
  function ReadFrom<T(==)>(s: seq<T>, stop: T, offset: nat): seq<T>
    decreases |s| - offset
  {
    if offset >= |s| || s[offset] == stop then [] else [s[offset]] + ReadFrom(s, stop, offset + 1)
  }

  function UpTo<T(==)>(part: seq<T>, stop: T): (r: seq<T>)
    ensures r <= part && (stop !in part ==> r == part)
  {
    if part == [] || part[0] == stop then [] else [part[0]] + UpTo(part[1..], stop)
  }

  /** The part lies at an offset, with a terminator behind it. */
  predicate Recorded<T(==)>(s: seq<T>, stop: T, offset: nat, part: seq<T>) {
    offset + |part| < |s| && s[offset..offset + |part|] == part && s[offset + |part|] == stop
  }

  lemma {:induction false} RecordedReadsBack<T>(s: seq<T>, stop: T, offset: nat, part: seq<T>)
    requires Recorded(s, stop, offset, part)
    ensures ReadFrom(s, stop, offset) == UpTo(part, stop)
    decreases |part|
  {
    if part != [] {
      assert s[offset] == part[0];
      assert s[offset + 1..offset + |part|] == part[1..];
      if part[0] != stop {
        RecordedReadsBack(s, stop, offset + 1, part[1..]);
      }
    }
  }
}
