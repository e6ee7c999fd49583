/** Interning of call stacks as functions of values: what an arena of zero-terminated stacks reads back, and
    what a run of insertions leaves on record, for any digest function. */
module StackModel {
  import opened Terminated

  /** What a reader gets that starts at an offset and stops at the zero word. */
  function ReadStack(arena: seq<nat>, offset: nat): seq<nat> {
    ReadFrom(arena, 0, offset)
  }

  // ----- the ledger: what the table and the arena stand for, for any digest function

  /** The arena's words, and for every digest on record the offset it names and the stack first inserted with it. */
  datatype Ledger<K> = Ledger(arena: seq<nat>, offsets: map<K, nat>, first: map<K, seq<nat>>) {
    /** What the table has to hold for it. */
    ghost function Values(): map<K, StackValue> {
      map k | k in offsets && k in first :: StackValue(offsets[k], |first[k]|)
    }
  }

  datatype StackValue = StackValue(offset: nat, count: nat)

  function Empty<K>(): Ledger<K> { Ledger([], map[], map[]) }

  ghost predicate Entry<K>(keyOf: seq<nat> -> K, l: Ledger<K>, k: K) {
    k in l.offsets && k in l.first && Recorded(l.arena, 0, l.offsets[k], l.first[k]) && keyOf(l.first[k]) == k
  }

  ghost predicate Sound<K(!new)>(keyOf: seq<nat> -> K, l: Ledger<K>) {
    && l.offsets.Keys == l.first.Keys
    && (forall k :: k in l.first ==> Entry(keyOf, l, k))
    && (forall j, k :: j in l.offsets && k in l.offsets ==> Apart(l, j, k))
  }

  ghost predicate Apart<K>(l: Ledger<K>, j: K, k: K)
    requires j in l.offsets && k in l.offsets
  {
    l.offsets[j] == l.offsets[k] ==> j == k
  }

  function Intern<K(==)>(keyOf: seq<nat> -> K, l: Ledger<K>, frames: seq<nat>): (Ledger<K>, nat) {
    var k := keyOf(frames);
    if k in l.offsets then (l, l.offsets[k])
    else (Ledger(l.arena + (frames + [0]), l.offsets[k := |l.arena|], l.first[k := frames]), |l.arena|)
  }

  /** The entry for k is the same in both ledgers. */
  ghost predicate Kept<K>(l: Ledger<K>, m: Ledger<K>, k: K) {
    && k in l.first && k in m.first && k in l.offsets && k in m.offsets
    && m.first[k] == l.first[k] && m.offsets[k] == l.offsets[k]
  }

  /** An offset that an insertion returned still names the entry of its stack's digest. */
  ghost predicate Named<K>(keyOf: seq<nat> -> K, l: Ledger<K>, frames: seq<nat>, id: nat) {
    keyOf(frames) in l.first && keyOf(frames) in l.offsets && l.offsets[keyOf(frames)] == id
  }

  /** Interning keeps the ledger sound and every earlier entry as it was. */
  lemma InternKeepsSound<K(!new)>(keyOf: seq<nat> -> K, l: Ledger<K>, frames: seq<nat>)
    requires Sound(keyOf, l)
    ensures var (m, offset) := Intern(keyOf, l, frames);
      && Sound(keyOf, m) && l.arena <= m.arena
      && Named(keyOf, m, frames, offset)
      && (forall k :: k in l.first ==> Kept(l, m, k))
      && (forall k :: k in m.first ==> k in l.first || (k == keyOf(frames) && m.first[k] == frames))
  {
    hide Recorded;
    var m := Intern(keyOf, l, frames).0;
    forall k | k in l.first
      ensures Entry(keyOf, m, k) && Kept(l, m, k) && l.offsets[k] < |l.arena|
    {
      assert Entry(keyOf, l, k);
      OffsetInside(l.arena, l.offsets[k], l.first[k]);
      if keyOf(frames) !in l.offsets {
        StillRecorded(l.arena, frames + [0], l.offsets[k], l.first[k]);
      }
    }
    if keyOf(frames) !in l.offsets {
      JustRecorded(l.arena, frames);
      forall j, k | j in m.offsets && k in m.offsets
        ensures Apart(m, j, k)
      {
        if j in l.offsets && k in l.offsets {
          assert Apart(l, j, k);
        }
      }
    }
  }

  lemma OffsetInside(arena: seq<nat>, offset: nat, frames: seq<nat>)
    requires Recorded(arena, 0, offset, frames)
    ensures offset < |arena|
  {
  }

  lemma JustRecorded(arena: seq<nat>, frames: seq<nat>)
    ensures Recorded(arena + (frames + [0]), 0, |arena|, frames)
  {
  }

  lemma StillRecorded(arena: seq<nat>, more: seq<nat>, offset: nat, frames: seq<nat>)
    requires Recorded(arena, 0, offset, frames)
    ensures Recorded(arena + more, 0, offset, frames)
  {
  }

  // ----- runs

  /** A run of insertions, and the offset that each of them returned. */
  function InternAll<K(==)>(keyOf: seq<nat> -> K, stacks: seq<seq<nat>>): (r: (Ledger<K>, seq<nat>))
    ensures |r.1| == |stacks|
  {
    if stacks == [] then (Empty(), [])
    else
      var before := InternAll(keyOf, stacks[..|stacks| - 1]);
      var last := Intern(keyOf, before.0, stacks[|stacks| - 1]);
      (last.0, before.1 + [last.1])
  }

  /** What is on record for a digest is one of the inserted stacks. */
  ghost predicate Inserted<K>(l: Ledger<K>, stacks: seq<seq<nat>>, k: K) {
    k in l.first && l.first[k] in stacks
  }

  /** The ledger accounts for these insertions and the offsets they returned, and for nothing else. */
  ghost predicate Accounts<K(!new)>(keyOf: seq<nat> -> K, l: Ledger<K>, stacks: seq<seq<nat>>, ids: seq<nat>) {
    && Sound(keyOf, l) && |ids| == |stacks|
    && (forall i :: 0 <= i < |stacks| ==> Named(keyOf, l, stacks[i], ids[i]))
    && (forall k :: k in l.first ==> Inserted(l, stacks, k))
  }

  lemma InternAccounts<K(!new)>(keyOf: seq<nat> -> K, l: Ledger<K>, stacks: seq<seq<nat>>, ids: seq<nat>,
                                frames: seq<nat>)
    requires Accounts(keyOf, l, stacks, ids)
    ensures var (m, offset) := Intern(keyOf, l, frames);
      Accounts(keyOf, m, stacks + [frames], ids + [offset])
  {
    hide Sound, Intern;
    var (m, offset) := Intern(keyOf, l, frames);
    var longer, more := stacks + [frames], ids + [offset];
    InternKeepsSound(keyOf, l, frames);
    forall i | 0 <= i < |longer|
      ensures Named(keyOf, m, longer[i], more[i])
    {
      if i < |stacks| {
        assert Named(keyOf, l, stacks[i], ids[i]);
        assert Kept(l, m, keyOf(stacks[i]));
      }
    }
    forall k | k in m.first
      ensures Inserted(m, longer, k)
    {
      if k in l.first {
        assert Inserted(l, stacks, k) && Kept(l, m, k);
      }
    }
  }

  lemma {:induction false} RunIsSound<K(!new)>(keyOf: seq<nat> -> K, stacks: seq<seq<nat>>)
    ensures var (l, ids) := InternAll(keyOf, stacks);
      Accounts(keyOf, l, stacks, ids)
  {
    hide Accounts, Intern;
    if stacks == [] {
      EmptyAccounts(keyOf);
    } else {
      var s, frames := stacks[..|stacks| - 1], stacks[|stacks| - 1];
      var (l, ids) := InternAll(keyOf, s);
      RunIsSound(keyOf, s);
      InternAccounts(keyOf, l, s, ids, frames);
      assert s + [frames] == stacks;
    }
  }

  lemma EmptyAccounts<K(!new)>(keyOf: seq<nat> -> K)
    ensures Accounts(keyOf, Empty(), [], [])
  {
  }

  /** Two insertions of a run get the same offset exactly when their stacks have the same digest. */
  lemma SameOffsetIffSameDigest<K(!new)>(keyOf: seq<nat> -> K, stacks: seq<seq<nat>>, i: nat, j: nat)
    requires i < |stacks| && j < |stacks|
    ensures var ids := InternAll(keyOf, stacks).1;
      ids[i] == ids[j] <==> keyOf(stacks[i]) == keyOf(stacks[j])
  {
    hide InternAll;
    RunIsSound(keyOf, stacks);
    var (l, ids) := InternAll(keyOf, stacks);
    assert Named(keyOf, l, stacks[i], ids[i]) && Named(keyOf, l, stacks[j], ids[j]);
    assert Apart(l, keyOf(stacks[i]), keyOf(stacks[j]));
  }

  /** At the end of the run an offset reads back, up to the first zero frame, a stack that was inserted
      with the same digest. */
  lemma OffsetReadsBack<K(!new)>(keyOf: seq<nat> -> K, stacks: seq<seq<nat>>, i: nat) returns (origin: seq<nat>)
    requires i < |stacks|
    ensures origin in stacks && keyOf(origin) == keyOf(stacks[i])
    ensures var (l, ids) := InternAll(keyOf, stacks);
      ReadStack(l.arena, ids[i]) == UpTo<nat>(origin, 0)
  {
    hide InternAll, Recorded, ReadFrom, UpTo;
    RunIsSound(keyOf, stacks);
    var (l, ids) := InternAll(keyOf, stacks);
    assert Named(keyOf, l, stacks[i], ids[i]);
    var k := keyOf(stacks[i]);
    origin := l.first[k];
    assert Entry(keyOf, l, k) && Inserted(l, stacks, k);
    RecordedReadsBack(l.arena, 0, ids[i], origin);
  }

  /** Stacks that share a digest are the same to a reader. */
  ghost predicate NoCollision<K(!new)>(keyOf: seq<nat> -> K, stacks: seq<seq<nat>>) {
    forall s, t :: s in stacks && t in stacks && keyOf(s) == keyOf(t) ==> UpTo<nat>(s, 0) == UpTo<nat>(t, 0)
  }

  ghost predicate ReadsBack<K>(keyOf: seq<nat> -> K, stacks: seq<seq<nat>>, i: nat)
    requires i < |stacks|
  {
    var (l, ids) := InternAll(keyOf, stacks);
    ReadStack(l.arena, ids[i]) == UpTo<nat>(stacks[i], 0)
  }

  /** The interning law: every offset of a run reads back its own stack exactly when no two inserted
      stacks that a reader can tell apart share a digest. */
  lemma InterningLaw<K(!new)>(keyOf: seq<nat> -> K, stacks: seq<seq<nat>>)
    ensures (forall i: nat :: i < |stacks| ==> ReadsBack(keyOf, stacks, i)) <==> NoCollision(keyOf, stacks)
  {
    hide InternAll, ReadFrom;
    if NoCollision(keyOf, stacks) {
      forall i: nat | i < |stacks|
        ensures ReadsBack(keyOf, stacks, i)
      {
        var origin := OffsetReadsBack(keyOf, stacks, i);
      }
    }
    if forall i: nat :: i < |stacks| ==> ReadsBack(keyOf, stacks, i) {
      forall s, t | s in stacks && t in stacks && keyOf(s) == keyOf(t)
        ensures UpTo<nat>(s, 0) == UpTo<nat>(t, 0)
      {
        var i: nat :| i < |stacks| && stacks[i] == s;
        var j: nat :| j < |stacks| && stacks[j] == t;
        SameOffsetIffSameDigest(keyOf, stacks, i, j);
        assert ReadsBack(keyOf, stacks, i) && ReadsBack(keyOf, stacks, j);
      }
    }
  }

  /** With distinct digests for distinct stacks, and no zero frames, offsets and stacks determine each other. */
  lemma DistinctDigests<K(!new)>(keyOf: seq<nat> -> K, stacks: seq<seq<nat>>, i: nat, j: nat)
    requires forall s, t :: s in stacks && t in stacks && keyOf(s) == keyOf(t) ==> s == t
    requires forall s :: s in stacks ==> 0 !in s
    requires i < |stacks| && j < |stacks|
    ensures var (l, ids) := InternAll(keyOf, stacks);
      && (ids[i] == ids[j] <==> stacks[i] == stacks[j])
      && ReadStack(l.arena, ids[i]) == stacks[i]
  {
    hide InternAll, ReadFrom;
    SameOffsetIffSameDigest(keyOf, stacks, i, j);
    var origin := OffsetReadsBack(keyOf, stacks, i);
    assert origin == stacks[i];
  }
}
