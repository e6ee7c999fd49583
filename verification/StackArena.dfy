/** Interning of call stacks: each stack is stored once, in one growing array, and named by its offset. */
module StackArena {
  import opened StackModel
  import M = Md5Model
  import Md5
  import H = HashTable
  import B = Bytes
  import Md5Bits

  const FIRST_RESERVE: nat := 65536

  type Key = seq<M.Byte>

  // ----- keys

  /** What the digest sees of a stack: eight bytes a frame, low-order byte first. */
  function FrameBytes(frames: seq<nat>): (b: seq<M.Byte>)
    ensures |b| == 8 * |frames|
  {
    if frames == [] then []
    else FrameBytes(frames[..|frames| - 1]) + seq(8, i requires 0 <= i < 8 => M.ByteOf(frames[|frames| - 1], i))
  }

  function KeyOf(frames: seq<nat>): Key {
    M.Digest(FrameBytes(frames))
  }

  /** The table hash of a key is its first four bytes. */
  function HashOf(key: Key): (h: nat)
    ensures h < H.HASH_RANGE
  {
    if |key| < 4 then 0 else M.WordOf(key[..4])
  }

  const FRAME_RANGE := 0x1_0000_0000_0000_0000

  /** Every frame is in the bytes, at its place: the bytes lose nothing. */
  lemma {:induction false} FrameReadsBack(frames: seq<nat>, i: nat)
    requires i < |frames| && frames[i] < FRAME_RANGE
    ensures B.Number(FrameBytes(frames)[8 * i..8 * i + 8]) == frames[i]
  {
    var n := |frames| - 1;
    var b, init := FrameBytes(frames), FrameBytes(frames[..n]);
    if i < n {
      FrameReadsBack(frames[..n], i);
      assert b[8 * i..8 * i + 8] == init[8 * i..8 * i + 8];
    } else {
      var last := frames[n];
      assert b[8 * n..8 * n + 8] == seq(8, k requires 0 <= k < 8 => M.ByteOf(last, k));
      Md5Bits.EightBytes(last);
      B.Ranges();
      B.NumberOfLittleEndian(last, 8);
    }
  }

  ghost predicate FitsFrames(frames: seq<nat>) {
    forall i :: 0 <= i < |frames| ==> frames[i] < FRAME_RANGE
  }

  lemma FrameBytesInjective(s: seq<nat>, t: seq<nat>)
    requires FitsFrames(s) && FitsFrames(t) && FrameBytes(s) == FrameBytes(t)
    ensures s == t
  {
    hide FrameBytes;
    forall i: nat | i < |s|
      ensures s[i] == t[i]
    {
      FrameReadsBack(s, i);
      FrameReadsBack(t, i);
    }
  }

  /** Two insertions of a run share an offset exactly if the MD5 digests of the stacks' bytes are equal: if the
      stacks are the same, or if their bytes are two different messages that collide. */
  lemma SharedOffsetIff(stacks: seq<seq<nat>>, i: nat, j: nat)
    requires i < |stacks| && j < |stacks| && FitsFrames(stacks[i]) && FitsFrames(stacks[j])
    ensures var ids, a, b := InternAll(KeyOf, stacks).1, FrameBytes(stacks[i]), FrameBytes(stacks[j]);
      ids[i] == ids[j] <==> stacks[i] == stacks[j] || (a != b && M.Digest(a) == M.Digest(b))
  {
    hide InternAll, FrameBytes, M.Digest;
    SameOffsetIffSameDigest(KeyOf, stacks, i, j);
    if FrameBytes(stacks[i]) == FrameBytes(stacks[j]) {
      FrameBytesInjective(stacks[i], stacks[j]);
    }
  }

  /** The table hash of a stack is the number its digest starts with. */
  lemma HashOfDigest(frames: seq<nat>)
    ensures HashOf(KeyOf(frames)) == B.Number(KeyOf(frames)[..4])
  {
    hide M.Digest;
    B.Ranges();
    var key := KeyOf(frames);
    B.NumberTake(key, 0);
    B.NumberTake(key, 1);
    B.NumberTake(key, 2);
    B.NumberTake(key, 3);
    assert B.Range(3) == 256 * B.Range(2);
  }

  // ----- the stored form

  /** How interning shows in the table and in the arena. */
  lemma InternSteps<K(!new)>(keyOf: seq<nat> -> K, l: Ledger<K>, frames: seq<nat>)
    requires Sound(keyOf, l)
    ensures l.Values().Keys == l.offsets.Keys
    ensures var (m, offset) := Intern(keyOf, l, frames);
      var k := keyOf(frames);
      if k in l.Values() then m == l && offset == l.Values()[k].offset
      else
        && m.Values() == l.Values()[k := StackValue(offset, |frames|)] && offset == |l.arena|
        && m.arena == l.arena + (frames + [0])
  {
  }

  class StackData {
    const stacks: H.GenericHashTable<Key, StackValue>
    var frames: array?<nat>
    var count: nat
    var reserve: nat

    /** What the table and the arena stand for. */
    ghost var ledger: Ledger<Key>

    ghost function Arena(): seq<nat>
      reads this, frames
    {
      if frames == null || count > frames.Length then [] else frames[..count]
    }

    /** The raw array is either absent or as long as the reserve says, and holds the words in use. */
    ghost predicate Backed()
      reads this
    {
      && count <= reserve
      && if frames == null then reserve == 0 else reserve == frames.Length >= FIRST_RESERVE
    }

    ghost predicate Valid()
      reads this, frames, stacks, stacks.table, stacks.nodes
    {
      && stacks.Valid() && Backed()
      && Sound(KeyOf, ledger) && ledger.arena == Arena()
      && stacks.Values() == ledger.Values()
    }

    constructor ()
      ensures Valid() && ledger == Empty() && fresh(stacks)
    {
      stacks := new H.GenericHashTable(HashOf, StackValue(0, 0));
      frames, count, reserve := null, 0, 0;
      ledger := Empty();
    }

    /** The digest of a stack. */
    static method MakeKey(frames: seq<nat>) returns (key: Key)
      requires |frames| < FIRST_RESERVE
      ensures key == KeyOf(frames)
    {
      hide M.Digest;
      var s := new Md5.Md5State();
      s.Init();
      s.Append(FrameBytes(frames));
      assert s.message == FrameBytes(frames);
      var digest := new M.Byte[16];
      s.Finish(digest);
      key := digest[..];
    }

    lemma ArenaLength()
      requires Backed()
      ensures |Arena()| == count
    {
    }

    /** Makes room for n more words: a first block, or one twice as long with the old words in it. */
    method Reserve(n: nat)
      requires Backed() && 0 < n <= FIRST_RESERVE && count + n <= 0x8000_0000
      modifies this`frames, this`reserve
      ensures Backed() && Arena() == old(Arena()) && frames != null && count + n <= reserve
      ensures frames != old(frames) ==> fresh(frames)
    {
      if count + n > reserve {
        var newReserve := if reserve != 0 then 2 * reserve % M.WORD_RANGE else FIRST_RESERVE;
        var bigger := new nat[newReserve](i => 0);
        if frames != null {
          forall i | 0 <= i < reserve {
            bigger[i] := frames[i];
          }
        }
        frames := bigger;
        reserve := newReserve;
      }
    }

    /** Copies a stack behind the words in use and closes it with a zero word. */
    method Write(stack: seq<nat>)
      requires Backed() && frames != null && count + |stack| + 1 <= reserve
      modifies this`count, frames
      ensures Backed() && Arena() == old(Arena()) + (stack + [0])
    {
      for i := 0 to |stack|
        modifies frames
        invariant frames[..count] == old(frames[..count])
        invariant frames[count..count + i] == stack[..i]
      {
        frames[count + i] := stack[i];
      }
      frames[count + |stack|] := 0;
      assert frames[..count + |stack| + 1] == frames[..count] + frames[count..count + |stack|] + [0];
      count := count + |stack| + 1;
    }

    /** Puts a stack behind the words in use, after making room for it. */
    method Place(stack: seq<nat>)
      requires Backed() && |stack| < FIRST_RESERVE && count + |stack| + 1 <= 0x8000_0000
      modifies this`frames, this`count, this`reserve, frames
      ensures Backed() && Arena() == old(Arena()) + (stack + [0])
      ensures frames != old(frames) ==> fresh(frames)
    {
      Reserve(|stack| + 1);
      Write(stack);
    }

    /** Files a value under a new digest; the others keep theirs. */
    method File(key: Key, value: StackValue)
      requires stacks.Valid() && key !in stacks.contents
      modifies stacks, stacks.table, stacks.nodes
      ensures stacks.Valid() && stacks.Values() == old(stacks.Values())[key := value]
      ensures stacks.table != old(stacks.table) ==> fresh(stacks.table)
      ensures fresh(stacks.nodes - old(stacks.nodes))
    {
      hide H.GenericHashTable.Valid, H.GenericHashTable.Values;
      var val := stacks.Insert(key);
      stacks.Store(val, value);
    }

    /** Records a stack under a digest that is not on record yet. */
    method Record(key: Key, stack: seq<nat>)
      requires Valid() && key == KeyOf(stack) && key !in stacks.contents
      requires |stack| < FIRST_RESERVE && count + |stack| + 1 <= 0x8000_0000
      modifies this`frames, this`count, this`reserve, this`ledger, frames
      modifies stacks, stacks.table, stacks.nodes
      ensures Valid()
      ensures ledger == Intern(KeyOf, old(ledger), stack).0
      ensures frames != old(frames) ==> fresh(frames)
      ensures stacks.table != old(stacks.table) ==> fresh(stacks.table)
      ensures fresh(stacks.nodes - old(stacks.nodes))
    {
      hide KeyOf, Sound, Intern, Ledger.Values, H.GenericHashTable.Valid, H.GenericHashTable.Values;
      InternSteps(KeyOf, ledger, stack);
      hide Backed, Arena;
      var offset := count;
      ArenaLength();
      InternKeepsSound(KeyOf, ledger, stack);
      Place(stack);
      File(key, StackValue(offset, |stack|));
      ledger := Intern(KeyOf, ledger, stack).0;
    }

    /** The offset of a stack: the recorded one if its digest is on record, else that of a new copy. */
    method InsertStack(stack: seq<nat>) returns (offset: nat)
      requires Valid() && |stack| < FIRST_RESERVE && count + |stack| + 1 <= 0x8000_0000
      modifies this`frames, this`count, this`reserve, this`ledger, frames
      modifies stacks, stacks.table, stacks.nodes
      ensures Valid()
      ensures (ledger, offset) == Intern(KeyOf, old(ledger), stack)
      ensures frames != old(frames) ==> fresh(frames)
      ensures stacks.table != old(stacks.table) ==> fresh(stacks.table)
      ensures fresh(stacks.nodes - old(stacks.nodes))
    {
      hide KeyOf, Sound, Intern, Ledger.Values, H.GenericHashTable.Valid, H.GenericHashTable.Values;
      InternSteps(KeyOf, ledger, stack);
      var key := MakeKey(stack);
      var existing := stacks.Find(key);
      if existing != null {
        return existing.value.offset;
      }
      offset := count;
      ArenaLength();
      Record(key, stack);
    }
  }
}
