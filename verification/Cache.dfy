/** The simulated cache as the program keeps it: one block of memory, changed in place. */
module Cache {
  import opened Bits
  import opened LruSet
  import CacheModel

  const LINE_SIZE := 64

  class Cache {
    /** The tag of way w of set i is addrs[i, w]; 0 marks an empty way. */
    const addrs: array2<nat>

    ghost predicate Valid() {
      IsPow2(addrs.Length0) && addrs.Length1 > 0
    }

    ghost function Shape(): (g: CacheModel.Geometry)
      requires Valid()
      ensures g.Valid()
    {
      CacheModel.Geometry(addrs.Length0, addrs.Length1)
    }

    ghost function Row(i: nat): (row: seq<nat>)
      requires i < addrs.Length0
      reads addrs
      ensures |row| == addrs.Length1 && forall w :: 0 <= w < |row| ==> row[w] == addrs[i, w]
    {
      seq(addrs.Length1, w requires 0 <= w < addrs.Length1 reads addrs => addrs[i, w])
    }

    ghost function Contents(): (c: CacheModel.Sets)
      requires Valid()
      reads addrs
      ensures CacheModel.Shaped(c, Shape())
    {
      seq(addrs.Length0, i requires 0 <= i < addrs.Length0 reads addrs => Row(i))
    }

    constructor (sets: nat, ways: nat)
      requires IsPow2(sets) && ways > 0
      ensures Valid() && Shape() == CacheModel.Geometry(sets, ways)
      ensures fresh(addrs)
    {
      addrs := new nat[sets, ways];
    }

    method Init()
      requires Valid()
      modifies addrs
      ensures Contents() == CacheModel.Fresh(Shape())
    {
      forall i, w | 0 <= i < addrs.Length0 && 0 <= w < addrs.Length1 {
        addrs[i, w] := 0;
      }
      assert forall i :: 0 <= i < addrs.Length0 ==> Row(i) == Empty(addrs.Length1);
    }

    /** Looks addr up, makes its line the most recently used of its set and reports whether it
        was there. */
    method Access(addr: nat) returns (hit: bool)
      requires Valid()
      modifies addrs
      ensures hit == CacheModel.Hit(old(Contents()), addr / LINE_SIZE)
      ensures Contents() == CacheModel.Access(old(Contents()), addr / LINE_SIZE)
    {
      var base := addr / LINE_SIZE;
      var index := And(base, addrs.Length0 - 1);
      MaskIsModulo(base, addrs.Length0);
      ghost var row := Row(index);
      var way := 0;
      while way < addrs.Length1
        invariant 0 <= way <= addrs.Length1
        invariant forall w :: 0 <= w < way ==> row[w] != base
      {
        if addrs[index, way] == base {
          MoveToFront(index, way);
          assert IndexOf(row, base) == way;
          assert Row(index) == Touch(row, base);
          SameElsewhere(old(Contents()), index);
          return true;
        }
        way := way + 1;
      }
      assert IndexOf(row, base) == |row|;
      InsertFront(index, base);
      assert Row(index) == Touch(row, base);
      SameElsewhere(old(Contents()), index);
      return false;
    }

    /** Contents that agree with c but for one row are c with that row replaced. */
    lemma SameElsewhere(c: CacheModel.Sets, index: nat)
      requires Valid() && index < addrs.Length0
      requires CacheModel.Shaped(c, Shape())
      requires forall i, w :: 0 <= i < addrs.Length0 && 0 <= w < addrs.Length1 && i != index
                 ==> addrs[i, w] == c[i][w]
      ensures Contents() == c[index := Row(index)]
    {
      assert forall i :: 0 <= i < addrs.Length0 && i != index ==> Row(i) == c[i];
    }

    /** Swaps the hit way forward, one place at a time. */
    method MoveToFront(index: nat, hitWay: nat)
      requires Valid() && index < addrs.Length0 && hitWay < addrs.Length1
      modifies addrs
      ensures Row(index) == [old(Row(index))[hitWay]] + old(Row(index))[..hitWay] + old(Row(index))[hitWay + 1..]
      ensures forall i, w :: 0 <= i < addrs.Length0 && 0 <= w < addrs.Length1 && i != index
                ==> addrs[i, w] == old(addrs[i, w])
    {
      var way := hitWay;
      ghost var row := Row(index);
      while way > 0
        invariant 0 <= way <= hitWay
        invariant addrs[index, way] == row[hitWay]
        invariant forall w :: 0 <= w < way || hitWay < w < addrs.Length1 ==> addrs[index, w] == row[w]
        invariant forall w :: way < w <= hitWay ==> addrs[index, w] == row[w - 1]
        invariant forall i, w :: 0 <= i < addrs.Length0 && 0 <= w < addrs.Length1 && i != index
                    ==> addrs[i, w] == old(addrs[i, w])
      {
        addrs[index, way], addrs[index, way - 1] := addrs[index, way - 1], addrs[index, way];
        way := way - 1;
      }
      FrontMoved(row, hitWay, Row(index));
    }

    static lemma FrontMoved(row: seq<nat>, k: nat, t: seq<nat>)
      requires k < |row| == |t|
      requires forall w :: 0 <= w < |t| ==> t[w] == row[if w == 0 then k else if w <= k then w - 1 else w]
      ensures t == [row[k]] + row[..k] + row[k + 1..]
    {
    }

    /** Moves every way one place back, giving up the last, and puts base in front. */
    method InsertFront(index: nat, base: nat)
      requires Valid() && index < addrs.Length0
      modifies addrs
      ensures Row(index) == [base] + old(Row(index))[..addrs.Length1 - 1]
      ensures forall i, w :: 0 <= i < addrs.Length0 && 0 <= w < addrs.Length1 && i != index
                ==> addrs[i, w] == old(addrs[i, w])
    {
      var i := addrs.Length1 - 1;
      ghost var row := Row(index);
      while i > 0
        invariant 0 <= i < addrs.Length1
        invariant forall w :: 0 <= w <= i ==> addrs[index, w] == row[w]
        invariant forall w :: i < w < addrs.Length1 ==> addrs[index, w] == row[w - 1]
        invariant forall j, w :: 0 <= j < addrs.Length0 && 0 <= w < addrs.Length1 && j != index
                    ==> addrs[j, w] == old(addrs[j, w])
      {
        addrs[index, i] := addrs[index, i - 1];
        i := i - 1;
      }
      addrs[index, 0] := base;
    }

    /** Takes addr's line out of the cache; the ways behind it move up. */
    method Invalidate(addr: nat)
      requires Valid()
      modifies addrs
      ensures Contents() == CacheModel.Invalidate(old(Contents()), addr / LINE_SIZE)
    {
      var base := addr / LINE_SIZE;
      var index := And(base, addrs.Length0 - 1);
      MaskIsModulo(base, addrs.Length0);
      ghost var row := Row(index);
      var way := 0;
      while way < addrs.Length1
        invariant 0 <= way <= addrs.Length1
        invariant forall w :: 0 <= w < way ==> row[w] != base
      {
        if addrs[index, way] == base {
          CloseGap(index, way);
          assert IndexOf(row, base) == way;
          assert Row(index) == Drop(row, base);
          SameElsewhere(old(Contents()), index);
          return;
        }
        way := way + 1;
      }
      assert Drop(row, base) == row == Row(index);
      SameElsewhere(old(Contents()), index);
    }

    method CloseGap(index: nat, way: nat)
      requires Valid() && index < addrs.Length0 && way < addrs.Length1
      modifies addrs
      ensures Row(index) == old(Row(index))[..way] + old(Row(index))[way + 1..] + [0]
      ensures forall i, w :: 0 <= i < addrs.Length0 && 0 <= w < addrs.Length1 && i != index
                ==> addrs[i, w] == old(addrs[i, w])
    {
      var rw := way;
      ghost var row := Row(index);
      while rw < addrs.Length1 - 1
        invariant way <= rw < addrs.Length1
        invariant forall w :: 0 <= w < way || rw <= w < addrs.Length1 ==> addrs[index, w] == row[w]
        invariant forall w :: way <= w < rw ==> addrs[index, w] == row[w + 1]
        invariant forall i, w :: 0 <= i < addrs.Length0 && 0 <= w < addrs.Length1 && i != index
                    ==> addrs[i, w] == old(addrs[i, w])
      {
        addrs[index, rw] := addrs[index, rw + 1];
        rw := rw + 1;
      }
      addrs[index, addrs.Length1 - 1] := 0;
    }
  }
}
