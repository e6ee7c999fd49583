/** A whole cache: a row of associativity sets, and what any run of accesses and invalidations
    leaves in it. */
module CacheModel {
  import opened Bits
  import opened LruSet

  /** The contents of a cache: for every set its ways, most recently used first. */
  type Sets = seq<seq<nat>>

  datatype Geometry = Geometry(sets: nat, ways: nat) {
    predicate Valid() {
      sets > 0 && ways > 0
    }
  }

  predicate Shaped(c: Sets, g: Geometry) {
    g.Valid() && |c| == g.sets && forall i :: 0 <= i < |c| ==> |c[i]| == g.ways
  }

  function Fresh(g: Geometry): (c: Sets)
    requires g.Valid()
    ensures Shaped(c, g)
  {
    seq(g.sets, _ => Empty(g.ways))
  }

  ghost predicate Holds(c: Sets, x: nat) {
    c != [] && x in c[x % |c|]
  }

  predicate Hit(c: Sets, x: nat)
    requires c != []
  {
    x in c[x % |c|]
  }

  function Access(c: Sets, x: nat): Sets
    requires c != [] && c[x % |c|] != []
  {
    c[x % |c| := Touch(c[x % |c|], x)]
  }

  function Invalidate(c: Sets, x: nat): Sets
    requires c != []
  {
    c[x % |c| := Drop(c[x % |c|], x)]
  }

  // ----- runs of one cache

  datatype Op = Use(line: nat) | Kill(line: nat)

  function Step(g: Geometry, c: Sets, op: Op): (d: Sets)
    requires Shaped(c, g)
    ensures Shaped(d, g)
  {
    match op
    case Use(x) => Access(c, x)
    case Kill(x) => Invalidate(c, x)
  }

  function Run(g: Geometry, ops: seq<Op>): (c: Sets)
    requires g.Valid()
    ensures Shaped(c, g)
  {
    if ops == [] then Fresh(g) else Step(g, Run(g, ops[..|ops| - 1]), ops[|ops| - 1])
  }

  /** 0 is the empty marker, so a real run never names it. */
  ghost predicate Named(ops: seq<Op>) {
    forall k :: 0 <= k < |ops| ==> ops[k].line != 0
  }

  /** What set i holds after ops, as an LRU list. */
  function ListRun(g: Geometry, ops: seq<Op>, i: nat): (l: seq<nat>)
    requires g.Valid()
  {
    if ops == [] then []
    else
      var l, op := ListRun(g, ops[..|ops| - 1], i), ops[|ops| - 1];
      if op.line % g.sets != i then l
      else match op
        case Use(x) => LruSet.Use(l, x, g.ways)
        case Kill(x) => Without(l, x)
  }

  lemma {:induction false} ListRunIsLruList(g: Geometry, ops: seq<Op>, i: nat)
    requires g.Valid() && Named(ops)
    ensures LruList(ListRun(g, ops, i), g.ways)
  {
    if ops != [] {
      var pre, op := ops[..|ops| - 1], ops[|ops| - 1];
      ListRunIsLruList(g, pre, i);
      UseIsLruList(ListRun(g, pre, i), op.line, g.ways);
    }
  }

  /** Every set of every run is a duplicate-free list of real lines followed by empty ways, and
      that list is the LRU list of the run. */
  lemma {:induction false} RunIsListRun(g: Geometry, ops: seq<Op>, i: nat)
    requires g.Valid() && Named(ops) && i < g.sets
    ensures LruList(ListRun(g, ops, i), g.ways)
    ensures Run(g, ops)[i] == Ways(ListRun(g, ops, i), g.ways)
  {
    ListRunIsLruList(g, ops, i);
    if ops == [] {
      assert Run(g, ops)[i] == Empty(g.ways) == Ways([], g.ways);
    } else {
      var pre, op := ops[..|ops| - 1], ops[|ops| - 1];
      RunIsListRun(g, pre, i);
      TouchRefines(ListRun(g, pre, i), op.line, g.ways);
      DropRefines(ListRun(g, pre, i), op.line, g.ways);
    }
  }

  lemma HitIsListMember(g: Geometry, ops: seq<Op>, x: nat)
    requires g.Valid() && Named(ops) && x != 0
    ensures LruList(ListRun(g, ops, x % g.sets), g.ways)
    ensures Hit(Run(g, ops), x) <==> x in ListRun(g, ops, x % g.sets)
  {
    RunIsListRun(g, ops, x % g.sets);
    assert x !in Empty(g.ways - |ListRun(g, ops, x % g.sets)|);
  }

  /** The LRU stack property, invalidations included: with the same number of sets and at least
      as many ways, every set of the smaller cache is a prefix of the same set of the larger one,
      so extra ways never lose a hit. */
  lemma {:induction false} MoreWaysKeepEveryHit(small: Geometry, large: Geometry, ops: seq<Op>, x: nat)
    requires small.Valid() && large.Valid() && Named(ops) && x != 0
    requires small.sets == large.sets && small.ways <= large.ways
    ensures ListRun(small, ops, x % small.sets) <= ListRun(large, ops, x % small.sets)
    ensures Hit(Run(small, ops), x) ==> Hit(Run(large, ops), x)
  {
    PrefixRun(small, large, ops, x % small.sets);
    HitIsListMember(small, ops, x);
    HitIsListMember(large, ops, x);
    var a, b := ListRun(small, ops, x % small.sets), ListRun(large, ops, x % small.sets);
    if x in a {
      assert b[IndexOf(a, x)] == x;
    }
  }

  lemma {:induction false} PrefixRun(small: Geometry, large: Geometry, ops: seq<Op>, i: nat)
    requires small.Valid() && large.Valid() && Named(ops)
    requires small.sets == large.sets && small.ways <= large.ways
    ensures ListRun(small, ops, i) <= ListRun(large, ops, i)
  {
    if ops != [] {
      var pre, op := ops[..|ops| - 1], ops[|ops| - 1];
      PrefixRun(small, large, pre, i);
      ListRunIsLruList(small, pre, i);
      ListRunIsLruList(large, pre, i);
      var a, b := ListRun(small, pre, i), ListRun(large, pre, i);
      UsePrefix(a, b, op.line, small.ways, large.ways);
      WithoutPrefix(a, b, op.line);
    }
  }

  // ----- runs without invalidations: stack distances

  function Uses(trace: seq<nat>): (ops: seq<Op>)
    ensures |ops| == |trace| && forall k :: 0 <= k < |ops| ==> ops[k] == Use(trace[k])
  {
    seq(|trace|, k requires 0 <= k < |trace| => Use(trace[k]))
  }

  /** All lines of the trace, each once, latest use first. */
  function Recency(trace: seq<nat>): seq<nat> {
    if trace == [] then []
    else [trace[|trace| - 1]] + Without(Recency(trace[..|trace| - 1]), trace[|trace| - 1])
  }

  /** The lines of l that belong to set i of n, in order. */
  function Project(l: seq<nat>, n: nat, i: nat): (p: seq<nat>)
    requires n > 0
  {
    if l == [] then []
    else if l[0] % n == i then [l[0]] + Project(l[1..], n, i)
    else Project(l[1..], n, i)
  }

  lemma {:induction false} ProjectMembers(l: seq<nat>, n: nat, i: nat)
    requires n > 0
    ensures forall y :: y in Project(l, n, i) <==> y in l && y % n == i
  {
    if l != [] {
      ProjectMembers(l[1..], n, i);
    }
  }

  lemma {:induction false} ProjectKeepsDistinct(l: seq<nat>, n: nat, i: nat)
    requires n > 0 && Distinct(l)
    ensures Distinct(Project(l, n, i))
  {
    if l != [] {
      assert l[0] !in l[1..];
      ProjectKeepsDistinct(l[1..], n, i);
      ProjectMembers(l[1..], n, i);
      var rest := Project(l[1..], n, i);
      assert forall k :: 0 <= k < |rest| ==> rest[k] in l[1..];
    }
  }

  lemma {:induction false} ProjectWithout(l: seq<nat>, x: nat, n: nat, i: nat)
    requires n > 0
    ensures x % n == i ==> Project(Without(l, x), n, i) == Without(Project(l, n, i), x)
    ensures x % n != i ==> Project(Without(l, x), n, i) == Project(l, n, i)
  {
    if l != [] {
      ProjectWithout(l[1..], x, n, i);
    }
  }

  lemma {:induction false} RecencyIsDistinct(trace: seq<nat>)
    ensures Distinct(Recency(trace))
    ensures forall y :: y in Recency(trace) <==> y in trace
  {
    if trace != [] {
      var pre, x := trace[..|trace| - 1], trace[|trace| - 1];
      RecencyIsDistinct(pre);
      WithoutKeepsDistinct(Recency(pre), x);
      WithoutMembers(Recency(pre), x);
      assert trace == pre + [x];
      var rest := Without(Recency(pre), x);
      assert forall k :: 0 <= k < |rest| ==> rest[k] in rest;
    }
  }

  /** A set of a run without invalidations is the set's share of the global recency order, cut off
      at the number of ways. */
  lemma {:induction false} ListRunIsRecency(g: Geometry, trace: seq<nat>, i: nat)
    requires g.Valid()
    ensures ListRun(g, Uses(trace), i) == Take(Project(Recency(trace), g.sets, i), g.ways)
  {
    if trace != [] {
      var pre, x := trace[..|trace| - 1], trace[|trace| - 1];
      ListRunIsRecency(g, pre, i);
      assert Uses(trace)[..|trace| - 1] == Uses(pre);
      var r := Recency(pre);
      ProjectWithout(r, x, g.sets, i);
      RecencyIsDistinct(pre);
      ProjectKeepsDistinct(r, g.sets, i);
      UseTake(Project(r, g.sets, i), x, g.ways);
    }
  }

  function LastUse(trace: seq<nat>, x: nat): (k: nat)
    requires x in trace
    ensures k < |trace| && trace[k] == x && x !in trace[k + 1..]
  {
    if trace[|trace| - 1] == x then |trace| - 1
    else
      assert trace == trace[..|trace| - 1] + [trace[|trace| - 1]];
      LastUse(trace[..|trace| - 1], x)
  }

  /** The other lines of x's set used since x was last used. */
  function SetMatesSince(trace: seq<nat>, x: nat, n: nat): set<nat>
    requires n > 0 && x in trace
  {
    set y | y in trace[LastUse(trace, x) + 1..] && y % n == x % n
  }

  /** y occurs in l in front of the first x. */
  predicate Ahead(l: seq<nat>, y: nat, x: nat) {
    l != [] && l[0] != x && (l[0] == y || Ahead(l[1..], y, x))
  }

  lemma {:induction false} AheadByIndex(l: seq<nat>, y: nat, x: nat)
    ensures Ahead(l, y, x) <==> y in l[..IndexOf(l, x)]
  {
    if l != [] && l[0] != x {
      AheadByIndex(l[1..], y, x);
      assert l[..IndexOf(l, x)] == [l[0]] + l[1..][..IndexOf(l[1..], x)];
    }
  }

  /** Lines in front of x in the recency order are those used after x. */
  lemma {:induction false} AheadInRecency(trace: seq<nat>, y: nat, x: nat)
    requires x in trace && y != x
    ensures Ahead(Recency(trace), y, x) <==> y in trace[LastUse(trace, x) + 1..]
  {
    var pre, z := trace[..|trace| - 1], trace[|trace| - 1];
    assert trace == pre + [z];
    if z != x {
      var k := LastUse(trace, x);
      assert trace[k + 1..] == pre[k + 1..] + [z];
      AheadInRecency(pre, y, x);
      AheadWithout(Recency(pre), z, y, x);
    }
  }

  lemma {:induction false} AheadWithout(l: seq<nat>, z: nat, y: nat, x: nat)
    requires z != x
    ensures Ahead(Without(l, z), y, x) <==> Ahead(l, y, x) && y != z
  {
    if l != [] {
      AheadWithout(l[1..], z, y, x);
    }
  }

  lemma {:induction false} AheadInProject(l: seq<nat>, n: nat, y: nat, x: nat)
    requires n > 0
    ensures Ahead(Project(l, n, x % n), y, x) <==> Ahead(l, y, x) && y % n == x % n
  {
    if l != [] {
      AheadInProject(l[1..], n, y, x);
    }
  }

  lemma {:induction false} DistinctCount(l: seq<nat>, s: set<nat>)
    requires Distinct(l) && forall y :: y in l <==> y in s
    ensures |s| == |l|
  {
    if l == [] {
      assert s == {};
    } else {
      assert l[0] !in l[1..];
      assert l == [l[0]] + l[1..];
      DistinctCount(l[1..], s - {l[0]});
    }
  }

  /** In the recency order of its set, a line comes right behind its set mates used since. */
  lemma RankIsDistance(trace: seq<nat>, x: nat, n: nat)
    requires n > 0 && x in trace
    ensures var p := Project(Recency(trace), n, x % n);
      x in p && IndexOf(p, x) == |SetMatesSince(trace, x, n)|
  {
    var r := Recency(trace);
    var p := Project(r, n, x % n);
    RecencyIsDistinct(trace);
    ProjectMembers(r, n, x % n);
    ProjectKeepsDistinct(r, n, x % n);
    var k := IndexOf(p, x);
    forall y
      ensures y in p[..k] <==> y in SetMatesSince(trace, x, n)
    {
      AheadByIndex(p, y, x);
      AheadInProject(r, n, y, x);
      if y != x {
        AheadInRecency(trace, y, x);
      }
    }
    DistinctCount(p[..k], SetMatesSince(trace, x, n));
  }

  lemma TakeMember(p: seq<nat>, w: nat, x: nat)
    ensures x in Take(p, w) <==> x in p && IndexOf(p, x) < w
  {
  }

  /** The LRU law: in a run of accesses alone, a line hits exactly when it was accessed before and
      fewer than `ways` other lines of its set were accessed since. */
  lemma StackDistance(g: Geometry, trace: seq<nat>, x: nat)
    requires g.Valid() && 0 !in trace && x != 0
    ensures Hit(Run(g, Uses(trace)), x)
       <==> x in trace && |SetMatesSince(trace, x, g.sets)| < g.ways
  {
    var i := x % g.sets;
    HitIsListMember(g, Uses(trace), x);
    ListRunIsRecency(g, trace, i);
    TakeMember(Project(Recency(trace), g.sets, i), g.ways, x);
    RecencyIsDistinct(trace);
    ProjectMembers(Recency(trace), g.sets, i);
    if x in trace {
      RankIsDistance(trace, x, g.sets);
    }
  }

  /** Fed with the same accesses, a cache whose set count divides another's and that has no more
      ways is always included in it. */
  lemma Inclusion(inner: Geometry, outer: Geometry, trace: seq<nat>, x: nat)
    requires inner.Valid() && outer.Valid()
    requires outer.sets % inner.sets == 0 && inner.ways <= outer.ways
    requires 0 !in trace && x != 0
    ensures Hit(Run(inner, Uses(trace)), x) ==> Hit(Run(outer, Uses(trace)), x)
  {
    StackDistance(inner, trace, x);
    StackDistance(outer, trace, x);
    if x in trace {
      var a, b := SetMatesSince(trace, x, inner.sets), SetMatesSince(trace, x, outer.sets);
      forall y | y in b
        ensures y in a
      {
        CoarserResidue(y, x, inner.sets, outer.sets);
      }
      SubsetCount(b, a);
    }
  }

  lemma {:induction false} SubsetCount(a: set<nat>, b: set<nat>)
    requires a <= b
    ensures |a| <= |b|
  {
    if a != {} {
      var y :| y in a;
      SubsetCount(a - {y}, b - {y});
    }
  }

  /** Over every run the empty marker, as a line of its own, hits exactly while its set has a way to spare. */
  lemma LineZeroHitsIff(g: Geometry, ops: seq<Op>)
    requires g.Valid() && Named(ops)
    ensures Hit(Run(g, ops), 0) <==> |ListRun(g, ops, 0)| < g.ways
  {
    RunIsListRun(g, ops, 0);
    var l := ListRun(g, ops, 0);
    if |l| < g.ways {
      assert Ways(l, g.ways)[|l|] == 0;
    }
  }

  /** So it is the one line the program reports as a hit without ever having seen it: an access to the
      first 64 bytes of memory hits a fresh cache. */
  lemma LineZeroHitsFreshCache(g: Geometry, x: nat)
    requires g.Valid()
    ensures Hit(Fresh(g), x) <==> x == 0
  {
    assert Fresh(g)[x % g.sets] == Empty(g.ways);
    assert Empty(g.ways)[0] == 0;
  }
}
