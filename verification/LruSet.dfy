/** One associativity set of a simulated cache.

    The program keeps a set as an array of ways, most recently used first, in which 0 marks an
    empty way.  `Touch` and `Drop` say what one access and one invalidation do to such an array.
    The list functions below them are the textbook LRU list, and the lemmas connect the two. */
module LruSet {

  /** Position of the first x in s, or |s| when there is none. */
  function IndexOf(s: seq<nat>, x: nat): (k: nat)
    ensures k <= |s|
    ensures k < |s| ==> s[k] == x
    ensures forall i :: 0 <= i < k ==> s[i] != x
  {
    if s == [] then 0
    else if s[0] == x then 0
    else 1 + IndexOf(s[1..], x)
  }

  /** The set after an access to line x: on a hit x moves to the front, on a miss the last way
      is given up and x becomes the first. */
  function Touch(s: seq<nat>, x: nat): (t: seq<nat>)
    requires s != []
    ensures |t| == |s|
  {
    var k := IndexOf(s, x);
    var gap := if k < |s| then k else |s| - 1;
    [x] + s[..gap] + s[gap + 1..]
  }

  /** The set after line x is invalidated: the ways behind x move up and the last one is emptied. */
  function Drop(s: seq<nat>, x: nat): (t: seq<nat>)
    ensures |t| == |s|
  {
    var k := IndexOf(s, x);
    if k < |s| then s[..k] + s[k + 1..] + [0] else s
  }

  /** No line is cached twice; the empty marker may occur any number of times. */
  ghost predicate NoTwin(s: seq<nat>) {
    forall i, j :: 0 <= i < j < |s| && s[i] != 0 ==> s[i] != s[j]
  }

  /** The line an access to x pushes out of the set; 0 when none is. */
  function Evicted(s: seq<nat>, x: nat): nat
    requires s != []
  {
    if IndexOf(s, x) < |s| then 0 else s[|s| - 1]
  }

  lemma TouchKeepsNoTwin(s: seq<nat>, x: nat)
    requires s != [] && NoTwin(s)
    ensures NoTwin(Touch(s, x))
  {
  }

  /** Exactly which lines are in a set after an access. */
  lemma TouchHolds(s: seq<nat>, x: nat, y: nat)
    requires s != [] && NoTwin(s) && y != 0
    ensures y in Touch(s, x) <==> y == x || (y in s && y != Evicted(s, x))
  {
    var k := IndexOf(s, x);
    var gap := if k < |s| then k else |s| - 1;
    var t := Touch(s, x);
    assert t[0] == x;
    assert forall i :: 1 <= i < |t| ==> t[i] == s[if i <= gap then i - 1 else i];
    if y in s && y != x && y != Evicted(s, x) {
      var j := IndexOf(s, y);
      assert s[j] == y && j != gap;
      assert t[if j < gap then j + 1 else j] == y;
    }
  }

  lemma DropKeepsNoTwin(s: seq<nat>, x: nat)
    requires NoTwin(s)
    ensures NoTwin(Drop(s, x))
  {
  }

  /** Exactly which lines are in a set after an invalidation. */
  lemma DropHolds(s: seq<nat>, x: nat, y: nat)
    requires NoTwin(s) && y != 0
    ensures y in Drop(s, x) <==> y in s && y != x
  {
    var k := IndexOf(s, x);
    var t := Drop(s, x);
    if k < |s| {
      assert forall i :: 0 <= i < |t| - 1 ==> t[i] == s[if i < k then i else i + 1];
      if y in s && y != x {
        var j := IndexOf(s, y);
        assert t[if j < k then j else j - 1] == y;
      }
    }
  }

  // ----- the same operations on plain LRU lists

  ghost predicate Distinct(l: seq<nat>) {
    forall i, j :: 0 <= i < j < |l| ==> l[i] != l[j]
  }

  /** l without every occurrence of x. */
  function Without(l: seq<nat>, x: nat): (r: seq<nat>)
    ensures |r| <= |l|
  {
    if l == [] then []
    else if l[0] == x then Without(l[1..], x)
    else [l[0]] + Without(l[1..], x)
  }

  lemma {:induction false} WithoutMembers(l: seq<nat>, x: nat)
    ensures forall y :: y in Without(l, x) <==> y in l && y != x
    ensures x !in l ==> Without(l, x) == l
  {
    if l != [] {
      WithoutMembers(l[1..], x);
    }
  }

  function Take(l: seq<nat>, w: nat): (r: seq<nat>) {
    if |l| <= w then l else l[..w]
  }

  /** The LRU list of capacity w after x is used. */
  function Use(l: seq<nat>, x: nat, w: nat): seq<nat> {
    Take([x] + Without(l, x), w)
  }

  /** n empty ways. */
  function Empty(n: nat): (z: seq<nat>)
    ensures |z| == n && forall i :: 0 <= i < n ==> z[i] == 0
  {
    seq(n, _ => 0)
  }

  /** What an array of w ways holding the list l looks like. */
  function Ways(l: seq<nat>, w: nat): (s: seq<nat>)
    requires |l| <= w
    ensures |s| == w
  {
    l + Empty(w - |l|)
  }

  ghost predicate LruList(l: seq<nat>, w: nat) {
    Distinct(l) && |l| <= w && 0 !in l
  }

  lemma {:induction false} WithoutKeepsDistinct(l: seq<nat>, x: nat)
    requires Distinct(l)
    ensures Distinct(Without(l, x))
  {
    if l != [] {
      assert l[0] !in l[1..];
      WithoutKeepsDistinct(l[1..], x);
      WithoutMembers(l[1..], x);
      var rest := Without(l[1..], x);
      assert forall i :: 0 <= i < |rest| ==> rest[i] in l[1..];
    }
  }

  lemma {:induction false} WithoutByIndex(l: seq<nat>, x: nat)
    requires Distinct(l) && x in l
    ensures Without(l, x) == l[..IndexOf(l, x)] + l[IndexOf(l, x) + 1..]
  {
    if l[0] == x {
      WithoutMembers(l[1..], x);
    } else {
      WithoutByIndex(l[1..], x);
    }
  }

  lemma UseIsLruList(l: seq<nat>, x: nat, w: nat)
    requires LruList(l, w) && x != 0
    ensures LruList(Use(l, x, w), w) && LruList(Without(l, x), w)
  {
    WithoutKeepsDistinct(l, x);
    WithoutMembers(l, x);
    var r := [x] + Without(l, x);
    assert Distinct(r) && 0 !in r;
  }

  lemma FirstInPrefix(l: seq<nat>, tail: seq<nat>, x: nat)
    requires x in l
    ensures IndexOf(l + tail, x) == IndexOf(l, x) < |l|
  {
    var k := IndexOf(l, x);
    assert (l + tail)[k] == x;
    assert forall i :: 0 <= i < k ==> (l + tail)[i] == l[i];
  }

  /** `Touch` on the array is `Use` on the list. */
  lemma TouchRefines(l: seq<nat>, x: nat, w: nat)
    requires LruList(l, w) && w > 0 && x != 0
    ensures Touch(Ways(l, w), x) == Ways(Use(l, x, w), w)
  {
    if x in l {
      WithoutByIndex(l, x);
      FirstInPrefix(l, Empty(w - |l|), x);
    } else {
      WithoutMembers(l, x);
      assert x !in Ways(l, w);
    }
  }

  /** `Drop` on the array is removal from the list. */
  lemma DropRefines(l: seq<nat>, x: nat, w: nat)
    requires LruList(l, w) && x != 0
    ensures |Without(l, x)| <= w
    ensures Drop(Ways(l, w), x) == Ways(Without(l, x), w)
  {
    if x in l {
      WithoutByIndex(l, x);
      FirstInPrefix(l, Empty(w - |l|), x);
      hide Without, IndexOf;
      CutInPrefix(l, Empty(w - |l|), IndexOf(l, x));
      assert Empty(w - |l|) + [0] == Empty(w - |l| + 1);
    } else {
      WithoutMembers(l, x);
      assert x !in Ways(l, w);
    }
  }

  lemma CutInPrefix(l: seq<nat>, tail: seq<nat>, k: nat)
    requires k < |l|
    ensures (l + tail)[..k] + (l + tail)[k + 1..] + [0] == (l[..k] + l[k + 1..]) + (tail + [0])
  {
  }

  // ----- truncation and prefixes

  /** Truncating before or after a removal is the same, up to the capacity that is left. */
  lemma {:induction false} WithoutTake(l: seq<nat>, x: nat, m: nat)
    requires Distinct(l)
    ensures Take(Without(l, x), m) == Take(Without(Take(l, m + 1), x), m)
  {
    if |l| > m + 1 {
      var t := Take(l, m + 1);
      assert t[0] == l[0] && t[1..] == Take(l[1..], m);
      if l[0] == x {
        WithoutMembers(l[1..], x);
        WithoutMembers(t[1..], x);
      } else if m > 0 {
        WithoutTake(l[1..], x, m - 1);
        TakeCons(l[0], Without(l[1..], x), m);
        TakeCons(l[0], Without(t[1..], x), m);
      }
    }
  }

  /** An LRU list of capacity w is the first w entries of the unbounded one. */
  lemma UseTake(l: seq<nat>, x: nat, w: nat)
    requires Distinct(l) && w > 0
    ensures |Take(l, w)| <= w
    ensures Use(Take(l, w), x, w) == Take([x] + Without(l, x), w)
  {
    WithoutTake(l, x, w - 1);
    TakeCons(x, Without(l, x), w);
    TakeCons(x, Without(Take(l, w), x), w);
  }

  lemma TakeCons(x: nat, l: seq<nat>, w: nat)
    requires w > 0
    ensures Take([x] + l, w) == [x] + Take(l, w - 1)
  {
  }

  lemma {:induction false} WithoutPrefix(a: seq<nat>, b: seq<nat>, x: nat)
    requires a <= b
    ensures Without(a, x) <= Without(b, x)
  {
    if a != [] {
      assert a[1..] <= b[1..];
      WithoutPrefix(a[1..], b[1..], x);
    }
  }

  /** The stack property of one step: a prefix stays a prefix when both lists use the same line,
      provided the longer one has at least as many ways. */
  lemma UsePrefix(a: seq<nat>, b: seq<nat>, x: nat, v: nat, w: nat)
    requires a <= b && v <= w && |a| <= v && |b| <= w
    requires Distinct(b)
    ensures Use(a, x, v) <= Use(b, x, w)
  {
    WithoutPrefix(a, b, x);
    var p, q := [x] + Without(a, x), [x] + Without(b, x);
    assert p <= q;
    assert Take(p, v) <= p;
    assert Take(q, w) == q[..if |q| <= w then |q| else w];
  }
}
