/** The chained hash table: a power-of-two array of singly linked chains whose elements never move. */
module HashTable {
  import opened Bits

  const HASH_RANGE: nat := 0x1_0000_0000
  const SIZE_RANGE: nat := 0x1_0000_0000_0000_0000

  /** Where an element hangs: in which incarnation of the table, in which bucket, and how many older
      elements the chain has behind it. */
  datatype Spot = Spot(era: nat, bucket: nat, rank: nat)

  /** A stored element. */
  class Elem<K, V> {
    var hash: nat
    var key: K
    var value: V
    var next: Elem?<K, V>
    ghost var spot: Spot

    constructor (hash: nat, key: K, value: V, next: Elem?<K, V>, ghost spot: Spot)
      ensures this.hash == hash && this.key == key && this.value == value && this.next == next && this.spot == spot
    {
      this.hash, this.key, this.value, this.next, this.spot := hash, key, value, next, spot;
    }
  }

  /** The chains of a table, bucket by bucket, oldest element first. */
  type Chains<!K, !V> = seq<seq<Elem<K, V>>>

  /** Element p of chain b hangs where its ghost fields say and points to the next older one. */
  ghost predicate Hung<K, V>(c: Chains<K, V>, era: nat, nodes: set<Elem<K, V>>, b: nat, p: nat)
    requires b < |c| && p < |c[b]|
    reads nodes
  {
    var e := c[b][p];
    && e in nodes && e.spot == Spot(era, b, p)
    && e.next == (if p == 0 then null else c[b][p - 1])
  }

  ghost predicate Threaded<K, V>(c: Chains<K, V>, era: nat, nodes: set<Elem<K, V>>)
    reads nodes
  {
    forall b: nat, p: nat :: b < |c| && p < |c[b]| ==> Hung(c, era, nodes, b, p)
  }

  /** Element p of chain b is in the bucket its hash selects. */
  ghost predicate Placed<K, V>(c: Chains<K, V>, nodes: set<Elem<K, V>>, b: nat, p: nat)
    requires b < |c| && p < |c[b]|
    reads nodes
  {
    c[b][p] in nodes && And(c[b][p].hash, |c| - 1) == b
  }

  ghost predicate Sorted<K, V>(c: Chains<K, V>, nodes: set<Elem<K, V>>)
    reads nodes
  {
    forall b: nat, p: nat :: b < |c| && p < |c[b]| ==> Placed(c, nodes, b, p)
  }

  function Head<K, V>(chain: seq<Elem<K, V>>): Elem?<K, V> {
    if chain == [] then null else chain[|chain| - 1]
  }

  ghost predicate Heads<K, V>(table: array<Elem?<K, V>>, c: Chains<K, V>)
    reads table
  {
    table.Length == |c| && forall b :: 0 <= b < |c| ==> table[b] == Head(c[b])
  }

  lemma HeadAt<K, V>(table: array<Elem?<K, V>>, c: Chains<K, V>, b: nat)
    requires Heads(table, c) && b < |c|
    ensures table.Length == |c| && table[b] == Head(c[b])
  {
  }

  method SetHead<K, V>(table: array<Elem?<K, V>>, ghost c: Chains<K, V>, b: nat, e: Elem<K, V>)
    requires Heads(table, c) && b < |c|
    modifies table
    ensures Heads(table, c[b := c[b] + [e]])
  {
    table[b] := e;
  }

  /** 0, or 64 times a power of two. */
  predicate IsCapacity(n: nat) {
    n == 0 || (n % 64 == 0 && IsPow2(n / 64))
  }

  lemma CapacityIsPow2(n: nat)
    requires IsCapacity(n) && n > 0
    ensures IsPow2(n) && n % 4 == 0
    ensures IsCapacity(2 * n)
  {
    assert n == 64 * (n / 64);
    assert 2 * n / 64 == 2 * (n / 64);
    assert 2 * (n / 64) / 2 == n / 64;
    assert IsPow2(n / 32) by { assert n / 32 / 2 == n / 64; }
    assert IsPow2(n / 16) by { assert n / 16 / 2 == n / 32; }
    assert IsPow2(n / 8) by { assert n / 8 / 2 == n / 16; }
    assert IsPow2(n / 4) by { assert n / 4 / 2 == n / 8; }
    assert IsPow2(n / 2) by { assert n / 2 / 2 == n / 4; }
  }

  lemma RoomForOne(n: nat, count: nat)
    requires IsCapacity(n) && 4 * count < 3 * n
    ensures 4 * (count + 1) <= 3 * n
  {
  }

  /** The next capacity. */
  function Doubled(n: nat): (m: nat)
    requires IsCapacity(n)
    ensures IsCapacity(m) && m > n && m == if n == 0 then 64 else 2 * n
  {
    if n != 0 then
      CapacityIsPow2(n);
      n * 2
    else 64
  }

  /** Masking with the capacity less one selects an existing bucket. */
  lemma SlotInRange(hash: nat, n: nat)
    requires IsCapacity(n) && n > 0
    ensures And(hash, n - 1) == hash % n < n
  {
    CapacityIsPow2(n);
    MaskIsModulo(hash, n);
  }

  /** The element that `contents` has for k hangs in a chain. */
  ghost predicate Chained<K, V>(contents: map<K, Elem<K, V>>, c: Chains<K, V>, nodes: set<Elem<K, V>>, k: K)
    requires k in contents
    reads nodes
  {
    var e := contents[k];
    && e in nodes && e.key == k && e.spot.bucket < |c|
    && e.spot.rank < |c[e.spot.bucket]| && c[e.spot.bucket][e.spot.rank] == e
  }

  /** The elements are exactly those of `contents`, each under its own key and with that key's hash. */
  ghost predicate Stored<K, V>(contents: map<K, Elem<K, V>>, c: Chains<K, V>, nodes: set<Elem<K, V>>, hashOf: K -> nat)
    reads nodes
  {
    && (forall e :: e in nodes ==> e.key in contents && contents[e.key] == e && e.hash == hashOf(e.key))
    && (forall k :: k in contents ==> Chained(contents, c, nodes, k))
  }

  /** Everything a table's elements have to satisfy. */
  ghost predicate Linked<K, V>(contents: map<K, Elem<K, V>>, c: Chains<K, V>, era: nat, nodes: set<Elem<K, V>>,
                               hashOf: K -> nat)
    reads nodes
  {
    Threaded(c, era, nodes) && Sorted(c, nodes) && Stored(contents, c, nodes, hashOf)
  }

  /** A new element on top of its chain keeps the table linked. */
  lemma LinkedPlus<K, V>(contents: map<K, Elem<K, V>>, c: Chains<K, V>, era: nat, nodes: set<Elem<K, V>>,
                         hashOf: K -> nat, e: Elem<K, V>)
    requires Linked(contents, c, era, nodes, hashOf)
    requires e !in nodes && e.key !in contents && e.hash == hashOf(e.key)
    requires e.spot.bucket < |c| && e.spot.bucket == And(e.hash, |c| - 1)
    requires e.spot == Spot(era, e.spot.bucket, |c[e.spot.bucket]|) && e.next == Head(c[e.spot.bucket])
    ensures Linked(contents[e.key := e], c[e.spot.bucket := c[e.spot.bucket] + [e]], era, nodes + {e}, hashOf)
  {
    var m, d, ns := contents[e.key := e], c[e.spot.bucket := c[e.spot.bucket] + [e]], nodes + {e};
    forall b: nat, p: nat | b < |d| && p < |d[b]|
      ensures Hung(d, era, ns, b, p) && Placed(d, ns, b, p)
    {
      if b != e.spot.bucket || p < |c[b]| {
        assert Hung(c, era, nodes, b, p) && Placed(c, nodes, b, p);
      }
    }
    forall k | k in m
      ensures Chained(m, d, ns, k)
    {
      if k != e.key {
        assert Chained(contents, c, nodes, k);
      }
    }
  }

  // ----- rehashing: chains are taken apart from their heads, bucket after bucket

  /** Elements not reached yet: buckets after i, and the r oldest of bucket i.  They hang as before. */
  ghost predicate Pending<K, V>(c: Chains<K, V>, era: nat, nodes: set<Elem<K, V>>, i: nat, r: nat)
    reads nodes
  {
    forall b: nat, p: nat :: b < |c| && p < |c[b]| && (b > i || (b == i && p < r)) ==> Hung(c, era, nodes, b, p)
  }

  /** Element p of chain b of c hangs in d, where its ghost fields say. */
  ghost predicate Arrived<K, V>(c: Chains<K, V>, d: Chains<K, V>, era: nat, nodes: set<Elem<K, V>>, b: nat, p: nat)
    requires b < |c| && p < |c[b]|
    reads nodes
  {
    var e := c[b][p];
    && e in nodes && e.spot.era == era
    && e.spot.bucket < |d| && e.spot.rank < |d[e.spot.bucket]| && d[e.spot.bucket][e.spot.rank] == e
  }

  /** Elements already relinked. */
  ghost predicate Moved<K, V>(c: Chains<K, V>, d: Chains<K, V>, era: nat, nodes: set<Elem<K, V>>, i: nat, r: nat)
    reads nodes
  {
    forall b: nat, p: nat :: b < |c| && p < |c[b]| && (b < i || (b == i && p >= r)) ==> Arrived(c, d, era, nodes, b, p)
  }

  function Length<K, V>(c: Chains<K, V>, i: nat): nat {
    if i < |c| then |c[i]| else 0
  }

  lemma NextBucket<K, V>(c: Chains<K, V>, d: Chains<K, V>, era: nat, newEra: nat, nodes: set<Elem<K, V>>, i: nat)
    requires i < |c| && Pending(c, era, nodes, i, 0) && Moved(c, d, newEra, nodes, i, 0)
    ensures Pending(c, era, nodes, i + 1, Length(c, i + 1)) && Moved(c, d, newEra, nodes, i + 1, Length(c, i + 1))
  {
  }

  lemma FirstBucket<K, V>(c: Chains<K, V>, d: Chains<K, V>, era: nat, newEra: nat, nodes: set<Elem<K, V>>)
    requires Threaded(c, era, nodes) && forall b :: 0 <= b < |d| ==> d[b] == []
    ensures Pending(c, era, nodes, 0, Length(c, 0)) && Moved(c, d, newEra, nodes, 0, Length(c, 0))
    ensures Threaded(d, newEra, nodes) && Sorted(d, nodes)
  {
  }

  /** Takes the element at the head of what is left of bucket i and puts it at the head of its new chain. */
  method Relink<K, V>(e: Elem<K, V>, t: array<Elem?<K, V>>, ghost c: Chains<K, V>, ghost d: Chains<K, V>,
                      ghost era: nat, ghost newEra: nat, ghost nodes: set<Elem<K, V>>, ghost i: nat, ghost r: nat)
    returns (next: Elem?<K, V>, ghost d': Chains<K, V>)
    requires i < |c| && 0 < r <= |c[i]| && e == c[i][r - 1] && e in nodes && newEra != era
    requires IsCapacity(|d|) && |d| > 0
    requires Pending(c, era, nodes, i, r) && Moved(c, d, newEra, nodes, i, r)
    requires Threaded(d, newEra, nodes) && Sorted(d, nodes) && Heads(t, d)
    modifies t, e`next, e`spot
    ensures |d'| == |d|
    ensures Pending(c, era, nodes, i, r - 1) && Moved(c, d', newEra, nodes, i, r - 1)
    ensures Threaded(d', newEra, nodes) && Sorted(d', nodes) && Heads(t, d')
    ensures next == if r == 1 then null else c[i][r - 2]
  {
    SlotInRange(e.hash, t.Length);
    hide IsCapacity, And;
    assert Hung(c, era, nodes, i, r - 1);
    var index := And(e.hash, t.Length - 1);
    next := e.next;
    e.next := t[index];
    t[index] := e;
    d' := d[index := d[index] + [e]];
    e.spot := Spot(newEra, index, |d[index]|);
    forall b: nat, p: nat | b < |c| && p < |c[b]| && (b > i || (b == i && p < r - 1))
      ensures Hung(c, era, nodes, b, p)
    {
      assert old(Hung(c, era, nodes, b, p));
    }
    forall b: nat, p: nat | b < |d'| && p < |d'[b]|
      ensures Hung(d', newEra, nodes, b, p) && Placed(d', nodes, b, p)
    {
      if b != index || p < |d[index]| {
        assert old(Hung(d, newEra, nodes, b, p)) && old(Placed(d, nodes, b, p));
      }
    }
    forall b: nat, p: nat | b < |c| && p < |c[b]| && (b < i || (b == i && p >= r - 1))
      ensures Arrived(c, d', newEra, nodes, b, p)
    {
      if b < i || p >= r {
        assert old(Arrived(c, d, newEra, nodes, b, p));
      }
    }
  }

  /** Relinks all of bucket i, from its head on. */
  method RelinkChain<K, V>(head: Elem?<K, V>, t: array<Elem?<K, V>>, ghost c: Chains<K, V>, ghost d: Chains<K, V>,
                           ghost era: nat, ghost newEra: nat, ghost nodes: set<Elem<K, V>>, ghost i: nat)
    returns (ghost d': Chains<K, V>)
    requires i < |c| && head == Head(c[i]) && newEra != era
    requires IsCapacity(|d|) && |d| > 0
    requires Pending(c, era, nodes, i, |c[i]|) && Moved(c, d, newEra, nodes, i, |c[i]|)
    requires Threaded(d, newEra, nodes) && Sorted(d, nodes) && Heads(t, d)
    modifies t, nodes`next, nodes`spot
    ensures |d'| == |d|
    ensures Pending(c, era, nodes, i, 0) && Moved(c, d', newEra, nodes, i, 0)
    ensures Threaded(d', newEra, nodes) && Sorted(d', nodes) && Heads(t, d')
  {
    hide Arrived, Placed, Threaded, Sorted, Pending, Moved, IsCapacity, Heads, Hung;
    var chain := head;
    ghost var r := |c[i]|;
    d' := d;
    while chain != null
      invariant 0 <= r <= |c[i]|
      invariant chain == if r == 0 then null else c[i][r - 1]
      invariant |d'| == |d|
      invariant Pending(c, era, nodes, i, r) && Moved(c, d', newEra, nodes, i, r)
      invariant Threaded(d', newEra, nodes) && Sorted(d', nodes) && Heads(t, d')
      decreases r
    {
      PendingNode(c, era, nodes, i, r);
      chain, d' := Relink(chain, t, c, d', era, newEra, nodes, i, r);
      r := r - 1;
    }
  }

  lemma PendingNode<K, V>(c: Chains<K, V>, era: nat, nodes: set<Elem<K, V>>, i: nat, r: nat)
    requires i < |c| && 0 < r <= |c[i]| && Pending(c, era, nodes, i, r)
    ensures c[i][r - 1] in nodes
  {
    assert Hung(c, era, nodes, i, r - 1);
  }

  ghost predicate At<K, V>(contents: map<K, Elem<K, V>>, c: Chains<K, V>, m: map<K, Spot>, k: K)
    requires k in contents
  {
    k in m && m[k].bucket < |c| && m[k].rank < |c[m[k].bucket]| && c[m[k].bucket][m[k].rank] == contents[k]
  }

  /** Where every key's element hangs. */
  ghost function Places<K, V>(contents: map<K, Elem<K, V>>, c: Chains<K, V>, nodes: set<Elem<K, V>>,
                              hashOf: K -> nat): (m: map<K, Spot>)
    requires Stored(contents, c, nodes, hashOf)
    reads nodes
    ensures forall k :: k in contents ==> At(contents, c, m, k)
  {
    assert forall k :: k in contents ==> Chained(contents, c, nodes, k);
    map k | k in contents :: contents[k].spot
  }

  /** Elements keep their keys and hashes. */
  ghost predicate Labelled<K, V>(contents: map<K, Elem<K, V>>, nodes: set<Elem<K, V>>, hashOf: K -> nat)
    reads nodes
  {
    && (forall e :: e in nodes ==> e.key in contents && contents[e.key] == e && e.hash == hashOf(e.key))
    && (forall k :: k in contents ==> contents[k] in nodes && contents[k].key == k)
  }

  /** Once every element has arrived in the new chains, every key is found there. */
  lemma AllArrived<K, V>(contents: map<K, Elem<K, V>>, c: Chains<K, V>, d: Chains<K, V>, era: nat,
                         nodes: set<Elem<K, V>>, hashOf: K -> nat, home: map<K, Spot>)
    requires Moved(c, d, era, nodes, |c|, 0)
    requires forall k :: k in contents ==> At(contents, c, home, k)
    requires Labelled(contents, nodes, hashOf)
    ensures Stored(contents, d, nodes, hashOf)
  {
    forall k | k in contents
      ensures Chained(contents, d, nodes, k)
    {
      assert At(contents, c, home, k);
      assert Arrived(c, d, era, nodes, home[k].bucket, home[k].rank);
    }
  }

  lemma StoredIsLabelled<K, V>(contents: map<K, Elem<K, V>>, c: Chains<K, V>, nodes: set<Elem<K, V>>, hashOf: K -> nat)
    requires Stored(contents, c, nodes, hashOf)
    ensures Labelled(contents, nodes, hashOf)
  {
  }

  /** Relinks every bucket of the old table into the new, empty one. */
  method RelinkAll<K, V>(oldTable: array?<Elem?<K, V>>, t: array<Elem?<K, V>>, ghost c: Chains<K, V>,
                         ghost era: nat, ghost newEra: nat, ghost nodes: set<Elem<K, V>>,
                         ghost contents: map<K, Elem<K, V>>, ghost hashOf: K -> nat)
    returns (ghost d: Chains<K, V>)
    requires newEra != era && Linked(contents, c, era, nodes, hashOf)
    requires if oldTable == null then c == [] else oldTable != t && Heads(oldTable, c)
    requires IsCapacity(t.Length) && t.Length > 0 && forall b :: 0 <= b < t.Length ==> t[b] == null
    modifies t, nodes`next, nodes`spot
    ensures |d| == t.Length
    ensures Linked(contents, d, newEra, nodes, hashOf) && Heads(t, d)
  {
    d := seq(t.Length, _ => []);
    FirstBucket(c, d, era, newEra, nodes);
    ghost var home := Places(contents, c, nodes, hashOf);
    StoredIsLabelled(contents, c, nodes, hashOf);
    hide Arrived, Placed, Threaded, Sorted, Pending, Moved, IsCapacity, Hung, Stored, At;
    var i := 0;
    while i < (if oldTable == null then 0 else oldTable.Length)
      invariant 0 <= i <= |c|
      invariant |d| == t.Length
      invariant Pending(c, era, nodes, i, Length(c, i)) && Moved(c, d, newEra, nodes, i, Length(c, i))
      invariant Threaded(d, newEra, nodes) && Sorted(d, nodes) && Heads(t, d)
    {
      d := RelinkChain(oldTable[i], t, c, d, era, newEra, nodes, i);
      NextBucket(c, d, era, newEra, nodes, i);
      i := i + 1;
    }
    AllArrived(contents, c, d, newEra, nodes, hashOf, home);
  }

  class GenericHashTable<K(==,!new), V> {
    const hashOf: K -> nat
    const blank: V

    var capacity: nat
    var count: nat
    var table: array?<Elem?<K, V>>

    /** The map the table stands for: from keys to the elements that hold them. */
    ghost var contents: map<K, Elem<K, V>>
    ghost var chains: Chains<K, V>
    ghost var nodes: set<Elem<K, V>>
    ghost var era: nat

    ghost predicate Valid()
      reads this, table, nodes
    {
      && (forall k :: hashOf(k) < HASH_RANGE)
      && IsCapacity(capacity) && capacity == |chains|
      && (capacity == 0 <==> table == null)
      && (table != null ==> Heads(table, chains))
      && Linked(contents, chains, era, nodes, hashOf)
      && count == |contents| && 4 * count <= 3 * capacity
    }

    /** The map from keys to values that a user of the table sees. */
    ghost function Values(): (m: map<K, V>)
      requires Valid()
      reads this, table, nodes
      ensures m.Keys == contents.Keys
      ensures forall k :: k in contents ==> contents[k] in nodes && m[k] == contents[k].value
    {
      assert forall k :: k in contents ==> Chained(contents, chains, nodes, k);
      map k | k in contents :: contents[k].value
    }

    constructor (hashOf: K -> nat, blank: V)
      requires forall k :: hashOf(k) < HASH_RANGE
      ensures Valid() && contents == map[] && nodes == {}
      ensures this.hashOf == hashOf && this.blank == blank
    {
      this.hashOf, this.blank := hashOf, blank;
      capacity, count, table := 0, 0, null;
      contents, chains, nodes, era := map[], [], {}, 0;
    }

    /** The element that holds the key, or null. */
    method Find(key: K) returns (r: Elem?<K, V>)
      requires Valid()
      ensures r == if key in contents then contents[key] else null
    {
      r := FindInternal(hashOf(key), key);
    }

    /** Back to the empty table. */
    method FreeAll()
      requires Valid()
      modifies this
      ensures Valid() && contents == map[] && nodes == {}
    {
      capacity, count, table := 0, 0, null;
      contents, chains, nodes := map[], [], {};
    }

    /** A key that is stored hangs in the bucket its hash selects, and nowhere else. */
    lemma Home(key: K, b: nat)
      requires Valid() && b < |chains| && b == And(hashOf(key), |chains| - 1)
      ensures key in contents ==>
        && contents[key].key == key && contents[key].spot.rank < |chains[b]|
        && chains[b][contents[key].spot.rank] == contents[key]
      ensures forall p :: 0 <= p < |chains[b]| && chains[b][p].key == key ==>
                key in contents && contents[key] == chains[b][p] && chains[b][p].hash == hashOf(key)
    {
      if key in contents {
        assert Chained(contents, chains, nodes, key);
        assert Placed(chains, nodes, contents[key].spot.bucket, contents[key].spot.rank);
      }
      forall p: nat | p < |chains[b]| && chains[b][p].key == key
        ensures key in contents && contents[key] == chains[b][p] && chains[b][p].hash == hashOf(key)
      {
        assert Hung(chains, era, nodes, b, p);
      }
    }

    lemma HungAt(b: nat, p: nat)
      requires Valid() && b < |chains| && p < |chains[b]|
      ensures chains[b][p] in nodes && chains[b][p].spot == Spot(era, b, p)
    {
      assert Hung(chains, era, nodes, b, p);
    }

    lemma KeyOf(e: Elem<K, V>)
      requires Valid() && e in nodes
      ensures e.key in contents && contents[e.key] == e
    {
    }

    lemma ElementOf(k: K)
      requires Valid() && k in contents
      ensures contents[k] in nodes && contents[k].key == k && OnChain(chains, contents[k].spot.bucket, contents[k])
    {
    }

    lemma NextIsOlder(b: nat, p: nat)
      requires Valid() && b < |chains| && p < |chains[b]|
      ensures chains[b][p].next == if p == 0 then null else chains[b][p - 1]
    {
      assert Hung(chains, era, nodes, b, p);
    }

    method FindInternal(hash: nat, key: K) returns (r: Elem?<K, V>)
      requires Valid() && hash == hashOf(key)
      ensures r == if key in contents then contents[key] else null
    {
      hide Stored, Sorted, Threaded, IsCapacity, IsPow2, And;
      if table == null {
        return null;
      }
      SlotInRange(hash, capacity);
      var index := And(hash, capacity - 1);
      Home(key, index);
      var chain := table[index];
      ghost var c, p := chains[index], |chains[index]|;
      while chain != null
        invariant 0 <= p <= |c|
        invariant chain == (if p == 0 then null else c[p - 1])
        invariant forall q :: p <= q < |c| ==> c[q].key != key
        decreases p
      {
        if hash == chain.hash && key == chain.key {
          return chain;
        }
        NextIsOlder(index, p - 1);
        chain := chain.next;
        p := p - 1;
      }
      return null;
    }

    /** Relinks every element into a new table. */
    method Rehash(newCapacity: nat) returns (newTable: array<Elem?<K, V>>, ghost d: Chains<K, V>)
      requires Valid() && IsCapacity(newCapacity) && newCapacity > 0
      modifies nodes`next, nodes`spot
      ensures fresh(newTable) && newTable.Length == |d| == newCapacity && Heads(newTable, d)
      ensures Linked(contents, d, era + 1, nodes, hashOf)
    {
      hide Linked, IsCapacity, Heads;
      newTable := new Elem?<K, V>[newCapacity](_ => null);
      d := RelinkAll(table, newTable, chains, era, era + 1, nodes, contents, hashOf);
    }

    /** Doubles the table and relinks every element; none is copied, lost or duplicated. */
    method Grow()
      requires Valid()
      modifies this`capacity, this`table, this`chains, this`era
      modifies nodes`next, nodes`spot
      ensures Valid()
      ensures capacity == if old(capacity) == 0 then 64 else 2 * old(capacity)
      ensures Values() == old(Values())
      ensures fresh(table)
    {
      hide Linked, IsCapacity, Heads, Values;
      var newCapacity := Doubled(capacity);
      var newTable;
      ghost var d;
      newTable, d := Rehash(newCapacity);
      capacity := newCapacity;
      table := newTable;
      chains, era := d, era + 1;
    }

    /** The element that holds the key, added if there was none.  Elements that were there before stay
        the same objects with the same values. */
    method Insert(key: K) returns (r: Elem<K, V>)
      requires Valid()
      modifies this`capacity, this`count, this`table, this`chains, this`era, this`contents, this`nodes, table
      modifies nodes`next, nodes`spot
      ensures Valid()
      ensures key in old(contents) ==> r == old(contents)[key] && contents == old(contents) && nodes == old(nodes)
      ensures key !in old(contents) ==>
        fresh(r) && r.key == key && r.value == blank && contents == old(contents)[key := r] && nodes == old(nodes) + {r}
      ensures Values() == if key in old(contents) then old(Values()) else old(Values())[key := blank]
      ensures r in nodes && r.key == key
      ensures table != old(table) ==> fresh(table)
    {
      hide Linked, IsCapacity, Heads, Values, And;
      var hash := hashOf(key);
      var index := And(hash, (capacity + SIZE_RANGE - 1) % SIZE_RANGE);
      var existing := FindInternal(hash, key);
      if existing != null {
        ElementOf(key);
        return existing;
      }
      if count * 4 >= capacity * 3 {
        Grow();
      }
      r := Link(hash, key);
    }

    /** Writes through a pointer that Find or Insert handed out; the table does not notice. */
    method Store(e: Elem<K, V>, value: V)
      requires Valid() && e in nodes
      modifies e`value
      ensures Valid() && e.value == value
      ensures e.key in old(contents) && Values() == old(Values())[e.key := value]
    {
      hide And, IsCapacity, Values;
      assert Linked(contents, chains, era, nodes, hashOf);
      e.value := value;
      forall b: nat, p: nat | b < |chains| && p < |chains[b]|
        ensures Hung(chains, era, nodes, b, p) && Placed(chains, nodes, b, p)
      {
        assert old(Hung(chains, era, nodes, b, p)) && old(Placed(chains, nodes, b, p));
      }
      forall k | k in contents
        ensures Chained(contents, chains, nodes, k)
      {
        assert old(Chained(contents, chains, nodes, k));
      }
    }

    /** Adds an element for a new key; the other keys keep their values. */
    method Link(hash: nat, key: K) returns (r: Elem<K, V>)
      requires Valid() && table != null && hash == hashOf(key) && key !in contents && 4 * count < 3 * capacity
      modifies this`count, this`chains, this`contents, this`nodes, table
      ensures Valid()
      ensures fresh(r) && r.key == key && r.value == blank && contents == old(contents)[key := r]
        && nodes == old(nodes) + {r}
      ensures Values() == old(Values())[key := blank]
    {
      hide Valid, Values;
      r := Hang(hash, key);
    }

    /** Hangs a new element at the head of its chain. */
    method Hang(hash: nat, key: K) returns (r: Elem<K, V>)
      requires Valid() && table != null && hash == hashOf(key) && key !in contents && 4 * count < 3 * capacity
      modifies this`count, this`chains, this`contents, this`nodes, table
      ensures Valid()
      ensures fresh(r) && r.key == key && r.value == blank && contents == old(contents)[key := r]
        && nodes == old(nodes) + {r}
    {
      hide And, IsCapacity, Linked, Heads;
      RoomForOne(capacity, count);
      SlotInRange(hash, capacity);
      var index := And(hash, capacity - 1);
      count := count + 1;
      HeadAt(table, chains, index);
      r := new Elem(hash, key, blank, table[index], Spot(era, index, |chains[index]|));
      LinkedPlus(contents, chains, era, nodes, hashOf, r);
      SetHead(table, chains, index, r);
      chains := chains[index := chains[index] + [r]];
      contents := contents[key := r];
      nodes := nodes + {r};
    }
  }

  // ----- iteration

  /** A chain as it is walked, newest element first. */
  function Down<K, V>(chain: seq<Elem<K, V>>): (d: seq<Elem<K, V>>)
    ensures |d| == |chain| && forall i :: 0 <= i < |d| ==> d[i] == chain[|chain| - 1 - i]
  {
    seq(|chain|, i requires 0 <= i < |chain| => chain[|chain| - 1 - i])
  }

  /** The elements of buckets i and up in the order they are visited. */
  function Flat<K, V>(c: Chains<K, V>, i: nat): seq<Elem<K, V>>
    decreases |c| - i
  {
    if i >= |c| then [] else Down(c[i]) + Flat(c, i + 1)
  }

  /** What an iterator standing on curr, with bucket index next in line, has still to visit. */
  ghost function Left<K, V>(c: Chains<K, V>, index: nat, curr: Elem?<K, V>): seq<Elem<K, V>>
    reads curr
  {
    if curr != null && OnChain(c, curr.spot.bucket, curr) then
      Down(c[curr.spot.bucket][..curr.spot.rank]) + Flat(c, index)
    else Flat(c, index)
  }

  ghost predicate OnChain<K, V>(c: Chains<K, V>, b: nat, e: Elem<K, V>)
    reads e
  {
    b < |c| && e.spot.bucket == b && e.spot.rank < |c[b]| && c[b][e.spot.rank] == e
  }

  lemma {:induction false} FlatElement<K(!new), V>(tab: GenericHashTable<K, V>, i: nat, j: nat)
    requires tab.Valid() && j < |Flat(tab.chains, i)|
    ensures var e := Flat(tab.chains, i)[j];
      e in tab.nodes && e.spot.bucket >= i && OnChain(tab.chains, e.spot.bucket, e)
    decreases |tab.chains| - i
  {
    var c := tab.chains;
    if j < |c[i]| {
      tab.HungAt(i, |c[i]| - 1 - j);
    } else {
      FlatElement(tab, i + 1, j - |c[i]|);
    }
  }

  lemma {:induction false} FlatDistinct<K(!new), V>(tab: GenericHashTable<K, V>, i: nat, j: nat, k: nat)
    requires tab.Valid() && j < k < |Flat(tab.chains, i)|
    ensures Flat(tab.chains, i)[j] != Flat(tab.chains, i)[k]
    decreases |tab.chains| - i
  {
    var c := tab.chains;
    if j >= |c[i]| {
      FlatDistinct(tab, i + 1, j - |c[i]|, k - |c[i]|);
    } else {
      tab.HungAt(i, |c[i]| - 1 - j);
      if k < |c[i]| {
        tab.HungAt(i, |c[i]| - 1 - k);
      } else {
        FlatElement(tab, i + 1, k - |c[i]|);
      }
    }
  }

  lemma {:induction false} FlatHas<K(!new), V>(tab: GenericHashTable<K, V>, i: nat, e: Elem<K, V>)
    requires tab.Valid() && i <= e.spot.bucket && OnChain(tab.chains, e.spot.bucket, e)
    ensures e in Flat(tab.chains, i)
    decreases |tab.chains| - i
  {
    var c := tab.chains;
    if e.spot.bucket == i {
      assert Down(c[i])[|c[i]| - 1 - e.spot.rank] == e;
    } else {
      FlatHas(tab, i + 1, e);
    }
  }

  /** Walking all buckets meets every stored key exactly once. */
  lemma FlatVisitsAll<K(!new), V>(tab: GenericHashTable<K, V>)
    requires tab.Valid()
    ensures var all := Flat(tab.chains, 0);
      && |all| == tab.count
      && (forall j, k :: 0 <= j < k < |all| ==> all[j].key != all[k].key)
      && (forall k :: k in tab.contents <==> exists j :: 0 <= j < |all| && all[j].key == k)
  {
    var all := Flat(tab.chains, 0);
    forall j, k | 0 <= j < k < |all|
      ensures all[j].key != all[k].key
    {
      FlatElement(tab, 0, j);
      FlatElement(tab, 0, k);
      FlatDistinct(tab, 0, j, k);
      tab.KeyOf(all[j]);
      tab.KeyOf(all[k]);
    }
    forall j | 0 <= j < |all|
      ensures all[j].key in tab.contents
    {
      FlatElement(tab, 0, j);
      tab.KeyOf(all[j]);
    }
    forall k | k in tab.contents
      ensures exists j :: 0 <= j < |all| && all[j].key == k
    {
      tab.ElementOf(k);
      FlatHas(tab, 0, tab.contents[k]);
    }
    var keys := seq(|all|, j requires 0 <= j < |all| reads all => all[j].key);
    forall k | k in tab.contents
      ensures k in keys
    {
      var j :| 0 <= j < |all| && all[j].key == k;
      assert keys[j] == k;
    }
    DistinctSize(keys, tab.contents.Keys);
  }

  lemma {:induction false} DistinctSize<K>(s: seq<K>, t: set<K>)
    requires forall i, j :: 0 <= i < j < |s| ==> s[i] != s[j]
    requires forall k :: k in s <==> k in t
    ensures |s| == |t|
  {
    if s == [] {
      assert t == {};
    } else {
      assert s == [s[0]] + s[1..];
      DistinctSize(s[1..], t - {s[0]});
    }
  }

  class Iterator<K(==,!new), V> {
    var index: nat
    const max: nat
    const table: array?<Elem?<K, V>>
    var curr: Elem?<K, V>

    /** The iterator belongs to the table as it is now, and stands on one of its elements or on none. */
    ghost predicate Valid(tab: GenericHashTable<K, V>)
      reads this, tab, tab.table, tab.nodes
    {
      && tab.Valid() && max == tab.capacity && table == tab.table && index <= max
      && (curr != null ==> curr in tab.nodes && 0 < index && OnChain(tab.chains, index - 1, curr))
    }

    constructor Begin(tab: GenericHashTable<K, V>)
      requires tab.Valid()
      ensures Valid(tab)
      ensures if Flat(tab.chains, 0) == [] then AtEnd()
              else curr == Flat(tab.chains, 0)[0] && Left(tab.chains, index, curr) == Flat(tab.chains, 0)[1..]
    {
      index, max, table, curr := 0, tab.capacity, tab.table, null;
      new;
      Step(tab);
    }

    /** Equal to the end iterator. */
    predicate AtEnd()
      reads this
    {
      index == max && curr == null
    }

    method Step(ghost tab: GenericHashTable<K, V>)
      requires Valid(tab)
      modifies this
      ensures Valid(tab)
      ensures var left := old(Left(tab.chains, index, curr));
        if left == [] then AtEnd()
        else curr == left[0] && Left(tab.chains, index, curr) == left[1..]
    {
      hide GenericHashTable.Valid, Left, Flat, OnChain;
      ghost var c, left := tab.chains, Left(tab.chains, index, curr);
      if curr == null {
        LeftOfNone(c, index);
      } else {
        AfterElement(tab, index, curr);
        curr := curr.next;
      }
      while curr == null && index < max
        invariant index <= max
        invariant curr != null ==> curr in tab.nodes && 0 < index && OnChain(c, index - 1, curr)
        invariant if curr == null then Flat(c, index) == left else left == [curr] + Left(c, index, curr)
        decreases max - index
      {
        FirstOfBucket(tab, index);
        curr := table[index];
        index := index + 1;
      }
      if curr == null {
        FlatBeyond(tab, index);
      }
    }
  }

  lemma LeftOfNone<K, V>(c: Chains<K, V>, index: nat)
    ensures Left(c, index, null) == Flat(c, index)
  {
  }

  lemma FlatBeyond<K(!new), V>(tab: GenericHashTable<K, V>, index: nat)
    requires tab.Valid() && index >= tab.capacity
    ensures Flat(tab.chains, index) == []
  {
  }

  /** What is left behind an element starts with the next one of its chain, if there is one. */
  lemma AfterElement<K(!new), V>(tab: GenericHashTable<K, V>, index: nat, e: Elem<K, V>)
    requires tab.Valid() && 0 < index && e in tab.nodes && OnChain(tab.chains, index - 1, e)
    ensures e.next == null ==> Left(tab.chains, index, e) == Flat(tab.chains, index)
    ensures e.next != null ==> e.next in tab.nodes && OnChain(tab.chains, index - 1, e.next)
    ensures e.next != null ==> Left(tab.chains, index, e) == [e.next] + Left(tab.chains, index, e.next)
  {
    var b, p := e.spot.bucket, e.spot.rank;
    tab.NextIsOlder(b, p);
    if p > 0 {
      tab.HungAt(b, p - 1);
      hide GenericHashTable.Valid, Flat;
      assert Down(tab.chains[b][..p]) == [e.next] + Down(tab.chains[b][..p - 1]);
    }
  }

  /** A bucket that is not empty is entered at its head. */
  lemma FirstOfBucket<K(!new), V>(tab: GenericHashTable<K, V>, index: nat)
    requires tab.Valid() && index < tab.capacity
    ensures tab.table != null && index < tab.table.Length
    ensures var e := tab.table[index];
      && (e == null ==> Flat(tab.chains, index) == Flat(tab.chains, index + 1))
      && (e != null ==> e in tab.nodes && OnChain(tab.chains, index, e))
      && (e != null ==> Flat(tab.chains, index) == [e] + Left(tab.chains, index + 1, e))
  {
    var c := tab.chains;
    HeadAt(tab.table, c, index);
    if c[index] != [] {
      var r := |c[index]| - 1;
      tab.HungAt(index, r);
      hide GenericHashTable.Valid;
      assert Down(c[index]) == [c[index][r]] + Down(c[index][..r]);
    }
  }

  /** The loop over all elements from begin to end. */
  method Visit<K(==,!new), V>(tab: GenericHashTable<K, V>) returns (keys: seq<K>)
    requires tab.Valid()
    ensures |keys| == tab.count
    ensures forall i, j :: 0 <= i < j < |keys| ==> keys[i] != keys[j]
    ensures forall k :: k in keys <==> k in tab.contents
  {
    hide GenericHashTable.Valid, Flat, Left, OnChain;
    ghost var all := Flat(tab.chains, 0);
    forall i | 0 <= i < |all|
      ensures all[i] in tab.nodes
    {
      FlatElement(tab, 0, i);
    }
    keys := [];
    var it := new Iterator.Begin(tab);
    while !it.AtEnd()
      invariant it.Valid(tab)
      invariant |keys| <= |all| && forall i :: 0 <= i < |keys| ==> keys[i] == all[i].key
      invariant it.curr == null ==> it.AtEnd() && |keys| == |all|
      invariant it.curr != null ==> |keys| < |all| && it.curr == all[|keys|]
      invariant it.curr != null ==> Left(tab.chains, it.index, it.curr) == all[|keys| + 1..]
      decreases |all| - |keys|
    {
      keys := keys + [it.curr.key];
      assert Left(tab.chains, it.index, it.curr) == all[|keys|..];
      it.Step(tab);
    }
    KeysOnce(tab, keys);
  }

  lemma KeysOnce<K(!new), V>(tab: GenericHashTable<K, V>, keys: seq<K>)
    requires tab.Valid()
    requires |keys| == |Flat(tab.chains, 0)|
    requires forall i :: 0 <= i < |keys| ==> keys[i] == Flat(tab.chains, 0)[i].key
    ensures |keys| == tab.count
    ensures forall i, j :: 0 <= i < j < |keys| ==> keys[i] != keys[j]
    ensures forall k :: k in keys <==> k in tab.contents
  {
    FlatVisitsAll(tab);
    var all := Flat(tab.chains, 0);
    hide GenericHashTable.Valid, Flat;
    forall k | k in tab.contents
      ensures k in keys
    {
      var j :| 0 <= j < |all| && all[j].key == k;
      assert keys[j] == k;
    }
  }
}
