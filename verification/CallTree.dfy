/** The call tree: one node for each prefix of a sample's path of names, with the sums of the samples below. */
module CallTree {
  import opened Counters
  import opened Symbols
  import opened ProfileModel
  import opened Profile
  import StackModel

  class Node {
    const parent: Node?
    const symbolName: string
    var fileName: string
    var stats: seq<nat>
    var children: seq<Node>

    /** The names from the root to here. */
    ghost const path: seq<string>

    constructor (parent: Node?, symbolName: string, ghost path: seq<string>)
      ensures this.parent == parent && this.symbolName == symbolName && this.path == path
      ensures stats == Blank() && children == [] && fileName == ""
    {
      fileName := "";
      this.parent, this.symbolName, this.path := parent, symbolName, path;
      stats, children := Blank(), [];
    }

    /** The child of this name, added at the end if there is none. */
    method Child(name: string) returns (isNew: bool, node: Node)
      modifies this`children
      ensures isNew <==> !HasChild(old(children), name)
      ensures !isNew ==> children == old(children) && node in children && node.symbolName == name
      ensures isNew ==>
        fresh(node) && children == old(children) + [node] && node.parent == this && node.symbolName == name
      ensures isNew ==>
        node.path == path + [name] && node.stats == Blank() && node.children == [] && node.fileName == ""
    {
      for i := 0 to |children|
        invariant children == old(children)
        invariant forall j :: 0 <= j < i ==> children[j].symbolName != name
      {
        if children[i].symbolName == name {
          return false, children[i];
        }
      }
      isNew := true;
      node := new Node(this, name, path + [name]);
      children := children + [node];
    }
  }

  // ----- what holds of a node

  ghost predicate HasChild(children: seq<Node>, name: string) {
    exists i :: 0 <= i < |children| && children[i].symbolName == name
  }

  ghost predicate ChildOf(n: Node, c: Node, nodes: set<Node>) {
    c in nodes && c.parent == n && c.path == n.path + [c.symbolName]
  }

  /** The children belong to the tree, know their parent, and have different names. */
  ghost predicate Family(n: Node, children: seq<Node>, nodes: set<Node>) {
    && (forall i :: 0 <= i < |children| ==> ChildOf(n, children[i], nodes))
    && (forall i, j :: 0 <= i < j < |children| ==> children[i].symbolName != children[j].symbolName)
  }

  /** There is a child wherever a path goes on. */
  ghost predicate Complete(p: seq<string>, children: seq<Node>, paths: seq<seq<string>>) {
    forall j :: 0 <= j < |paths| && p < paths[j] ==> HasChild(children, paths[j][|p|])
  }

  /** The root counts nothing; every other node is on some path and shows the sums of the samples through it. */
  ghost predicate Counts(n: Node, paths: seq<seq<string>>, samples: seq<Sample>)
    requires |paths| <= |samples|
    reads n`stats
  {
    if n.path == [] then n.stats == Blank() else Entry(n.stats, paths, samples, n.path)
  }

  /** The node's children are right. */
  ghost predicate Shaped(n: Node, nodes: set<Node>, paths: seq<seq<string>>)
    reads n`children
  {
    Family(n, n.children, nodes) && Complete(n.path, n.children, paths)
  }

  /** Paths tell nodes apart, and every node but the root is a child of its parent. */
  ghost predicate Rooted(root: Node, nodes: set<Node>)
    reads nodes`children
  {
    && root in nodes && root.path == []
    && (forall m, n :: m in nodes && n in nodes && m.path == n.path ==> m == n)
    && (forall n :: n in nodes && n != root ==> Attached(n, nodes))
  }

  ghost predicate Attached(n: Node, nodes: set<Node>)
    reads nodes`children
  {
    var p := n.parent;
    p != null && p in nodes && n in p.children
  }

  /** The tree is the prefix tree of these paths. */
  ghost predicate Represents(root: Node, nodes: set<Node>, paths: seq<seq<string>>, samples: seq<Sample>)
    requires |paths| <= |samples|
    reads nodes
  {
    && Rooted(root, nodes)
    && (forall n :: n in nodes ==> Shaped(n, nodes, paths))
    && (forall n :: n in nodes ==> Counts(n, paths, samples))
  }

  // ----- file names

  /** Path j is the first that goes through p. */
  ghost predicate FirstThrough(paths: seq<seq<string>>, p: seq<string>, j: nat) {
    j < |paths| && p <= paths[j] && forall i :: 0 <= i < j ==> !(p <= paths[i])
  }

  predicate FileAt(files: seq<seq<string>>, j: nat, depth: nat, file: string) {
    j < |files| && 0 < depth <= |files[j]| && files[j][depth - 1] == file
  }

  /** The node shows the source file of the call that made it: the first sample's through it. */
  ghost predicate Filed(n: Node, paths: seq<seq<string>>, files: seq<seq<string>>)
    reads n`fileName
  {
    n.path == [] || exists j: nat :: FirstThrough(paths, n.path, j) && FileAt(files, j, |n.path|, n.fileName)
  }

  lemma FiledStep(n: Node, paths: seq<seq<string>>, b: seq<string>, k: string,
                  files: seq<seq<string>>, fb: seq<string>, f: string)
    requires |files| == |paths| && Filed(n, paths + [b], files + [fb])
    ensures Filed(n, paths + [b + [k]], files + [fb + [f]])
  {
    if n.path != [] {
      var j: nat :| FirstThrough(paths + [b], n.path, j) && FileAt(files + [fb], j, |n.path|, n.fileName);
      assert forall i :: 0 <= i < j ==> (paths + [b])[i] == (paths + [b + [k]])[i];
      assert FirstThrough(paths + [b + [k]], n.path, j);
      assert FileAt(files + [fb + [f]], j, |n.path|, n.fileName);
    }
  }

  lemma FiledNew(n: Node, paths: seq<seq<string>>, b: seq<string>, files: seq<seq<string>>, fb: seq<string>)
    requires |files| == |paths| && |fb| == |b| && n.path == b + [n.symbolName]
    requires forall i :: 0 <= i < |paths| ==> !(n.path <= paths[i])
    ensures Filed(n, paths + [n.path], files + [fb + [n.fileName]])
  {
    assert FirstThrough(paths + [n.path], n.path, |paths|);
    assert FileAt(files + [fb + [n.fileName]], |paths|, |n.path|, n.fileName);
  }

  lemma FiledSkip(n: Node, paths: seq<seq<string>>, files: seq<seq<string>>)
    requires |files| == |paths| && Filed(n, paths, files)
    ensures Filed(n, paths + [[]], files + [[]])
  {
    if n.path != [] {
      var j: nat :| FirstThrough(paths, n.path, j) && FileAt(files, j, |n.path|, n.fileName);
      assert forall i :: 0 <= i <= j ==> (paths + [[]])[i] == paths[i];
      assert FirstThrough(paths + [[]], n.path, j);
      assert FileAt(files + [[]], j, |n.path|, n.fileName);
    }
  }

  // ----- one more step of the last path

  lemma SumStep(paths: seq<seq<string>>, b: seq<string>, k: string, samples: seq<Sample>, p: seq<string>, c: nat)
    requires |paths| < |samples| && p != b + [k]
    ensures SumUnder(paths + [b + [k]], samples, p, c) == SumUnder(paths + [b], samples, p, c)
  {
    SumNext(paths, b, samples, p, c);
    SumNext(paths, b + [k], samples, p, c);
    PrefixStep(p, b, k);
  }

  lemma PrefixStep(p: seq<string>, b: seq<string>, k: string)
    requires p != b + [k]
    ensures p <= b + [k] <==> p <= b
  {
    if p <= b + [k] {
      assert |p| <= |b|;
      assert (b + [k])[..|p|] == b[..|p|];
    }
  }

  lemma CountsStep(n: Node, paths: seq<seq<string>>, b: seq<string>, k: string, samples: seq<Sample>)
    requires |paths| < |samples| && Counts(n, paths + [b], samples) && n.path != b + [k]
    ensures Counts(n, paths + [b + [k]], samples)
  {
    if n.path != [] {
      forall c | 0 <= c < COUNTERS
        ensures n.stats[c] == SumUnder(paths + [b + [k]], samples, n.path, c) % WORD_RANGE
      {
        SumStep(paths, b, k, samples, n.path, c);
      }
      hide SumUnder;
      PrefixStep(n.path, b, k);
      var j :| 0 <= j < |paths + [b]| && n.path <= (paths + [b])[j];
      assert n.path <= (paths + [b + [k]])[j];
    }
  }

  lemma CompleteStep(p: seq<string>, children: seq<Node>, paths: seq<seq<string>>, b: seq<string>, k: string)
    requires Complete(p, children, paths + [b]) && (p == b ==> HasChild(children, k))
    ensures Complete(p, children, paths + [b + [k]])
  {
    var longer := paths + [b + [k]];
    forall j | 0 <= j < |longer| && p < longer[j]
      ensures HasChild(children, longer[j][|p|])
    {
      if j < |paths| {
        assert (paths + [b])[j] == longer[j];
      } else if p != b {
        assert p != b + [k];
        PrefixStep(p, b, k);
        assert p < (paths + [b])[j];
      }
    }
  }

  /** A new child keeps a node's children right and needs no children of its own. */
  lemma NewChild(b: Node, children: seq<Node>, c: Node, nodes: set<Node>, paths: seq<seq<string>>)
    requires Family(b, children, nodes) && Complete(b.path, children, paths)
    requires ChildOf(b, c, nodes + {c}) && !HasChild(children, c.symbolName)
    ensures Family(b, children + [c], nodes + {c}) && Complete(b.path, children + [c], paths)
    ensures Complete(c.path, [], paths)
  {
    forall j | 0 <= j < |paths| && b.path < paths[j]
      ensures HasChild(children + [c], paths[j][|b.path|])
    {
      var i :| 0 <= i < |children| && children[i].symbolName == paths[j][|b.path|];
      assert (children + [c])[i].symbolName == paths[j][|b.path|];
    }
    forall j | 0 <= j < |paths|
      ensures !(c.path < paths[j])
    {
      Beneath(b.path, c.symbolName, paths[j]);
    }
  }

  lemma TakesUp(stats: seq<nat>, more: seq<nat>, paths: seq<seq<string>>, b: seq<string>, k: string,
                samples: seq<Sample>)
    requires |paths| < |samples| && |samples[|paths|].stats| == |more| == COUNTERS
    requires Shows(stats, paths + [b], samples, b + [k])
    requires forall c :: 0 <= c < COUNTERS ==> more[c] == (stats[c] + samples[|paths|].stats[c]) % WORD_RANGE
    ensures Entry(more, paths + [b + [k]], samples, b + [k])
  {
    forall c | 0 <= c < COUNTERS
      ensures stats[c] == SumUnder(paths, samples, b + [k], c) % WORD_RANGE
    {
      SumNext(paths, b, samples, b + [k], c);
    }
    EntryTakesUp(stats, more, paths, b + [k], samples, b + [k]);
  }

  lemma Beneath(p: seq<string>, k: string, q: seq<string>)
    ensures p + [k] <= q <==> p < q && q[|p|] == k
  {
  }

  /** A path that no child continues has nothing under it. */
  lemma NoChildNoSum(children: seq<Node>, p: seq<string>, paths: seq<seq<string>>, k: string, samples: seq<Sample>)
    requires |paths| <= |samples| && Complete(p, children, paths) && !HasChild(children, k)
    ensures forall j :: 0 <= j < |paths| ==> !(p + [k] <= paths[j])
    ensures Shows(Blank(), paths, samples, p + [k])
  {
    forall j | 0 <= j < |paths|
      ensures !(p + [k] <= paths[j])
    {
      Beneath(p, k, paths[j]);
    }
    ShowsNothing(paths, samples, p + [k]);
  }

  lemma ChildThere(n: Node, c: Node)
    requires c in n.children
    ensures HasChild(n.children, c.symbolName)
  {
  }

  lemma NoSuchNode(root: Node, b: Node, k: string, nodes: set<Node>, paths: seq<seq<string>>)
    requires Rooted(root, nodes) && b in nodes && !HasChild(b.children, k)
    requires forall n :: n in nodes ==> Shaped(n, nodes, paths)
    ensures forall n :: n in nodes ==> n.path != b.path + [k]
  {
    hide Complete;
    forall n | n in nodes
      ensures n.path != b.path + [k]
    {
      if n != root {
        assert Attached(n, nodes);
        assert Shaped(n.parent, nodes, paths);
        assert ChildOf(n.parent, n, nodes);
        if n.path == b.path + [k] {
          assert n.path[..|n.path| - 1] == n.parent.path == b.path;
          ChildThere(b, n);
          assert false;
        }
      }
    }
  }

  lemma ShapedSteps(root: Node, nodes: set<Node>, b: Node, paths: seq<seq<string>>, k: string)
    requires Rooted(root, nodes) && b in nodes && HasChild(b.children, k)
    requires forall n :: n in nodes ==> Shaped(n, nodes, paths + [b.path])
    ensures forall n :: n in nodes ==> Shaped(n, nodes, paths + [b.path + [k]])
  {
    hide Shaped;
    forall n | n in nodes
      ensures Shaped(n, nodes, paths + [b.path + [k]])
    {
      ShapedStep(n, nodes, b, paths, k);
    }
  }

  lemma CountsSteps(root: Node, nodes: set<Node>, next: Node, paths: seq<seq<string>>, b: seq<string>, k: string,
                    samples: seq<Sample>)
    requires |paths| < |samples| && Rooted(root, nodes) && next in nodes && next.path == b + [k]
    requires forall n :: n in nodes && n != next ==> Counts(n, paths + [b], samples)
    ensures forall n :: n in nodes && n != next ==> Counts(n, paths + [b + [k]], samples)
  {
    hide Counts;
    forall n | n in nodes && n != next
      ensures Counts(n, paths + [b + [k]], samples)
    {
      CountsStep(n, paths, b, k, samples);
    }
  }

  lemma ShowsLength(stats: seq<nat>, paths: seq<seq<string>>, samples: seq<Sample>, p: seq<string>)
    requires |paths| <= |samples| && Shows(stats, paths, samples, p)
    ensures |stats| == COUNTERS
  {
  }

  lemma CountsShow(n: Node, paths: seq<seq<string>>, samples: seq<Sample>)
    requires |paths| <= |samples| && Counts(n, paths, samples) && n.path != []
    ensures Shows(n.stats, paths, samples, n.path)
  {
  }

  lemma EntryCounts(n: Node, paths: seq<seq<string>>, samples: seq<Sample>)
    requires |paths| <= |samples| && n.path != [] && Entry(n.stats, paths, samples, n.path)
    ensures Counts(n, paths, samples)
  {
  }

  lemma ShapedStep(n: Node, nodes: set<Node>, b: Node, paths: seq<seq<string>>, k: string)
    requires Shaped(n, nodes, paths + [b.path]) && HasChild(b.children, k) && (n.path == b.path ==> n == b)
    ensures Shaped(n, nodes, paths + [b.path + [k]])
  {
    CompleteStep(n.path, n.children, paths, b.path, k);
  }

  class Tree {
    const root: Node
    ghost var nodes: set<Node>

    ghost predicate Valid(paths: seq<seq<string>>, samples: seq<Sample>)
      requires |paths| <= |samples|
      reads this, nodes
    {
      Represents(root, nodes, paths, samples)
    }

    constructor (ghost samples: seq<Sample>)
      ensures Valid([], samples) && AllFiled([], []) && fresh(nodes)
    {
      root := new Node(null, "", []);
      nodes := {root};
    }

    /** Every node shows its file name. */
    ghost predicate AllFiled(paths: seq<seq<string>>, files: seq<seq<string>>)
      reads this, nodes`fileName
    {
      forall n :: n in nodes ==> Filed(n, paths, files)
    }

    /** The shape alone: the tree has a node for each prefix of a path. */
    ghost predicate Grown(paths: seq<seq<string>>)
      reads this, nodes`children
    {
      Rooted(root, nodes) && forall n :: n in nodes ==> Shaped(n, nodes, paths)
    }

    /** The child of a node, made if need be. */
    method Reach(branch: Node, name: string, ghost paths: seq<seq<string>>) returns (isNew: bool, next: Node)
      requires branch in nodes && Grown(paths)
      modifies this`nodes, branch`children
      ensures Grown(paths) && next in nodes && next.path == branch.path + [name] && HasChild(branch.children, name)
      ensures old(nodes) <= nodes <= old(nodes) + {next} && (next !in old(nodes) ==> fresh(next))
      ensures isNew == (next !in old(nodes))
      ensures isNew ==> next.stats == Blank() && next.symbolName == name && !HasChild(old(branch.children), name)
      ensures isNew ==> next.fileName == ""
    {
      hide Complete;
      assert Shaped(branch, nodes, paths);
      ghost var before, kids := nodes, branch.children;
      if !HasChild(branch.children, name) {
        NoSuchNode(root, branch, name, nodes, paths);
      }
      isNew, next := branch.Child(name);
      ChildThere(branch, next);
      if !isNew {
        assert ChildOf(branch, next, nodes);
        return;
      }
      NewChild(branch, kids, next, before, paths);
      nodes := nodes + {next};
      assert Rooted(root, nodes) by {
        forall n | n in nodes && n != root
          ensures Attached(n, nodes)
        {
          assert n != next ==> old(Attached(n, nodes));
        }
      }
      forall n | n in before && n != branch
        ensures Shaped(n, nodes, paths)
      {
        assert old(Shaped(n, nodes, paths));
      }
    }

    /** Adds the sample's counters to the node that the path has just reached. */
    method AddTo(node: Node, more: seq<nat>, ghost branch: Node, ghost name: string,
                 ghost paths: seq<seq<string>>, ghost samples: seq<Sample>)
      requires |paths| < |samples| && more == samples[|paths|].stats && |more| == COUNTERS
      requires branch in nodes && node in nodes && node.path == branch.path + [name] && HasChild(branch.children, name)
      requires Grown(paths + [branch.path]) && Shows(node.stats, paths + [branch.path], samples, node.path)
      requires forall n :: n in nodes && n != node ==> Counts(n, paths + [branch.path], samples)
      modifies node`stats
      ensures Valid(paths + [node.path], samples)
    {
      hide *;
      GrownIs(paths + [branch.path]);
      ShapedSteps(root, nodes, branch, paths, name);
      CountsSteps(root, nodes, node, paths, branch.path, name, samples);
      ShowsLength(node.stats, paths + [branch.path], samples, node.path);
      var stats := Accumulate(node.stats, more);
      TakesUp(node.stats, stats, paths, branch.path, name, samples);
      label L: node.stats := stats;
      EntryCounts(node, paths + [node.path], samples);
      GrownIs(paths + [node.path]);
      forall n | n in nodes && n != node
        ensures Counts(n, paths + [node.path], samples)
      {
        assert old@L(Counts(n, paths + [node.path], samples));
      }
      ValidIs(paths + [node.path], samples);
    }

    lemma GrownIs(paths: seq<seq<string>>)
      ensures Grown(paths) <==> Rooted(root, nodes) && forall n :: n in nodes ==> Shaped(n, nodes, paths)
    {
    }

    lemma ValidIs(paths: seq<seq<string>>, samples: seq<Sample>)
      requires |paths| <= |samples|
      ensures Valid(paths, samples) <==> Grown(paths) && forall n :: n in nodes ==> Counts(n, paths, samples)
    {
    }

    /** Goes down one call from a node and adds the sample's counters there. */
    method Descend(data: TraceData, branch: Node, rip: nat, more: seq<nat>, ghost paths: seq<seq<string>>,
                   ghost files: seq<seq<string>>, ghost fb: seq<string>, ghost samples: seq<Sample>)
      returns (next: Node)
      requires data.Valid() && |files| == |paths| < |samples| && more == samples[|paths|].stats && |more| == COUNTERS
      requires branch in nodes && Valid(paths + [branch.path], samples)
      requires |fb| == |branch.path| && AllFiled(paths + [branch.path], files + [fb])
      modifies data, this`nodes, nodes`children, nodes`stats
      ensures data.Valid() && next in nodes && next.path == branch.path + [data.trace.Label(rip)]
      ensures fresh(nodes - old(nodes)) && Valid(paths + [next.path], samples)
      ensures AllFiled(paths + [next.path], files + [fb + [data.trace.FileName(rip)]])
    {
      hide Shaped, Counts, Rooted, Shows, Filed, TraceData.Valid, Trace.Label, Trace.FileName;
      var name := Label(data, rip);
      ghost var ps, before := paths + [branch.path], nodes;
      NothingThrough(branch, paths, branch.path, name, samples);
      var isNew;
      isNew, next := Reach(branch, name, ps);
      if isNew {
        var file := FileOf(data, rip);
        next.fileName := file;
        FiledNew(next, paths, branch.path, files, fb);
      }
      forall n | n in before
        ensures Counts(n, ps, samples) && Filed(n, paths + [next.path], files + [fb + [data.trace.FileName(rip)]])
      {
        assert old(Counts(n, ps, samples)) && old(Filed(n, ps, files + [fb]));
        FiledStep(n, paths, branch.path, name, files, fb, data.trace.FileName(rip));
      }
      if next in before {
        CountsShow(next, ps, samples);
      }
      AddTo(next, more, branch, name, paths, samples);
    }

    /** A name that no child has leads to no sample. */
    lemma NothingThrough(branch: Node, paths: seq<seq<string>>, b: seq<string>, k: string, samples: seq<Sample>)
      requires |paths| < |samples| && branch in nodes && b == branch.path && Valid(paths + [b], samples)
      ensures !HasChild(branch.children, k) ==> Shows(Blank(), paths + [b], samples, b + [k])
      ensures !HasChild(branch.children, k) ==> forall i :: 0 <= i < |paths| ==> !(b + [k] <= paths[i])
    {
      var ps := paths + [b];
      assert Shaped(branch, nodes, ps);
      if !HasChild(branch.children, k) {
        NoChildNoSum(branch.children, b, ps, k, samples);
        assert forall i :: 0 <= i < |paths| ==> ps[i] == paths[i];
      }
    }

    /** Takes one sample down its path of labels. */
    method AddSample(data: TraceData, frames: seq<nat>, more: seq<nat>, ghost paths: seq<seq<string>>,
                     ghost files: seq<seq<string>>, ghost samples: seq<Sample>)
      requires data.Valid() && |files| == |paths| < |samples| && more == samples[|paths|].stats && |more| == COUNTERS
      requires Valid(paths, samples) && AllFiled(paths, files)
      modifies data, this`nodes, nodes`children, nodes`stats
      ensures data.Valid() && Valid(paths + [data.trace.Labels(frames)], samples) && fresh(nodes - old(nodes))
      ensures AllFiled(paths + [data.trace.Labels(frames)], files + [data.trace.FileNames(frames)])
    {
      hide *;
      ghost var t := data.trace;
      ValidSkip(paths, samples);
      AllFiledSkip(paths, files);
      RootHere(paths, samples);
      var branch := root;
      assert t.Labels(frames[..0]) == [] && t.FileNames(frames[..0]) == [];
      for i := 0 to |frames|
        invariant data.Valid() && fresh(nodes - old(nodes))
        invariant branch in nodes && branch.path == t.Labels(frames[..i])
        invariant Valid(paths + [branch.path], samples)
        invariant AllFiled(paths + [branch.path], files + [t.FileNames(frames[..i])])
      {
        LabelsNext(t, frames, i);
        branch := Descend(data, branch, frames[i], more, paths, files, t.FileNames(frames[..i]), samples);
      }
      assert frames[..|frames|] == frames;
    }

    lemma AllFiledSkip(paths: seq<seq<string>>, files: seq<seq<string>>)
      requires |files| == |paths| && AllFiled(paths, files)
      ensures AllFiled(paths + [[]], files + [[]])
    {
      hide Filed;
      forall n | n in nodes
        ensures Filed(n, paths + [[]], files + [[]])
      {
        FiledSkip(n, paths, files);
      }
    }

    lemma RootHere(paths: seq<seq<string>>, samples: seq<Sample>)
      requires |paths| <= |samples| && Valid(paths, samples)
      ensures root in nodes && root.path == []
    {
    }

    /** A sample that is booked on the empty path changes nothing. */
    lemma ValidSkip(paths: seq<seq<string>>, samples: seq<Sample>)
      requires |paths| < |samples| && Valid(paths, samples)
      ensures Valid(paths + [[]], samples)
    {
      hide Rooted;
      forall n | n in nodes
        ensures Shaped(n, nodes, paths + [[]])
      {
        CompleteSkip(n.path, n.children, paths);
      }
      forall n | n in nodes
        ensures Counts(n, paths + [[]], samples)
      {
        CountsSkip(n, paths, samples);
      }
    }
  }

  lemma CompleteSkip(p: seq<string>, children: seq<Node>, paths: seq<seq<string>>)
    requires Complete(p, children, paths)
    ensures Complete(p, children, paths + [[]])
  {
  }

  lemma CountsSkip(n: Node, paths: seq<seq<string>>, samples: seq<Sample>)
    requires |paths| < |samples| && Counts(n, paths, samples)
    ensures Counts(n, paths + [[]], samples)
  {
    if n.path != [] {
      forall c | 0 <= c < COUNTERS
        ensures SumUnder(paths + [[]], samples, n.path, c) == SumUnder(paths, samples, n.path, c)
      {
        SumNext(paths, [], samples, n.path, c);
      }
      hide SumUnder;
      var j :| 0 <= j < |paths| && n.path <= paths[j];
      assert (paths + [[]])[j] == paths[j];
    }
  }

  lemma LabelsNext(t: Trace, frames: seq<nat>, i: nat)
    requires i < |frames|
    ensures t.Labels(frames[..i + 1]) == t.Labels(frames[..i]) + [t.Label(frames[i])]
    ensures t.FileNames(frames[..i + 1]) == t.FileNames(frames[..i]) + [t.FileName(frames[i])]
  {
  }

  /** The name of an address, or the address itself in brackets. */
  method Label(data: TraceData, rip: nat) returns (name: string)
    requires data.Valid()
    modifies data
    ensures data.Valid() && name == data.trace.Label(rip)
  {
    var sym := FindSymbol(data.trace.symbols, rip);
    if sym != None {
      name := data.InternedSymbolString(sym.value.symbolName);
    } else {
      name := "[" + Hex(rip, 16) + "]";
    }
  }

  /** The source file of an address, or nothing. */
  method FileOf(data: TraceData, rip: nat) returns (file: string)
    requires data.Valid()
    modifies data
    ensures data.Valid() && file == data.trace.FileName(rip)
  {
    file := "";
    var sym := FindSymbol(data.trace.symbols, rip);
    if sym != None {
      file := data.InternedSymbolString(sym.value.fileName);
    }
  }

  // ----- the whole tree

  ghost predicate Terminated(stacks: seq<nat>, index: nat) {
    exists j :: index <= j < |stacks| && stacks[j] == 0
  }

  /** The instruction of a sample and its callers, up to the zero that ends the stack. */
  method ReadFrames(t: Trace, s: Sample) returns (frames: seq<nat>)
    requires Terminated(t.stacks, s.stackIndex)
    ensures frames == t.Frames(s)
  {
    frames := [s.rip];
    var fp := s.stackIndex;
    ghost var end :| s.stackIndex <= end < |t.stacks| && t.stacks[end] == 0;
    while t.stacks[fp] != 0
      invariant s.stackIndex <= fp <= end
      invariant t.Frames(s) == frames + StackModel.ReadStack(t.stacks, fp)
      decreases end - fp
    {
      frames := frames + [t.stacks[fp]];
      fp := fp + 1;
    }
  }

  lemma NextTreePath(t: Trace, root: string, i: nat)
    requires i < |t.samples|
    ensures TreePaths(t, root, i + 1) == TreePaths(t, root, i) + [t.TreePath(root, t.samples[i])]
    ensures TreeFiles(t, root, i + 1) == TreeFiles(t, root, i) + [t.TreeFile(root, t.samples[i])]
  {
  }

  /** The tree of all samples from the outermost call down; or, for a symbol, of its own samples from it up
      to the outermost call. */
  method CreateTree(data: TraceData, rootSymbol: string) returns (tree: Tree)
    requires data.Valid()
    requires forall i :: 0 <= i < |data.trace.samples| ==>
      Terminated(data.trace.stacks, data.trace.samples[i].stackIndex)
    modifies data
    ensures data.Valid() && fresh(tree) && fresh(tree.nodes)
    ensures var n := |data.trace.samples|;
      && tree.Valid(TreePaths(data.trace, rootSymbol, n), data.trace.samples)
      && tree.AllFiled(TreePaths(data.trace, rootSymbol, n), TreeFiles(data.trace, rootSymbol, n))
  {
    hide *;
    var t := data.trace;
    TraceValid(data);
    tree := new Tree(t.samples);
    NoPaths(t, rootSymbol);
    for i := 0 to |t.samples|
      invariant data.Valid() && fresh(tree.nodes)
      invariant tree.Valid(TreePaths(t, rootSymbol, i), t.samples)
      invariant tree.AllFiled(TreePaths(t, rootSymbol, i), TreeFiles(t, rootSymbol, i))
    {
      NextTreePath(t, rootSymbol, i);
      ghost var paths, files := TreePaths(t, rootSymbol, i), TreeFiles(t, rootSymbol, i);
      var s := t.samples[i];
      var name: Option<string> := None;
      if rootSymbol != "" {
        name := data.SymbolNameForAddress(s.rip);
      }
      PathOf(t, rootSymbol, s);
      if rootSymbol != "" && name != Some(rootSymbol) {
        tree.ValidSkip(paths, t.samples);
        tree.AllFiledSkip(paths, files);
      } else {
        var frames := ReadFrames(t, s);
        if rootSymbol == "" {
          frames := Reverse(frames);
        }
        tree.AddSample(data, frames, s.stats, paths, files, t.samples);
      }
    }
  }

  lemma TraceValid(data: TraceData)
    requires data.Valid()
    ensures forall i :: 0 <= i < |data.trace.samples| ==> |data.trace.samples[i].stats| == COUNTERS
  {
  }

  lemma NoPaths(t: Trace, root: string)
    ensures TreePaths(t, root, 0) == [] && TreeFiles(t, root, 0) == []
  {
  }

  lemma PathOf(t: Trace, root: string, s: Sample)
    ensures t.TreePath(root, s) ==
      if root == "" then t.Labels(Reverse(t.Frames(s)))
      else if t.SymbolName(s.rip) == Some(root) then t.Labels(t.Frames(s))
      else []
    ensures t.TreeFile(root, s) ==
      if root == "" then t.FileNames(Reverse(t.Frames(s)))
      else if t.SymbolName(s.rip) == Some(root) then t.FileNames(t.Frames(s))
      else []
  {
  }
}
