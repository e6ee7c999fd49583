/** The three profile views of one trace agree with each other. */
module Agreement {
  import opened Counters
  import opened Symbols
  import opened ProfileModel
  import opened Profile
  import opened CallTree

  // ----- the tree is the prefix tree

  ghost predicate OnPath(p: seq<string>, paths: seq<seq<string>>) {
    p == [] || exists j :: 0 <= j < |paths| && p <= paths[j]
  }

  /** Every prefix of a sample's path has a node, which shows the sums of exactly the samples below it. */
  lemma {:induction false} NodeAt(root: Node, nodes: set<Node>, paths: seq<seq<string>>, samples: seq<Sample>,
                                  p: seq<string>)
    returns (n: Node)
    requires |paths| <= |samples| && Represents(root, nodes, paths, samples) && OnPath(p, paths)
    ensures n in nodes && n.path == p && (p != [] ==> Shows(n.stats, paths, samples, p))
    decreases |p|
  {
    hide Represents, Shows;
    RootIsRoot(root, nodes, paths, samples);
    if p == [] {
      n := root;
    } else {
      var q, k := p[..|p| - 1], p[|p| - 1];
      assert q + [k] == p;
      var j :| 0 <= j < |paths| && p <= paths[j];
      assert q < paths[j] && paths[j][|q|] == k;
      var m := NodeAt(root, nodes, paths, samples, q);
      n := ChildAt(root, nodes, paths, samples, m, j);
      NodeShows(root, nodes, paths, samples, n);
    }
  }

  lemma ChildAt(root: Node, nodes: set<Node>, paths: seq<seq<string>>, samples: seq<Sample>, m: Node, j: nat)
    returns (n: Node)
    requires |paths| <= |samples| && Represents(root, nodes, paths, samples)
    requires m in nodes && j < |paths| && m.path < paths[j]
    ensures n in nodes && n.path == m.path + [paths[j][|m.path|]]
  {
    assert Shaped(m, nodes, paths);
    hide Represents;
    assert HasChild(m.children, paths[j][|m.path|]);
    var i :| 0 <= i < |m.children| && m.children[i].symbolName == paths[j][|m.path|];
    n := m.children[i];
    assert ChildOf(m, n, nodes);
  }

  lemma NodeShows(root: Node, nodes: set<Node>, paths: seq<seq<string>>, samples: seq<Sample>, n: Node)
    requires |paths| <= |samples| && Represents(root, nodes, paths, samples) && n in nodes && n.path != []
    ensures Shows(n.stats, paths, samples, n.path)
  {
  }

  /** And there are no other nodes. */
  lemma NodeIsOnPath(root: Node, nodes: set<Node>, paths: seq<seq<string>>, samples: seq<Sample>, n: Node)
    requires |paths| <= |samples| && Represents(root, nodes, paths, samples) && n in nodes
    ensures OnPath(n.path, paths)
  {
    assert Counts(n, paths, samples);
  }

  function Names(children: seq<Node>): (s: seq<string>)
    ensures |s| == |children|
  {
    seq(|children|, i requires 0 <= i < |children| => children[i].symbolName)
  }

  /** One counter added up over some nodes. */
  ghost function NodesTotal(children: seq<Node>, c: nat): nat
    reads children
  {
    if children == [] then 0
    else
      var last := children[|children| - 1];
      NodesTotal(children[..|children| - 1], c) + if c < |last.stats| then last.stats[c] else 0
  }

  ghost predicate ChildrenShow(children: seq<Node>, paths: seq<seq<string>>, samples: seq<Sample>, p: seq<string>)
    requires |paths| <= |samples|
    reads children
  {
    forall i :: 0 <= i < |children| ==> Shows(children[i].stats, paths, samples, p + [children[i].symbolName])
  }

  lemma {:induction false} NodesTotalIsSum(children: seq<Node>, paths: seq<seq<string>>, samples: seq<Sample>,
                                           p: seq<string>, c: nat)
    requires |paths| <= |samples| && c < COUNTERS && ChildrenShow(children, paths, samples, p)
    ensures NodesTotal(children, c) % WORD_RANGE == SumBelow(paths, samples, p, Names(children), c) % WORD_RANGE
    decreases |children|
  {
    hide SumUnder;
    if children != [] {
      var init, last := children[..|children| - 1], children[|children| - 1];
      NodesTotalIsSum(init, paths, samples, p, c);
      assert Names(children)[..|children| - 1] == Names(init);
      assert Shows(last.stats, paths, samples, p + [last.symbolName]);
      TwoWraps(NodesTotal(init, c), SumBelow(paths, samples, p, Names(init), c),
        SumUnder(paths, samples, p + [last.symbolName], c));
    }
  }

  lemma TwoWraps(a: nat, b: nat, s: nat)
    requires a % WORD_RANGE == b % WORD_RANGE
    ensures (a + s % WORD_RANGE) % WORD_RANGE == (b + s) % WORD_RANGE
  {
    WrapOnce(a, s % WORD_RANGE);
    WrapOnce(b, s % WORD_RANGE);
    WrapOnce(s, b);
  }

  lemma ChildrenOf(root: Node, nodes: set<Node>, paths: seq<seq<string>>, samples: seq<Sample>, n: Node)
    requires |paths| <= |samples| && Represents(root, nodes, paths, samples) && n in nodes
    ensures ChildrenShow(n.children, paths, samples, n.path) && Distinct(Names(n.children))
    ensures forall j :: 0 <= j < |paths| && n.path < paths[j] ==> paths[j][|n.path|] in Names(n.children)
  {
    assert Shaped(n, nodes, paths);
    forall i | 0 <= i < |n.children|
      ensures Shows(n.children[i].stats, paths, samples, n.path + [n.children[i].symbolName])
    {
      assert ChildOf(n, n.children[i], nodes);
      assert Counts(n.children[i], paths, samples);
    }
    forall j | 0 <= j < |paths| && n.path < paths[j]
      ensures paths[j][|n.path|] in Names(n.children)
    {
      var i :| 0 <= i < |n.children| && n.children[i].symbolName == paths[j][|n.path|];
      assert Names(n.children)[i] == paths[j][|n.path|];
    }
  }

  lemma ProperPrefix<K>(p: seq<K>, q: seq<K>)
    requires p <= q && p != q
    ensures p < q
  {
  }

  /** Where no path ends at a node, its children's counters add up to its own sums. */
  lemma ChildrenAddUp(root: Node, nodes: set<Node>, paths: seq<seq<string>>, samples: seq<Sample>, n: Node, c: nat)
    requires |paths| <= |samples| && c < COUNTERS && Represents(root, nodes, paths, samples) && n in nodes
    requires n.path !in paths
    ensures NodesTotal(n.children, c) % WORD_RANGE == SumUnder(paths, samples, n.path, c) % WORD_RANGE
  {
    hide SumUnder, SumBelow, NodesTotal, Represents, ChildrenShow, Distinct;
    ChildrenOf(root, nodes, paths, samples, n);
    forall i | 0 <= i < |paths| && n.path <= paths[i]
      ensures n.path < paths[i]
    {
      assert paths[i] != n.path;
      ProperPrefix(n.path, paths[i]);
    }
    NodesTotalIsSum(n.children, paths, samples, n.path, c);
    ChildrenPartition(paths, samples, n.path, Names(n.children), c);
  }

  /** One counter added up over all samples. */
  function GrandTotal(samples: seq<Sample>, c: nat): nat {
    if samples == [] then 0 else GrandTotal(samples[..|samples| - 1], c) + Counter(samples[|samples| - 1], c)
  }

  lemma {:induction false} EverythingUnderRoot(paths: seq<seq<string>>, samples: seq<Sample>, c: nat)
    requires |paths| <= |samples|
    ensures SumUnder(paths, samples, [], c) == GrandTotal(samples[..|paths|], c)
    decreases |paths|
  {
    if paths != [] {
      EverythingUnderRoot(paths[..|paths| - 1], samples, c);
      assert samples[..|paths|][..|paths| - 1] == samples[..|paths| - 1];
    }
  }

  /** In the top-down tree the top-level nodes account for every sample. */
  lemma TopLevelAddsUp(t: Trace, tree: Tree, c: nat)
    requires c < COUNTERS && tree.Valid(TreePaths(t, "", |t.samples|), t.samples)
    ensures NodesTotal(tree.root.children, c) % WORD_RANGE == GrandTotal(t.samples, c) % WORD_RANGE
  {
    hide SumUnder, NodesTotal, GrandTotal, Represents, Trace.Label;
    var paths := TreePaths(t, "", |t.samples|);
    RootIsRoot(tree.root, tree.nodes, paths, t.samples);
    ChildrenAddUp(tree.root, tree.nodes, paths, t.samples, tree.root, c);
    EverythingUnderRoot(paths, t.samples, c);
    assert t.samples[..|t.samples|] == t.samples;
  }

  lemma RootIsRoot(root: Node, nodes: set<Node>, paths: seq<seq<string>>, samples: seq<Sample>)
    requires |paths| <= |samples| && Represents(root, nodes, paths, samples)
    ensures root in nodes && root.path == []
  {
  }

  // ----- the views of one symbol

  lemma StartsWith<K>(k: K, p: seq<K>)
    ensures [k] <= p <==> p != [] && p[0] == k
  {
  }

  /** Each view books a sample under the symbol exactly when the sample's instruction belongs to it. */
  lemma Heads(t: Trace, s: string, x: Sample)
    requires s != ""
    ensures [s] <= t.FlatPath(x) <==> t.SymbolName(x.rip) == Some(s)
    ensures [s] <= t.TreePath(s, x) <==> t.SymbolName(x.rip) == Some(s)
    ensures t.SymbolName(x.rip) != Some(s) ==> t.TreePath(s, x) == []
    ensures [Symbol(s)] <= t.LinePath(x) <==> t.SymbolName(x.rip) == Some(s)
    ensures t.LinePath(x) == [] || |t.LinePath(x)| == 2
  {
    hide Lookup, StringAt;
    StartsWith(s, t.FlatPath(x));
    StartsWith(s, t.TreePath(s, x));
    StartsWith(Symbol(s), t.LinePath(x));
    assert t.Frames(x)[0] == x.rip;
  }

  lemma SameSums(t: Trace, s: string, c: nat)
    requires s != ""
    ensures var n := |t.samples|;
      SumUnder(FlatPaths(t, n), t.samples, [s], c) == SumUnder(TreePaths(t, s, n), t.samples, [s], c)
      == SumUnder(LinePaths(t, n), t.samples, [Symbol(s)], c)
  {
    hide Lookup, StringAt, SumUnder, Trace.FlatPath, Trace.TreePath, Trace.LinePath;
    forall i | 0 <= i < |t.samples|
      ensures [s] <= t.FlatPath(t.samples[i]) <==> [s] <= t.TreePath(s, t.samples[i])
      ensures [s] <= t.FlatPath(t.samples[i]) <==> [Symbol(s)] <= t.LinePath(t.samples[i])
    {
      Heads(t, s, t.samples[i]);
    }
    SameSamples(FlatPaths(t, |t.samples|), [s], TreePaths(t, s, |t.samples|), [s], t.samples, c);
    SameSamples(FlatPaths(t, |t.samples|), [s], LinePaths(t, |t.samples|), [Symbol(s)], t.samples, c);
  }

  function LinesTotal(lines: seq<LineData>, c: nat): nat {
    if lines == [] then 0
    else
      var last := lines[|lines| - 1];
      LinesTotal(lines[..|lines| - 1], c) + if c < |last.stats| then last.stats[c] else 0
  }

  function Keys(lines: seq<LineData>): (ks: seq<LineKey>)
    ensures |ks| == |lines|
  {
    seq(|lines|, i requires 0 <= i < |lines| => Line(lines[i].lineNumber))
  }

  lemma {:induction false} LinesTotalIsSum(lines: seq<LineData>, paths: seq<seq<LineKey>>, samples: seq<Sample>,
                                           p: seq<LineKey>, c: nat)
    requires |paths| <= |samples| && c < COUNTERS
    requires forall i :: 0 <= i < |lines| ==> Shows(lines[i].stats, paths, samples, p + [Line(lines[i].lineNumber)])
    ensures LinesTotal(lines, c) % WORD_RANGE == SumBelow(paths, samples, p, Keys(lines), c) % WORD_RANGE
    decreases |lines|
  {
    hide SumUnder;
    if lines != [] {
      var init, last := lines[..|lines| - 1], lines[|lines| - 1];
      LinesTotalIsSum(init, paths, samples, p, c);
      assert Keys(lines)[..|lines| - 1] == Keys(init);
      assert Shows(last.stats, paths, samples, p + [Line(last.lineNumber)]);
      TwoWraps(LinesTotal(init, c), SumBelow(paths, samples, p, Keys(init), c),
        SumUnder(paths, samples, p + [Line(last.lineNumber)], c));
    }
  }

  /** The lines of a symbol add up to all its samples. */
  lemma LinesAddUp(t: Trace, s: string, lines: seq<LineData>, c: nat)
    requires s != "" && c < COUNTERS && ListsLines(lines, LinePaths(t, |t.samples|), t.samples, s)
    ensures LinesTotal(lines, c) % WORD_RANGE ==
      SumUnder(LinePaths(t, |t.samples|), t.samples, [Symbol(s)], c) % WORD_RANGE
  {
    hide SumUnder, SumBelow, LinesTotal, ListsLines, Trace.LinePath, Trace.FlatPath, Trace.TreePath;
    var paths := LinePaths(t, |t.samples|);
    LinesShow(lines, paths, t.samples, s);
    forall i | 0 <= i < |paths| && [Symbol(s)] <= paths[i]
      ensures |paths[i]| > 1 && paths[i][1] in Keys(lines)
    {
      Heads(t, s, t.samples[i]);
      LineListed(lines, paths, t.samples, s, i);
    }
    LinesTotalIsSum(lines, paths, t.samples, [Symbol(s)], c);
    ChildrenPartition(paths, t.samples, [Symbol(s)], Keys(lines), c);
  }

  lemma LineListed(lines: seq<LineData>, paths: seq<seq<LineKey>>, samples: seq<Sample>, s: string, j: nat)
    requires |paths| <= |samples| && j < |paths| && ListsLines(lines, paths, samples, s) && [Symbol(s)] < paths[j]
    ensures paths[j][1] in Keys(lines)
  {
    hide Entry;
    assert HasLine(lines, paths[j][1]);
    var i :| 0 <= i < |lines| && lines[i].lineNumber == paths[j][1].line;
    assert Keys(lines)[i] == paths[j][1];
  }

  lemma LinesShow(lines: seq<LineData>, paths: seq<seq<LineKey>>, samples: seq<Sample>, s: string)
    requires |paths| <= |samples| && ListsLines(lines, paths, samples, s)
    ensures forall i :: 0 <= i < |lines| ==>
      Shows(lines[i].stats, paths, samples, [Symbol(s)] + [Line(lines[i].lineNumber)])
    ensures Distinct(Keys(lines))
  {
    hide Shows;
    forall i | 0 <= i < |lines|
      ensures Shows(lines[i].stats, paths, samples, [Symbol(s)] + [Line(lines[i].lineNumber)])
    {
      assert [Symbol(s)] + [Line(lines[i].lineNumber)] == [Symbol(s), Line(lines[i].lineNumber)];
      assert Entry(lines[i].stats, paths, samples, [Symbol(s), Line(lines[i].lineNumber)]);
    }
  }

  ghost predicate Sampled(t: Trace, s: string) {
    exists i :: 0 <= i < |t.samples| && t.SymbolName(t.samples[i].rip) == Some(s)
  }

  /** The flat table has a row for the symbols of sampled instructions. */
  lemma RowIffSampled(t: Trace, s: string, rows: seq<Row>)
    requires s != "" && Tabulates(rows, FlatPaths(t, |t.samples|), t.samples)
    ensures HasRow(rows, s) <==> Sampled(t, s)
  {
    hide Shows, Trace.FlatPath, Trace.TreePath, Trace.LinePath, Trace.SymbolName;
    var paths := FlatPaths(t, |t.samples|);
    if HasRow(rows, s) {
      var i :| 0 <= i < |rows| && rows[i].symbolName == s;
      assert Entry(rows[i].stats, paths, t.samples, [s]);
      var j :| 0 <= j < |paths| && [s] <= paths[j];
      Heads(t, s, t.samples[j]);
    }
    if Sampled(t, s) {
      var i :| 0 <= i < |t.samples| && t.SymbolName(t.samples[i].rip) == Some(s);
      Heads(t, s, t.samples[i]);
      assert [s] <= paths[i];
      StartsWith(s, paths[i]);
    }
  }

  /** The symbol's tree has at most one top-level node, that of the symbol. */
  lemma TopIffSampled(t: Trace, s: string, tree: Tree)
    requires s != "" && tree.Valid(TreePaths(t, s, |t.samples|), t.samples)
    ensures Names(tree.root.children) == if Sampled(t, s) then [s] else []
    ensures Sampled(t, s) ==> Shows(tree.root.children[0].stats, TreePaths(t, s, |t.samples|), t.samples, [s])
  {
    hide Shows, Trace.FlatPath, Trace.TreePath, Trace.LinePath, Trace.SymbolName, Represents;
    var paths, root := TreePaths(t, s, |t.samples|), tree.root;
    RootIsRoot(root, tree.nodes, paths, t.samples);
    ChildrenOf(root, tree.nodes, paths, t.samples, root);
    forall i | 0 <= i < |root.children|
      ensures root.children[i].symbolName == s && Sampled(t, s)
    {
      TopName(t, s, tree, i);
    }
    SameNameOnce(Names(root.children), s);
    assert root.children != [] ==> root.children[0].symbolName == s && Sampled(t, s);
    if Sampled(t, s) {
      var i :| 0 <= i < |t.samples| && t.SymbolName(t.samples[i].rip) == Some(s);
      Heads(t, s, t.samples[i]);
      assert [s] <= paths[i] && root.path < paths[i];
      assert paths[i][0] in Names(root.children);
      assert [] + [s] == [s];
      assert Names(root.children) == [s];
    }
  }

  lemma SameNameOnce(names: seq<string>, s: string)
    requires forall i :: 0 <= i < |names| ==> names[i] == s
    ensures Distinct(names) ==> |names| <= 1
  {
    if |names| > 1 {
      assert names[0] == names[1];
    }
  }

  lemma TopName(t: Trace, s: string, tree: Tree, i: nat)
    requires s != "" && tree.Valid(TreePaths(t, s, |t.samples|), t.samples) && i < |tree.root.children|
    ensures tree.root.children[i].symbolName == s && Sampled(t, s)
  {
    var paths, child := TreePaths(t, s, |t.samples|), tree.root.children[i];
    RootIsRoot(tree.root, tree.nodes, paths, t.samples);
    assert Shaped(tree.root, tree.nodes, paths) && ChildOf(tree.root, child, tree.nodes);
    NodeIsOnPath(tree.root, tree.nodes, paths, t.samples, child);
    hide Represents, Trace.FlatPath, Trace.TreePath, Trace.LinePath, Trace.SymbolName;
    var j :| 0 <= j < |paths| && child.path <= paths[j];
    Heads(t, s, t.samples[j]);
    assert child.path == [child.symbolName];
    StartsWith(child.symbolName, paths[j]);
    StartsWith(s, paths[j]);
  }

  /** The three views agree.  The flat table has a row for a named symbol exactly when the symbol's own tree
      has a top-level node; there is then only one, of that name, with the counters of the row, and the
      counters of the symbol's lines add up to them, modulo 2^32. */
  lemma ViewsAgree(t: Trace, s: string, rows: seq<Row>, tree: Tree, lines: seq<LineData>)
    requires s != ""
    requires Tabulates(rows, FlatPaths(t, |t.samples|), t.samples)
    requires tree.Valid(TreePaths(t, s, |t.samples|), t.samples)
    requires ListsLines(lines, LinePaths(t, |t.samples|), t.samples, s)
    ensures Names(tree.root.children) == if HasRow(rows, s) then [s] else []
    ensures forall i :: 0 <= i < |rows| && rows[i].symbolName == s ==> Agrees(rows[i], tree, lines)
  {
    hide Tabulates, Represents, ListsLines, SumUnder, LinesTotal;
    RowIffSampled(t, s, rows);
    TopIffSampled(t, s, tree);
    forall i | 0 <= i < |rows| && rows[i].symbolName == s
      ensures Agrees(rows[i], tree, lines)
    {
      assert HasRow(rows, s);
      RowOfSymbol(t, rows, i);
      forall c | 0 <= c < COUNTERS
        ensures tree.root.children[0].stats[c] == rows[i].stats[c] == LinesTotal(lines, c) % WORD_RANGE
      {
        SameSums(t, s, c);
        LinesAddUp(t, s, lines, c);
      }
    }
  }

  ghost predicate Agrees(row: Row, tree: Tree, lines: seq<LineData>)
    reads tree.root, tree.root.children
  {
    && tree.root.children != [] && |row.stats| == COUNTERS && tree.root.children[0].stats == row.stats
    && forall c :: 0 <= c < COUNTERS ==> LinesTotal(lines, c) % WORD_RANGE == row.stats[c]
  }

  lemma RowOfSymbol(t: Trace, rows: seq<Row>, i: nat)
    requires Tabulates(rows, FlatPaths(t, |t.samples|), t.samples) && i < |rows|
    ensures Shows(rows[i].stats, FlatPaths(t, |t.samples|), t.samples, [rows[i].symbolName])
  {
  }
}
