/** What the profile views of a trace show: sums of samples along paths of names. */
module ProfileModel {
  import opened Counters
  import opened Symbols
  import StackModel

  const INT_MAX: int := 0x7fff_ffff
  const INT_MIN: int := -0x8000_0000

  /** A statistics record of a trace: an instruction, the offset of its call stack, eight counters. */
  datatype Sample = Sample(rip: nat, stackIndex: nat, stats: seq<nat>)

  datatype Trace = Trace(samples: seq<Sample>, stacks: seq<nat>, symbols: seq<SerializedSymbol>, text: string) {
    predicate Valid() {
      && Sorted(symbols) && (forall i :: 0 <= i < |symbols| ==> symbols[i].line <= INT_MAX)
      && (forall i :: 0 <= i < |samples| ==> |samples[i].stats| == COUNTERS)
    }

    /** The name of the symbol an address belongs to. */
    function SymbolName(rip: nat): Option<string> {
      match Lookup(symbols, rip)
      case None => None
      case Some(s) => Some(StringAt(text, s.symbolName))
    }

    /** What the call tree shows for an address. */
    function Label(rip: nat): string {
      match SymbolName(rip)
      case Some(name) => name
      case None => "[" + Hex(rip, 16) + "]"
    }

    function Labels(rips: seq<nat>): (s: seq<string>)
      ensures |s| == |rips|
    {
      seq(|rips|, i requires 0 <= i < |rips| => Label(rips[i]))
    }

    /** The source file of an address, if it is known. */
    function FileName(rip: nat): string {
      match Lookup(symbols, rip)
      case None => ""
      case Some(s) => StringAt(text, s.fileName)
    }

    function FileNames(rips: seq<nat>): (s: seq<string>)
      ensures |s| == |rips|
    {
      seq(|rips|, i requires 0 <= i < |rips| => FileName(rips[i]))
    }

    /** The instruction and its callers, innermost first. */
    function Frames(s: Sample): (f: seq<nat>)
      ensures f != []
    {
      [s.rip] + StackModel.ReadStack(stacks, s.stackIndex)
    }

    // ----- the path along which each view books a sample; [] if it does not count there

    function FlatPath(s: Sample): seq<string> {
      match SymbolName(s.rip)
      case None => []
      case Some(name) => [name]
    }

    /** The whole stack, outermost call first; or, from the samples in one symbol, innermost call first. */
    function TreePath(root: string, s: Sample): seq<string> {
      if root == "" then Labels(Reverse(Frames(s)))
      else if SymbolName(s.rip) == Some(root) then Labels(Frames(s))
      else []
    }

    /** The source files along the same path. */
    function TreeFile(root: string, s: Sample): seq<string> {
      if root == "" then FileNames(Reverse(Frames(s)))
      else if SymbolName(s.rip) == Some(root) then FileNames(Frames(s))
      else []
    }

    function LinePath(s: Sample): seq<LineKey> {
      match Lookup(symbols, s.rip)
      case None => []
      case Some(sym) => [Symbol(StringAt(text, sym.symbolName)), Line(sym.line)]
    }
  }

  datatype LineKey = Symbol(name: string) | Line(line: nat)

  function HexDigit(d: nat): char
    requires d < 16
  {
    "0123456789abcdef"[d]
  }

  /** At least k hexadecimal digits. */
  function Hex(n: nat, k: nat): string
    decreases n, k
  {
    if n == 0 && k == 0 then "" else Hex(n / 16, if k == 0 then 0 else k - 1) + [HexDigit(n % 16)]
  }

  function Reverse<T>(s: seq<T>): (r: seq<T>)
    ensures |r| == |s|
  {
    seq(|s|, i requires 0 <= i < |s| => s[|s| - 1 - i])
  }

  function FlatPaths(t: Trace, n: nat): (p: seq<seq<string>>)
    requires n <= |t.samples|
    ensures |p| == n
  {
    seq(n, i requires 0 <= i < n => t.FlatPath(t.samples[i]))
  }

  function TreePaths(t: Trace, root: string, n: nat): (p: seq<seq<string>>)
    requires n <= |t.samples|
    ensures |p| == n
  {
    seq(n, i requires 0 <= i < n => t.TreePath(root, t.samples[i]))
  }

  function TreeFiles(t: Trace, root: string, n: nat): (p: seq<seq<string>>)
    requires n <= |t.samples|
    ensures |p| == n
  {
    seq(n, i requires 0 <= i < n => t.TreeFile(root, t.samples[i]))
  }

  function LinePaths(t: Trace, n: nat): (p: seq<seq<LineKey>>)
    requires n <= |t.samples|
    ensures |p| == n
  {
    seq(n, i requires 0 <= i < n => t.LinePath(t.samples[i]))
  }

  // ----- which way the paths run

  /** These words lie at the sample's stack index, before the zero that ends the stack. */
  predicate StackIs(t: Trace, s: Sample, words: seq<nat>) {
    && s.stackIndex + |words| < |t.stacks| && t.stacks[s.stackIndex..s.stackIndex + |words|] == words
    && t.stacks[s.stackIndex + |words|] == 0 && 0 !in words
  }

  lemma {:induction false} StackWords(stacks: seq<nat>, at: nat, words: seq<nat>)
    requires at + |words| < |stacks| && stacks[at..at + |words|] == words
    requires stacks[at + |words|] == 0 && 0 !in words
    ensures StackModel.ReadStack(stacks, at) == words
    decreases |words|
  {
    if words != [] {
      assert stacks[at] == words[0];
      assert stacks[at + 1..at + |words|] == words[1..];
      StackWords(stacks, at + 1, words[1..]);
    }
  }

  /** The top-down path ends with the sampled instruction; before it come its callers, the innermost last. */
  lemma TopDownPath(t: Trace, s: Sample, words: seq<nat>)
    requires StackIs(t, s, words)
    ensures var n, p, f := |words|, t.TreePath("", s), t.TreeFile("", s);
      && |p| == |f| == n + 1 && p[n] == t.Label(s.rip) && f[n] == t.FileName(s.rip)
      && forall i :: 0 <= i < n ==> p[n - 1 - i] == t.Label(words[i]) && f[n - 1 - i] == t.FileName(words[i])
  {
    StackWords(t.stacks, s.stackIndex, words);
  }

  /** A symbol's own tree starts with the sampled instruction; behind it come its callers, the innermost first. */
  lemma BottomUpPath(t: Trace, root: string, s: Sample, words: seq<nat>)
    requires root != "" && StackIs(t, s, words)
    ensures t.SymbolName(s.rip) != Some(root) ==> t.TreePath(root, s) == t.TreeFile(root, s) == []
    ensures t.SymbolName(s.rip) == Some(root) ==>
      var n, p, f := |words|, t.TreePath(root, s), t.TreeFile(root, s);
      && |p| == |f| == n + 1 && p[0] == root && f[0] == t.FileName(s.rip)
      && forall i :: 0 <= i < n ==> p[i + 1] == t.Label(words[i]) && f[i + 1] == t.FileName(words[i])
  {
    StackWords(t.stacks, s.stackIndex, words);
  }

  /** In the top-down view an instruction that was called from where another sample was taken is one step
      below it. */
  lemma CalleeIsBelow(t: Trace, caller: Sample, callee: Sample, words: seq<nat>)
    requires StackIs(t, caller, words) && StackIs(t, callee, [caller.rip] + words)
    ensures t.TreePath("", callee) == t.TreePath("", caller) + [t.Label(callee.rip)]
  {
    var n, below, p, q := |words|, [caller.rip] + words, t.TreePath("", callee), t.TreePath("", caller);
    TopDownPath(t, caller, words);
    TopDownPath(t, callee, below);
    hide Trace.TreePath, Trace.TreeFile, Trace.Label, Trace.FileName, StackIs;
    forall i | 0 <= i < n
      ensures p[i] == q[i]
    {
      assert p[n - (n - i)] == t.Label(below[n - i]);
      assert q[n - 1 - (n - 1 - i)] == t.Label(words[n - 1 - i]);
    }
    assert p[n - 0] == t.Label(below[0]);
  }

  // ----- addresses in hexadecimal

  function DigitValue(c: char): nat {
    if '0' <= c <= '9' then c as nat - '0' as nat
    else if 'a' <= c <= 'f' then c as nat - 'a' as nat + 10 else 0
  }

  /** The number that hexadecimal digits stand for. */
  function HexValue(s: string): nat {
    if s == "" then 0 else 16 * HexValue(s[..|s| - 1]) + DigitValue(s[|s| - 1])
  }

  function Sixteens(k: nat): (p: nat)
    ensures p > 0
  {
    if k == 0 then 1 else 16 * Sixteens(k - 1)
  }

  /** The digits stand for the number, and there are k of them if k are enough. */
  lemma {:induction false} HexReadsBack(n: nat, k: nat)
    ensures HexValue(Hex(n, k)) == n && |Hex(n, k)| >= k && (n < Sixteens(k) ==> |Hex(n, k)| == k)
    decreases n, k
  {
    if n > 0 || k > 0 {
      var rest := if k == 0 then 0 else k - 1;
      HexReadsBack(n / 16, rest);
      assert DigitValue(HexDigit(n % 16)) == n % 16;
      assert Hex(n, k)[..|Hex(n, k)| - 1] == Hex(n / 16, rest);
    }
  }

  /** An address is shown by its symbol's name or, without one, by sixteen digits in brackets that stand for it. */
  lemma LabelMeans(t: Trace, rip: nat)
    requires rip < Sixteens(16)
    ensures var shown, name := t.Label(rip), t.SymbolName(rip);
      if name.Some? then shown == name.value
      else |shown| == 18 && shown[0] == '[' && shown[17] == ']' && HexValue(shown[1..17]) == rip
  {
    HexReadsBack(rip, 16);
    assert ("[" + Hex(rip, 16) + "]")[1..|Hex(rip, 16)| + 1] == Hex(rip, 16);
  }

  // ----- sums

  function Counter(s: Sample, c: nat): nat {
    if c < |s.stats| then s.stats[c] else 0
  }

  /** One counter summed over the samples whose path starts with p. */
  function SumUnder<K(==)>(paths: seq<seq<K>>, samples: seq<Sample>, p: seq<K>, c: nat): nat
    requires |paths| <= |samples|
    decreases |paths|
  {
    if paths == [] then 0
    else
      var n := |paths| - 1;
      SumUnder(paths[..n], samples, p, c) + if p <= paths[n] then Counter(samples[n], c) else 0
  }

  /** The sum depends only on which samples count. */
  lemma {:induction false} SameSamples<K, L>(a: seq<seq<K>>, p: seq<K>, b: seq<seq<L>>, q: seq<L>,
                                             samples: seq<Sample>, c: nat)
    requires |a| == |b| <= |samples|
    requires forall i :: 0 <= i < |a| ==> (p <= a[i] <==> q <= b[i])
    ensures SumUnder(a, samples, p, c) == SumUnder(b, samples, q, c)
    decreases |a|
  {
    if a != [] {
      SameSamples(a[..|a| - 1], p, b[..|b| - 1], q, samples, c);
    }
  }

  /** The sums one step below p, over these next steps. */
  function SumBelow<K(==)>(paths: seq<seq<K>>, samples: seq<Sample>, p: seq<K>, ks: seq<K>, c: nat): nat
    requires |paths| <= |samples|
  {
    if ks == [] then 0
    else SumBelow(paths, samples, p, ks[..|ks| - 1], c) + SumUnder(paths, samples, p + [ks[|ks| - 1]], c)
  }

  predicate Distinct<K(==)>(ks: seq<K>) {
    forall i, j :: 0 <= i < j < |ks| ==> ks[i] != ks[j]
  }

  /** How many of the steps lead from p towards q. */
  function Towards<K(==)>(p: seq<K>, ks: seq<K>, q: seq<K>): nat {
    if ks == [] then 0
    else Towards(p, ks[..|ks| - 1], q) + if p + [ks[|ks| - 1]] <= q then 1 else 0
  }

  lemma {:induction false} TowardsOnce<K>(p: seq<K>, ks: seq<K>, q: seq<K>)
    requires Distinct(ks)
    ensures Towards(p, ks, q) == if p <= q && |q| > |p| && q[|p|] in ks then 1 else 0
  {
    if ks != [] {
      var init, k := ks[..|ks| - 1], ks[|ks| - 1];
      TowardsOnce(p, init, q);
      assert p + [k] <= q <==> p <= q && |q| > |p| && q[|p|] == k;
      assert k !in init;
      assert forall x :: x in ks <==> x in init || x == k;
    }
  }

  lemma {:induction false} LastSample<K>(paths: seq<seq<K>>, samples: seq<Sample>, p: seq<K>, ks: seq<K>, c: nat)
    requires paths != [] && |paths| <= |samples|
    ensures SumBelow(paths, samples, p, ks, c)
         == SumBelow(paths[..|paths| - 1], samples, p, ks, c)
            + Towards(p, ks, paths[|paths| - 1]) * Counter(samples[|paths| - 1], c)
    decreases |ks|
  {
    if ks != [] {
      LastSample(paths, samples, p, ks[..|ks| - 1], c);
    }
  }

  /** The children of p split its sum up, when no path ends at p and the children are all there. */
  lemma {:induction false} ChildrenPartition<K>(paths: seq<seq<K>>, samples: seq<Sample>, p: seq<K>, ks: seq<K>, c: nat)
    requires |paths| <= |samples| && Distinct(ks)
    requires forall i :: 0 <= i < |paths| && p <= paths[i] ==> |paths[i]| > |p| && paths[i][|p|] in ks
    ensures SumBelow(paths, samples, p, ks, c) == SumUnder(paths, samples, p, c)
    decreases |paths|
  {
    if paths == [] {
      NothingBelow(samples, p, ks, c);
    } else {
      var init := paths[..|paths| - 1];
      ChildrenPartition(init, samples, p, ks, c);
      LastSample(paths, samples, p, ks, c);
      TowardsOnce(p, ks, paths[|paths| - 1]);
    }
  }

  lemma {:induction false} NothingBelow<K>(samples: seq<Sample>, p: seq<K>, ks: seq<K>, c: nat)
    ensures SumBelow([], samples, p, ks, c) == 0
    decreases |ks|
  {
    if ks != [] {
      NothingBelow(samples, p, ks[..|ks| - 1], c);
    }
  }
}
