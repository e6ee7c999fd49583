/** One core on its own: what the simulator reports to it, for every history of fetches and data accesses. */
module JaguarAlone {
  import opened Bits
  import opened LruSet
  import opened CacheModel
  import opened JaguarModel

  /** Only one core runs, with fetches and data accesses mixed at will. */
  ghost predicate Alone(trace: seq<Event>, core: nat) {
    forall k :: 0 <= k < |trace| ==> trace[k].core == core && trace[k].line != 0
  }

  function Lines(trace: seq<Event>): (r: seq<nat>)
    ensures |r| == |trace| && forall k :: 0 <= k < |r| ==> r[k] == trace[k].line
  {
    seq(|trace|, k requires 0 <= k < |trace| => trace[k].line)
  }

  /** The lines of the instruction fetches of a trace, or those of its data accesses. */
  function LinesOf(trace: seq<Event>, code: bool): seq<nat> {
    if trace == [] then []
    else
      var rest, e := LinesOf(trace[..|trace| - 1], code), trace[|trace| - 1];
      if (e.mode == CodeRead) == code then rest + [e.line] else rest
  }

  lemma {:induction false} NoLineZero(trace: seq<Event>, core: nat, code: bool)
    requires Alone(trace, core)
    ensures 0 !in LinesOf(trace, code) && 0 !in Lines(trace)
  {
    if trace != [] {
      NoLineZero(trace[..|trace| - 1], core, code);
    }
  }

  /** The core's second level sees every access, its first-level caches see those of their own kind. */
  lemma {:induction false} AloneRun(cfg: Config, trace: seq<Event>, core: nat, code: bool)
    requires cfg.Valid() && Alone(trace, core)
    ensures var m, c := core / 4 % 2, core % 4;
      && L1(JaguarModel.Run(cfg, trace)[m], c, code) == CacheModel.Run(cfg.L1(code), Uses(LinesOf(trace, code)))
      && JaguarModel.Run(cfg, trace)[m].l2 == CacheModel.Run(cfg.l2, Uses(Lines(trace)))
  {
    hide CacheModel.Run, JaguarModel.Run, ShapedModule, L1, LinesOf, Uses;
    if trace != [] {
      var n := |trace| - 1;
      assert trace == trace[..n] + [trace[n]];
      AloneRun(cfg, trace[..n], core, code);
      AloneNext(cfg, trace[..n], trace[n], core, code);
    } else {
      AloneStart(cfg, core % 4, core / 4 % 2, code);
    }
  }

  lemma AloneStart(cfg: Config, c: nat, m: nat, code: bool)
    requires cfg.Valid() && c < 4 && m < 2
    ensures L1(JaguarModel.Run(cfg, [])[m], c, code) == CacheModel.Run(cfg.L1(code), Uses(LinesOf([], code)))
    ensures JaguarModel.Run(cfg, [])[m].l2 == CacheModel.Run(cfg.l2, Uses(Lines([])))
  {
  }

  lemma AloneNext(cfg: Config, pre: seq<Event>, f: Event, core: nat, code: bool)
    requires cfg.Valid() && Alone(pre + [f], core)
    requires L1(JaguarModel.Run(cfg, pre)[f.Mod()], f.Local(), code)
             == CacheModel.Run(cfg.L1(code), Uses(LinesOf(pre, code)))
    requires JaguarModel.Run(cfg, pre)[f.Mod()].l2 == CacheModel.Run(cfg.l2, Uses(Lines(pre)))
    ensures var s := JaguarModel.Run(cfg, pre + [f]);
      && L1(s[f.Mod()], f.Local(), code) == CacheModel.Run(cfg.L1(code), Uses(LinesOf(pre + [f], code)))
      && s[f.Mod()].l2 == CacheModel.Run(cfg.l2, Uses(Lines(pre + [f])))
  {
    hide CacheModel.Run, CacheModel.Access, CacheModel.Invalidate, JaguarModel.Run, JaguarModel.Step, ShapedModule, L1;
    RunSnoc(cfg, pre, f);
    L1After(JaguarModel.Run(cfg, pre), cfg, f, f.Mod(), f.Local(), code);
    L2After(JaguarModel.Run(cfg, pre), cfg, f, f.Mod());
    var own := LinesOf(pre, code);
    LinesOfSnoc(pre, f, code);
    assert Uses(Lines(pre + [f])) == Uses(Lines(pre)) + [Use(f.line)];
    assert Uses(own + [f.line]) == Uses(own) + [Use(f.line)];
    UseSnoc(cfg.L1(code), Uses(own), f.line);
    UseSnoc(cfg.l2, Uses(Lines(pre)), f.line);
  }

  lemma LinesOfSnoc(pre: seq<Event>, f: Event, code: bool)
    ensures LinesOf(pre + [f], code)
      == if (f.mode == CodeRead) == code then LinesOf(pre, code) + [f.line] else LinesOf(pre, code)
  {
    assert (pre + [f])[..|pre|] == pre;
  }

  lemma UseSnoc(g: Geometry, ops: seq<Op>, x: nat)
    requires g.Valid()
    ensures CacheModel.Run(g, ops + [Use(x)]) == CacheModel.Access(CacheModel.Run(g, ops), x)
  {
  }

  /** The line was used, and fewer other lines of its set were used since than the cache has ways. */
  predicate Near(lines: seq<nat>, x: nat, g: Geometry)
    requires g.Valid()
  {
    x in lines && |SetMatesSince(lines, x, g.sets)| < g.ways
  }

  /** While a core runs alone, its first-level caches hold exactly what is near among the accesses of their
      kind, and the second level what is near among all accesses. */
  lemma AloneHolds(cfg: Config, trace: seq<Event>, core: nat, code: bool, x: nat)
    requires cfg.Valid() && Alone(trace, core) && x != 0
    ensures var s, m, c := JaguarModel.Run(cfg, trace), core / 4 % 2, core % 4;
      && (L1Has(s, cfg, m, c, code, x) <==> Near(LinesOf(trace, code), x, cfg.L1(code)))
      && (L2Has(s, cfg, m, x) <==> Near(Lines(trace), x, cfg.l2))
  {
    AloneRun(cfg, trace, core, code);
    NoLineZero(trace, core, code);
    StackDistance(cfg.L1(code), LinesOf(trace, code), x);
    StackDistance(cfg.l2, Lines(trace), x);
  }

  /** What the simulator reports to a core running alone, for every history of fetches and data accesses:
      two distances decide, the first level's over the accesses of the same kind, the second level's over
      all of them. */
  lemma AloneOutcome(cfg: Config, trace: seq<Event>, e: Event)
    requires cfg.Valid() && Alone(trace, e.core) && e.line != 0
    ensures var code := e.mode == CodeRead;
      Outcome(JaguarModel.Run(cfg, trace), cfg, e) ==
      Classify(Near(LinesOf(trace, code), e.line, cfg.L1(code)), Near(Lines(trace), e.line, cfg.l2), e.mode)
  {
    AloneHolds(cfg, trace, e.core, e.mode == CodeRead, e.line);
    OutcomeMeans(JaguarModel.Run(cfg, trace), cfg, e);
  }

  /** A line that the core's first level holds is reported as a second-level miss exactly when at least as
      many other lines of its second-level set as that has ways were accessed, in any way, since the line
      was last accessed in any way. */
  lemma DemotedIff(cfg: Config, trace: seq<Event>, e: Event)
    requires cfg.Valid() && Alone(trace, e.core) && e.line != 0
    requires L1Has(JaguarModel.Run(cfg, trace), cfg, e.Mod(), e.Local(), e.mode == CodeRead, e.line)
    ensures e.line in Lines(trace)
    ensures var r := Outcome(JaguarModel.Run(cfg, trace), cfg, e);
      r == L2IMiss || r == L2DMiss <==> |SetMatesSince(Lines(trace), e.line, cfg.l2.sets)| >= cfg.l2.ways
  {
    var code := e.mode == CodeRead;
    AloneHolds(cfg, trace, e.core, code, e.line);
    LinesOfMembers(trace, code, e.line);
    OutcomeMeans(JaguarModel.Run(cfg, trace), cfg, e);
  }

  lemma {:induction false} LinesOfMembers(trace: seq<Event>, code: bool, x: nat)
    ensures x in LinesOf(trace, code) ==> x in Lines(trace)
  {
    if trace != [] {
      LinesOfMembers(trace[..|trace| - 1], code, x);
      assert Lines(trace) == Lines(trace[..|trace| - 1]) + [trace[|trace| - 1].line];
    }
  }

  /** The trace is all fetches or all data accesses. */
  ghost predicate OneKind(trace: seq<Event>, code: bool) {
    forall k :: 0 <= k < |trace| ==> (trace[k].mode == CodeRead <==> code)
  }

  lemma {:induction false} OneKindLines(trace: seq<Event>, code: bool)
    requires OneKind(trace, code)
    ensures LinesOf(trace, code) == Lines(trace)
  {
    if trace != [] {
      OneKindLines(trace[..|trace| - 1], code);
    }
  }

  /** With accesses of one kind only, a smaller first level with coarser sets stays inside the second, and
      no first-level hit is demoted. */
  lemma OneKindStaysInclusive(cfg: Config, trace: seq<Event>, core: nat, code: bool, x: nat)
    requires cfg.Valid() && Alone(trace, core) && OneKind(trace, code) && x != 0
    requires cfg.l2.sets % cfg.L1(code).sets == 0 && cfg.L1(code).ways <= cfg.l2.ways
    ensures var s, m, c := JaguarModel.Run(cfg, trace), core / 4 % 2, core % 4;
      L1Has(s, cfg, m, c, code, x) ==> L2Has(s, cfg, m, x)
  {
    AloneRun(cfg, trace, core, code);
    NoLineZero(trace, core, code);
    OneKindLines(trace, code);
    Inclusion(cfg.L1(code), cfg.l2, Lines(trace), x);
  }

  /** A read of x and then fetches of as many other lines of its second-level set as that has ways. */
  function ReadThenFetches(cfg: Config, core: nat, x: nat, n: nat): (t: seq<Event>)
    ensures |t| == n + 1
  {
    [Event(core, x, Read)] + seq(n, k requires 0 <= k < n => Event(core, x + (k + 1) * cfg.l2.sets, CodeRead))
  }

  lemma {:induction false} OnlyFetches(cfg: Config, core: nat, x: nat, n: nat)
    ensures LinesOf(ReadThenFetches(cfg, core, x, n), false) == [x]
  {
    var t := ReadThenFetches(cfg, core, x, n);
    if n == 0 {
      assert t[..0] == [];
    } else {
      OnlyFetches(cfg, core, x, n - 1);
      assert t[..n] == ReadThenFetches(cfg, core, x, n - 1);
    }
  }

  lemma SameResidue(x: nat, sets: nat, j: nat, k: nat)
    requires sets > 0
    ensures (x + (j + 1) * sets) % sets == x % sets && x + (j + 1) * sets > x
    ensures j != k ==> x + (j + 1) * sets != x + (k + 1) * sets
  {
    RemainderIsUnique(x + (j + 1) * sets, sets, x / sets + j + 1, x % sets);
    if j < k {
      assert (k + 1) * sets == (j + 1) * sets + (k - j) * sets;
    } else if k < j {
      assert (j + 1) * sets == (k + 1) * sets + (j - k) * sets;
    }
  }

  lemma AllFar(far: seq<nat>, x: nat, sets: nat)
    requires sets > 0 && Distinct(far)
    requires forall i :: 0 <= i < |far| ==> far[i] != x && far[i] % sets == x % sets
    ensures |SetMatesSince([x] + far, x, sets)| == |far|
  {
    var lines := [x] + far;
    var k := LastUse(lines, x);
    assert forall i :: 0 <= i < |far| ==> lines[i + 1] == far[i];
    assert k == 0;
    assert lines[1..] == far;
    DistinctCount(far, SetMatesSince(lines, x, sets));
  }

  /** To the data cache x is the last line used; to the second level as many others of its set are. */
  lemma FetchesAreFar(cfg: Config, core: nat, x: nat)
    requires cfg.Valid()
    ensures var t := ReadThenFetches(cfg, core, x, cfg.l2.ways);
      Near(LinesOf(t, false), x, cfg.d1) && !Near(Lines(t), x, cfg.l2)
  {
    var n, sets := cfg.l2.ways, cfg.l2.sets;
    OnlyFetches(cfg, core, x, n);
    assert SetMatesSince([x], x, cfg.d1.sets) == {};
    var far: seq<nat> := seq(n, k requires 0 <= k < n => x + (k + 1) * sets);
    forall i | 0 <= i < n
      ensures far[i] != x && far[i] % sets == x % sets
    {
      SameResidue(x, sets, i, i);
    }
    forall i, j | 0 <= i < j < n
      ensures far[i] != far[j]
    {
      SameResidue(x, sets, i, j);
    }
    AllFar(far, x, sets);
    assert Lines(ReadThenFetches(cfg, core, x, n)) == [x] + far;
  }

  /** Mixed accesses break inclusion, for a core on its own and for every geometry: fetches push the data
      line out of the second level only, and the next read of it is a miss although the data cache holds it. */
  lemma FetchesDemoteData(cfg: Config, core: nat, x: nat)
    requires cfg.Valid() && core < 8 && x != 0
    ensures var s := JaguarModel.Run(cfg, ReadThenFetches(cfg, core, x, cfg.l2.ways));
      && L1Has(s, cfg, core / 4 % 2, core % 4, false, x) && !Inclusive(s, cfg)
      && Outcome(s, cfg, Event(core, x, Read)) == L2DMiss
  {
    var n, e := cfg.l2.ways, Event(core, x, Read);
    var trace := ReadThenFetches(cfg, core, x, n);
    FetchesAreFar(cfg, core, x);
    AloneHolds(cfg, trace, core, false, x);
    OutcomeMeans(JaguarModel.Run(cfg, trace), cfg, e);
    hide JaguarModel.Run, Outcome, L1Has, L2Has;
    assert L1Has(JaguarModel.Run(cfg, trace), cfg, core / 4 % 2, core % 4, false, x);
  }
}
