/** Stale hits: a write does not reach the first-level caches of the other module. */
module JaguarStale {
  import opened JaguarModel

  /** No event of the trace looks r's line up in r's own first-level cache. */
  ghost predicate NoFetch(rest: seq<Event>, r: Event) {
    forall k :: 0 <= k < |rest| && LooksIn(rest[k], r.Mod(), r.Local(), r.mode == CodeRead) ==> rest[k].line != r.line
  }

  /** After more events, none of them a fetch of its own, r hits its core's first level. */
  ghost predicate HitsUnfetched(cfg: Config, past: seq<Event>, rest: seq<Event>, r: Event)
    requires cfg.Valid()
  {
    && NoFetch(rest, r)
    && (Outcome(Run(cfg, past + rest), cfg, r) == D1Hit || Outcome(Run(cfg, past + rest), cfg, r) == I1Hit)
  }

  /** Only its own fetches bring a line into a first-level cache. */
  lemma {:induction false} HeldUnfetched(cfg: Config, past: seq<Event>, rest: seq<Event>, r: Event)
    requires cfg.Valid() && r.line != 0 && NoFetch(rest, r)
    requires L1Has(Run(cfg, past + rest), cfg, r.Mod(), r.Local(), r.mode == CodeRead, r.line)
    ensures L1Has(Run(cfg, past), cfg, r.Mod(), r.Local(), r.mode == CodeRead, r.line)
  {
    hide Run, Step, L1Has, ShapedModule;
    if rest == [] {
      assert past + rest == past;
    } else {
      var pre, e := past + rest[..|rest| - 1], rest[|rest| - 1];
      assert past + rest == pre + [e];
      RunSnoc(cfg, pre, e);
      RunIsSound(cfg, pre);
      StepL1(Run(cfg, pre), cfg, e, r.Mod(), r.Local(), r.mode == CodeRead, r.line);
      HeldUnfetched(cfg, past, rest[..|rest| - 1], r);
    }
  }

  /** A read of r's line by another core of r's module. */
  function SiblingRead(r: Event): (e: Event)
    ensures e.line == r.line && e.Mod() == r.Mod() && e.Local() != r.Local() && e.mode == Read
  {
    Event(r.Mod() * 4 + (r.Local() + 1) % 4, r.line, Read)
  }

  /** The write does not go through the cache that r looks up: another core's, or any if r is a fetch of code. */
  predicate Foreign(w: Event, r: Event) {
    w.Writes(r.line) && !LooksIn(w, r.Mod(), r.Local(), r.mode == CodeRead)
  }

  /** Once the line is written by another module, or as data by the core that holds it as code, a sibling's
      read is enough for a hit. */
  lemma SiblingMakesStale(cfg: Config, before: seq<Event>, w: Event, r: Event)
    requires cfg.Valid() && Foreign(w, r) && r.line != 0 && !SiblingWrite(w, r.Mod(), r.Local(), r.line)
    requires L1Has(Run(cfg, before), cfg, r.Mod(), r.Local(), r.mode == CodeRead, r.line)
    ensures HitsUnfetched(cfg, before + [w], [SiblingRead(r)], r)
  {
    hide Run, Step, L1Has, L2Has, Outcome, ShapedModule;
    var e, m, c, code := SiblingRead(r), r.Mod(), r.Local(), r.mode == CodeRead;
    RunIsSound(cfg, before);
    RunIsSound(cfg, before + [w]);
    RunSnoc(cfg, before, w);
    RunSnoc(cfg, before + [w], e);
    StepL1(Run(cfg, before), cfg, w, m, c, code, r.line);
    StepL1(Run(cfg, before + [w]), cfg, e, m, c, code, r.line);
    StepL2(Run(cfg, before + [w]), cfg, e, m, r.line);
    OutcomeMeans(Run(cfg, before + [w] + [e]), cfg, r);
  }

  /** After a foreign write a core can still be told of a first-level hit, without having fetched the line
      since, exactly when its cache held the line before the write and the writer is no sibling. */
  lemma StaleHitIff(cfg: Config, before: seq<Event>, w: Event, r: Event)
    requires cfg.Valid() && Foreign(w, r) && r.line != 0
    ensures (exists rest :: HitsUnfetched(cfg, before + [w], rest, r)) <==>
            && L1Has(Run(cfg, before), cfg, r.Mod(), r.Local(), r.mode == CodeRead, r.line)
            && !SiblingWrite(w, r.Mod(), r.Local(), r.line)
  {
    var m, c, code := r.Mod(), r.Local(), r.mode == CodeRead;
    hide Run, Step, L1Has, L2Has, Outcome, ShapedModule;
    if L1Has(Run(cfg, before), cfg, m, c, code, r.line) && !SiblingWrite(w, m, c, r.line) {
      SiblingMakesStale(cfg, before, w, r);
    } else if rest :| HitsUnfetched(cfg, before + [w], rest, r) {
      OutcomeMeans(Run(cfg, before + [w] + rest), cfg, r);
      HeldUnfetched(cfg, before + [w], rest, r);
      RunIsSound(cfg, before);
      RunSnoc(cfg, before, w);
      StepL1(Run(cfg, before), cfg, w, m, c, code, r.line);
    }
  }

  /** It happens: after core a reads x, core b of the other module writes it, and a sibling of a reads it,
      a's next read is reported as a first-level hit although b wrote the line since a last accessed it. */
  lemma StaleHit(cfg: Config, a: nat, b: nat, x: nat)
    requires cfg.Valid() && x != 0
    requires a < 8 && b < 8 && b / 4 != a / 4
    ensures Outcome(Run(cfg, [Event(a, x, Read), Event(b, x, Write), SiblingRead(Event(a, x, Read))]),
                    cfg, Event(a, x, Read)) == D1Hit
  {
    var r, w := Event(a, x, Read), Event(b, x, Write);
    hide Run, Step, L1Has, L2Has, Outcome, ShapedModule;
    assert [] + [r] == [r];
    assert [r] + [w] + [SiblingRead(r)] == [r, w, SiblingRead(r)];
    RunSnoc(cfg, [], r);
    RunIsSound(cfg, []);
    StepL1(Run(cfg, []), cfg, r, r.Mod(), r.Local(), false, x);
    SiblingMakesStale(cfg, [r], w, r);
    OutcomeMeans(Run(cfg, [r, w, SiblingRead(r)]), cfg, r);
  }

  /** Event j is the last lookup of e's line in e's own first-level cache. */
  ghost predicate LastFetch(trace: seq<Event>, j: nat, e: Event) {
    && j < |trace| && LooksIn(trace[j], e.Mod(), e.Local(), e.mode == CodeRead) && trace[j].line == e.line
    && forall k :: j < k < |trace| && LooksIn(trace[k], e.Mod(), e.Local(), e.mode == CodeRead)
         ==> trace[k].line != e.line
  }

  /** Event i is another path of e's module to the line: a sibling's, or the same core's of the other kind. */
  ghost predicate OtherPath(trace: seq<Event>, i: nat, e: Event) {
    && i < |trace| && trace[i].Mod() == e.Mod() && trace[i].line == e.line
    && !LooksIn(trace[i], e.Mod(), e.Local(), e.mode == CodeRead)
  }

  /** When a line hits the first level, no sibling wrote it since the cache last looked it up, and after
      every write by the other module since then the module took the line again by another path. */
  lemma FreshUnlessRefetched(cfg: Config, trace: seq<Event>, e: Event, j: nat, k: nat)
    requires cfg.Valid() && e.line != 0
    requires Outcome(Run(cfg, trace), cfg, e) == D1Hit || Outcome(Run(cfg, trace), cfg, e) == I1Hit
    requires LastFetch(trace, j, e)
    requires j < k < |trace| && trace[k].Writes(e.line)
    ensures !SiblingWrite(trace[k], e.Mod(), e.Local(), e.line)
    ensures trace[k].Mod() != e.Mod() ==> exists i :: k < i < |trace| && OtherPath(trace, i, e)
  {
    HitProvenance(cfg, trace, e);
    OutcomeMeans(Run(cfg, trace), cfg, e);
    hide Run, Outcome, ShapedModule, L1Has, L2Has;
    RefetchedAfter(trace, e, j, k);
  }

  lemma RefetchedAfter(trace: seq<Event>, e: Event, j: nat, k: nat)
    requires Fetched(trace, e.Mod(), e.Local(), e.mode == CodeRead, e.line) && Loaded(trace, e.Mod(), e.line)
    requires LastFetch(trace, j, e)
    requires j < k < |trace| && trace[k].Writes(e.line)
    ensures !SiblingWrite(trace[k], e.Mod(), e.Local(), e.line)
    ensures trace[k].Mod() != e.Mod() ==> exists i :: k < i < |trace| && OtherPath(trace, i, e)
  {
    var f: nat :| FetchAt(trace, f, e.Mod(), e.Local(), e.mode == CodeRead, e.line);
    var l: nat :| LoadAt(trace, l, e.Mod(), e.line);
    assert f <= j;
    if trace[k].Mod() != e.Mod() {
      assert k < l && OtherPath(trace, l, e);
    }
  }
}
