/** The eight simulated cores: two modules of four, each core with a data and an instruction cache
    of its own, each module with a shared second-level cache. */
module JaguarModel {
  import opened Bits
  import opened LruSet
  import opened CacheModel

  datatype Mode = Read | CodeRead | Write

  /** In the order of the program's enumeration, best first. */
  datatype AccessResult = D1Hit | I1Hit | L2Hit | L2IMiss | L2DMiss {
    function Rank(): (r: nat)
      ensures r < 5
    {
      match this
      case D1Hit => 0
      case I1Hit => 1
      case L2Hit => 2
      case L2IMiss => 3
      case L2DMiss => 4
    }
  }

  datatype Config = Config(d1: Geometry, i1: Geometry, l2: Geometry) {
    predicate Valid() {
      d1.Valid() && i1.Valid() && l2.Valid()
    }

    function L1(code: bool): Geometry {
      if code then i1 else d1
    }
  }

  const JAGUAR := Config(Geometry(64, 8), Geometry(256, 2), Geometry(2048, 16))

  datatype Module = Module(d1: seq<Sets>, i1: seq<Sets>, l2: Sets)

  /** One core's first-level cache for instructions or for data. */
  function L1(m: Module, core: nat, code: bool): Sets
    requires |m.d1| == 4 && |m.i1| == 4 && core < 4
  {
    if code then m.i1[core] else m.d1[core]
  }

  /** Set i of n only caches lines that belong there. */
  ghost predicate Placed(s: seq<nat>, n: nat, i: nat)
    requires n > 0
  {
    forall k :: 0 <= k < |s| && s[k] != 0 ==> s[k] % n == i
  }

  /** Right shape, no line twice in a set, and every line in its own set. */
  ghost predicate Sound(c: Sets, g: Geometry) {
    Shaped(c, g) && forall i :: 0 <= i < |c| ==> NoTwin(c[i]) && Placed(c[i], |c|, i)
  }

  predicate ShapedModule(m: Module, cfg: Config) {
    && cfg.Valid() && |m.d1| == 4 && |m.i1| == 4 && Shaped(m.l2, cfg.l2)
    && (forall i :: 0 <= i < 4 ==> Shaped(m.d1[i], cfg.d1))
    && (forall i :: 0 <= i < 4 ==> Shaped(m.i1[i], cfg.i1))
  }

  function FreshModule(cfg: Config): (m: Module)
    requires cfg.Valid()
    ensures ShapedModule(m, cfg)
  {
    Module(seq(4, _ => Fresh(cfg.d1)), seq(4, _ => Fresh(cfg.i1)), Fresh(cfg.l2))
  }

  /** Every cache but the writing core's own gives line x up. */
  function KickOut(caches: seq<Sets>, core: nat, x: nat): (r: seq<Sets>)
    requires forall i :: 0 <= i < |caches| ==> caches[i] != []
    ensures |r| == |caches|
  {
    seq(|caches|, i requires 0 <= i < |caches| =>
      if i == core then caches[i] else Invalidate(caches[i], x))
  }

  function Invalidated(m: Module, cfg: Config, core: nat, x: nat, mode: Mode): (r: Module)
    requires ShapedModule(m, cfg) && core < 4
    ensures ShapedModule(r, cfg)
  {
    if mode == Write then m.(d1 := KickOut(m.d1, core, x), i1 := KickOut(m.i1, core, x)) else m
  }

  function Looked(m: Module, cfg: Config, core: nat, x: nat, mode: Mode): (r: Module)
    requires ShapedModule(m, cfg) && core < 4
    ensures ShapedModule(r, cfg)
  {
    if mode == CodeRead then m.(l2 := Access(m.l2, x), i1 := m.i1[core := Access(m.i1[core], x)])
    else m.(l2 := Access(m.l2, x), d1 := m.d1[core := Access(m.d1[core], x)])
  }

  function Classify(l1Hit: bool, l2Hit: bool, mode: Mode): AccessResult {
    if l2Hit && l1Hit then (if mode == CodeRead then I1Hit else D1Hit)
    else if l2Hit then L2Hit
    else if mode == CodeRead then L2IMiss else L2DMiss
  }

  // ----- the whole simulator

  type Sim = s: seq<Module> | |s| == 2 witness [Module([], [], []), Module([], [], [])]

  predicate ShapedSim(s: Sim, cfg: Config) {
    cfg.Valid() && ShapedModule(s[0], cfg) && ShapedModule(s[1], cfg)
  }

  ghost predicate SoundSim(s: Sim, cfg: Config) {
    && ShapedSim(s, cfg)
    && (forall m, c, code :: 0 <= m < 2 && 0 <= c < 4 ==> Sound(L1(s[m], c, code), cfg.L1(code)))
    && (forall m :: 0 <= m < 2 ==> Sound(s[m].l2, cfg.l2))
  }

  function FreshSim(cfg: Config): (s: Sim)
    requires cfg.Valid()
    ensures ShapedSim(s, cfg)
  {
    [FreshModule(cfg), FreshModule(cfg)]
  }

  /** One line accessed by one core. */
  datatype Event = Event(core: nat, line: nat, mode: Mode) {
    /** The module the core sits in; core numbers beyond 7 wrap. */
    function Mod(): (m: nat)
      ensures m < 2
    {
      core / 4 % 2
    }

    function Local(): (c: nat)
      ensures c < 4
    {
      core % 4
    }

    predicate Writes(x: nat) {
      mode == Write && line == x
    }
  }

  function Step(s: Sim, cfg: Config, e: Event): (t: Sim)
    requires ShapedSim(s, cfg)
    ensures ShapedSim(t, cfg)
  {
    var m := e.Mod();
    var own := Looked(Invalidated(s[m], cfg, e.Local(), e.line, e.mode), cfg, e.Local(), e.line, e.mode);
    var other := if e.mode == Write then s[1 - m].(l2 := Invalidate(s[1 - m].l2, e.line)) else s[1 - m];
    s[m := own][1 - m := other]
  }

  function Outcome(s: Sim, cfg: Config, e: Event): AccessResult
    requires ShapedSim(s, cfg)
  {
    var m := s[e.Mod()];
    Classify(Hit(L1(m, e.Local(), e.mode == CodeRead), e.line), Hit(m.l2, e.line), e.mode)
  }

  function Run(cfg: Config, trace: seq<Event>): (s: Sim)
    requires cfg.Valid()
    ensures ShapedSim(s, cfg)
  {
    if trace == [] then FreshSim(cfg)
    else Step(Run(cfg, trace[..|trace| - 1]), cfg, trace[|trace| - 1])
  }

  // ----- single caches

  /** The line an access to x pushes out of c; 0 when none is. */
  function Victim(c: Sets, x: nat): nat
    requires c != [] && c[x % |c|] != []
  {
    Evicted(c[x % |c|], x)
  }

  /** Exactly which lines a cache holds after an access. */
  lemma AccessHolds(c: Sets, g: Geometry, x: nat, y: nat)
    requires Sound(c, g)
    ensures Sound(Access(c, x), g)
    ensures y != 0 ==> (Holds(Access(c, x), y) <==> y == x || (Holds(c, y) && y != Victim(c, x)))
  {
    TouchKeepsNoTwin(c[x % |c|], x);
    if y != 0 {
      TouchHolds(c[x % |c|], x, y);
    }
    TouchKeepsPlaced(c[x % |c|], |c|, x);
  }

  lemma TouchKeepsPlaced(s: seq<nat>, n: nat, x: nat)
    requires n > 0 && s != [] && NoTwin(s) && Placed(s, n, x % n)
    ensures Placed(Touch(s, x), n, x % n)
  {
  }

  lemma DropKeepsPlaced(s: seq<nat>, n: nat, i: nat, x: nat)
    requires n > 0 && NoTwin(s) && Placed(s, n, i)
    ensures Placed(Drop(s, x), n, i)
  {
  }

  /** Exactly which lines a cache holds after an invalidation. */
  lemma InvalidateHolds(c: Sets, g: Geometry, x: nat, y: nat)
    requires Sound(c, g)
    ensures Sound(Invalidate(c, x), g)
    ensures y != 0 ==> (Holds(Invalidate(c, x), y) <==> y != x && Holds(c, y))
  {
    DropKeepsNoTwin(c[x % |c|], x);
    DropKeepsPlaced(c[x % |c|], |c|, x % |c|, x);
    if y != 0 {
      DropHolds(c[x % |c|], x, y);
    }
  }

  // ----- one step of the simulator

  ghost predicate L1Has(s: Sim, cfg: Config, m: nat, c: nat, code: bool, y: nat)
    requires ShapedSim(s, cfg) && m < 2 && c < 4
  {
    Holds(L1(s[m], c, code), y)
  }

  ghost predicate L2Has(s: Sim, cfg: Config, m: nat, y: nat)
    requires ShapedSim(s, cfg) && m < 2
  {
    Holds(s[m].l2, y)
  }

  /** The event looks up core c's instruction or data cache. */
  predicate LooksIn(e: Event, m: nat, c: nat, code: bool) {
    e.Mod() == m && e.Local() == c && (e.mode == CodeRead <==> code)
  }

  /** The event is a write to y by a sibling of core c. */
  predicate SiblingWrite(e: Event, m: nat, c: nat, y: nat) {
    e.Writes(y) && e.Mod() == m && e.Local() != c
  }

  lemma L1After(s: Sim, cfg: Config, e: Event, m: nat, c: nat, code: bool)
    requires ShapedSim(s, cfg) && m < 2 && c < 4
    ensures L1(Step(s, cfg, e)[m], c, code) ==
      if LooksIn(e, m, c, code) then Access(L1(s[m], c, code), e.line)
      else if SiblingWrite(e, m, c, e.line) then Invalidate(L1(s[m], c, code), e.line)
      else L1(s[m], c, code)
  {
    hide Looked, Invalidated, Access, Invalidate;
    OwnL1After(s[e.Mod()], cfg, e, c, code);
  }

  lemma OwnL1After(own: Module, cfg: Config, e: Event, c: nat, code: bool)
    requires ShapedModule(own, cfg) && c < 4
    ensures L1(Looked(Invalidated(own, cfg, e.Local(), e.line, e.mode), cfg, e.Local(), e.line, e.mode), c, code) ==
      if LooksIn(e, e.Mod(), c, code) then Access(L1(own, c, code), e.line)
      else if SiblingWrite(e, e.Mod(), c, e.line) then Invalidate(L1(own, c, code), e.line)
      else L1(own, c, code)
  {
  }

  lemma L2After(s: Sim, cfg: Config, e: Event, m: nat)
    requires ShapedSim(s, cfg) && m < 2
    ensures Step(s, cfg, e)[m].l2 ==
      if e.Mod() == m then Access(s[m].l2, e.line)
      else if e.mode == Write then Invalidate(s[m].l2, e.line)
      else s[m].l2
  {
    hide Looked, Invalidated, Access, Invalidate;
    OwnL2After(s[e.Mod()], cfg, e);
  }

  lemma OwnL2After(own: Module, cfg: Config, e: Event)
    requires ShapedModule(own, cfg)
    ensures Looked(Invalidated(own, cfg, e.Local(), e.line, e.mode), cfg, e.Local(), e.line, e.mode).l2 ==
      Access(own.l2, e.line)
  {
    hide Access, KickOut;
  }

  lemma StepKeepsSound(s: Sim, cfg: Config, e: Event)
    requires SoundSim(s, cfg)
    ensures SoundSim(Step(s, cfg, e), cfg)
  {
    var t, x := Step(s, cfg, e), e.line;
    hide Step, Access, Invalidate, Sound, ShapedSim;
    forall m, c, code | 0 <= m < 2 && 0 <= c < 4
      ensures Sound(L1(t[m], c, code), cfg.L1(code))
    {
      L1After(s, cfg, e, m, c, code);
      AccessHolds(L1(s[m], c, code), cfg.L1(code), x, 0);
      InvalidateHolds(L1(s[m], c, code), cfg.L1(code), x, 0);
    }
    forall m | 0 <= m < 2
      ensures Sound(t[m].l2, cfg.l2)
    {
      L2After(s, cfg, e, m);
      AccessHolds(s[m].l2, cfg.l2, x, 0);
      InvalidateHolds(s[m].l2, cfg.l2, x, 0);
    }
  }

  /** How one event changes what a core's first-level cache holds. */
  lemma StepL1(s: Sim, cfg: Config, e: Event, m: nat, c: nat, code: bool, y: nat)
    requires SoundSim(s, cfg) && m < 2 && c < 4 && y != 0
    ensures L1Has(Step(s, cfg, e), cfg, m, c, code, y) <==>
      if LooksIn(e, m, c, code) then
        y == e.line || (L1Has(s, cfg, m, c, code, y) && y != Victim(L1(s[m], c, code), e.line))
      else
        L1Has(s, cfg, m, c, code, y) && !SiblingWrite(e, m, c, y)
  {
    L1After(s, cfg, e, m, c, code);
    AccessHolds(L1(s[m], c, code), cfg.L1(code), e.line, y);
    InvalidateHolds(L1(s[m], c, code), cfg.L1(code), e.line, y);
    hide Step, Access, Invalidate, Victim, Sound, Holds;
  }

  /** How one event changes what a module's second-level cache holds. */
  lemma StepL2(s: Sim, cfg: Config, e: Event, m: nat, y: nat)
    requires SoundSim(s, cfg) && m < 2 && y != 0
    ensures L2Has(Step(s, cfg, e), cfg, m, y) <==>
      if e.Mod() == m then y == e.line || (L2Has(s, cfg, m, y) && y != Victim(s[m].l2, e.line))
      else L2Has(s, cfg, m, y) && !e.Writes(y)
  {
    L2After(s, cfg, e, m);
    AccessHolds(s[m].l2, cfg.l2, e.line, y);
    InvalidateHolds(s[m].l2, cfg.l2, e.line, y);
    hide Step, Access, Invalidate, Victim, Sound, Holds;
  }

  lemma FreshHasNothing(cfg: Config, m: nat, c: nat, code: bool, y: nat)
    requires cfg.Valid() && m < 2 && c < 4 && y != 0
    ensures SoundSim(FreshSim(cfg), cfg)
    ensures !L1Has(FreshSim(cfg), cfg, m, c, code, y) && !L2Has(FreshSim(cfg), cfg, m, y)
  {
  }

  lemma RunSnoc(cfg: Config, trace: seq<Event>, e: Event)
    requires cfg.Valid()
    ensures Run(cfg, trace + [e]) == Step(Run(cfg, trace), cfg, e)
  {
  }

  lemma {:induction false} RunIsSound(cfg: Config, trace: seq<Event>)
    requires cfg.Valid()
    ensures SoundSim(Run(cfg, trace), cfg)
  {
    if trace == [] {
      FreshHasNothing(cfg, 0, 0, false, 1);
    } else {
      RunIsSound(cfg, trace[..|trace| - 1]);
      StepKeepsSound(Run(cfg, trace[..|trace| - 1]), cfg, trace[|trace| - 1]);
    }
  }

  // ----- provenance of hits

  /** Event j is core c of module m fetching x into its data or instruction cache, and no sibling
      core has written x since. */
  ghost predicate FetchAt(trace: seq<Event>, j: nat, m: nat, c: nat, code: bool, x: nat) {
    && j < |trace| && LooksIn(trace[j], m, c, code) && trace[j].line == x
    && forall k :: j < k < |trace| ==> !SiblingWrite(trace[k], m, c, x)
  }

  ghost predicate Fetched(trace: seq<Event>, m: nat, c: nat, code: bool, x: nat) {
    exists j: nat :: FetchAt(trace, j, m, c, code, x)
  }

  /** Event j is some core of module m accessing x, and the other module has not written x since. */
  ghost predicate LoadAt(trace: seq<Event>, j: nat, m: nat, x: nat) {
    && j < |trace| && trace[j].Mod() == m && trace[j].line == x
    && forall k :: j < k < |trace| ==> !(trace[k].Writes(x) && trace[k].Mod() != m)
  }

  ghost predicate Loaded(trace: seq<Event>, m: nat, x: nat) {
    exists j: nat :: LoadAt(trace, j, m, x)
  }

  lemma FetchedLater(trace: seq<Event>, e: Event, m: nat, c: nat, code: bool, x: nat)
    requires Fetched(trace, m, c, code, x) && !SiblingWrite(e, m, c, x)
    ensures Fetched(trace + [e], m, c, code, x)
  {
    var j: nat :| FetchAt(trace, j, m, c, code, x);
    assert FetchAt(trace + [e], j, m, c, code, x);
  }

  lemma LoadedLater(trace: seq<Event>, e: Event, m: nat, x: nat)
    requires Loaded(trace, m, x)
    requires !(e.Writes(x) && e.Mod() != m)
    ensures Loaded(trace + [e], m, x)
  {
    var j: nat :| LoadAt(trace, j, m, x);
    assert LoadAt(trace + [e], j, m, x);
  }

  lemma {:induction false} HeldL1WasFetched(cfg: Config, trace: seq<Event>, m: nat, c: nat, code: bool, x: nat)
    requires cfg.Valid() && m < 2 && c < 4 && x != 0
    requires L1Has(Run(cfg, trace), cfg, m, c, code, x)
    ensures Fetched(trace, m, c, code, x)
  {
    if trace == [] {
      FreshHasNothing(cfg, m, c, code, x);
    } else {
      var pre, e := trace[..|trace| - 1], trace[|trace| - 1];
      assert trace == pre + [e];
      RunIsSound(cfg, pre);
      RunSnoc(cfg, pre, e);
      hide Run, Step;
      StepL1(Run(cfg, pre), cfg, e, m, c, code, x);
      if LooksIn(e, m, c, code) && e.line == x {
        assert FetchAt(trace, |trace| - 1, m, c, code, x);
      } else {
        HeldL1WasFetched(cfg, pre, m, c, code, x);
        FetchedLater(pre, e, m, c, code, x);
      }
    }
  }

  lemma {:induction false} HeldL2WasLoaded(cfg: Config, trace: seq<Event>, m: nat, x: nat)
    requires cfg.Valid() && m < 2 && x != 0
    requires L2Has(Run(cfg, trace), cfg, m, x)
    ensures Loaded(trace, m, x)
  {
    if trace == [] {
      FreshHasNothing(cfg, m, 0, false, x);
    } else {
      var pre, e := trace[..|trace| - 1], trace[|trace| - 1];
      assert trace == pre + [e];
      RunIsSound(cfg, pre);
      RunSnoc(cfg, pre, e);
      hide Run, Step;
      StepL2(Run(cfg, pre), cfg, e, m, x);
      if e.Mod() == m && e.line == x {
        assert LoadAt(trace, |trace| - 1, m, x);
      } else {
        HeldL2WasLoaded(cfg, pre, m, x);
        LoadedLater(pre, e, m, x);
      }
    }
  }

  /** What an outcome says about the caches that were looked up. */
  lemma OutcomeMeans(s: Sim, cfg: Config, e: Event)
    requires ShapedSim(s, cfg)
    ensures var r, code := Outcome(s, cfg, e), e.mode == CodeRead;
      var l1, l2 := L1Has(s, cfg, e.Mod(), e.Local(), code, e.line), L2Has(s, cfg, e.Mod(), e.line);
      && (r == D1Hit <==> l1 && l2 && !code) && (r == I1Hit <==> l1 && l2 && code)
      && (r == L2Hit <==> !l1 && l2)
      && (r == L2IMiss <==> !l2 && code) && (r == L2DMiss <==> !l2 && !code)
  {
  }

  /** Over every interleaving of the cores: a first-level hit means this very core fetched the line
      earlier and no sibling wrote it since; anything but a second-level miss means the module
      accessed the line after the other module last wrote it. */
  lemma HitProvenance(cfg: Config, trace: seq<Event>, e: Event)
    requires cfg.Valid() && e.line != 0
    ensures var r := Outcome(Run(cfg, trace), cfg, e);
      && (r == D1Hit || r == I1Hit ==> Fetched(trace, e.Mod(), e.Local(), r == I1Hit, e.line))
      && (r != L2IMiss && r != L2DMiss ==> Loaded(trace, e.Mod(), e.line))
  {
    var s := Run(cfg, trace);
    OutcomeMeans(s, cfg, e);
    hide Run, Outcome, L1Has, L2Has;
    if L1Has(s, cfg, e.Mod(), e.Local(), e.mode == CodeRead, e.line) {
      HeldL1WasFetched(cfg, trace, e.Mod(), e.Local(), e.mode == CodeRead, e.line);
    }
    if L2Has(s, cfg, e.Mod(), e.line) {
      HeldL2WasLoaded(cfg, trace, e.Mod(), e.line);
    }
  }

  // ----- what a write leaves behind

  /** No first-level cache of module m holds x. */
  ghost predicate NoL1Has(s: Sim, cfg: Config, m: nat, x: nat)
    requires ShapedSim(s, cfg) && m < 2
  {
    forall i, code :: 0 <= i < 4 ==> !L1Has(s, cfg, m, i, code, x)
  }

  /** No cache outside the writing core and its module's second level holds x. */
  ghost predicate SoleCopy(s: Sim, cfg: Config, m: nat, c: nat, x: nat)
    requires ShapedSim(s, cfg) && m < 2
  {
    && !L2Has(s, cfg, 1 - m, x)
    && (forall i, code :: 0 <= i < 4 && i != c ==> !L1Has(s, cfg, m, i, code, x))
    && NoL1Has(s, cfg, 1 - m, x)
  }

  lemma WriteReach(s: Sim, cfg: Config, e: Event, i: nat, code: bool)
    requires SoundSim(s, cfg) && e.mode == Write && e.line != 0 && i < 4
    ensures var t, m := Step(s, cfg, e), e.Mod();
      && (L1Has(t, cfg, 1 - m, i, code, e.line) <==> L1Has(s, cfg, 1 - m, i, code, e.line))
      && (i != e.Local() ==> !L1Has(t, cfg, m, i, code, e.line))
      && !L2Has(t, cfg, 1 - m, e.line)
  {
    hide Step, L1Has, L2Has, SoundSim, ShapedSim;
    StepL1(s, cfg, e, 1 - e.Mod(), i, code, e.line);
    StepL1(s, cfg, e, e.Mod(), i, code, e.line);
    StepL2(s, cfg, e, 1 - e.Mod(), e.line);
  }

  /** A write leaves the writer with the only copy exactly when no first-level cache of the other
      module held the line: those are the caches a write does not reach. */
  lemma WriteLeavesSoleCopyIff(s: Sim, cfg: Config, e: Event)
    requires SoundSim(s, cfg) && e.mode == Write && e.line != 0
    ensures SoleCopy(Step(s, cfg, e), cfg, e.Mod(), e.Local(), e.line) <==> NoL1Has(s, cfg, 1 - e.Mod(), e.line)
  {
    var t, m, o := Step(s, cfg, e), e.Mod(), 1 - e.Mod();
    hide Step, L1Has, L2Has, SoundSim, ShapedSim;
    WriteReach(s, cfg, e, 0, true);
    forall i, code | 0 <= i < 4
      ensures L1Has(t, cfg, o, i, code, e.line) <==> L1Has(s, cfg, o, i, code, e.line)
      ensures i != e.Local() ==> !L1Has(t, cfg, m, i, code, e.line)
    {
      WriteReach(s, cfg, e, i, code);
    }
  }

  // ----- inclusion of the first level in the second

  ghost predicate Inclusive(s: Sim, cfg: Config)
    requires ShapedSim(s, cfg)
  {
    forall m, c, code, y :: 0 <= m < 2 && 0 <= c < 4 && y != 0 && L1Has(s, cfg, m, c, code, y)
      ==> L2Has(s, cfg, m, y)
  }

  /** The line the event pushes out of the second level. */
  ghost function L2Victim(s: Sim, cfg: Config, e: Event): nat
    requires ShapedSim(s, cfg)
  {
    Victim(s[e.Mod()].l2, e.line)
  }

  ghost function L1Victim(s: Sim, cfg: Config, e: Event): nat
    requires ShapedSim(s, cfg)
  {
    Victim(L1(s[e.Mod()], e.Local(), e.mode == CodeRead), e.line)
  }

  /** The event leaves no orphan: a write does not hit a line in a first-level cache of the other
      module, and the line pushed out of the second level is in no first-level cache of the module,
      unless this same access pushes it out there too. */
  ghost predicate NoOrphan(s: Sim, cfg: Config, e: Event)
    requires ShapedSim(s, cfg)
  {
    var v := L2Victim(s, cfg, e);
    && (e.mode == Write ==> NoL1Has(s, cfg, 1 - e.Mod(), e.line))
    && (v != 0 ==> forall i, code :: 0 <= i < 4 && L1Has(s, cfg, e.Mod(), i, code, v) ==>
          LooksIn(e, e.Mod(), i, code) && L1Victim(s, cfg, e) == v)
  }

  /** The comment that the hierarchy is inclusive holds from one access to the next exactly when the
      access leaves no orphan. */
  lemma StaysInclusiveIff(s: Sim, cfg: Config, e: Event)
    requires SoundSim(s, cfg) && e.line != 0 && Inclusive(s, cfg)
    ensures Inclusive(Step(s, cfg, e), cfg) <==> NoOrphan(s, cfg, e)
  {
    hide Step, L1Has, L2Has, ShapedModule, Sound, Victim;
    var t, m, x := Step(s, cfg, e), e.Mod(), e.line;
    var v := L2Victim(s, cfg, e);
    VictimIsAnother(s, cfg, e);
    forall n: nat, i: nat, code, y: nat | n < 2 && i < 4 && y != 0
      ensures L1Has(t, cfg, n, i, code, y) <==>
        if LooksIn(e, n, i, code) then y == x || (L1Has(s, cfg, n, i, code, y) && y != L1Victim(s, cfg, e))
        else L1Has(s, cfg, n, i, code, y) && !SiblingWrite(e, n, i, y)
    {
      StepL1(s, cfg, e, n, i, code, y);
    }
    forall n: nat, y: nat | n < 2 && y != 0
      ensures L2Has(t, cfg, n, y) <==>
        if m == n then y == x || (L2Has(s, cfg, n, y) && y != v) else L2Has(s, cfg, n, y) && !e.Writes(y)
    {
      StepL2(s, cfg, e, n, y);
    }
    hide L1Victim, L2Victim;
    if !NoOrphan(s, cfg, e) {
      if e.mode == Write && !NoL1Has(s, cfg, 1 - m, x) {
        var i, code :| 0 <= i < 4 && L1Has(s, cfg, 1 - m, i, code, x);
        assert L1Has(t, cfg, 1 - m, i, code, x) && !L2Has(t, cfg, 1 - m, x);
      } else {
        var i, code :| 0 <= i < 4 && L1Has(s, cfg, m, i, code, v)
                       && !(LooksIn(e, m, i, code) && L1Victim(s, cfg, e) == v);
        assert L1Has(t, cfg, m, i, code, v) && !L2Has(t, cfg, m, v);
      }
    }
  }

  lemma VictimIsAnother(s: Sim, cfg: Config, e: Event)
    requires ShapedSim(s, cfg) && e.line != 0
    ensures L2Victim(s, cfg, e) != e.line
  {
  }

  /** Two accesses are enough to break inclusion. */
  lemma InclusionBreaks(cfg: Config, a: nat, b: nat, x: nat)
    requires cfg.Valid() && x != 0 && a < 8 && b < 8 && a / 4 != b / 4
    ensures !Inclusive(Run(cfg, [Event(a, x, Read), Event(b, x, Write)]), cfg)
  {
    var e, f := Event(a, x, Read), Event(b, x, Write);
    var m, c := e.Mod(), e.Local();
    assert f.Mod() != m;
    assert [] + [e] == [e] && [e] + [f] == [e, f];
    RunSnoc(cfg, [], e);
    RunSnoc(cfg, [e], f);
    RunIsSound(cfg, []);
    RunIsSound(cfg, [e]);
    hide Run, Step, L1Has, L2Has;
    StepL1(Run(cfg, []), cfg, e, m, c, false, x);
    StepL1(Run(cfg, [e]), cfg, f, m, c, false, x);
    StepL2(Run(cfg, [e]), cfg, f, m, x);
    assert L1Has(Run(cfg, [e, f]), cfg, m, c, false, x);
  }

  /** The Jaguar sizes: each first level is a coarser cache with no more ways than the second. */
  lemma JaguarNests(code: bool)
    ensures JAGUAR.Valid()
    ensures JAGUAR.l2.sets % JAGUAR.L1(code).sets == 0 && JAGUAR.L1(code).ways <= JAGUAR.l2.ways
    ensures JAGUAR.L1(code).sets * JAGUAR.L1(code).ways * 64 == 32 * 1024
    ensures JAGUAR.l2.sets * JAGUAR.l2.ways * 64 == 2 * 1024 * 1024
    ensures JAGUAR.d1.ways == 8 && JAGUAR.i1.ways == 2 && JAGUAR.l2.ways == 16
  {
  }

  // ----- accesses that straddle lines

  function Worse(a: AccessResult, b: AccessResult): AccessResult {
    if b.Rank() > a.Rank() then b else a
  }

  /** The state and the worst result after `count` consecutive lines from `line` on. */
  function Sweep(s: Sim, cfg: Config, core: nat, line: nat, count: nat, mode: Mode): (r: (Sim, AccessResult))
    requires ShapedSim(s, cfg)
    ensures ShapedSim(r.0, cfg)
  {
    if count == 0 then (s, D1Hit)
    else
      var (t, w) := Sweep(s, cfg, core, line, count - 1, mode);
      var e := Event(core, line + count - 1, mode);
      (Step(t, cfg, e), Worse(w, Outcome(t, cfg, e)))
  }

  /** The worst result of the same lines, each judged on the state before the access. */
  function WorstBefore(s: Sim, cfg: Config, core: nat, line: nat, count: nat, mode: Mode): (r: AccessResult)
    requires ShapedSim(s, cfg)
  {
    if count == 0 then D1Hit
    else Worse(WorstBefore(s, cfg, core, line, count - 1, mode),
               Outcome(s, cfg, Event(core, line + count - 1, mode)))
  }

  lemma StepElsewhere(s: Sim, cfg: Config, e: Event, f: Event)
    requires ShapedSim(s, cfg) && cfg.Valid() && e.core == f.core && e.mode == f.mode
    requires e.line % cfg.L1(e.mode == CodeRead).sets != f.line % cfg.L1(e.mode == CodeRead).sets
    requires e.line % cfg.l2.sets != f.line % cfg.l2.sets
    ensures Outcome(Step(s, cfg, e), cfg, f) == Outcome(s, cfg, f)
  {
  }

  lemma NearbyLinesDiffer(x: nat, y: nat, n: nat)
    requires n > 0 && x < y < x + n
    ensures x % n != y % n
  {
    var q := y / n - x / n;
    assert y - x == q * n + (y % n - x % n);
    assert q >= 1 ==> q * n >= n;
    assert q <= 0 ==> q * n <= 0;
  }

  lemma {:induction false} SweepElsewhere(s: Sim, cfg: Config, core: nat, line: nat, count: nat, mode: Mode, f: Event)
    requires ShapedSim(s, cfg) && f.core == core && f.mode == mode
    requires line + count <= f.line
    requires f.line - line < cfg.L1(mode == CodeRead).sets && f.line - line < cfg.l2.sets
    ensures Outcome(Sweep(s, cfg, core, line, count, mode).0, cfg, f) == Outcome(s, cfg, f)
  {
    hide Step, Outcome, ShapedModule;
    if count > 0 {
      var e := Event(core, line + count - 1, mode);
      SweepElsewhere(s, cfg, core, line, count - 1, mode, f);
      SweepNext(s, cfg, core, line, count, mode);
      hide Sweep;
      NearbyLinesDiffer(e.line, f.line, cfg.L1(mode == CodeRead).sets);
      NearbyLinesDiffer(e.line, f.line, cfg.l2.sets);
      StepElsewhere(Sweep(s, cfg, core, line, count - 1, mode).0, cfg, e, f);
    }
  }

  lemma SweepNext(s: Sim, cfg: Config, core: nat, line: nat, count: nat, mode: Mode)
    requires ShapedSim(s, cfg) && count > 0
    ensures var p, e := Sweep(s, cfg, core, line, count - 1, mode), Event(core, line + count - 1, mode);
      Sweep(s, cfg, core, line, count, mode) == (Step(p.0, cfg, e), Worse(p.1, Outcome(p.0, cfg, e)))
  {
  }

  /** An access that covers no more lines than the caches have sets does not get in its own way:
      its result is the worst of its lines, each judged on the state before the access. */
  lemma {:induction false} StraddleIsWorstBefore(s: Sim, cfg: Config, core: nat, line: nat, count: nat, mode: Mode)
    requires ShapedSim(s, cfg)
    requires count <= cfg.L1(mode == CodeRead).sets && count <= cfg.l2.sets
    ensures Sweep(s, cfg, core, line, count, mode).1 == WorstBefore(s, cfg, core, line, count, mode)
  {
    hide Step, Outcome, ShapedModule;
    if count > 0 {
      SweepNext(s, cfg, core, line, count, mode);
      StraddleIsWorstBefore(s, cfg, core, line, count - 1, mode);
      SweepElsewhere(s, cfg, core, line, count - 1, mode, Event(core, line + count - 1, mode));
    }
  }

  function LineOutcome(s: Sim, cfg: Config, core: nat, line: nat, mode: Mode): AccessResult
    requires ShapedSim(s, cfg)
  {
    Outcome(s, cfg, Event(core, line, mode))
  }

  /** WorstBefore is a maximum: it bounds every line's result and, past the initial value, is one of them. */
  lemma {:induction false} WorstBeforeIsMaximum(s: Sim, cfg: Config, core: nat, line: nat, count: nat, mode: Mode)
    requires ShapedSim(s, cfg)
    ensures var w := WorstBefore(s, cfg, core, line, count, mode);
      && (forall l :: line <= l < line + count ==> LineOutcome(s, cfg, core, l, mode).Rank() <= w.Rank())
      && (w == D1Hit || exists l :: line <= l < line + count && w == LineOutcome(s, cfg, core, l, mode))
  {
    if count > 0 {
      WorstBeforeIsMaximum(s, cfg, core, line, count - 1, mode);
      assert WorstBefore(s, cfg, core, line, count, mode) ==
        Worse(WorstBefore(s, cfg, core, line, count - 1, mode), LineOutcome(s, cfg, core, line + count - 1, mode));
      hide WorstBefore, LineOutcome, Outcome;
    }
  }

  /** The lines from `addr / 64` to `(addr + size) / 64` are those holding a byte of the range, and
      one more exactly when the range ends on a line boundary. */
  lemma LinesOfRange(addr: nat, size: nat, l: nat)
    requires size > 0
    ensures addr / 64 <= l <= (addr + size) / 64
       <==> (exists b :: addr <= b < addr + size && b / 64 == l) || (l == (addr + size) / 64 && (addr + size) % 64 == 0)
  {
    if addr / 64 <= l <= (addr + size) / 64 && !(l == (addr + size) / 64 && (addr + size) % 64 == 0) {
      var b := if l == addr / 64 then addr else l * 64;
      assert addr <= b < addr + size && b / 64 == l;
    }
  }
}
