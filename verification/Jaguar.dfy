/** The simulator objects: modules that own their caches and know each other, and the entry point
    that splits an access into lines. */
module Jaguar {
  import opened JaguarModel
  import CacheModel
  import C = Cache

  const WORD := 0x1_0000_0000_0000_0000
  const TOP_LINE := WORD - 64

  class JaguarModule {
    const d1: seq<C.Cache>
    const i1: seq<C.Cache>
    const l2: C.Cache
    var otherModule: JaguarModule?

    ghost const config: Config

    /** The memory blocks of all nine caches. */
    ghost function Memory(): (m: set<object>)
      ensures this !in m
    {
      (set c | c in d1 :: c.addrs as object) + (set c | c in i1 :: c.addrs as object) + {l2.addrs as object}
    }

    ghost predicate Valid() {
      && config.Valid() && |d1| == 4 && |i1| == 4
      && l2.Valid() && l2.Shape() == config.l2
      && (forall i :: 0 <= i < 4 ==> d1[i].Valid() && d1[i].Shape() == config.d1)
      && (forall i :: 0 <= i < 4 ==> i1[i].Valid() && i1[i].Shape() == config.i1)
      && (forall i, j :: 0 <= i < j < 4 ==> d1[i].addrs != d1[j].addrs)
      && (forall i, j :: 0 <= i < j < 4 ==> i1[i].addrs != i1[j].addrs)
      && (forall i, j :: 0 <= i < 4 && 0 <= j < 4 ==> d1[i].addrs != i1[j].addrs)
      && (forall i :: 0 <= i < 4 ==> d1[i].addrs != l2.addrs && i1[i].addrs != l2.addrs)
    }

    ghost function View(): (m: Module)
      requires Valid()
      reads Memory()
      ensures ShapedModule(m, config)
    {
      Module(seq(4, i requires 0 <= i < 4 reads Memory() => d1[i].Contents()),
             seq(4, i requires 0 <= i < 4 reads Memory() => i1[i].Contents()),
             l2.Contents())
    }

    ghost predicate Paired(other: JaguarModule) {
      Valid() && other.Valid() && other.config == config && Memory() !! other.Memory()
    }

    constructor (ghost config: Config, d1Sets: nat, d1Ways: nat, i1Sets: nat, i1Ways: nat, l2Sets: nat, l2Ways: nat)
      requires Bits.IsPow2(d1Sets) && Bits.IsPow2(i1Sets) && Bits.IsPow2(l2Sets)
      requires d1Ways > 0 && i1Ways > 0 && l2Ways > 0
      requires config == Config(CacheModel.Geometry(d1Sets, d1Ways), CacheModel.Geometry(i1Sets, i1Ways),
                                CacheModel.Geometry(l2Sets, l2Ways))
      ensures Valid() && this.config == config && fresh(Memory())
    {
      hide C.Cache.Valid;
      this.config := config;
      var a0 := new C.Cache(d1Sets, d1Ways);
      var a1 := new C.Cache(d1Sets, d1Ways);
      var a2 := new C.Cache(d1Sets, d1Ways);
      var a3 := new C.Cache(d1Sets, d1Ways);
      var b0 := new C.Cache(i1Sets, i1Ways);
      var b1 := new C.Cache(i1Sets, i1Ways);
      var b2 := new C.Cache(i1Sets, i1Ways);
      var b3 := new C.Cache(i1Sets, i1Ways);
      l2 := new C.Cache(l2Sets, l2Ways);
      d1, i1 := [a0, a1, a2, a3], [b0, b1, b2, b3];
      otherModule := null;
    }

    method Init(other: JaguarModule)
      requires Valid()
      modifies this`otherModule, Memory()
      ensures otherModule == other
      ensures View() == FreshModule(config)
    {
      hide Valid, View, CacheModel.Fresh, CacheModel.Shaped;
      otherModule := other;
      for i := 0 to 4
        invariant otherModule == other
        invariant forall k :: 0 <= k < i ==> View().d1[k] == CacheModel.Fresh(config.d1)
        invariant forall k :: 0 <= k < i ==> View().i1[k] == CacheModel.Fresh(config.i1)
      {
        InitCore(i);
      }
      InitShared();
      assert View().d1 == FreshModule(config).d1 && View().i1 == FreshModule(config).i1;
    }

    method InitCore(i: nat)
      requires Valid() && i < 4
      modifies Memory()
      ensures var was := old(View());
        View() == was.(d1 := was.d1[i := CacheModel.Fresh(config.d1)], i1 := was.i1[i := CacheModel.Fresh(config.i1)])
    {
      hide CacheModel.Fresh, CacheModel.Shaped;
      d1[i].Init();
      i1[i].Init();
    }

    method InitShared()
      requires Valid()
      modifies Memory()
      ensures View() == old(View()).(l2 := CacheModel.Fresh(config.l2))
    {
      hide CacheModel.Fresh, CacheModel.Shaped;
      l2.Init();
    }

    /** One line access by one core: invalidation first, then both lookups. */
    method Access(core: nat, addr: nat, mode: Mode) returns (r: AccessResult)
      requires otherModule != null && Paired(otherModule) && core < 4
      modifies Memory(), otherModule.l2.addrs
      ensures View() == Looked(Invalidated(old(View()), config, core, addr / 64, mode), config, core, addr / 64, mode)
      ensures otherModule.View() == if mode == Write
                then old(otherModule.View()).(l2 := CacheModel.Invalidate(old(otherModule.View()).l2, addr / 64))
                else old(otherModule.View())
      ensures r == Classify(CacheModel.Hit(L1(old(View()), core, mode == CodeRead), addr / 64),
                            CacheModel.Hit(old(View()).l2, addr / 64), mode)
    {
      hide Looked, Invalidated, CacheModel.Invalidate, CacheModel.Hit, CacheModel.Shaped, ShapedModule, Valid, Paired,
           L1, View;
      Pair(otherModule);
      SameHits(View(), config, core, addr / 64, mode);
      InvalidateOthers(core, addr, mode);
      ghost var other := otherModule.View();
      var l1Hit, l2Hit := LookUp(core, addr, mode);
      assert otherModule.View() == other;
      if l2Hit && l1Hit {
        r := if mode == CodeRead then I1Hit else D1Hit;
      } else if l2Hit {
        r := L2Hit;
      } else {
        r := if mode == CodeRead then L2IMiss else L2DMiss;
      }
      Classified(l1Hit, l2Hit, mode);
    }

    lemma Pair(other: JaguarModule)
      requires Paired(other)
      ensures Valid() && other.Valid() && Memory() !! other.Memory()
    {
    }

    static lemma Classified(l1Hit: bool, l2Hit: bool, mode: Mode)
      ensures Classify(l1Hit, l2Hit, mode) ==
        if l2Hit && l1Hit then (if mode == CodeRead then I1Hit else D1Hit)
        else if l2Hit then L2Hit
        else if mode == CodeRead then L2IMiss else L2DMiss
    {
    }

    /** What a write does to every other cache that is told about it. */
    method InvalidateOthers(core: nat, addr: nat, mode: Mode)
      requires otherModule != null && Paired(otherModule) && core < 4
      modifies Memory(), otherModule.l2.addrs
      ensures View() == Invalidated(old(View()), config, core, addr / 64, mode)
      ensures otherModule.View() == if mode == Write
                then old(otherModule.View()).(l2 := CacheModel.Invalidate(old(otherModule.View()).l2, addr / 64))
                else old(otherModule.View())
    {
      hide Invalidated, CacheModel.Invalidate, CacheModel.Shaped, ShapedModule;
      Untouched(View(), config, core, addr / 64, mode);
      if mode == Write {
        KickOthers(core, addr);
        otherModule.l2.Invalidate(addr);
      }
    }

    static lemma Untouched(m: Module, cfg: Config, core: nat, x: nat, mode: Mode)
      requires ShapedModule(m, cfg) && core < 4
      ensures mode != Write ==> Invalidated(m, cfg, core, x, mode) == m
      ensures mode == Write ==> Invalidated(m, cfg, core, x, mode) == Invalidated(m, cfg, core, x, Write)
    {
    }

    /** The invalidation does not touch the caches the writer itself looks up. */
    static lemma SameHits(m: Module, cfg: Config, core: nat, x: nat, mode: Mode)
      requires ShapedModule(m, cfg) && core < 4
      ensures var k := Invalidated(m, cfg, core, x, mode);
        L1(k, core, mode == CodeRead) == L1(m, core, mode == CodeRead) && k.l2 == m.l2
    {
    }

    /** Both lookups of a line access, second level first. */
    method LookUp(core: nat, addr: nat, mode: Mode) returns (l1Hit: bool, l2Hit: bool)
      requires Valid() && core < 4
      modifies Memory()
      ensures View() == Looked(old(View()), config, core, addr / 64, mode)
      ensures l1Hit == CacheModel.Hit(L1(old(View()), core, mode == CodeRead), addr / 64)
      ensures l2Hit == CacheModel.Hit(old(View()).l2, addr / 64)
    {
      hide CacheModel.Access, CacheModel.Hit, CacheModel.Shaped;
      l2Hit := l2.Access(addr);
      if mode == CodeRead {
        l1Hit := i1[core].Access(addr);
      } else {
        l1Hit := d1[core].Access(addr);
      }
    }

    /** Takes the line out of every sibling's first-level caches. */
    method KickOthers(core: nat, addr: nat)
      requires Valid() && core < 4
      modifies Memory()
      ensures View() == Invalidated(old(View()), config, core, addr / 64, Write)
    {
      hide CacheModel.Invalidate, Valid, View, Memory;
      ghost var was, x := View(), addr / 64;
      assert forall k :: 0 <= k < 4 ==> was.d1[k] != [] && was.i1[k] != [];
      hide CacheModel.Shaped, ShapedModule;
      for i := 0 to 4
        invariant View().l2 == was.l2
        invariant forall k :: 0 <= k < 4 ==>
          View().d1[k] == (if k < i && k != core then CacheModel.Invalidate(was.d1[k], x) else was.d1[k])
        invariant forall k :: 0 <= k < 4 ==>
          View().i1[k] == (if k < i && k != core then CacheModel.Invalidate(was.i1[k], x) else was.i1[k])
      {
        if i != core {
          KickCore(i, addr);
        }
      }
    }

    method KickCore(i: nat, addr: nat)
      requires Valid() && i < 4
      modifies Memory()
      ensures var was := old(View());
        View() == was.(d1 := was.d1[i := CacheModel.Invalidate(was.d1[i], addr / 64)],
                       i1 := was.i1[i := CacheModel.Invalidate(was.i1[i], addr / 64)])
    {
      hide CacheModel.Invalidate, CacheModel.Shaped;
      d1[i].Invalidate(addr);
      i1[i].Invalidate(addr);
    }
  }

  class JaguarCacheSim {
    const modules: seq<JaguarModule>

    ghost const config: Config

    ghost function Memory(): set<object>
      requires |modules| == 2
    {
      modules[0].Memory() + modules[1].Memory()
    }

    ghost predicate Valid()
      reads modules
    {
      && |modules| == 2 && modules[0] != modules[1]
      && modules[0].config == config
      && modules[0].Paired(modules[1])
      && modules[0].otherModule == modules[1] && modules[1].otherModule == modules[0]
    }

    ghost function View(): (s: Sim)
      requires Valid()
      reads modules, if |modules| == 2 then Memory() else {}
      ensures ShapedSim(s, config)
    {
      [modules[0].View(), modules[1].View()]
    }

    /** Two modules with caches of the given sizes in bytes. */
    constructor ()
      ensures Valid() && config == JAGUAR
      ensures fresh(Memory()) && fresh(modules)
    {
      var g := Config(CacheModel.Geometry(64, 8), CacheModel.Geometry(256, 2), CacheModel.Geometry(2048, 16));
      var m0 := new JaguarModule(g, 32 * 1024 / 64 / 8, 8, 32 * 1024 / 64 / 2, 2, 2 * 1024 * 1024 / 64 / 16, 16);
      var m1 := new JaguarModule(g, 32 * 1024 / 64 / 8, 8, 32 * 1024 / 64 / 2, 2, 2 * 1024 * 1024 / 64 / 16, 16);
      m0.otherModule := m1;
      m1.otherModule := m0;
      modules := [m0, m1];
      config := g;
      hide JaguarModule.Valid;
    }

    /** Start of a capture: every cache is emptied. */
    method Init()
      requires Valid()
      modifies modules, Memory()
      ensures Valid() && View() == FreshSim(config)
    {
      modules[0].Init(modules[1]);
      modules[1].Init(modules[0]);
    }

    /** One line access, routed to the core's module. */
    method AccessLine(core: nat, addr: nat, mode: Mode) returns (r: AccessResult)
      requires Valid()
      modifies Memory()
      ensures Valid()
      ensures View() == Step(old(View()), config, Event(core, addr / 64, mode))
      ensures r == Outcome(old(View()), config, Event(core, addr / 64, mode))
    {
      hide Looked, Invalidated, CacheModel.Invalidate, CacheModel.Hit, CacheModel.Shaped, ShapedModule;
      r := modules[core / 4 % 2].Access(core % 4, addr, mode);
    }

    /** Accesses every line from addr's to that of addr + size and returns the worst result.  The end
        address wraps at 64 bits; it must not fall in the topmost line of the address space. */
    method Access(core: nat, addr: nat, size: nat, mode: Mode) returns (r: AccessResult)
      requires Valid() && addr < WORD && size < WORD
      requires (addr + size) % WORD < TOP_LINE
      modifies Memory()
      ensures Valid()
      ensures var last := (addr + size) % WORD / 64;
        var count := if addr / 64 <= last then last - addr / 64 + 1 else 0;
        (View(), r) == Sweep(old(View()), config, core, addr / 64, count, mode)
    {
      hide Step, Outcome, ShapedSim, Valid, View, Memory;
      r := D1Hit;
      var lineBase := addr / 64 * 64;
      var lineEnd := (addr + size) % WORD / 64 * 64;
      ghost var was, done: nat := View(), 0;
      assert Sweep(was, config, core, addr / 64, 0, mode) == (was, D1Hit);
      hide Sweep;
      while lineBase <= lineEnd
        invariant Valid()
        invariant lineBase == (addr / 64 + done) * 64
        invariant done == 0 || lineBase <= lineEnd + 64
        invariant (View(), r) == Sweep(was, config, core, addr / 64, done, mode)
        decreases lineEnd + 64 - lineBase
      {
        SweepNext(was, config, core, addr / 64, done + 1, mode);
        var r2 := AccessLine(core, lineBase, mode);
        if r2.Rank() > r.Rank() {
          r := r2;
        }
        lineBase := (lineBase + 64) % WORD;
        done := done + 1;
      }
    }
  }

  // ----- when the line loop ends

  /** Starting at line address `base`, the loop's guard fails after exactly n rounds. */
  ghost predicate LeavesAfter(base: nat, end: nat, n: nat)
    decreases n
  {
    if n == 0 then base > end else base <= end && LeavesAfter((base + 64) % WORD, end, n - 1)
  }

  lemma {:induction false} LeavesFrom(base: nat, end: nat) returns (n: nat)
    requires base % 64 == 0 && end % 64 == 0 && base < WORD && end < TOP_LINE
    ensures LeavesAfter(base, end, n)
    decreases end - base
  {
    if base > end {
      n := 0;
    } else {
      var k := LeavesFrom(base + 64, end);
      n := k + 1;
    }
  }

  lemma {:induction false} NeverLeavesTop(base: nat, n: nat)
    requires base % 64 == 0 && base < WORD
    ensures !LeavesAfter(base, TOP_LINE, n)
    decreases n
  {
    if n > 0 {
      var next := if base == TOP_LINE then 0 else base + 64;
      assert (base + 64) % WORD == next;
      NeverLeavesTop(next, n - 1);
    }
  }

  ghost predicate LoopEnds(base: nat, end: nat) {
    exists n: nat :: LeavesAfter(base, end, n)
  }

  /** The line loop ends exactly when the range does not reach into the topmost line of memory. */
  lemma LineLoopEndsIff(base: nat, end: nat)
    requires base % 64 == 0 && end % 64 == 0 && base < WORD && end < WORD
    ensures LoopEnds(base, end) <==> end != TOP_LINE
  {
    if end == TOP_LINE {
      forall n: nat
        ensures !LeavesAfter(base, end, n)
      {
        NeverLeavesTop(base, n);
      }
    } else {
      var n := LeavesFrom(base, end);
      assert LeavesAfter(base, end, n);
    }
  }
}
