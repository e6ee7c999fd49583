/** Committing traced instructions: cache traffic and the counters of the statistics table. */
module Stats {
  import opened Counters
  import opened JaguarModel
  import opened StatsModel
  import H = HashTable
  import J = Jaguar

  type Node = H.Elem<RipKey, Record>

  lemma {:induction false} BumpAllPlus(r: Record, a: seq<nat>, b: seq<nat>)
    ensures BumpAll(BumpAll(r, a), b) == BumpAll(r, a + b)
  {
    if b == [] {
      assert a + b == a;
    } else {
      BumpAllPlus(r, a, b[..|b| - 1]);
      assert (a + b)[..|a + b| - 1] == a + b[..|b| - 1];
    }
  }

  lemma {:induction false} BumpAllFits(r: Record, bumps: seq<nat>)
    requires forall c :: 0 <= c < |r| ==> r[c] < WORD_RANGE
    ensures forall c :: 0 <= c < |r| ==> BumpAll(r, bumps)[c] < WORD_RANGE
  {
    if bumps != [] {
      BumpAllFits(r, bumps[..|bumps| - 1]);
    }
  }

  lemma BumpedTwice(t: Records, k: RipKey, a: seq<nat>, b: seq<nat>)
    requires k in t
    ensures Committed(Committed(t, k, a), k, b) == Committed(t, k, a + b)
  {
    BumpAllPlus(t[k], a, b);
  }

  lemma StaysWellFormed(t: Records, k: RipKey, bumps: seq<nat>)
    requires WellFormed(t)
    ensures WellFormed(Committed(t, k, bumps))
  {
    BumpAllFits(RecordOf(t, k), bumps);
  }

  lemma OneBump(t: Records, k: RipKey, c: nat)
    requires k in t && c < |t[k]|
    ensures Committed(t, k, [c]) == t[k := Bump(t[k], c)]
  {
    assert [c][..0] == [];
    assert BumpAll(t[k], []) == t[k];
    assert BumpAll(t[k], [c]) == Bump(BumpAll(t[k], []), c);
  }

  lemma NoBumps(t: Records, k: RipKey)
    requires k in t
    ensures Committed(t, k, []) == t
  {
  }

  lemma AfterBlank(t: Records, k: RipKey, bumps: seq<nat>)
    ensures Committed(Committed(t, k, []), k, bumps) == Committed(t, k, bumps)
  {
  }

  lemma NewRecord(t: Records, k: RipKey)
    ensures Committed(t, k, []) == if k in t then t else t[k := Blank()]
  {
  }

  lemma NoTraffic(s: Sim, core: nat, ops: seq<MemOp>, mode: Mode)
    requires ShapedSim(s, JAGUAR)
    ensures Traffic(s, JAGUAR, core, ops[..0], mode) == (s, [])
  {
  }

  lemma TrafficNext(s: Sim, core: nat, ops: seq<MemOp>, i: nat, mode: Mode)
    requires ShapedSim(s, JAGUAR) && i < |ops|
    ensures var a := Traffic(s, JAGUAR, core, ops[..i], mode);
      var b := AccessOp(a.0, JAGUAR, core, ops[i], mode);
      Traffic(s, JAGUAR, core, ops[..i + 1], mode) == (b.0, a.1 + [b.1.Rank()])
  {
    hide ShapedSim, AccessOp;
    assert ops[..i + 1][..i] == ops[..i];
  }

  lemma Parts(ins: Instruction)
    requires ins.Accessible()
    ensures ins.code.Accessible() && ins.prefetch.Accessible()
    ensures forall i :: 0 <= i < |ins.loads| ==> ins.loads[i].Accessible()
    ensures forall i :: 0 <= i < |ins.stores| ==> ins.stores[i].Accessible()
  {
  }

  lemma CommitIs(s: Sim, ins: Instruction)
    requires ShapedSim(s, JAGUAR)
    ensures var code := AccessOp(s, JAGUAR, ins.core, ins.code, CodeRead);
      var pre := Prefetched(code.0, JAGUAR, ins.core, ins.prefetch);
      var rd := Traffic(pre.0, JAGUAR, ins.core, ins.loads, Read);
      var wr := Traffic(rd.0, JAGUAR, ins.core, ins.stores, Write);
      StatsModel.Commit(s, JAGUAR, ins) == (wr.0, [INSTRUCTIONS] + [code.1.Rank()] + pre.1 + rd.1 + wr.1)
  {
    hide ShapedSim, AccessOp, Prefetched, Traffic;
    var code := AccessOp(s, JAGUAR, ins.core, ins.code, CodeRead);
    assert [INSTRUCTIONS] + [code.1.Rank()] == [INSTRUCTIONS, code.1.Rank()];
  }

  lemma NothingRun(run: seq<Instruction>)
    requires JAGUAR.Valid()
    ensures RunAll(JAGUAR, run[..0]) == (FreshSim(JAGUAR), map[])
  {
  }

  lemma RunNext(run: seq<Instruction>, i: nat)
    requires JAGUAR.Valid() && i < |run|
    ensures var (s, t) := RunAll(JAGUAR, run[..i]);
      var c := StatsModel.Commit(s, JAGUAR, run[i]);
      RunAll(JAGUAR, run[..i + 1]) == (c.0, Committed(t, run[i].Key(), c.1))
  {
    hide StatsModel.Commit, Committed, ShapedSim, FreshSim, Config.Valid;
    assert run[..i + 1][..i] == run[..i];
  }

  class Recorder {
    const stats: H.GenericHashTable<RipKey, Record>
    const cache: J.JaguarCacheSim
    var enabled: bool

    /** The memory of the caches. */
    ghost const memory: set<object>

    /** The table and the caches share no memory. */
    ghost predicate Apart()
      reads stats
    {
      && this !in memory && stats !in memory
      && stats.table !in memory
      && forall e :: e in stats.nodes ==> e !in memory
    }

    ghost predicate Valid()
      reads stats, stats.table, stats.nodes, cache.modules
    {
      && stats.Valid() && stats.blank == Blank() && WellFormed(stats.Values())
      && cache.Valid() && cache.config == JAGUAR && |cache.modules| == 2 && memory == cache.Memory() && Apart()
    }

    ghost function Caches(): (s: Sim)
      requires Valid()
      reads stats, stats.table, stats.nodes, cache.modules, memory
      ensures ShapedSim(s, JAGUAR)
    {
      cache.View()
    }

    constructor (stats: H.GenericHashTable<RipKey, Record>, cache: J.JaguarCacheSim)
      requires stats.Valid() && stats.blank == Blank() && stats.contents == map[]
      requires cache.Valid() && cache.config == JAGUAR
      requires stats as object !in cache.Memory() && stats.table as object? !in cache.Memory() && stats.nodes == {}
      ensures Valid() && this.stats == stats && this.cache == cache && !enabled
    {
      this.stats, this.cache, enabled, memory := stats, cache, false, cache.Memory();
    }

    /** What the table holds. */
    ghost function Records(): (t: Records)
      requires Valid()
      reads stats, stats.table, stats.nodes, cache.modules
      ensures WellFormed(t)
    {
      stats.Values()
    }

    /** The whole state, seen from a node that is the record of key k: caches s and records t. */
    ghost predicate At(node: Node, k: RipKey, s: Sim, t: Records)
      reads stats, stats.table, stats.nodes, cache.modules, memory
    {
      Valid() && node in stats.nodes && node.key == k && Caches() == s && Records() == t && k in t
    }

    /** The record of a key, a blank one if it had none. */
    method RipNode(k: RipKey) returns (node: Node)
      requires Valid()
      modifies stats, stats.table, stats.nodes
      ensures At(node, k, old(Caches()), Committed(old(Records()), k, []))
      ensures fresh(stats.nodes - old(stats.nodes))
      ensures stats.table != old(stats.table) ==> fresh(stats.table)
    {
      hide H.GenericHashTable.Valid, H.GenericHashTable.Values, J.JaguarCacheSim.Valid, J.JaguarCacheSim.Memory,
           ShapedSim, Committed;
      StaysWellFormed(stats.Values(), k, []);
      NewRecord(stats.Values(), k);
      hide WellFormed;
      node := stats.Insert(k);
    }

    lemma OwnRecord(node: Node, k: RipKey, s: Sim, t: Records)
      requires At(node, k, s, t)
      ensures k in t && t[k] == node.value && |node.value| == COUNTERS
    {
    }

    /** Adds one to a counter of a record. */
    method Count(node: Node, c: nat, ghost k: RipKey, ghost s: Sim, ghost t: Records)
      requires At(node, k, s, t) && c < COUNTERS
      modifies node`value
      ensures At(node, k, s, Committed(t, k, [c]))
    {
      hide H.GenericHashTable.Valid, H.GenericHashTable.Values, J.JaguarCacheSim.Valid, J.JaguarCacheSim.Memory,
           ShapedSim, Committed;
      OwnRecord(node, k, s, t);
      StaysWellFormed(t, k, [c]);
      OneBump(t, k, c);
      hide WellFormed;
      var value: Record := node.value[c := (node.value[c] + 1) % WORD_RANGE];
      stats.Store(node, value);
    }

    /** One access of the simulated caches; the statistics stay as they are. */
    method Touch(ghost node: Node, core: nat, op: MemOp, mode: Mode, ghost k: RipKey, ghost s: Sim, ghost t: Records)
      returns (r: AccessResult)
      requires At(node, k, s, t) && op.Accessible() && ShapedSim(s, JAGUAR)
      modifies memory
      ensures var a := AccessOp(s, JAGUAR, core, op, mode);
        At(node, k, a.0, t) && r == a.1
    {
      hide H.GenericHashTable.Valid, H.GenericHashTable.Values, J.JaguarCacheSim.Valid, J.JaguarCacheSim.Memory,
           ShapedSim, Sweep, WellFormed;
      r := cache.Access(core, op.addr, op.size, mode);
    }

    lemma Outside()
      requires Valid()
      ensures this !in memory && stats !in memory
    {
    }

    lemma CounterRange(r: AccessResult)
      ensures r.Rank() < COUNTERS && INSTRUCTIONS < COUNTERS
    {
    }

    lemma State(node: Node, k: RipKey, s: Sim, t: Records)
      requires At(node, k, s, t)
      ensures Valid() && node in stats.nodes && Caches() == s && Records() == t && k in t && this !in memory
        && stats !in memory
    {
    }

    /** One access and the counter of its result. */
    method TouchAndCount(node: Node, core: nat, op: MemOp, mode: Mode, ghost k: RipKey, ghost s: Sim, ghost t: Records)
      returns (r: AccessResult)
      requires At(node, k, s, t) && op.Accessible() && ShapedSim(s, JAGUAR)
      modifies node`value, memory
      ensures var a := AccessOp(s, JAGUAR, core, op, mode);
        At(node, k, a.0, Committed(t, k, [a.1.Rank()])) && r == a.1
    {
      hide *;
      r := Touch(node, core, op, mode, k, s, t);
      CounterRange(r);
      Count(node, r.Rank(), k, AccessOp(s, JAGUAR, core, op, mode).0, t);
    }

    /** Data traffic of one kind: every access, and the counter of its result. */
    method DataTraffic(node: Node, core: nat, ops: seq<MemOp>, mode: Mode, ghost k: RipKey, ghost s: Sim,
                       ghost t: Records)
      requires At(node, k, s, t) && ShapedSim(s, JAGUAR) && forall i :: 0 <= i < |ops| ==> ops[i].Accessible()
      modifies node`value, memory
      ensures var a := Traffic(s, JAGUAR, core, ops, mode);
        At(node, k, a.0, Committed(t, k, a.1))
    {
      hide *;
      State(node, k, s, t);
      NoBumps(t, k);
      NoTraffic(s, core, ops, mode);
      ghost var a := Traffic(s, JAGUAR, core, ops[..0], mode);
      for i := 0 to |ops|
        invariant a == Traffic(s, JAGUAR, core, ops[..i], mode)
        invariant At(node, k, a.0, Committed(t, k, a.1))
      {
        TrafficNext(s, core, ops, i, mode);
        var r := TouchAndCount(node, core, ops[i], mode, k, a.0, Committed(t, k, a.1));
        BumpedTwice(t, k, a.1, [r.Rank()]);
        a := Traffic(s, JAGUAR, core, ops[..i + 1], mode);
      }
      assert ops[..|ops|] == ops;
    }

    /** A prefetch is an immediate read that is recorded only when it hits the D1 or the L2. */
    method Prefetch(node: Node, core: nat, op: MemOp, ghost k: RipKey, ghost s: Sim, ghost t: Records)
      requires At(node, k, s, t) && op.Accessible() && ShapedSim(s, JAGUAR)
      modifies node`value, memory
      ensures var a := Prefetched(s, JAGUAR, core, op);
        At(node, k, a.0, Committed(t, k, a.1))
    {
      OwnRecord(node, k, s, t);
      NoBumps(t, k);
      hide At, Committed, AccessOp, ShapedSim, MemOp.Accessible;
      if op.addr != 0 {
        var r := Touch(node, core, op, Read, k, s, t);
        ghost var s' := AccessOp(s, JAGUAR, core, op, Read).0;
        match r {
          case D1Hit => Count(node, PREFETCH_HIT_D1, k, s', t);
          case L2Hit => Count(node, PREFETCH_HIT_L2, k, s', t);
          case _ =>
        }
      }
    }

    /** All the traffic of one instruction, on its record. */
    method CommitTo(node: Node, ins: Instruction, ghost k: RipKey, ghost s: Sim, ghost t: Records)
      requires At(node, k, s, t) && ins.Accessible() && ShapedSim(s, JAGUAR)
      modifies node`value, memory
      ensures var a := StatsModel.Commit(s, JAGUAR, ins);
        At(node, k, a.0, Committed(t, k, a.1))
    {
      hide *;
      State(node, k, s, t);
      Parts(ins);
      CounterRange(D1Hit);
      ghost var fetched := AccessOp(s, JAGUAR, ins.core, ins.code, CodeRead);
      ghost var pre := Prefetched(fetched.0, JAGUAR, ins.core, ins.prefetch);
      ghost var rd := Traffic(pre.0, JAGUAR, ins.core, ins.loads, Read);
      ghost var wr := Traffic(rd.0, JAGUAR, ins.core, ins.stores, Write);
      Count(node, INSTRUCTIONS, k, s, t);
      var r := TouchAndCount(node, ins.core, ins.code, CodeRead, k, s, Committed(t, k, [INSTRUCTIONS]));
      BumpedTwice(t, k, [INSTRUCTIONS], [r.Rank()]);
      ghost var bumps := [INSTRUCTIONS] + [r.Rank()];
      Prefetch(node, ins.core, ins.prefetch, k, fetched.0, Committed(t, k, bumps));
      BumpedTwice(t, k, bumps, pre.1);
      DataTraffic(node, ins.core, ins.loads, Read, k, pre.0, Committed(t, k, bumps + pre.1));
      BumpedTwice(t, k, bumps + pre.1, rd.1);
      DataTraffic(node, ins.core, ins.stores, Write, k, rd.0, Committed(t, k, bumps + pre.1 + rd.1));
      BumpedTwice(t, k, bumps + pre.1 + rd.1, wr.1);
      CommitIs(s, ins);
    }

    /** Commits one instruction, unless the capture has ended. */
    method Commit(ins: Instruction)
      requires Valid() && ins.Accessible()
      modifies stats, stats.table, stats.nodes, memory
      ensures Valid() && enabled == old(enabled)
      ensures !enabled ==> Caches() == old(Caches()) && Records() == old(Records())
      ensures enabled ==>
        var (s, bumps) := StatsModel.Commit(old(Caches()), JAGUAR, ins);
        Caches() == s && Records() == Committed(old(Records()), ins.Key(), bumps)
      ensures fresh(stats.nodes - old(stats.nodes))
      ensures stats.table != old(stats.table) ==> fresh(stats.table)
    {
      hide *;
      if !enabled {
        return;
      }
      ghost var s, t, k := Caches(), Records(), ins.Key();
      ghost var (s', bumps) := StatsModel.Commit(s, JAGUAR, ins);
      var node := RipNode(ins.Key());
      State(node, k, s, Committed(t, k, []));
      CommitTo(node, ins, k, s, Committed(t, k, []));
      AfterBlank(t, k, bumps);
      State(node, k, s', Committed(t, k, bumps));
    }

    /** Start of a capture: the caches are emptied and commits count; while a capture is on, nothing. */
    method Start() returns (started: bool)
      requires Valid()
      modifies this`enabled, cache.modules, memory
      ensures Valid() && enabled && started == !old(enabled) && Records() == old(Records())
      ensures Caches() == if started then FreshSim(JAGUAR) else old(Caches())
    {
      hide H.GenericHashTable.Valid, H.GenericHashTable.Values, J.JaguarCacheSim.Memory, ShapedSim, FreshSim,
           WellFormed;
      if enabled {
        return false;
      }
      cache.Init();
      enabled := true;
      return true;
    }

    /** A capture from an empty table: the state is what the run of its instructions makes it.  While another
        capture is on it does not start. */
    method Capture(run: seq<Instruction>) returns (started: bool)
      requires Valid() && Records() == map[] && forall i :: 0 <= i < |run| ==> run[i].Accessible()
      modifies this`enabled, cache.modules, memory, stats, stats.table, stats.nodes
      ensures Valid() && enabled && started == !old(enabled)
      ensures (Caches(), Records()) == if started then RunAll(JAGUAR, run) else old((Caches(), Records()))
    {
      hide *;
      JaguarNests(false);
      Outside();
      started := Start();
      if !started {
        return;
      }
      NothingRun(run);
      for i := 0 to |run|
        invariant Valid() && enabled && (Caches(), Records()) == RunAll(JAGUAR, run[..i])
        invariant fresh(stats.nodes - old(stats.nodes))
        invariant stats.table != old(stats.table) ==> fresh(stats.table)
      {
        RunNext(run, i);
        Commit(run[i]);
      }
      assert run[..|run|] == run;
    }
  }
}
