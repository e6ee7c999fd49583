/** What committing an instruction means for the caches and the counters, event by event. */
module CommitTrace {
  import opened Bits
  import opened Counters
  import opened JaguarModel
  import opened JaguarTrace
  import opened StatsModel

  const ADDRESSES := 0x1_0000_0000_0000_0000

  /** The lines from that of the address to that of the address behind the range; none if that wraps to a
      lower line. */
  function RangeTrace(core: nat, op: MemOp, mode: Mode): seq<Event> {
    var first, last := op.addr / 64, (op.addr + op.size) % ADDRESSES / 64;
    LineTrace(core, first, if first <= last then last - first + 1 else 0, mode)
  }

  function RangesTrace(core: nat, ops: seq<MemOp>, mode: Mode): seq<Event> {
    if ops == [] then []
    else RangesTrace(core, ops[..|ops| - 1], mode) + RangeTrace(core, ops[|ops| - 1], mode)
  }

  /** An instruction as its core's events: the fetch, the prefetch as a read unless its address is 0, the loads
      in order, the stores in order. */
  function InstructionTrace(ins: Instruction): seq<Event> {
    RangeTrace(ins.core, ins.code, CodeRead)
    + (if ins.prefetch.addr != 0 then RangeTrace(ins.core, ins.prefetch, Read) else [])
    + RangesTrace(ins.core, ins.loads, Read)
    + RangesTrace(ins.core, ins.stores, Write)
  }

  function CaptureTrace(run: seq<Instruction>): seq<Event> {
    if run == [] then [] else CaptureTrace(run[..|run| - 1]) + InstructionTrace(run[|run| - 1])
  }

  /** The number of the counter for a result, in the order of the program's enumeration. */
  function Slot(r: AccessResult): nat {
    match r
    case D1Hit => 0
    case I1Hit => 1
    case L2Hit => 2
    case L2IMiss => 3
    case L2DMiss => 4
  }

  /** Counters have 32 bits, addresses 64. */
  lemma Widths()
    ensures WORD_RANGE == Pow2(32) && ADDRESSES == WORD_RANGE * WORD_RANGE
  {
    assert Pow2(8) == 0x100 && Pow2(16) == 0x100 * Pow2(8) && Pow2(24) == 0x100 * Pow2(16);
    assert Pow2(32) == 0x100 * Pow2(24);
  }

  lemma SlotIsRank(r: AccessResult)
    ensures Slot(r) == r.Rank()
  {
  }

  lemma AccessIsTrace(s: Sim, cfg: Config, core: nat, op: MemOp, mode: Mode)
    requires ShapedSim(s, cfg)
    ensures var a, t := AccessOp(s, cfg, core, op, mode), RangeTrace(core, op, mode);
      a.0 == RunFrom(s, cfg, t) && Answers(s, cfg, t, mode, a.1)
  {
    SweepIsTrace(s, cfg, core, op.addr / 64, op.Lines(), mode);
    hide Sweep, RunFrom, Answers, ShapedSim;
  }

  /** Counter b is that of the answer to a trace. */
  ghost predicate Counts(s: Sim, cfg: Config, trace: seq<Event>, mode: Mode, b: nat)
    requires ShapedSim(s, cfg)
  {
    exists r :: Answers(s, cfg, trace, mode, r) && b == Slot(r)
  }

  lemma {:induction false} TrafficIsTrace(s: Sim, cfg: Config, core: nat, ops: seq<MemOp>, mode: Mode)
    requires ShapedSim(s, cfg)
    ensures Traffic(s, cfg, core, ops, mode).0 == RunFrom(s, cfg, RangesTrace(core, ops, mode))
  {
    hide AccessOp, ShapedSim, RangeTrace;
    if ops != [] {
      var init, op := ops[..|ops| - 1], ops[|ops| - 1];
      TrafficIsTrace(s, cfg, core, init, mode);
      AccessIsTrace(Traffic(s, cfg, core, init, mode).0, cfg, core, op, mode);
      RunFromPlus(s, cfg, RangesTrace(core, init, mode), RangeTrace(core, op, mode));
      hide RunFrom, Answers;
    }
  }

  /** Access i of some traffic bumps the counter of its answer, in the state that the accesses before it leave. */
  lemma {:induction false} TrafficCounts(s: Sim, cfg: Config, core: nat, ops: seq<MemOp>, mode: Mode, i: nat)
    requires ShapedSim(s, cfg) && i < |ops|
    ensures Counts(RunFrom(s, cfg, RangesTrace(core, ops[..i], mode)), cfg, RangeTrace(core, ops[i], mode), mode,
                   Traffic(s, cfg, core, ops, mode).1[i])
  {
    hide AccessOp, ShapedSim, RangeTrace, RangesTrace, RunFrom, Answers;
    var init, op := ops[..|ops| - 1], ops[|ops| - 1];
    if i < |ops| - 1 {
      TrafficCounts(s, cfg, core, init, mode, i);
      assert init[..i] == ops[..i];
    } else {
      TrafficIsTrace(s, cfg, core, init, mode);
      var before := Traffic(s, cfg, core, init, mode);
      AccessIsTrace(before.0, cfg, core, op, mode);
      SlotIsRank(AccessOp(before.0, cfg, core, op, mode).1);
    }
  }

  function PrefetchTrace(ins: Instruction): seq<Event> {
    if ins.prefetch.addr != 0 then RangeTrace(ins.core, ins.prefetch, Read) else []
  }

  /** Counter 5 for a prefetch that hits the D1, counter 6 for one that hits the L2, none for any other. */
  ghost predicate CountsPrefetch(s: Sim, cfg: Config, ins: Instruction, bumps: seq<nat>)
    requires ShapedSim(s, cfg)
  {
    if ins.prefetch.addr == 0 then bumps == []
    else exists r :: Answers(s, cfg, PrefetchTrace(ins), Read, r)
                     && bumps == if r == D1Hit then [5] else if r == L2Hit then [6] else []
  }

  lemma PrefetchIsTrace(s: Sim, cfg: Config, ins: Instruction)
    requires ShapedSim(s, cfg)
    ensures var p := Prefetched(s, cfg, ins.core, ins.prefetch);
      p.0 == RunFrom(s, cfg, PrefetchTrace(ins)) && CountsPrefetch(s, cfg, ins, p.1)
  {
    hide AccessOp, ShapedSim, RangeTrace, Answers;
    if ins.prefetch.addr != 0 {
      AccessIsTrace(s, cfg, ins.core, ins.prefetch, Read);
    }
  }

  /** The caches after an instruction are those after its events. */
  lemma CommitIsTrace(s: Sim, cfg: Config, ins: Instruction)
    requires ShapedSim(s, cfg)
    ensures Commit(s, cfg, ins).0 == RunFrom(s, cfg, InstructionTrace(ins))
  {
    hide AccessOp, ShapedSim, RangeTrace, RangesTrace, RunFrom, Answers, Traffic, Prefetched, CountsPrefetch;
    var f, p := RangeTrace(ins.core, ins.code, CodeRead), PrefetchTrace(ins);
    var l, w := RangesTrace(ins.core, ins.loads, Read), RangesTrace(ins.core, ins.stores, Write);
    AccessIsTrace(s, cfg, ins.core, ins.code, CodeRead);
    PrefetchIsTrace(RunFrom(s, cfg, f), cfg, ins);
    RunFromPlus(s, cfg, f, p);
    TrafficIsTrace(RunFrom(s, cfg, f + p), cfg, ins.core, ins.loads, Read);
    RunFromPlus(s, cfg, f + p, l);
    TrafficIsTrace(RunFrom(s, cfg, f + p + l), cfg, ins.core, ins.stores, Write);
    RunFromPlus(s, cfg, f + p + l, w);
  }

  /** Which counters an instruction bumps: that of instructions, that of the fetch's answer, that of the
      prefetch if it hits, and that of each data access's answer, each in the state its predecessors leave. */
  lemma CommitCounts(s: Sim, cfg: Config, ins: Instruction)
    requires ShapedSim(s, cfg)
    ensures var bumps := Commit(s, cfg, ins).1;
      var fetched := RunFrom(s, cfg, RangeTrace(ins.core, ins.code, CodeRead));
      var loading := RunFrom(fetched, cfg, PrefetchTrace(ins));
      var storing := RunFrom(loading, cfg, RangesTrace(ins.core, ins.loads, Read));
      exists pre ::
        && CountsPrefetch(fetched, cfg, ins, pre)
        && |bumps| == 2 + |pre| + |ins.loads| + |ins.stores|
        && bumps[0] == 7 && Counts(s, cfg, RangeTrace(ins.core, ins.code, CodeRead), CodeRead, bumps[1])
        && bumps[2..2 + |pre|] == pre
        && (forall i :: 0 <= i < |ins.loads| ==>
              Counts(RunFrom(loading, cfg, RangesTrace(ins.core, ins.loads[..i], Read)), cfg,
                     RangeTrace(ins.core, ins.loads[i], Read), Read, bumps[2 + |pre| + i]))
        && (forall i :: 0 <= i < |ins.stores| ==>
              Counts(RunFrom(storing, cfg, RangesTrace(ins.core, ins.stores[..i], Write)), cfg,
                     RangeTrace(ins.core, ins.stores[i], Write), Write, bumps[2 + |pre| + |ins.loads| + i]))
  {
    hide AccessOp, ShapedSim, RangeTrace, RangesTrace, RunFrom, Answers, Traffic, Prefetched, CountsPrefetch;
    var fetch := AccessOp(s, cfg, ins.core, ins.code, CodeRead);
    AccessIsTrace(s, cfg, ins.core, ins.code, CodeRead);
    SlotIsRank(fetch.1);
    PrefetchIsTrace(fetch.0, cfg, ins);
    var pre := Prefetched(fetch.0, cfg, ins.core, ins.prefetch);
    TrafficIsTrace(pre.0, cfg, ins.core, ins.loads, Read);
    var rd := Traffic(pre.0, cfg, ins.core, ins.loads, Read);
    var wr := Traffic(rd.0, cfg, ins.core, ins.stores, Write);
    var bumps := Commit(s, cfg, ins).1;
    assert Counts(s, cfg, RangeTrace(ins.core, ins.code, CodeRead), CodeRead, bumps[1]);
    assert bumps[2..2 + |pre.1|] == pre.1;
    hide Commit, Counts;
    forall i | 0 <= i < |ins.loads|
      ensures Counts(RunFrom(pre.0, cfg, RangesTrace(ins.core, ins.loads[..i], Read)), cfg,
                     RangeTrace(ins.core, ins.loads[i], Read), Read, bumps[2 + |pre.1| + i])
    {
      TrafficCounts(pre.0, cfg, ins.core, ins.loads, Read, i);
    }
    forall i | 0 <= i < |ins.stores|
      ensures Counts(RunFrom(rd.0, cfg, RangesTrace(ins.core, ins.stores[..i], Write)), cfg,
                     RangeTrace(ins.core, ins.stores[i], Write), Write, bumps[2 + |pre.1| + |ins.loads| + i])
    {
      TrafficCounts(rd.0, cfg, ins.core, ins.stores, Write, i);
    }
  }

  /** For ranges that do not wrap the counter of a fetch is never that of a data result, nor the other way
      round; and neither is a prefetch counter. */
  lemma CountsKinds(s: Sim, cfg: Config, core: nat, op: MemOp, mode: Mode, b: nat)
    requires ShapedSim(s, cfg) && op.addr + op.size < ADDRESSES
    requires Counts(s, cfg, RangeTrace(core, op, mode), mode, b)
    ensures if mode == CodeRead then b == 1 || b == 2 || b == 3 else b == 0 || b == 2 || b == 4
  {
    hide Answers, ShapedSim;
    var r :| Answers(s, cfg, RangeTrace(core, op, mode), mode, r) && b == Slot(r);
    AnswerKinds(s, cfg, RangeTrace(core, op, mode), mode, r);
  }

  /** The caches of a whole capture are those of its instructions' events, from empty caches. */
  lemma {:induction false} CaptureIsTrace(cfg: Config, run: seq<Instruction>)
    requires cfg.Valid()
    ensures RunAll(cfg, run).0 == Run(cfg, CaptureTrace(run))
  {
    hide Commit, Committed, ShapedSim, FreshSim, Run, RunFrom, InstructionTrace;
    RunFromFresh(cfg, CaptureTrace(run));
    if run == [] {
      assert RunFrom(FreshSim(cfg), cfg, []) == FreshSim(cfg) by {
        NothingRuns(FreshSim(cfg), cfg);
      }
    } else {
      var init, ins := run[..|run| - 1], run[|run| - 1];
      CaptureIsTrace(cfg, init);
      RunFromFresh(cfg, CaptureTrace(init));
      CommitIsTrace(RunAll(cfg, init).0, cfg, ins);
      RunFromPlus(FreshSim(cfg), cfg, CaptureTrace(init), InstructionTrace(ins));
    }
  }

  lemma NothingRuns(s: Sim, cfg: Config)
    requires ShapedSim(s, cfg)
    ensures RunFrom(s, cfg, []) == s
  {
  }
}
