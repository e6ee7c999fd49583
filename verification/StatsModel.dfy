/** What committing traced instructions does to the per-instruction counters, as functions of values. */
module StatsModel {
  import opened Counters
  import opened JaguarModel
  import J = Jaguar

  /** The counters behind the five access results. */
  const PREFETCH_HIT_D1: nat := 5
  const PREFETCH_HIT_L2: nat := 6
  const INSTRUCTIONS: nat := 7

  /** The key of a statistics record: an instruction and the call stack it was reached by. */
  datatype RipKey = RipKey(rip: nat, stack: nat)

  datatype MemOp = MemOp(addr: nat, size: nat) {
    /** The line loop of an access to it ends. */
    predicate Accessible() {
      addr < J.WORD && size < J.WORD && (addr + size) % J.WORD < J.TOP_LINE
    }

    /** The number of lines the line loop visits. */
    function Lines(): nat {
      var last := (addr + size) % J.WORD / 64;
      if addr / 64 <= last then last - addr / 64 + 1 else 0
    }
  }

  /** One traced instruction; a prefetch at address 0 is none. */
  datatype Instruction = Instruction(core: nat, stack: nat, code: MemOp, prefetch: MemOp,
                                     loads: seq<MemOp>, stores: seq<MemOp>) {
    function Key(): RipKey { RipKey(code.addr, stack) }

    predicate Accessible() {
      && code.Accessible() && prefetch.Accessible()
      && (forall op :: op in loads ==> op.Accessible()) && (forall op :: op in stores ==> op.Accessible())
    }
  }

  // ----- the counters an instruction bumps

  function AccessOp(s: Sim, cfg: Config, core: nat, op: MemOp, mode: Mode): (r: (Sim, AccessResult))
    requires ShapedSim(s, cfg)
    ensures ShapedSim(r.0, cfg)
  {
    Sweep(s, cfg, core, op.addr / 64, op.Lines(), mode)
  }

  /** The state after some accesses, and the counter each of them bumps. */
  function Traffic(s: Sim, cfg: Config, core: nat, ops: seq<MemOp>, mode: Mode): (r: (Sim, seq<nat>))
    requires ShapedSim(s, cfg)
    ensures ShapedSim(r.0, cfg) && |r.1| == |ops| && forall i :: 0 <= i < |r.1| ==> r.1[i] < 5
  {
    if ops == [] then (s, [])
    else
      var before := Traffic(s, cfg, core, ops[..|ops| - 1], mode);
      var last := AccessOp(before.0, cfg, core, ops[|ops| - 1], mode);
      (last.0, before.1 + [last.1.Rank()])
  }

  /** A prefetch is an immediate read that is recorded only when it hits. */
  function Prefetched(s: Sim, cfg: Config, core: nat, op: MemOp): (r: (Sim, seq<nat>))
    requires ShapedSim(s, cfg)
    ensures ShapedSim(r.0, cfg)
    ensures |r.1| <= (if op.addr == 0 then 0 else 1) && forall i :: 0 <= i < |r.1| ==> 5 <= r.1[i] < 7
  {
    if op.addr == 0 then (s, [])
    else
      var p := AccessOp(s, cfg, core, op, Read);
      (p.0, if p.1 == D1Hit then [PREFETCH_HIT_D1] else if p.1 == L2Hit then [PREFETCH_HIT_L2] else [])
  }

  /** The state after an instruction, and every counter it bumps, in order. */
  function Commit(s: Sim, cfg: Config, ins: Instruction): (r: (Sim, seq<nat>))
    requires ShapedSim(s, cfg)
    ensures ShapedSim(r.0, cfg)
  {
    var code := AccessOp(s, cfg, ins.core, ins.code, CodeRead);
    var pre := Prefetched(code.0, cfg, ins.core, ins.prefetch);
    var rd := Traffic(pre.0, cfg, ins.core, ins.loads, Read);
    var wr := Traffic(rd.0, cfg, ins.core, ins.stores, Write);
    (wr.0, [INSTRUCTIONS, code.1.Rank()] + pre.1 + rd.1 + wr.1)
  }

  // ----- the records

  type Record = seq<nat>

  type Records = map<RipKey, Record>

  /** Counters are 32 bits wide and wrap. */
  function Bump(r: Record, b: nat): Record {
    if b < |r| then r[b := (r[b] + 1) % WORD_RANGE] else r
  }

  function BumpAll(r: Record, bumps: seq<nat>): (t: Record)
    ensures |t| == |r|
  {
    if bumps == [] then r else Bump(BumpAll(r, bumps[..|bumps| - 1]), bumps[|bumps| - 1])
  }

  /** The record of a key; a key that has none is about to get a blank one. */
  function RecordOf(t: Records, k: RipKey): Record {
    if k in t then t[k] else Blank()
  }

  function Committed(t: Records, k: RipKey, bumps: seq<nat>): Records {
    t[k := BumpAll(RecordOf(t, k), bumps)]
  }

  predicate WellFormed(t: Records) {
    forall k :: k in t ==> |t[k]| == COUNTERS && forall c :: 0 <= c < COUNTERS ==> t[k][c] < WORD_RANGE
  }

  /** A whole capture: from empty caches and no records. */
  function RunAll(cfg: Config, run: seq<Instruction>): (r: (Sim, Records))
    requires cfg.Valid()
    ensures ShapedSim(r.0, cfg)
  {
    if run == [] then (FreshSim(cfg), map[])
    else
      var (s, t) := RunAll(cfg, run[..|run| - 1]);
      var ins := run[|run| - 1];
      var (s', bumps) := Commit(s, cfg, ins);
      (s', Committed(t, ins.Key(), bumps))
  }

  // ----- counting

  function Occurrences(bumps: seq<nat>, c: nat): nat {
    if bumps == [] then 0
    else Occurrences(bumps[..|bumps| - 1], c) + if bumps[|bumps| - 1] == c then 1 else 0
  }

  lemma {:induction false} OccurrencesPlus(a: seq<nat>, b: seq<nat>, c: nat)
    ensures Occurrences(a + b, c) == Occurrences(a, c) + Occurrences(b, c)
  {
    if b == [] {
      assert a + b == a;
    } else {
      OccurrencesPlus(a, b[..|b| - 1], c);
      assert (a + b)[..|a + b| - 1] == a + b[..|b| - 1];
    }
  }

  /** How many of the bumps are access results. */
  function Results(bumps: seq<nat>): nat {
    Occurrences(bumps, 0) + Occurrences(bumps, 1) + Occurrences(bumps, 2) + Occurrences(bumps, 3)
      + Occurrences(bumps, 4)
  }

  lemma {:induction false} AllResults(bumps: seq<nat>)
    requires forall i :: 0 <= i < |bumps| ==> bumps[i] < 5
    ensures Results(bumps) == |bumps| && forall c :: 5 <= c ==> Occurrences(bumps, c) == 0
  {
    if bumps != [] {
      AllResults(bumps[..|bumps| - 1]);
    }
  }

  /** One instruction bumps the instruction counter once, an access result for its fetch and for each
      data access, and at most one prefetch counter, only if it prefetches. */
  lemma CommitBumps(s: Sim, cfg: Config, ins: Instruction)
    requires ShapedSim(s, cfg)
    ensures var bumps := Commit(s, cfg, ins).1;
      && Occurrences(bumps, INSTRUCTIONS) == 1
      && Results(bumps) == 1 + |ins.loads| + |ins.stores|
      && Occurrences(bumps, PREFETCH_HIT_D1) + Occurrences(bumps, PREFETCH_HIT_L2)
         <= (if ins.prefetch.addr == 0 then 0 else 1)
  {
    hide ShapedSim, AccessOp, Traffic, Prefetched;
    var code := AccessOp(s, cfg, ins.core, ins.code, CodeRead);
    var pre := Prefetched(code.0, cfg, ins.core, ins.prefetch);
    var rd := Traffic(pre.0, cfg, ins.core, ins.loads, Read);
    var wr := Traffic(rd.0, cfg, ins.core, ins.stores, Write);
    AllResults(rd.1);
    AllResults(wr.1);
    var first := [INSTRUCTIONS, code.1.Rank()];
    PartsBump(first, pre.1, rd.1, wr.1);
    Fetch(code.1.Rank());
    AtMostOne(pre.1);
  }

  lemma Fetch(rank: nat)
    requires rank < 5
    ensures var first := [INSTRUCTIONS, rank];
      Results(first) == 1 && Occurrences(first, INSTRUCTIONS) == 1
        && Occurrences(first, 5) == Occurrences(first, 6) == 0
  {
    forall c: nat | c < COUNTERS
      ensures Occurrences([INSTRUCTIONS, rank], c) ==
        (if c == INSTRUCTIONS then 1 else 0) + (if c == rank then 1 else 0)
    {
      OccurrencesPlus([INSTRUCTIONS], [rank], c);
      assert [INSTRUCTIONS, rank] == [INSTRUCTIONS] + [rank];
      assert [INSTRUCTIONS][..0] == [] && [rank][..0] == [];
    }
  }

  lemma AtMostOne(pre: seq<nat>)
    requires |pre| <= 1 && forall i :: 0 <= i < |pre| ==> 5 <= pre[i] < 7
    ensures Results(pre) == 0 && Occurrences(pre, INSTRUCTIONS) == 0
    ensures Occurrences(pre, 5) + Occurrences(pre, 6) <= |pre|
  {
  }

  lemma PartsBump(a: seq<nat>, b: seq<nat>, c: seq<nat>, d: seq<nat>)
    ensures forall x :: Occurrences(a + b + c + d, x)
                     == Occurrences(a, x) + Occurrences(b, x) + Occurrences(c, x) + Occurrences(d, x)
  {
    forall x
      ensures Occurrences(a + b + c + d, x)
           == Occurrences(a, x) + Occurrences(b, x) + Occurrences(c, x) + Occurrences(d, x)
    {
      OccurrencesPlus(a + b + c, d, x);
      OccurrencesPlus(a + b, c, x);
      OccurrencesPlus(a, b, x);
    }
  }

  /** A counter moves by its number of bumps, less a full turn for every time it wraps. */
  lemma {:induction false} BumpsCount(r: Record, bumps: seq<nat>, c: nat) returns (wraps: nat)
    requires c < |r| && r[c] < WORD_RANGE
    ensures BumpAll(r, bumps)[c] < WORD_RANGE
    ensures BumpAll(r, bumps)[c] + WORD_RANGE * wraps == r[c] + Occurrences(bumps, c)
  {
    if bumps == [] {
      wraps := 0;
    } else {
      wraps := BumpsCount(r, bumps[..|bumps| - 1], c);
      var last := BumpAll(r, bumps[..|bumps| - 1])[c];
      if bumps[|bumps| - 1] == c && last + 1 == WORD_RANGE {
        wraps := wraps + 1;
      }
    }
  }

  /** How often the instructions of a run that have this key bump this counter. */
  function Bumped(cfg: Config, run: seq<Instruction>, k: RipKey, c: nat): nat
    requires cfg.Valid()
  {
    if run == [] then 0
    else
      var before := run[..|run| - 1];
      var ins := run[|run| - 1];
      Bumped(cfg, before, k, c) +
      if ins.Key() == k then Occurrences(Commit(RunAll(cfg, before).0, cfg, ins).1, c) else 0
  }

  /** Every counter of every record holds, modulo 2^32, how often its own key's instructions bumped it. */
  lemma {:induction false} RecordsAreCounts(cfg: Config, run: seq<Instruction>, k: RipKey, c: nat) returns (wraps: nat)
    requires cfg.Valid() && c < COUNTERS
    ensures var t := RunAll(cfg, run).1;
      && |RecordOf(t, k)| == COUNTERS && RecordOf(t, k)[c] < WORD_RANGE
      && RecordOf(t, k)[c] + WORD_RANGE * wraps == Bumped(cfg, run, k, c)
  {
    hide Commit, BumpAll, Occurrences, ShapedSim;
    if run == [] {
      wraps := 0;
    } else {
      var before, ins := run[..|run| - 1], run[|run| - 1];
      wraps := RecordsAreCounts(cfg, before, k, c);
      var (s, t) := RunAll(cfg, before);
      if ins.Key() == k {
        var more := BumpsCount(RecordOf(t, k), Commit(s, cfg, ins).1, c);
        wraps := wraps + more;
      }
    }
  }

  /** Exactly the address and call stack of every committed instruction have a record. */
  lemma {:induction false} RecordedKeys(cfg: Config, run: seq<Instruction>, k: RipKey)
    requires cfg.Valid()
    ensures k in RunAll(cfg, run).1 <==>
      exists i :: 0 <= i < |run| && run[i].code.addr == k.rip && run[i].stack == k.stack
  {
    hide Commit, BumpAll, ShapedSim;
    if run != [] {
      RecordedKeys(cfg, run[..|run| - 1], k);
    }
  }

  // ----- totals over all keys

  function Counter(r: Record, c: nat): nat {
    if c < |r| then r[c] else 0
  }

  /** One counter summed over the records. */
  ghost function Total(t: Records, c: nat): nat {
    if t == map[] then 0
    else
      var k :| k in t;
      Counter(t[k], c) + Total(t - {k}, c)
  }

  lemma {:induction false} TotalMinus(t: Records, k: RipKey, c: nat)
    requires k in t
    ensures Total(t, c) == Counter(t[k], c) + Total(t - {k}, c)
    decreases |t|
  {
    var j :| j in t && Total(t, c) == Counter(t[j], c) + Total(t - {j}, c);
    if j != k {
      TotalMinus(t - {j}, k, c);
      TotalMinus(t - {k}, j, c);
      assert t - {j} - {k} == t - {k} - {j};
    }
  }

  lemma TotalAfter(t: Records, k: RipKey, r: Record, c: nat)
    requires |r| == COUNTERS && c < COUNTERS
    ensures Total(t[k := r], c) + Counter(RecordOf(t, k), c) == Total(t, c) + r[c]
  {
    TotalMinus(t[k := r], k, c);
    assert t[k := r] - {k} == t - {k};
    if k in t {
      TotalMinus(t, k, c);
    } else {
      assert t - {k} == t;
    }
  }

  /** How often a run bumps a counter, whatever the key. */
  function BumpedByAny(cfg: Config, run: seq<Instruction>, c: nat): nat
    requires cfg.Valid()
  {
    if run == [] then 0
    else
      var before := run[..|run| - 1];
      BumpedByAny(cfg, before, c) + Occurrences(Commit(RunAll(cfg, before).0, cfg, run[|run| - 1]).1, c)
  }

  lemma {:induction false} TotalIsCount(cfg: Config, run: seq<Instruction>, c: nat) returns (wraps: nat)
    requires cfg.Valid() && c < COUNTERS
    ensures Total(RunAll(cfg, run).1, c) + WORD_RANGE * wraps == BumpedByAny(cfg, run, c)
  {
    hide Commit, BumpAll, Occurrences, Total;
    if run == [] {
      wraps := 0;
      NoTotal(c);
    } else {
      var before, ins := run[..|run| - 1], run[|run| - 1];
      wraps := TotalIsCount(cfg, before, c);
      var (s, t) := RunAll(cfg, before);
      var k, bumps := ins.Key(), Commit(s, cfg, ins).1;
      var other := RecordsAreCounts(cfg, before, k, c);
      var more := BumpsCount(RecordOf(t, k), bumps, c);
      TotalAfter(t, k, BumpAll(RecordOf(t, k), bumps), c);
      wraps := wraps + more;
    }
  }

  lemma NoTotal(c: nat)
    ensures Total(map[], c) == 0
  {
  }

  /** Data accesses of a run. */
  function DataAccesses(run: seq<Instruction>): nat {
    if run == [] then 0
    else DataAccesses(run[..|run| - 1]) + |run[|run| - 1].loads| + |run[|run| - 1].stores|
  }

  function Prefetches(run: seq<Instruction>): nat {
    if run == [] then 0
    else Prefetches(run[..|run| - 1]) + if run[|run| - 1].prefetch.addr == 0 then 0 else 1
  }

  lemma {:induction false} BumpsOfRun(cfg: Config, run: seq<Instruction>)
    requires cfg.Valid()
    ensures BumpedByAny(cfg, run, INSTRUCTIONS) == |run|
    ensures BumpedByAny(cfg, run, 0) + BumpedByAny(cfg, run, 1) + BumpedByAny(cfg, run, 2) + BumpedByAny(cfg, run, 3)
          + BumpedByAny(cfg, run, 4) == |run| + DataAccesses(run)
    ensures BumpedByAny(cfg, run, PREFETCH_HIT_D1) + BumpedByAny(cfg, run, PREFETCH_HIT_L2) <= Prefetches(run)
  {
    hide Commit, RunAll, Occurrences;
    if run != [] {
      var before := run[..|run| - 1];
      BumpsOfRun(cfg, before);
      CommitBumps(RunAll(cfg, before).0, cfg, run[|run| - 1]);
    }
  }

  /** Conservation: over all keys, the instruction counters add up to the instructions committed and the
      five result counters to the instructions plus the data accesses, both up to whole turns of 32-bit
      counters, and there are never more prefetch hits than prefetches. */
  lemma Conservation(cfg: Config, run: seq<Instruction>) returns (instructionWraps: nat, resultWraps: nat)
    requires cfg.Valid()
    ensures var t := RunAll(cfg, run).1;
      && Total(t, INSTRUCTIONS) + WORD_RANGE * instructionWraps == |run|
      && Total(t, 0) + Total(t, 1) + Total(t, 2) + Total(t, 3) + Total(t, 4) + WORD_RANGE * resultWraps
           == |run| + DataAccesses(run)
      && Total(t, PREFETCH_HIT_D1) + Total(t, PREFETCH_HIT_L2) <= Prefetches(run)
  {
    hide RunAll, Total, BumpedByAny;
    BumpsOfRun(cfg, run);
    instructionWraps := TotalIsCount(cfg, run, INSTRUCTIONS);
    var w0 := TotalIsCount(cfg, run, 0);
    var w1 := TotalIsCount(cfg, run, 1);
    var w2 := TotalIsCount(cfg, run, 2);
    var w3 := TotalIsCount(cfg, run, 3);
    var w4 := TotalIsCount(cfg, run, 4);
    resultWraps := w0 + w1 + w2 + w3 + w4;
    var w5 := TotalIsCount(cfg, run, PREFETCH_HIT_D1);
    var w6 := TotalIsCount(cfg, run, PREFETCH_HIT_L2);
  }
}
