/** Accesses as traces of events: what a range of lines does to the caches and what it is answered, without
    the order of the results. */
module JaguarTrace {
  import opened JaguarModel

  /** The events one after the other, from any state. */
  function RunFrom(s: Sim, cfg: Config, trace: seq<Event>): (t: Sim)
    requires ShapedSim(s, cfg)
    ensures ShapedSim(t, cfg)
  {
    if trace == [] then s
    else Step(RunFrom(s, cfg, trace[..|trace| - 1]), cfg, trace[|trace| - 1])
  }

  lemma {:induction false} RunFromPlus(s: Sim, cfg: Config, a: seq<Event>, b: seq<Event>)
    requires ShapedSim(s, cfg)
    ensures RunFrom(s, cfg, a + b) == RunFrom(RunFrom(s, cfg, a), cfg, b)
  {
    hide Step, ShapedSim;
    if b == [] {
      assert a + b == a;
    } else {
      RunFromPlus(s, cfg, a, b[..|b| - 1]);
      assert (a + b)[..|a + b| - 1] == a + b[..|b| - 1];
    }
  }

  lemma {:induction false} RunFromFresh(cfg: Config, trace: seq<Event>)
    requires cfg.Valid()
    ensures RunFrom(FreshSim(cfg), cfg, trace) == Run(cfg, trace)
  {
    hide Step, ShapedSim, FreshSim;
    if trace != [] {
      RunFromFresh(cfg, trace[..|trace| - 1]);
    }
  }

  /** One event for each of `count` lines from `line` on. */
  function LineTrace(core: nat, line: nat, count: nat, mode: Mode): (t: seq<Event>)
    ensures |t| == count && forall i :: 0 <= i < count ==> t[i] == Event(core, line + i, mode)
  {
    seq(count, i requires 0 <= i < count => Event(core, line + i, mode))
  }

  /** The outcome of event i, in the state it meets. */
  function OutcomeAt(s: Sim, cfg: Config, trace: seq<Event>, i: nat): AccessResult
    requires ShapedSim(s, cfg) && i < |trace|
  {
    Outcome(RunFrom(s, cfg, trace[..i]), cfg, trace[i])
  }

  ghost predicate Meets(s: Sim, cfg: Config, trace: seq<Event>, r: AccessResult)
    requires ShapedSim(s, cfg)
  {
    exists i :: 0 <= i < |trace| && OutcomeAt(s, cfg, trace, i) == r
  }

  /** The answer to a data access: a miss if some line misses the second level, a second-level hit if some
      line misses only the first, else a first-level hit. */
  ghost predicate AnswersData(s: Sim, cfg: Config, trace: seq<Event>, r: AccessResult)
    requires ShapedSim(s, cfg)
  {
    && (r == L2DMiss <==> Meets(s, cfg, trace, L2DMiss))
    && (r == L2Hit <==> !Meets(s, cfg, trace, L2DMiss) && Meets(s, cfg, trace, L2Hit))
    && (r == D1Hit <==> !Meets(s, cfg, trace, L2DMiss) && !Meets(s, cfg, trace, L2Hit))
  }

  /** The answer to an instruction fetch of at least one line. */
  ghost predicate AnswersFetch(s: Sim, cfg: Config, trace: seq<Event>, r: AccessResult)
    requires ShapedSim(s, cfg)
  {
    && (r == L2IMiss <==> Meets(s, cfg, trace, L2IMiss))
    && (r == L2Hit <==> !Meets(s, cfg, trace, L2IMiss) && Meets(s, cfg, trace, L2Hit))
    && (r == I1Hit <==> !Meets(s, cfg, trace, L2IMiss) && !Meets(s, cfg, trace, L2Hit))
  }

  ghost predicate Answers(s: Sim, cfg: Config, trace: seq<Event>, mode: Mode, r: AccessResult)
    requires ShapedSim(s, cfg)
  {
    if trace == [] then r == D1Hit
    else if mode == CodeRead then AnswersFetch(s, cfg, trace, r)
    else AnswersData(s, cfg, trace, r)
  }

  /** What an event can be answered. */
  lemma OutcomeKinds(s: Sim, cfg: Config, e: Event)
    requires ShapedSim(s, cfg)
    ensures var r := Outcome(s, cfg, e);
      if e.mode == CodeRead then r == I1Hit || r == L2Hit || r == L2IMiss
      else r == D1Hit || r == L2Hit || r == L2DMiss
  {
    OutcomeMeans(s, cfg, e);
  }

  lemma OutcomeAtNext(s: Sim, cfg: Config, trace: seq<Event>, e: Event, i: nat)
    requires ShapedSim(s, cfg) && i <= |trace|
    ensures OutcomeAt(s, cfg, trace + [e], i) ==
      if i < |trace| then OutcomeAt(s, cfg, trace, i) else Outcome(RunFrom(s, cfg, trace), cfg, e)
  {
    hide Outcome, RunFrom, ShapedSim;
    assert (trace + [e])[..i] == trace[..i];
    assert trace[..|trace|] == trace;
  }

  lemma MeetsNext(s: Sim, cfg: Config, trace: seq<Event>, e: Event, r: AccessResult)
    requires ShapedSim(s, cfg)
    ensures Meets(s, cfg, trace + [e], r) <==>
            Meets(s, cfg, trace, r) || Outcome(RunFrom(s, cfg, trace), cfg, e) == r
  {
    hide Outcome, RunFrom, ShapedSim, OutcomeAt;
    forall i: nat | i <= |trace|
      ensures OutcomeAt(s, cfg, trace + [e], i) ==
        if i < |trace| then OutcomeAt(s, cfg, trace, i) else Outcome(RunFrom(s, cfg, trace), cfg, e)
    {
      OutcomeAtNext(s, cfg, trace, e, i);
    }
    assert OutcomeAt(s, cfg, trace + [e], |trace|) == Outcome(RunFrom(s, cfg, trace), cfg, e);
    if i :| 0 <= i < |trace| && OutcomeAt(s, cfg, trace, i) == r {
      assert OutcomeAt(s, cfg, trace + [e], i) == r;
    }
  }

  lemma NothingMet(s: Sim, cfg: Config, r: AccessResult)
    requires ShapedSim(s, cfg)
    ensures !Meets(s, cfg, [], r)
  {
  }

  /** The answer grows by one more line. */
  lemma AnswersNext(s: Sim, cfg: Config, trace: seq<Event>, mode: Mode, w: AccessResult, e: Event)
    requires ShapedSim(s, cfg) && Answers(s, cfg, trace, mode, w) && e.mode == mode
    ensures Answers(s, cfg, trace + [e], mode, Worse(w, Outcome(RunFrom(s, cfg, trace), cfg, e)))
  {
    hide Meets, Outcome, RunFrom, ShapedSim;
    OutcomeKinds(RunFrom(s, cfg, trace), cfg, e);
    MeetsNext(s, cfg, trace, e, L2Hit);
    MeetsNext(s, cfg, trace, e, if mode == CodeRead then L2IMiss else L2DMiss);
    NothingMet(s, cfg, L2Hit);
    NothingMet(s, cfg, if mode == CodeRead then L2IMiss else L2DMiss);
  }

  /** A straddling access is its lines' events in order, and its answer is the worst of theirs. */
  lemma {:induction false} SweepIsTrace(s: Sim, cfg: Config, core: nat, line: nat, count: nat, mode: Mode)
    requires ShapedSim(s, cfg)
    ensures var t, r := LineTrace(core, line, count, mode), Sweep(s, cfg, core, line, count, mode);
      r.0 == RunFrom(s, cfg, t) && Answers(s, cfg, t, mode, r.1)
  {
    hide Outcome, Step, ShapedSim, Answers, Worse;
    if count == 0 {
      NoLinesNoAnswer(s, cfg, mode);
      assert LineTrace(core, line, 0, mode) == [];
    } else {
      var pre, e := LineTrace(core, line, count - 1, mode), Event(core, line + count - 1, mode);
      SweepIsTrace(s, cfg, core, line, count - 1, mode);
      SweepNext(s, cfg, core, line, count, mode);
      AnswersNext(s, cfg, pre, mode, Sweep(s, cfg, core, line, count - 1, mode).1, e);
      assert LineTrace(core, line, count, mode) == pre + [e];
    }
  }

  lemma NoLinesNoAnswer(s: Sim, cfg: Config, mode: Mode)
    requires ShapedSim(s, cfg)
    ensures Answers(s, cfg, [], mode, D1Hit)
  {
  }

  /** A fetch is never answered as data, data never as a fetch, and one line is answered with its outcome. */
  lemma AnswerKinds(s: Sim, cfg: Config, trace: seq<Event>, mode: Mode, r: AccessResult)
    requires ShapedSim(s, cfg) && trace != [] && Answers(s, cfg, trace, mode, r)
    requires forall i :: 0 <= i < |trace| ==> trace[i].mode == mode
    ensures if mode == CodeRead then r == I1Hit || r == L2Hit || r == L2IMiss
            else r == D1Hit || r == L2Hit || r == L2DMiss
    ensures |trace| == 1 ==> r == Outcome(s, cfg, trace[0])
  {
    if |trace| == 1 {
      OutcomeKinds(s, cfg, trace[0]);
      assert trace[..0] == [];
      assert OutcomeAt(s, cfg, trace, 0) == Outcome(s, cfg, trace[0]);
      hide Outcome, RunFrom, ShapedSim, OutcomeAt;
      assert Meets(s, cfg, trace, OutcomeAt(s, cfg, trace, 0));
      forall q | Meets(s, cfg, trace, q)
        ensures q == OutcomeAt(s, cfg, trace, 0)
      {
      }
    }
    hide Meets;
  }
}
