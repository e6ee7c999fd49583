/** Whether an instruction is counted under the stack it was trapped on.  The actions of a run say what each
    handler step sees; a run is consistent when that is what a traced thread can see. */
module Trapped {
  import opened CaptureProtocol
  import opened Attribution

  // ----- consistent runs

  /** The last action of thread t, or -1. */
  function Latest(run: seq<Action>, t: nat): (j: int)
    ensures -1 <= j < |run| && (j >= 0 ==> run[j].Handler? && run[j].thread == t)
  {
    if run == [] then -1
    else if run[|run| - 1].Handler? && run[|run| - 1].thread == t then |run| - 1
    else Latest(run[..|run| - 1], t)
  }

  /** The state before action k. */
  function Before(threads: nat, run: seq<Action>, k: nat): State
    requires k <= |run|
  {
    Run(Initial(threads), run[..k])
  }

  /** Action k is a trap that finds tracing off: the thread is let go and runs on unseen. */
  ghost predicate LetGo(threads: nat, run: seq<Action>, k: nat)
    requires k < |run| && run[k].Handler?
  {
    var s, t := Before(threads, run, k), run[k].thread;
    t < |s.threads| && s.threads[t].pc == Idle && !s.enabled
  }

  /** What thread t sees is the same throughout one trap.  Its next trap, unless it was let go, sees the same
      call stack, except after a call or return. */
  ghost predicate Sees(threads: nat, run: seq<Action>, t: nat, w: World) {
    var s, j := Run(Initial(threads), run), Latest(run, t);
    t < |s.threads| && j >= 0 ==>
      var v := run[j].world;
      if s.threads[t].pc != Idle then w == v
      else LetGo(threads, run, j) || v.callOrReturn || w.frames == v.frames
  }

  ghost predicate Consistent(threads: nat, run: seq<Action>) {
    forall k :: 0 <= k < |run| && run[k].Handler? ==> Sees(threads, run[..k], run[k].thread, run[k].world)
  }

  // ----- what holds of a thread that last saw w

  /** The index is None or that of the stack seen. */
  predicate Match(l: Thread, w: World) {
    l.stack.At? ==> l.stack.frames == w.frames
  }

  /** The index is None or will be right at the next trap as well. */
  predicate Lasting(l: Thread, w: World) {
    l.stack.At? ==> l.stack.frames == w.frames && !w.callOrReturn
  }

  /** The thread will bring its state up to date before it uses its index again. */
  predicate Outdated(s: State, l: Thread) {
    l.generation < s.generation || (!s.enabled && s.control != StartEnable)
  }

  predicate Carries(rip: nat, existing: Index, w: World) {
    rip == w.rip && existing.At? && existing.frames == w.frames
  }

  predicate InStep(s: State, l: Thread, w: World, letGo: bool) {
    match l.pc
    case Idle => Outdated(s, l) || l.stack == None || (!letGo && Lasting(l, w))
    case ReadGeneration => l.generation < s.generation || Match(l, w)
    case Sync(seen) => l.generation != seen || Match(l, w)
    case Recheck => Match(l, w)
    case WantInsert => true
    case Inserting => true
    case InsertDone => l.stack.At? && Match(l, w)
    case Generate => l.stack.At? && Match(l, w)
    case WantCommit(rip, existing) => Carries(rip, existing, w) && Lasting(l, w)
    case Locked(rip, existing) => Carries(rip, existing, w) && Lasting(l, w)
    case Committing(rip, existing) => Carries(rip, existing, w) && Lasting(l, w)
    case CommitDone => Lasting(l, w)
  }

  /** The thread has not come up to date yet in its life, or not yet in this trap. */
  predicate Entering(pc: Pc) {
    pc.Idle? || pc.ReadGeneration? || pc.Sync?
  }

  /** Between the bump and the moment tracing is on no thread of the new generation has an index; a thread
      without a core never has one and never gets past the check for it. */
  predicate Settled(s: State, l: Thread) {
    && s.generation > 0 && l.generation <= s.generation && (l.pc.Sync? ==> 0 < l.pc.seen <= s.generation)
    && (s.control == StartEnable ==>
          l.generation < s.generation || (l.stack == None && (l.pc.Idle? || l.pc.Recheck?)))
    && (l.core < 0 ==> l.stack == None && (Entering(l.pc) || l.pc.Recheck?))
    && (l.generation == 0 ==> Entering(l.pc))
  }

  /** The thread has the core that one of its handler steps saw. */
  ghost predicate Mapped(run: seq<Action>, t: nat, core: int) {
    exists i :: 0 <= i < |run| && run[i].Handler? && run[i].thread == t && run[i].world.core == core
  }

  /** Thread t after the run. */
  ghost predicate Follows(threads: nat, run: seq<Action>, t: nat) {
    var s, j := Run(Initial(threads), run), Latest(run, t);
    t < |s.threads| ==>
      && Settled(s, s.threads[t])
      && (s.threads[t].generation > 0 ==> Mapped(run, t, s.threads[t].core))
      && if j < 0 then s.threads[t] == Thread(Idle, 0, At(0, []), 0)
         else InStep(s, s.threads[t], run[j].world, LetGo(threads, run, j))
  }

  /** The stepping thread stays in step with what it sees. */
  lemma OwnStep(s: State, l: Thread, w: World)
    requires OffWhileBusy(s) && Settled(s, l)
    requires l.pc == Idle ==> Outdated(s, l) || Match(l, w)
    requires l.pc != Idle ==> InStep(s, l, w, false)
    ensures var r, l' := Effect(s, l, w), Next(s, l, w);
      && Settled(r, l') && InStep(r, l', w, l.pc == Idle && !s.enabled)
      && (l'.generation > 0 ==> l'.core == w.core || (l.generation > 0 && l'.core == l.core))
  {
    EffectFrame(s, l, w);
    hide Effect;
  }

  /** A thread that does not step. */
  lemma OtherStep(s: State, a: Action, l: Thread, w: World, letGo: bool)
    requires OffWhileBusy(s) && Settled(s, l)
    ensures Settled(Do(s, a), l) && (InStep(s, l, w, letGo) ==> InStep(Do(s, a), l, w, letGo))
  {
    if a.Handler? && a.thread < |s.threads| {
      HandlerFrame(s, a.thread, a.world);
    }
    hide HandlerStep;
  }

  lemma LatestNext(run: seq<Action>, a: Action, t: nat)
    ensures Latest(run + [a], t) == if a.Handler? && a.thread == t then |run| else Latest(run, t)
  {
    assert (run + [a])[..|run|] == run;
  }

  lemma RunNext(threads: nat, run: seq<Action>, a: Action)
    ensures Run(Initial(threads), run + [a]) == Do(Run(Initial(threads), run), a)
    ensures Before(threads, run + [a], |run|) == Run(Initial(threads), run)
    ensures forall k :: 0 <= k < |run| && run[k].Handler? ==>
      (LetGo(threads, run + [a], k) <==> LetGo(threads, run, k))
  {
    hide Do, Initial;
    assert (run + [a])[..|run|] == run;
    assert forall k :: 0 <= k < |run| ==> (run + [a])[..k] == run[..k];
  }

  lemma OtherFollows(threads: nat, run: seq<Action>, a: Action, t: nat)
    requires Follows(threads, run, t) && !(a.Handler? && a.thread == t)
    ensures Follows(threads, run + [a], t)
  {
    var s, j := Run(Initial(threads), run), Latest(run, t);
    RunNext(threads, run, a);
    LatestNext(run, a, t);
    EndingIsOff(threads, run);
    SameThread(s, a, t);
    hide Run, Do, Settled, InStep, LetGo;
    if t < |s.threads| {
      var l := s.threads[t];
      OtherStep(s, a, l, if j < 0 then World(0, [], 0, false) else run[j].world, j >= 0 && LetGo(threads, run, j));
      if l.generation > 0 {
        var i :| 0 <= i < |run| && run[i].Handler? && run[i].thread == t && run[i].world.core == l.core;
        assert (run + [a])[i] == run[i];
      }
    }
  }

  lemma SameThread(s: State, a: Action, t: nat)
    requires !(a.Handler? && a.thread == t)
    ensures |Do(s, a).threads| == |s.threads| && (t < |s.threads| ==> Do(s, a).threads[t] == s.threads[t])
  {
    if a.Handler? && a.thread < |s.threads| {
      HandlerFrame(s, a.thread, a.world);
    }
    hide HandlerStep;
  }

  lemma OwnFollows(threads: nat, run: seq<Action>, t: nat, w: World)
    requires Follows(threads, run, t) && Sees(threads, run, t, w)
    ensures Follows(threads, run + [Handler(t, w)], t)
  {
    var s, j, a := Run(Initial(threads), run), Latest(run, t), Handler(t, w);
    RunNext(threads, run, a);
    LatestNext(run, a, t);
    EndingIsOff(threads, run);
    if t < |s.threads| {
      var l := s.threads[t];
      HandlerFrame(s, t, w);
      InStepNext(threads, run, t, w);
      OwnStep(s, l, w);
      OwnState(s, t, w);
      hide Run, Do, Settled, InStep, LetGo, HandlerStep, Next;
      var l' := Next(s, l, w);
      if l'.generation > 0 {
        if l'.core == w.core {
          assert (run + [a])[|run|] == a;
        } else {
          var i :| 0 <= i < |run| && run[i].Handler? && run[i].thread == t && run[i].world.core == l.core;
          assert (run + [a])[i] == run[i];
        }
      }
      assert LetGo(threads, run + [a], |run|) == (l.pc == Idle && !s.enabled) by {
        LetGoNow(threads, run, t, w);
      }
    }
  }

  lemma LetGoNow(threads: nat, run: seq<Action>, t: nat, w: World)
    ensures var s := Run(Initial(threads), run);
      t < |s.threads| ==> (LetGo(threads, run + [Handler(t, w)], |run|) <==> s.threads[t].pc == Idle && !s.enabled)
  {
    RunNext(threads, run, Handler(t, w));
    hide Run;
  }

  /** Settled and InStep look at what Effect decides only. */
  lemma OwnState(s: State, t: nat, w: World)
    requires t < |s.threads|
    ensures var r, e, l' := HandlerStep(s, t, w), Effect(s, s.threads[t], w), Next(s, s.threads[t], w);
      && (Settled(e, l') ==> Settled(r, l'))
      && forall letGo :: InStep(e, l', w, letGo) ==> InStep(r, l', w, letGo)
  {
    hide Effect, Next;
  }

  /** What a thread sees next fits what it holds. */
  lemma InStepNext(threads: nat, run: seq<Action>, t: nat, w: World)
    requires Follows(threads, run, t) && Sees(threads, run, t, w) && t < |Run(Initial(threads), run).threads|
    ensures var s := Run(Initial(threads), run);
      var l := s.threads[t];
      if l.pc == Idle then Outdated(s, l) || Match(l, w) else InStep(s, l, w, false)
  {
    hide Run, LetGo;
  }

  /** Every thread of a consistent run is in step with what it sees. */
  lemma {:induction false} AlwaysInStep(threads: nat, run: seq<Action>, t: nat)
    requires Consistent(threads, run)
    ensures Follows(threads, run, t)
  {
    hide Run, Do, Follows, Sees;
    if run == [] {
      InitiallyInStep(threads, t);
    } else {
      var pre, a := run[..|run| - 1], run[|run| - 1];
      assert pre + [a] == run;
      assert forall k :: 0 <= k < |pre| ==> pre[..k] == run[..k];
      AlwaysInStep(threads, pre, t);
      if a.Handler? && a.thread == t {
        assert run[..|run| - 1] == pre;
        OwnFollows(threads, pre, t, a.world);
      } else {
        OtherFollows(threads, pre, a, t);
      }
    }
  }

  lemma InitiallyInStep(threads: nat, t: nat)
    ensures Follows(threads, [], t)
  {
  }

  // ----- what is counted

  /** A trapped instruction: its address and the call stack it was trapped on. */
  datatype Trap = Trap(rip: nat, frames: seq<nat>)

  /** The action is the step of a handler that counts its instruction. */
  predicate Commits(s: State, a: Action) {
    a.Handler? && a.thread < |s.threads| && s.threads[a.thread].pc.Committing?
  }

  /** The instructions counted since the arena was last freed, by what the counting actions themselves saw. */
  function Counted(threads: nat, run: seq<Action>): multiset<Trap> {
    if run == [] then multiset{}
    else
      var before, a := run[..|run| - 1], run[|run| - 1];
      var s := Run(Initial(threads), before);
      if Clears(s, a) then multiset{}
      else if Commits(s, a) then Counted(threads, before) + multiset{Trap(a.world.rip, a.world.frames)}
      else Counted(threads, before)
  }

  /** In a consistent run an instruction is counted at its own address, under the index of its own stack, and on a
      thread that some earlier step mapped to a core. */
  lemma CountsItsTrap(threads: nat, run: seq<Action>, t: nat, w: World)
    requires Consistent(threads, run + [Handler(t, w)]) && Commits(Run(Initial(threads), run), Handler(t, w))
    ensures var s := Run(Initial(threads), run);
      var pc := s.threads[t].pc;
      && pc.rip == w.rip && pc.existing.At? && pc.existing.frames == w.frames
      && Do(s, Handler(t, w)).booked == s.booked + multiset{Booking(w.rip, At(pc.existing.offset, w.frames))}
    ensures exists i :: 0 <= i < |run| && run[i].Handler? && run[i].thread == t && run[i].world.core >= 0
  {
    var s := Run(Initial(threads), run);
    hide Run, HandlerStep, Consistent, Initial, Follows, Sees, Settled, LetGo, KeyOf, Count;
    ConsistentPrefix(threads, run, Handler(t, w));
    AlwaysInStep(threads, run, t);
    InStepNext(threads, run, t, w);
    HandlerBooks(s, t, w);
    CommitterIsMapped(threads, run, t);
  }

  lemma CommitterIsMapped(threads: nat, run: seq<Action>, t: nat)
    requires Follows(threads, run, t)
    requires var s := Run(Initial(threads), run); t < |s.threads| && s.threads[t].pc.Committing?
    ensures exists i :: 0 <= i < |run| && run[i].Handler? && run[i].thread == t && run[i].world.core >= 0
  {
    hide Run, LetGo, InStep;
    var l := Run(Initial(threads), run).threads[t];
    var i :| 0 <= i < |run| && run[i].Handler? && run[i].thread == t && run[i].world.core == l.core;
  }

  lemma ConsistentPrefix(threads: nat, run: seq<Action>, a: Action)
    requires Consistent(threads, run + [a])
    ensures Consistent(threads, run)
    ensures a.Handler? ==> Sees(threads, run, a.thread, a.world)
  {
    hide Sees;
    assert (run + [a])[..|run|] == run && (run + [a])[|run|] == a;
    assert forall k :: 0 <= k < |run| ==> (run + [a])[..k] == run[..k];
  }

  /** The traps counted for an address and a stack are the bookings under the stack's offset. */
  ghost predicate Mirrors(s: State, c: multiset<Trap>) {
    forall x :: c[x] ==
      if x.frames in s.stacks then s.booked[Booking(x.rip, At(s.stacks[x.frames], x.frames))] else 0
  }

  lemma NewStackMirrors(s: State, c: multiset<Trap>, frames: seq<nat>)
    requires Mirrors(s, c) && Attributed(s)
    ensures Mirrors(InsertStack(s, frames), c)
  {
    var r := InsertStack(s, frames);
    if frames !in s.stacks {
      forall x: Trap | x.frames == frames
        ensures s.booked[Booking(x.rip, At(s.used, frames))] == 0
      {
        assert !Good(s, At(s.used, frames));
      }
    }
  }

  lemma CommitMirrors(s: State, r: State, c: multiset<Trap>, rip: nat, i: Index)
    requires Mirrors(s, c) && Good(s, i)
    requires r.booked == s.booked + multiset{Booking(rip, i)} && r.stacks == s.stacks
    ensures Mirrors(r, c + multiset{Trap(rip, i.frames)})
  {
  }

  lemma HandlerStacks(s: State, t: nat, w: World)
    requires t < |s.threads|
    ensures var r := HandlerStep(s, t, w);
      r.stacks == (if s.threads[t].pc.Inserting? then InsertStack(s, w.frames) else s).stacks
  {
    HandlerFrame(s, t, w);
    hide Next;
  }

  lemma SameMirrors(s: State, r: State, c: multiset<Trap>)
    requires Mirrors(s, c) && r.booked == s.booked && r.stacks == s.stacks
    ensures Mirrors(r, c)
  {
  }

  lemma InsertBooks(s: State, frames: seq<nat>)
    ensures InsertStack(s, frames).booked == s.booked
  {
  }

  lemma HandlerMirrors(s: State, t: nat, w: World, c: multiset<Trap>)
    requires Mirrors(s, c) && Attributed(s) && t < |s.threads| && !s.threads[t].pc.Committing?
    ensures Mirrors(HandlerStep(s, t, w), c)
  {
    hide HandlerStep, Mirrors, Attributed, InsertStack;
    HandlerBooks(s, t, w);
    HandlerStacks(s, t, w);
    InsertBooks(s, w.frames);
    if s.threads[t].pc.Inserting? {
      NewStackMirrors(s, c, w.frames);
      SameMirrors(InsertStack(s, w.frames), HandlerStep(s, t, w), c);
    } else {
      SameMirrors(s, HandlerStep(s, t, w), c);
    }
  }

  lemma ClearedMirrors(s: State)
    requires s.stacks == map[]
    ensures Mirrors(s, multiset{})
  {
  }

  lemma ControlMirrors(s: State, a: Action, c: multiset<Trap>)
    requires Mirrors(s, c) && !a.Handler?
    ensures Mirrors(Do(s, a), if Clears(s, a) then multiset{} else c)
  {
    hide Mirrors;
    if Clears(s, a) {
      ClearedMirrors(Do(s, a));
    } else {
      SameMirrors(s, Do(s, a), c);
    }
  }

  ghost predicate CleanRun(threads: nat, run: seq<Action>) {
    forall k :: 0 <= k < |run| ==> CleanStart(Run(Initial(threads), run[..k]), run[k])
  }

  lemma CleanPrefix(threads: nat, run: seq<Action>, a: Action)
    requires CleanRun(threads, run + [a])
    ensures CleanRun(threads, run)
  {
    hide CleanStart;
    assert forall k :: 0 <= k < |run| ==> (run + [a])[..k] == run[..k];
  }

  lemma CountedNext(threads: nat, run: seq<Action>, a: Action)
    ensures var s, c := Run(Initial(threads), run), Counted(threads, run);
      Counted(threads, run + [a]) ==
      if Clears(s, a) then multiset{}
      else if Commits(s, a) then c + multiset{Trap(a.world.rip, a.world.frames)} else c
  {
    assert (run + [a])[..|run|] == run;
  }

  lemma {:induction false} RunMirrors(threads: nat, run: seq<Action>)
    requires Consistent(threads, run) && CleanRun(threads, run)
    ensures Mirrors(Run(Initial(threads), run), Counted(threads, run))
  {
    hide Run, Do, Mirrors, Consistent, CleanRun, Counted, Initial;
    if run == [] {
      NothingMirrors(threads);
    } else {
      var pre, a := run[..|run| - 1], run[|run| - 1];
      assert pre + [a] == run;
      ConsistentPrefix(threads, pre, a);
      CleanPrefix(threads, pre, a);
      RunMirrors(threads, pre);
      MirrorsNext(threads, pre, a);
    }
  }

  lemma NothingMirrors(threads: nat)
    ensures Mirrors(Run(Initial(threads), []), Counted(threads, []))
  {
  }

  lemma MirrorsNext(threads: nat, run: seq<Action>, a: Action)
    requires Consistent(threads, run + [a]) && CleanRun(threads, run)
    requires Mirrors(Run(Initial(threads), run), Counted(threads, run))
    ensures Mirrors(Run(Initial(threads), run + [a]), Counted(threads, run + [a]))
  {
    var s, c := Run(Initial(threads), run), Counted(threads, run);
    RunNext(threads, run, a);
    CountedNext(threads, run, a);
    RunIsSound(threads, run);
    hide Run, HandlerStep, ControlStep, Mirrors, Consistent, CleanRun, Counted, Initial, Accounted, Separate;
    if !a.Handler? {
      ControlMirrors(s, a, c);
    } else if Commits(s, a) {
      CountsItsTrap(threads, run, a.thread, a.world);
      CommitsGood(s, a.thread);
      HandlerBooks(s, a.thread, a.world);
      CommitMirrors(s, Do(s, a), c, a.world.rip, s.threads[a.thread].pc.existing);
    } else if a.thread < |s.threads| {
      HandlerMirrors(s, a.thread, a.world, c);
    }
  }

  lemma RunIsSound(threads: nat, run: seq<Action>)
    requires CleanRun(threads, run)
    ensures var s := Run(Initial(threads), run);
      Attributed(s) && Accounted(s) && Separate(s) && (AllSafe(s) || Dormant(s))
  {
    hide Run, CleanStart, Initial;
    RunStaysSound(threads, run);
  }

  /** Over every consistent run in which no capture starts under a handler that carries a stale index: the
      statistics hold a key exactly for the traps counted since the arena was freed, a key's offset is that of the
      stack its instructions were trapped on, and its count is how many there were. */
  lemma StatisticsAreTraps(threads: nat, run: seq<Action>)
    requires Consistent(threads, run) && CleanRun(threads, run)
    ensures var s, c := Run(Initial(threads), run), Counted(threads, run);
      && (forall x :: x in c ==>
            && x.frames in s.stacks && Key(x.rip, s.stacks[x.frames]) in s.stats
            && s.stats[Key(x.rip, s.stacks[x.frames])] == c[x])
      && (forall k :: k in s.stats ==>
            exists x :: x in c && x.rip == k.rip && x.frames in s.stacks && s.stacks[x.frames] == k.offset)
  {
    var s, c := Run(Initial(threads), run), Counted(threads, run);
    RunMirrors(threads, run);
    RunIsSound(threads, run);
    hide Run, Counted, Consistent, CleanRun;
    forall x | x in c
      ensures x.frames in s.stacks && Key(x.rip, s.stacks[x.frames]) in s.stats
      ensures s.stats[Key(x.rip, s.stacks[x.frames])] == c[x]
    {
      assert Tallied(s, Booking(x.rip, At(s.stacks[x.frames], x.frames)));
    }
    forall k | k in s.stats
      ensures exists x :: x in c && x.rip == k.rip && x.frames in s.stacks && s.stacks[x.frames] == k.offset
    {
      assert Explained(s, k);
      var f :| CountedUnder(s, k, f);
      assert Good(s, At(k.offset, f));
      assert Trap(k.rip, f) in c;
    }
  }

  // ----- a trap that nothing disturbs

  /** n steps of one handler. */
  function Alone(s: State, t: nat, w: World, n: nat): (r: State)
    requires t < |s.threads|
    ensures |r.threads| == |s.threads|
  {
    if n == 0 then s else HandlerStep(Alone(s, t, w, n - 1), t, w)
  }

  lemma {:induction false} AlonePlus(s: State, t: nat, w: World, m: nat, n: nat)
    requires t < |s.threads|
    ensures Alone(s, t, w, m + n) == Alone(Alone(s, t, w, m), t, w, n)
  {
    hide HandlerStep;
    if n > 0 {
      AlonePlus(s, t, w, m, n - 1);
    }
  }

  lemma ThreeSteps(s: State, t: nat, w: World)
    requires t < |s.threads|
    ensures Alone(s, t, w, 3) == HandlerStep(HandlerStep(HandlerStep(s, t, w), t, w), t, w)
  {
    hide HandlerStep;
    assert Alone(s, t, w, 0) == s;
    assert Alone(s, t, w, 1) == HandlerStep(s, t, w);
    assert Alone(s, t, w, 2) == HandlerStep(HandlerStep(s, t, w), t, w);
  }

  /** The state with thread t replaced. */
  function With(s: State, t: nat, l: Thread): State
    requires t < |s.threads|
  {
    s.(threads := s.threads[t := l])
  }

  /** The handler has a core and no index that the stack it sees does not have. */
  ghost predicate Ready(s: State, l: Thread, w: World) {
    && (if l.generation == s.generation then l.core else w.core) >= 0
    && (l.generation == s.generation && l.stack.At? ==> Good(s, l.stack) && l.stack.frames == w.frames)
  }

  lemma EnterAlone(s: State, t: nat, w: World)
    requires t < |s.threads| && s.enabled && s.threads[t].pc == Idle && Ready(s, s.threads[t], w)
    ensures var r := Alone(s, t, w, 3);
      var l := r.threads[t];
      && r == With(s, t, l) && l.pc == Recheck && l.core >= 0
      && (l.stack.At? ==> Good(r, l.stack) && l.stack.frames == w.frames)
  {
    ThreeSteps(s, t, w);
    var l := s.threads[t];
    var s1 := HandlerStep(s, t, w);
    assert s1 == With(s, t, l.(pc := ReadGeneration));
    var s2 := HandlerStep(s1, t, w);
    assert s2 == With(s, t, l.(pc := Sync(s.generation)));
    hide Alone;
  }

  lemma RecheckStep(s: State, t: nat, w: World)
    requires t < |s.threads| && s.enabled && s.threads[t].pc == Recheck && s.threads[t].core >= 0
    ensures var l := s.threads[t];
      HandlerStep(s, t, w) == With(s, t, l.(pc := if l.stack == None then WantInsert else Generate))
    ensures Alone(s, t, w, 1) == HandlerStep(s, t, w)
  {
    assert Alone(s, t, w, 0) == s;
  }

  lemma IndexAlone(s: State, t: nat, w: World) returns (n: nat)
    requires t < |s.threads| && s.enabled && !s.lock && s.threads[t].pc == Recheck && s.threads[t].core >= 0
    requires s.threads[t].stack.At? ==> Good(s, s.threads[t].stack) && s.threads[t].stack.frames == w.frames
    ensures var r := Alone(s, t, w, n);
      var l := r.threads[t];
      && l.pc == Generate && l.stack.At? && Good(r, l.stack) && l.stack.frames == w.frames
      && r.enabled && !r.lock && r.booked == s.booked && r.stats == s.stats
  {
    hide HandlerStep, Alone;
    RecheckStep(s, t, w);
    if s.threads[t].stack.At? {
      n := 1;
    } else {
      n := 4;
      var s1 := HandlerStep(s, t, w);
      AlonePlus(s, t, w, 1, 3);
      ThreeSteps(s1, t, w);
      hide Good;
      InsertAlone(s1, t, w);
    }
  }

  lemma InsertAlone(s: State, t: nat, w: World)
    requires t < |s.threads| && s.enabled && !s.lock && s.threads[t].pc == WantInsert
    ensures var r := HandlerStep(HandlerStep(HandlerStep(s, t, w), t, w), t, w);
      var l := r.threads[t];
      && l.pc == Generate && l.stack.At? && Good(r, l.stack) && l.stack.frames == w.frames
      && r.enabled && !r.lock && r.booked == s.booked && r.stats == s.stats
  {
    var s1 := HandlerStep(s, t, w);
    var s2 := HandlerStep(s1, t, w);
    InsertKeepsGood(s1, w.frames, None);
    HandlerFrame(s, t, w);
    HandlerFrame(s1, t, w);
    HandlerFrame(s2, t, w);
    HandlerLock(s, t, w);
    HandlerLock(s1, t, w);
    HandlerLock(s2, t, w);
    HandlerStacks(s1, t, w);
    hide HandlerStep, InsertStack;
  }

  lemma LockAlone(s: State, t: nat, w: World)
    requires t < |s.threads| && s.enabled && !s.lock && s.threads[t].pc == Generate
    ensures var i, r := s.threads[t].stack, Alone(s, t, w, 3);
      && r.threads[t].pc == Committing(w.rip, i) && r.lock
      && r.stacks == s.stacks && r.booked == s.booked && r.stats == s.stats
  {
    var l := s.threads[t];
    var kept := l.(stack := if w.callOrReturn then None else l.stack);
    var s1 := HandlerStep(s, t, w);
    assert s1 == With(s, t, kept.(pc := WantCommit(w.rip, l.stack)));
    var s2 := HandlerStep(s1, t, w);
    assert s2 == With(s, t, kept.(pc := Locked(w.rip, l.stack))).(lock := true);
    ThreeSteps(s, t, w);
    hide Alone;
  }

  lemma CommitAlone(s: State, t: nat, w: World)
    requires t < |s.threads| && s.threads[t].pc.Committing?
    ensures var b, r := Booking(s.threads[t].pc.rip, s.threads[t].pc.existing), Alone(s, t, w, 2);
      && r.threads[t].pc == Idle && !r.lock && r.stacks == s.stacks
      && r.booked == s.booked + multiset{b} && r.stats == Count(s.stats, KeyOf(b))
  {
    hide Count, KeyOf;
    assert Alone(s, t, w, 0) == s;
    var s1 := Alone(s, t, w, 1);
    HandlerBooks(s, t, w);
    HandlerFrame(s, t, w);
    assert s1.threads[t].pc == CommitDone;
    HandlerBooks(s1, t, w);
    HandlerFrame(s1, t, w);
    hide Next;
  }

  lemma CountAlone(s: State, t: nat, w: World)
    requires t < |s.threads| && s.enabled && !s.lock && s.threads[t].pc == Generate
    ensures var b, r := Booking(w.rip, s.threads[t].stack), Alone(s, t, w, 5);
      && r.threads[t].pc == Idle && !r.lock && r.stacks == s.stacks
      && r.booked == s.booked + multiset{b} && r.stats == Count(s.stats, KeyOf(b))
  {
    hide Alone, Count, KeyOf;
    LockAlone(s, t, w);
    CommitAlone(Alone(s, t, w, 3), t, w);
    AlonePlus(s, t, w, 3, 2);
  }

  /** A trap on a thread with a core, while tracing is on and nothing else runs, counts its instruction exactly
      once, under the stack it sees, and leaves the lock free. */
  lemma TrapCountsOnce(s: State, t: nat, w: World) returns (n: nat)
    requires t < |s.threads| && s.enabled && !s.lock && s.threads[t].pc == Idle && Ready(s, s.threads[t], w)
    ensures var r := Alone(s, t, w, n);
      && r.threads[t].pc == Idle && !r.lock && w.frames in r.stacks
      && r.booked == s.booked + multiset{Booking(w.rip, At(r.stacks[w.frames], w.frames))}
      && r.stats == Count(s.stats, Key(w.rip, r.stacks[w.frames]))
  {
    hide Alone, HandlerStep, Count;
    EnterAlone(s, t, w);
    var s1 := Alone(s, t, w, 3);
    var k := IndexAlone(s1, t, w);
    AlonePlus(s, t, w, 3, k);
    CountAlone(Alone(s1, t, w, k), t, w);
    AlonePlus(s, t, w, 3 + k, 5);
    n := 3 + k + 5;
  }
}
