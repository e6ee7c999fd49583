/** Trap handlers on any number of threads, interleaved step by step with the calls that start and end
    a capture.  One step reads or writes one shared variable, or works inside the spin lock. */
module CaptureProtocol {

  /** The index of a call stack in the recorded data; None is the "recompute me" value.  An index is an
      offset; the frames say which stack it was handed out for, and no step looks at them. */
  datatype Index = None | At(offset: nat, frames: seq<nat>)

  /** Where a thread is in its trap handler.  From `Inserting` to `InsertDone` and from `Locked` to
      `CommitDone` it holds the spin lock. */
  datatype Pc =
    | Idle
    | ReadGeneration
    | Sync(seen: nat)
    | Recheck
    | WantInsert
    | Inserting
    | InsertDone
    | Generate
    | WantCommit(rip: nat, existing: Index)
    | Locked(rip: nat, existing: Index)
    | Committing(rip: nat, existing: Index)
    | CommitDone

  /** A thread: its place in the handler and its thread-local state. */
  datatype Thread = Thread(pc: Pc, generation: nat, stack: Index, core: int)

  /** Where the controlling thread is in CacheSimStartCapture or CacheSimEndCapture.  In `Ending` and
      `EndDone` it holds the spin lock. */
  datatype Control = Ready | WantEnd | Ending | EndDone | StartGeneration | StartEnable

  datatype Key = Key(rip: nat, offset: nat)

  /** One counted instruction and the index it was counted under. */
  datatype Booking = Booking(rip: nat, index: Index)

  function KeyOf(b: Booking): Key {
    Key(b.rip, if b.index.At? then b.index.offset else 0xffff_ffff)
  }

  /** `booked` lists what `stats` counts; no step looks at it. */
  datatype State = State(
    enabled: bool,
    generation: nat,
    lock: bool,
    stats: map<Key, nat>,
    booked: multiset<Booking>,
    stacks: map<seq<nat>, nat>,
    used: nat,
    control: Control,
    threads: seq<Thread>)

  /** What the world feeds a handler step: the instruction address, the frames of the call stack, the
      core the thread is mapped to, and whether the instruction is a call or a return. */
  datatype World = World(rip: nat, frames: seq<nat>, core: int, callOrReturn: bool)

  datatype Action =
    | Handler(thread: nat, world: World)
    | Start
    | End(save: bool)
    | Continue

  function Initial(threads: nat): State {
    State(false, 1, false, map[], multiset{}, map[], 0, Ready, seq(threads, _ => Thread(Idle, 0, At(0, []), 0)))
  }

  /** The stack's offset: the one on record, or the end of the arena. */
  function OffsetOf(s: State, frames: seq<nat>): nat {
    if frames in s.stacks then s.stacks[frames] else s.used
  }

  function InsertStack(s: State, frames: seq<nat>): State {
    if frames in s.stacks then s
    else s.(stacks := s.stacks[frames := s.used], used := s.used + |frames| + 1)
  }

  /** One more instruction counted for the key. */
  function Count(stats: map<Key, nat>, k: Key): map<Key, nat> {
    stats[k := (if k in stats then stats[k] else 0) + 1]
  }

  /** What one handler step of a thread l does to the shared variables. */
  function Effect(s: State, l: Thread, w: World): State {
    match l.pc
    case WantInsert => s.(lock := true)
    case Inserting => InsertStack(s, w.frames)
    case InsertDone => s.(lock := false)
    case WantCommit(_, _) => s.(lock := true)
    case Committing(rip, existing) =>
      var b := Booking(rip, existing);
      s.(stats := Count(s.stats, KeyOf(b)), booked := s.booked + multiset{b})
    case CommitDone => s.(lock := false)
    case _ => s
  }

  /** What the same step does to the thread itself.  A thread that wants the lock while it is taken
      spins. */
  function Next(s: State, l: Thread, w: World): Thread {
    match l.pc
    case Idle => if s.enabled then l.(pc := ReadGeneration) else l
    case ReadGeneration => l.(pc := Sync(s.generation))
    case Sync(seen) =>
      if l.generation != seen then l.(pc := Recheck, generation := seen, stack := None, core := w.core)
      else l.(pc := Recheck)
    case Recheck =>
      if s.enabled && l.core >= 0 then l.(pc := if l.stack == None then WantInsert else Generate)
      else l.(pc := Idle)
    case WantInsert => if s.lock then l else l.(pc := Inserting)
    case Inserting => l.(pc := InsertDone, stack := At(OffsetOf(s, w.frames), w.frames))
    case InsertDone => l.(pc := Generate)
    case Generate => l.(pc := WantCommit(w.rip, l.stack), stack := if w.callOrReturn then None else l.stack)
    case WantCommit(rip, existing) => if s.lock then l else l.(pc := Locked(rip, existing))
    case Locked(rip, existing) => l.(pc := if s.enabled then Committing(rip, existing) else CommitDone)
    case Committing(_, _) => l.(pc := CommitDone)
    case CommitDone => l.(pc := Idle)
  }

  /** One step of thread t's trap handler. */
  function HandlerStep(s: State, t: nat, w: World): State
    requires t < |s.threads|
  {
    Effect(s, s.threads[t], w).(threads := s.threads[t := Next(s, s.threads[t], w)])
  }

  /** One step of the controlling thread. */
  function ControlStep(s: State): State {
    match s.control
    case Ready => s
    case WantEnd => if s.lock then s else s.(lock := true, control := Ending)
    case Ending => s.(stats := map[], booked := multiset{}, stacks := map[], used := 0, control := EndDone)
    case EndDone => s.(lock := false, control := Ready)
    case StartGeneration => s.(generation := s.generation + 1, control := StartEnable)
    case StartEnable => s.(enabled := true, control := Ready)
  }

  function Do(s: State, a: Action): State {
    match a
    case Handler(t, w) => if t < |s.threads| then HandlerStep(s, t, w) else s
    case Start => if s.control == Ready && !s.enabled then s.(control := StartGeneration) else s
    case End(save) =>
      if s.control == Ready then s.(enabled := false, control := if save then WantEnd else Ready) else s
    case Continue => ControlStep(s)
  }

  function Run(s: State, run: seq<Action>): State {
    if run == [] then s else Do(Run(s, run[..|run| - 1]), run[|run| - 1])
  }

  // ----- mutual exclusion

  predicate HoldsLock(pc: Pc) {
    pc.Inserting? || pc.InsertDone? || pc.Locked? || pc.Committing? || pc.CommitDone?
  }

  predicate ControlHoldsLock(c: Control) {
    c == Ending || c == EndDone
  }

  /** The lock word is set exactly when someone is inside, and there is room for one only. */
  ghost predicate Exclusive(s: State) {
    && (forall t :: 0 <= t < |s.threads| && HoldsLock(s.threads[t].pc) ==> s.lock && !ControlHoldsLock(s.control))
    && (forall t, u :: 0 <= t < u < |s.threads| ==> !(HoldsLock(s.threads[t].pc) && HoldsLock(s.threads[u].pc)))
    && (ControlHoldsLock(s.control) ==> s.lock)
    && (s.lock ==> ControlHoldsLock(s.control) || exists t :: 0 <= t < |s.threads| && HoldsLock(s.threads[t].pc))
  }

  lemma EffectFrame(s: State, l: Thread, w: World)
    ensures var r := Effect(s, l, w);
      && r.enabled == s.enabled && r.generation == s.generation && r.control == s.control
      && (l.pc.Committing? || (r.stats == s.stats && r.booked == s.booked))
      && (l.pc.Inserting? || r.stacks == s.stacks)
  {
    hide Count, KeyOf, InsertStack;
    InsertFrame(s, w.frames);
    match l.pc
    case Inserting =>
    case Committing(rip, existing) =>
    case _ =>
  }

  lemma InsertFrame(s: State, frames: seq<nat>)
    ensures var r := InsertStack(s, frames);
      && r.enabled == s.enabled && r.generation == s.generation && r.control == s.control
      && r.stats == s.stats && r.booked == s.booked
  {
  }

  /** What a handler step leaves alone. */
  lemma HandlerFrame(s: State, t: nat, w: World)
    requires t < |s.threads|
    ensures var r := HandlerStep(s, t, w);
      && r.enabled == s.enabled && r.generation == s.generation && r.control == s.control
      && r.threads == s.threads[t := Next(s, s.threads[t], w)]
      && (s.threads[t].pc.Committing? || (r.stats == s.stats && r.booked == s.booked))
      && (s.threads[t].pc.Inserting? || r.stacks == s.stacks)
  {
    hide Effect, Next;
    EffectFrame(s, s.threads[t], w);
  }

  /** When a handler step takes and releases the lock. */
  lemma HandlerLock(s: State, t: nat, w: World)
    requires t < |s.threads|
    ensures var r, l, l' := HandlerStep(s, t, w), s.threads[t], Next(s, s.threads[t], w);
      && (HoldsLock(l.pc) == HoldsLock(l'.pc) ==> r.lock == s.lock)
      && (!HoldsLock(l.pc) && HoldsLock(l'.pc) ==> !s.lock && r.lock)
      && (HoldsLock(l.pc) && !HoldsLock(l'.pc) ==> !r.lock)
  {
  }

  lemma HandlerStaysExclusive(s: State, t: nat, w: World)
    requires Exclusive(s) && t < |s.threads|
    ensures Exclusive(HandlerStep(s, t, w))
  {
    var r := HandlerStep(s, t, w);
    HandlerFrame(s, t, w);
    HandlerLock(s, t, w);
    hide HandlerStep, HoldsLock, Next;
    if s.lock && !ControlHoldsLock(s.control) {
      var u :| 0 <= u < |s.threads| && HoldsLock(s.threads[u].pc);
      assert r.lock ==> HoldsLock(r.threads[u].pc);
    }
    assert r.lock && !s.lock ==> HoldsLock(r.threads[t].pc);
  }

  lemma StepStaysExclusive(s: State, a: Action)
    requires Exclusive(s)
    ensures Exclusive(Do(s, a))
  {
    hide HandlerStep, HoldsLock;
    if a.Handler? && a.thread < |s.threads| {
      HandlerStaysExclusive(s, a.thread, a.world);
    } else {
      var s' := Do(s, a);
      assert s'.threads == s.threads;
      if s.lock && !ControlHoldsLock(s.control) {
        var u :| 0 <= u < |s.threads| && HoldsLock(s.threads[u].pc);
        assert HoldsLock(s'.threads[u].pc);
      }
    }
  }

  /** In every run of handlers and capture control at most one of them is inside the spin lock. */
  lemma {:induction false} MutualExclusion(threads: nat, run: seq<Action>)
    ensures Exclusive(Run(Initial(threads), run))
  {
    if run != [] {
      MutualExclusion(threads, run[..|run| - 1]);
      StepStaysExclusive(Run(Initial(threads), run[..|run| - 1]), run[|run| - 1]);
    }
  }

  // ----- quiescence

  /** Tracing is off, and no handler is past its check that it is on. */
  ghost predicate Sealed(s: State) {
    !s.enabled && forall t :: 0 <= t < |s.threads| ==> !s.threads[t].pc.Committing?
  }

  /** No step of the run from s turns tracing on. */
  ghost predicate NeverEnables(s: State, run: seq<Action>) {
    forall k :: 0 <= k < |run| ==> !(run[k] == Continue && Run(s, run[..k]).control == StartEnable)
  }

  lemma StepStaysSealed(s: State, a: Action)
    requires Sealed(s) && !(a == Continue && s.control == StartEnable)
    ensures Sealed(Do(s, a))
  {
  }

  lemma {:induction false} StaysSealed(s: State, run: seq<Action>)
    requires Sealed(s) && NeverEnables(s, run)
    ensures Sealed(Run(s, run))
  {
    hide Do, Sealed;
    if run != [] {
      var n := |run| - 1;
      assert forall k :: 0 <= k < n ==> run[..n][..k] == run[..k];
      StaysSealed(s, run[..n]);
      StepStaysSealed(Run(s, run[..n]), run[n]);
    }
  }

  ghost predicate OffWhileBusy(s: State) {
    s.control != Ready ==> !s.enabled
  }

  lemma StepStaysOff(s: State, a: Action)
    requires OffWhileBusy(s)
    ensures OffWhileBusy(Do(s, a))
  {
    if a.Handler? && a.thread < |s.threads| {
      HandlerFrame(s, a.thread, a.world);
    }
    hide HandlerStep;
  }

  lemma {:induction false} EndingIsOff(threads: nat, run: seq<Action>)
    ensures OffWhileBusy(Run(Initial(threads), run))
  {
    hide Do;
    if run != [] {
      EndingIsOff(threads, run[..|run| - 1]);
      StepStaysOff(Run(Initial(threads), run[..|run| - 1]), run[|run| - 1]);
    }
  }

  /** From the moment CacheSimEndCapture holds the lock until tracing is turned on again, no handler
      step, in any interleaving, changes the statistics. */
  lemma Quiescence(threads: nat, before: seq<Action>, after: seq<Action>, t: nat, w: World)
    requires Run(Initial(threads), before).control == Ending
    requires NeverEnables(Run(Initial(threads), before), after)
    ensures var s := Run(Run(Initial(threads), before), after);
      Do(s, Handler(t, w)).stats == s.stats
  {
    MutualExclusion(threads, before);
    EndingIsOff(threads, before);
    StaysSealed(Run(Initial(threads), before), after);
    var s := Run(Run(Initial(threads), before), after);
    if t < |s.threads| {
      HandlerFrame(s, t, w);
    }
    hide Run, HandlerStep;
  }

  // ----- what the end of a capture does

  /** An end without saving turns tracing off and does nothing else. */
  lemma UnsavedEndKeeps(s: State)
    requires s.control == Ready
    ensures Do(s, End(false)) == s.(enabled := false)
  {
  }

  /** A saved end turns tracing off at once.  It waits for the lock; once it has it, two steps later the
      statistics and the stacks are gone, the lock is free, and nothing else has changed. */
  lemma SavedEndClears(s: State)
    requires s.control == Ready
    ensures var e := Do(s, End(true));
      && e.control != Ready && e == s.(enabled := false, control := e.control)
      && (e.lock ==> Do(e, Continue) == e)
      && (!e.lock ==>
            Run(e, [Continue, Continue, Continue]) ==
            s.(enabled := false, stats := map[], booked := multiset{}, stacks := map[], used := 0, control := Ready))
  {
    var e := Do(s, End(true));
    assert [Continue, Continue, Continue][..2] == [Continue, Continue];
    assert [Continue, Continue][..1] == [Continue] && [Continue][..0] == [];
    assert Run(e, [Continue]) == Do(e, Continue);
  }

  /** A start while tracing is off takes two more steps to turn it on, under a new generation; while tracing
      is on it does nothing. */
  lemma StartEnables(s: State)
    requires s.control == Ready
    ensures s.enabled ==> Do(s, Start) == s
    ensures !s.enabled ==>
      Run(s, [Start, Continue, Continue]) == s.(enabled := true, generation := s.generation + 1)
  {
    assert [Start, Continue, Continue][..2] == [Start, Continue];
    assert [Start, Continue][..1] == [Start] && [Start][..0] == [];
    assert Run(s, [Start]) == Do(s, Start);
  }
}
