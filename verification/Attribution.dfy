/** Whether what a capture counts is counted under the stack it was recorded for: always, unless a handler
    carries an index from before the arena was freed into the next capture. */
module Attribution {
  import opened CaptureProtocol

  // ----- what can go wrong with an index

  /** The stack is on record, at the offset it was handed out at. */
  ghost predicate Good(s: State, i: Index) {
    i.At? && i.frames in s.stacks && s.stacks[i.frames] == i.offset
  }

  /** Everything counted is counted under a stack that is on record at that offset. */
  ghost predicate Attributed(s: State) {
    forall b :: b in s.booked ==> Good(s, b.index)
  }

  /** The index with which the handler, where it is now, will count its instruction; None if it will look up
      the stack first or not count at all. */
  function Carried(l: Thread): Index {
    match l.pc
    case Sync(seen) => if l.generation == seen && l.core >= 0 then l.stack else None
    case Recheck => if l.core >= 0 then l.stack else None
    case InsertDone => l.stack
    case Generate => l.stack
    case WantCommit(_, existing) => existing
    case Locked(_, existing) => existing
    case Committing(_, existing) => existing
    case _ => None
  }

  ghost predicate HoldsStale(s: State, l: Thread) {
    Carried(l).At? && !Good(s, Carried(l))
  }

  /** The thread has seen no generation of the future, and past the lookup it has an index. */
  ghost predicate Grounded(s: State, l: Thread) {
    && l.generation <= s.generation
    && (l.pc.Sync? ==> l.pc.seen <= s.generation)
    && (l.pc.InsertDone? || l.pc.Generate? ==> l.stack.At?)
    && (l.pc.WantCommit? || l.pc.Locked? || l.pc.Committing? ==> l.pc.existing.At?)
  }

  /** Neither what the thread carries nor what it would keep for its next trap is stale. */
  ghost predicate Safe(s: State, l: Thread) {
    && Grounded(s, l) && !HoldsStale(s, l)
    && (l.generation == s.generation && l.stack.At? ==> Good(s, l.stack))
  }

  ghost predicate AllGrounded(s: State) {
    forall t :: 0 <= t < |s.threads| ==> Grounded(s, s.threads[t])
  }

  ghost predicate AllSafe(s: State) {
    forall t :: 0 <= t < |s.threads| ==> Safe(s, s.threads[t])
  }

  /** The step frees the arena. */
  predicate Clears(s: State, a: Action) {
    a == Continue && s.control == Ending
  }

  /** No step of the run from s frees the arena. */
  ghost predicate NoClear(s: State, run: seq<Action>) {
    forall k :: 0 <= k < |run| ==> !Clears(Run(s, run[..k]), run[k])
  }

  // ----- one step

  lemma InsertKeepsGood(s: State, frames: seq<nat>, i: Index)
    ensures Good(s, i) ==> Good(InsertStack(s, frames), i)
    ensures Good(InsertStack(s, frames), At(OffsetOf(s, frames), frames))
  {
  }

  lemma HandlerKeepsGood(s: State, t: nat, w: World, i: Index)
    requires t < |s.threads| && Good(s, i)
    ensures Good(HandlerStep(s, t, w), i)
  {
    InsertKeepsGood(s, w.frames, i);
    HandlerFrame(s, t, w);
    hide Next;
  }

  lemma OwnStaysGrounded(s: State, t: nat, w: World)
    requires t < |s.threads| && Grounded(s, s.threads[t])
    ensures Grounded(HandlerStep(s, t, w), Next(s, s.threads[t], w))
  {
    HandlerFrame(s, t, w);
    hide HandlerStep;
  }

  /** The stepping thread. */
  lemma OwnStaysSafe(s: State, t: nat, w: World)
    requires t < |s.threads| && Safe(s, s.threads[t])
    ensures Safe(HandlerStep(s, t, w), Next(s, s.threads[t], w))
  {
    var l, r := s.threads[t], HandlerStep(s, t, w);
    HandlerFrame(s, t, w);
    OwnStaysGrounded(s, t, w);
    forall i | Good(s, i)
      ensures Good(r, i)
    {
      HandlerKeepsGood(s, t, w, i);
    }
    if l.pc.Inserting? {
      InsertKeepsGood(s, w.frames, None);
    }
    hide Good, HandlerStep, Grounded;
  }

  /** A thread that does not step. */
  lemma OtherStaysSafe(s: State, r: State, l: Thread)
    requires r.generation == s.generation || (r.generation == s.generation + 1 && Grounded(s, l))
    requires forall i :: Good(s, i) ==> Good(r, i)
    ensures Grounded(s, l) ==> Grounded(r, l)
    ensures Safe(s, l) ==> Safe(r, l)
  {
    hide Good;
  }

  lemma HandlerStaysSafe(s: State, t: nat, w: World)
    requires AllSafe(s) && t < |s.threads|
    ensures AllSafe(HandlerStep(s, t, w))
  {
    var r := HandlerStep(s, t, w);
    HandlerFrame(s, t, w);
    hide HandlerStep, Safe, Good;
    assert Safe(s, s.threads[t]);
    OwnStaysSafe(s, t, w);
    forall i | Good(s, i)
      ensures Good(r, i)
    {
      HandlerKeepsGood(s, t, w, i);
    }
    forall u | 0 <= u < |s.threads| && u != t
      ensures Safe(r, r.threads[u])
    {
      OtherStaysSafe(s, r, s.threads[u]);
    }
  }

  lemma StepStaysSafe(s: State, a: Action)
    requires AllSafe(s) && !Clears(s, a)
    ensures AllSafe(Do(s, a))
  {
    hide HandlerStep, Safe;
    var r := Do(s, a);
    if a.Handler? {
      if a.thread < |s.threads| {
        HandlerStaysSafe(s, a.thread, a.world);
      }
    } else {
      forall t | 0 <= t < |s.threads|
        ensures Safe(r, r.threads[t])
      {
        ControlKeepsSafe(s, a, s.threads[t]);
      }
    }
  }

  lemma ControlKeepsSafe(s: State, a: Action, l: Thread)
    requires !a.Handler? && !Clears(s, a) && Safe(s, l)
    ensures Safe(Do(s, a), l)
  {
    OtherStaysSafe(s, Do(s, a), l);
  }

  lemma StepStaysGrounded(s: State, a: Action)
    requires AllGrounded(s)
    ensures AllGrounded(Do(s, a))
  {
    hide HandlerStep, Grounded;
    var r := Do(s, a);
    if a.Handler? {
      if a.thread < |s.threads| {
        HandlerFrame(s, a.thread, a.world);
        OwnStaysGrounded(s, a.thread, a.world);
        forall u | 0 <= u < |s.threads| && u != a.thread
          ensures Grounded(r, r.threads[u])
        {
          SameGeneration(s, r, s.threads[u]);
        }
      }
    } else {
      forall t | 0 <= t < |s.threads|
        ensures Grounded(r, r.threads[t])
      {
        SameGeneration(s, r, s.threads[t]);
      }
    }
  }

  lemma SameGeneration(s: State, r: State, l: Thread)
    requires Grounded(s, l) && r.generation >= s.generation
    ensures Grounded(r, l)
  {
  }

  /** What a step books: nothing, or what the stepping handler carries. */
  lemma HandlerBooks(s: State, t: nat, w: World)
    requires t < |s.threads|
    ensures var r, pc := HandlerStep(s, t, w), s.threads[t].pc;
      if pc.Committing? then
        var b := Booking(pc.rip, pc.existing);
        r.booked == s.booked + multiset{b} && r.stats == Count(s.stats, KeyOf(b)) && r.stacks == s.stacks
      else r.booked == s.booked && r.stats == s.stats
  {
    hide Next, Count, KeyOf;
  }

  lemma StepStaysAttributed(s: State, a: Action)
    requires AllSafe(s) && Attributed(s) && !Clears(s, a)
    ensures Attributed(Do(s, a))
  {
    if a.Handler? && a.thread < |s.threads| {
      var r := HandlerStep(s, a.thread, a.world);
      HandlerBooks(s, a.thread, a.world);
      assert Safe(s, s.threads[a.thread]);
      forall b | b in r.booked
        ensures Good(r, b.index)
      {
        assert Good(s, b.index);
        HandlerKeepsGood(s, a.thread, a.world, b.index);
      }
    }
    hide HandlerStep;
  }

  /** From a safe state on nothing is counted under the wrong stack, until the arena is freed. */
  lemma {:induction false} SafeStaysAttributed(s: State, run: seq<Action>)
    requires AllSafe(s) && Attributed(s) && NoClear(s, run)
    ensures AllSafe(Run(s, run)) && Attributed(Run(s, run))
  {
    hide Do, AllSafe, Attributed, Clears;
    if run != [] {
      var n := |run| - 1;
      assert forall k :: 0 <= k < n ==> run[..n][..k] == run[..k];
      SafeStaysAttributed(s, run[..n]);
      StepStaysSafe(Run(s, run[..n]), run[n]);
      StepStaysAttributed(Run(s, run[..n]), run[n]);
    }
  }

  // ----- from a stale index to a wrong booking

  lemma {:induction false} RunConcat(s: State, a: seq<Action>, b: seq<Action>)
    ensures Run(s, a + b) == Run(Run(s, a), b)
  {
    hide Do;
    if b == [] {
      assert a + b == a;
    } else {
      assert (a + b)[..|a + b| - 1] == a + b[..|b| - 1];
      RunConcat(s, a, b[..|b| - 1]);
    }
  }

  lemma RunOne(s: State, a: Action)
    ensures Run(s, [a]) == Do(s, a)
  {
    assert [a][..0] == [];
  }

  lemma RunNothing(s: State)
    ensures Run(s, []) == s
  {
  }

  ghost predicate OnlyHandlers(run: seq<Action>) {
    forall k :: 0 <= k < |run| ==> run[k].Handler?
  }

  /** Tracing is on, no call to start or end a capture is in progress, and thread t holds a stale index. */
  ghost predicate Doomed(s: State, t: nat) {
    && Exclusive(s) && s.enabled && s.control == Ready
    && t < |s.threads| && HoldsStale(s, s.threads[t])
  }

  /** How many steps a thread in the lock needs to leave it. */
  function ToLeave(pc: Pc): nat {
    match pc
    case Inserting => 2
    case InsertDone => 1
    case Locked(_, _) => 3
    case Committing(_, _) => 2
    case CommitDone => 1
    case _ => 0
  }

  /** Frames that are not those of the index. */
  function OtherFrames(i: Index): seq<nat> {
    if i.At? then i.frames + [0] else []
  }

  /** A step of another thread, which records no stack that would make t's index good. */
  lemma OtherStepStaysDoomed(s: State, t: nat, u: nat)
    requires Doomed(s, t) && u < |s.threads| && u != t
    ensures var w := World(0, OtherFrames(Carried(s.threads[t])), 0, false);
      var r := HandlerStep(s, u, w);
      && Doomed(r, t) && r.threads[t] == s.threads[t]
      && r.threads[u] == Next(s, s.threads[u], w)
  {
    var i := Carried(s.threads[t]);
    var w := World(0, OtherFrames(i), 0, false);
    StepStaysExclusive(s, Handler(u, w));
    HandlerFrame(s, u, w);
    if s.threads[u].pc.Inserting? {
      assert w.frames != i.frames;
      assert HandlerStep(s, u, w).stacks == InsertStack(s, w.frames).stacks;
    }
    hide HandlerStep, Exclusive, Next;
  }

  /** Thread u leaves the lock while t waits. */
  lemma {:induction false} FreeLock(s: State, t: nat, u: nat) returns (run: seq<Action>)
    requires Doomed(s, t) && u < |s.threads| && u != t && HoldsLock(s.threads[u].pc)
    ensures OnlyHandlers(run)
    ensures Doomed(Run(s, run), t) && !Run(s, run).lock && Run(s, run).threads[t] == s.threads[t]
    decreases ToLeave(s.threads[u].pc)
  {
    var w := World(0, OtherFrames(Carried(s.threads[t])), 0, false);
    var r := HandlerStep(s, u, w);
    OtherStepStaysDoomed(s, t, u);
    HandlerLock(s, u, w);
    RunOne(s, Handler(u, w));
    LeavingSteps(s, s.threads[u], w);
    hide HandlerStep, Doomed, HoldsLock, Next, ToLeave, Run;
    if HoldsLock(r.threads[u].pc) {
      var rest := FreeLock(r, t, u);
      run := [Handler(u, w)] + rest;
      RunConcat(s, [Handler(u, w)], rest);
    } else {
      run := [Handler(u, w)];
    }
  }

  lemma LeavingSteps(s: State, l: Thread, w: World)
    requires HoldsLock(l.pc)
    ensures ToLeave(Next(s, l, w).pc) < ToLeave(l.pc)
  {
  }

  /** How many steps a thread with a stale index needs to count its instruction. */
  function ToCount(pc: Pc): nat {
    match pc
    case Sync(_) => 6
    case Recheck => 5
    case InsertDone => 5
    case Generate => 4
    case WantCommit(_, _) => 3
    case Locked(_, _) => 2
    case Committing(_, _) => 1
    case _ => 0
  }

  const SOME_WORLD := World(0, [], 0, false)

  /** The doomed thread takes its index one step further. */
  lemma AdvanceDoomed(s: State, t: nat)
    requires Doomed(s, t) && !s.threads[t].pc.Committing? && (s.threads[t].pc.WantCommit? ==> !s.lock)
    ensures var r := HandlerStep(s, t, SOME_WORLD);
      Doomed(r, t) && ToCount(r.threads[t].pc) < ToCount(s.threads[t].pc)
  {
    StepStaysExclusive(s, Handler(t, SOME_WORLD));
    HandlerFrame(s, t, SOME_WORLD);
    hide HandlerStep, Exclusive;
  }

  lemma CountDoomed(s: State, t: nat)
    requires Doomed(s, t) && s.threads[t].pc.Committing?
    ensures !Attributed(HandlerStep(s, t, SOME_WORLD))
  {
    HandlerBooks(s, t, SOME_WORLD);
    hide HandlerStep, Count;
    var b := Booking(s.threads[t].pc.rip, s.threads[t].pc.existing);
    assert b in HandlerStep(s, t, SOME_WORLD).booked;
  }

  /** Steps of handlers alone bring the stale index into the counts. */
  lemma {:induction false} Doom(s: State, t: nat) returns (run: seq<Action>)
    requires Doomed(s, t)
    ensures OnlyHandlers(run) && !Attributed(Run(s, run))
    decreases ToCount(s.threads[t].pc)
  {
    var step := Handler(t, SOME_WORLD);
    if s.threads[t].pc.Committing? {
      CountDoomed(s, t);
      RunOne(s, step);
      hide HandlerStep, Run, Attributed;
      run := [step];
    } else {
      var wait := AwaitLock(s, t);
      var s' := Run(s, wait);
      hide Doomed, HandlerStep, ToCount, Run, Attributed;
      AdvanceDoomed(s', t);
      RunOne(s', step);
      var rest := Doom(Do(s', step), t);
      run := wait + ([step] + rest);
      RunConcat(s, wait, [step] + rest);
      RunConcat(s', [step], rest);
    }
  }

  /** Whoever is in the lock leaves it, if t waits for it. */
  lemma AwaitLock(s: State, t: nat) returns (run: seq<Action>)
    requires Doomed(s, t)
    ensures OnlyHandlers(run)
    ensures Doomed(Run(s, run), t) && Run(s, run).threads[t] == s.threads[t]
    ensures s.threads[t].pc.WantCommit? ==> !Run(s, run).lock
  {
    if s.threads[t].pc.WantCommit? && s.lock {
      var u :| 0 <= u < |s.threads| && HoldsLock(s.threads[u].pc);
      run := FreeLock(s, t, u);
    } else {
      run := [];
    }
  }

  // ----- the exact condition

  lemma {:induction false} ReachableIsGrounded(threads: nat, run: seq<Action>)
    ensures AllGrounded(Run(Initial(threads), run))
  {
    if run != [] {
      ReachableIsGrounded(threads, run[..|run| - 1]);
      StepStaysGrounded(Run(Initial(threads), run[..|run| - 1]), run[|run| - 1]);
    }
    hide Do;
  }

  ghost predicate SomeoneHoldsStale(s: State) {
    exists t :: 0 <= t < |s.threads| && HoldsStale(s, s.threads[t])
  }

  /** Before the arena is freed again, the run counts something under a stack that is not there. */
  ghost predicate Miscounts(s: State, run: seq<Action>) {
    NoClear(s, run) && !Attributed(Run(s, run))
  }

  /** When a capture starts, something in it can be counted under a stack that is not on record at that
      offset exactly when, at the moment the generation is bumped, some handler carries a stale index. */
  lemma MiscountsIff(threads: nat, before: seq<Action>)
    requires Run(Initial(threads), before).control == StartGeneration
    requires Attributed(Run(Initial(threads), before))
    ensures var s := Run(Initial(threads), before);
      (exists run :: Miscounts(Do(s, Continue), run)) <==> SomeoneHoldsStale(s)
  {
    var s := Run(Initial(threads), before);
    var r := Do(s, Continue);
    MutualExclusion(threads, before);
    EndingIsOff(threads, before);
    ReachableIsGrounded(threads, before);
    hide Run;
    if SomeoneHoldsStale(s) {
      var t :| 0 <= t < |s.threads| && HoldsStale(s, s.threads[t]);
      var run := StartDoomed(s, t);
      assert Miscounts(r, run);
    } else {
      BumpIsSafe(s);
      if run :| Miscounts(r, run) {
        SafeStaysAttributed(r, run);
      }
    }
  }

  lemma BumpIsSafe(s: State)
    requires AllGrounded(s) && s.control == StartGeneration && !SomeoneHoldsStale(s)
    ensures AllSafe(Do(s, Continue)) && Do(s, Continue).booked == s.booked && Do(s, Continue).stacks == s.stacks
  {
  }

  lemma StartDoomed(s: State, t: nat) returns (run: seq<Action>)
    requires Exclusive(s) && OffWhileBusy(s) && s.control == StartGeneration
    requires t < |s.threads| && HoldsStale(s, s.threads[t])
    ensures Miscounts(Do(s, Continue), run)
  {
    var r := Do(s, Continue);
    var on := Do(r, Continue);
    StepStaysExclusive(s, Continue);
    StepStaysExclusive(r, Continue);
    RunOne(r, Continue);
    var rest := Doom(on, t);
    RunConcat(r, [Continue], rest);
    run := [Continue] + rest;
    RunNothing(r);
    hide Run;
    assert run[..0] == [];
  }

  // ----- whole runs

  /** Different stacks are at different offsets, all of them in use. */
  ghost predicate Separate(s: State) {
    && (forall f :: f in s.stacks ==> s.stacks[f] < s.used)
    && (forall f, g :: f in s.stacks && g in s.stacks && f != g ==> s.stacks[f] != s.stacks[g])
  }

  /** Some instruction counted for the key was counted under these frames. */
  ghost predicate CountedUnder(s: State, k: Key, frames: seq<nat>) {
    Booking(k.rip, At(k.offset, frames)) in s.booked
  }

  ghost predicate Explained(s: State, k: Key) {
    exists f :: CountedUnder(s, k, f)
  }

  /** The count of the booking's key is the number of such bookings. */
  ghost predicate Tallied(s: State, b: Booking) {
    KeyOf(b) in s.stats && s.stats[KeyOf(b)] == s.booked[b]
  }

  /** Every key stands for one address and one stack, which is on record at the key's offset, and its count
      is the number of times the address was counted under that stack. */
  ghost predicate Accounted(s: State) {
    && Attributed(s)
    && (forall k :: k in s.stats ==> Explained(s, k))
    && (forall b :: b in s.booked ==> Tallied(s, b))
  }

  /** Tracing is off, nothing is about to be counted, and the next capture has not passed its bump. */
  ghost predicate Dormant(s: State) {
    Sealed(s) && s.control != StartEnable
  }

  /** What every step keeps as long as no stale index gets into a capture. */
  ghost predicate Sound(s: State) {
    && Exclusive(s) && OffWhileBusy(s) && AllGrounded(s) && Separate(s) && Accounted(s)
    && (AllSafe(s) || Dormant(s))
  }

  /** No handler carries a stale index over the bump of the generation. */
  ghost predicate CleanStart(s: State, a: Action) {
    a == Continue && s.control == StartGeneration ==> !SomeoneHoldsStale(s)
  }

  lemma StepStaysSeparate(s: State, a: Action)
    requires Separate(s)
    ensures Separate(Do(s, a))
  {
    if a.Handler? && a.thread < |s.threads| {
      InsertStaysSeparate(s, a.world.frames);
      HandlerFrame(s, a.thread, a.world);
    }
    hide Next;
  }

  lemma InsertStaysSeparate(s: State, frames: seq<nat>)
    requires Separate(s)
    ensures Separate(InsertStack(s, frames))
  {
  }

  /** Two good bookings of one key are the same booking. */
  lemma OneStackPerKey(s: State, b: Booking, c: Booking)
    requires Separate(s) && Good(s, b.index) && Good(s, c.index) && KeyOf(b) == KeyOf(c)
    ensures b == c
  {
  }

  lemma CommitTallies(s: State, r: State, b: Booking, c: Booking)
    requires Separate(s) && Good(s, b.index) && Good(s, c.index)
    requires c in s.booked ==> Tallied(s, c)
    requires KeyOf(b) in s.stats ==> Explained(s, KeyOf(b)) && Attributed(s)
    requires r.booked == s.booked + multiset{b} && r.stats == Count(s.stats, KeyOf(b))
    requires c in r.booked
    ensures Tallied(r, c)
  {
    hide Good, Separate, KeyOf;
    if KeyOf(c) == KeyOf(b) {
      OneStackPerKey(s, b, c);
      if KeyOf(b) in s.stats {
        ExplainedByItself(s, b);
      }
    }
  }

  /** What a key counts can only be the booking with that key that is good. */
  lemma ExplainedByItself(s: State, b: Booking)
    requires Separate(s) && Good(s, b.index) && Explained(s, KeyOf(b)) && Attributed(s)
    ensures b in s.booked
  {
    var f :| CountedUnder(s, KeyOf(b), f);
    OneStackPerKey(s, b, Booking(b.rip, At(KeyOf(b).offset, f)));
  }

  lemma CommitExplains(s: State, r: State, b: Booking, k: Key)
    requires b.index.At? && (k == KeyOf(b) || Explained(s, k))
    requires r.booked == s.booked + multiset{b}
    ensures Explained(r, k)
  {
    if k == KeyOf(b) {
      assert CountedUnder(r, k, b.index.frames);
    } else {
      var f :| CountedUnder(s, k, f);
      assert CountedUnder(r, k, f);
    }
  }

  lemma CommitStaysAccounted(s: State, r: State, b: Booking)
    requires Separate(s) && Accounted(s) && Good(s, b.index)
    requires r.booked == s.booked + multiset{b} && r.stats == Count(s.stats, KeyOf(b)) && r.stacks == s.stacks
    ensures Accounted(r)
  {
    forall i
      ensures Good(s, i) <==> Good(r, i)
    {
    }
    assert b.index.At?;
    hide Separate, Tallied, Explained, Good, KeyOf;
    forall c | c in r.booked
      ensures Good(r, c.index) && Tallied(r, c)
    {
      CommitTallies(s, r, b, c);
    }
    forall k | k in r.stats
      ensures Explained(r, k)
    {
      CommitExplains(s, r, b, k);
    }
  }

  lemma SameAccounts(s: State, r: State)
    requires Accounted(s) && r.booked == s.booked && r.stats == s.stats
    requires forall i :: Good(s, i) ==> Good(r, i)
    ensures Accounted(r)
  {
    hide Good, Explained, Tallied;
    forall k | k in s.stats
      ensures Explained(r, k)
    {
      SameBookings(s, r, k, Booking(0, None));
    }
    forall b | b in r.booked
      ensures Tallied(r, b)
    {
      SameBookings(s, r, KeyOf(b), b);
    }
  }

  lemma SameBookings(s: State, r: State, k: Key, b: Booking)
    requires r.booked == s.booked && r.stats == s.stats
    ensures Explained(s, k) ==> Explained(r, k)
    ensures Tallied(s, b) ==> Tallied(r, b)
  {
    if f :| CountedUnder(s, k, f) {
      assert CountedUnder(r, k, f);
    }
  }

  lemma HandlerStaysAccounted(s: State, t: nat, w: World)
    requires Separate(s) && Accounted(s) && t < |s.threads|
    requires s.threads[t].pc.Committing? ==> Good(s, s.threads[t].pc.existing)
    ensures Accounted(HandlerStep(s, t, w))
  {
    hide HandlerStep, Accounted, Good, Separate, Count, KeyOf;
    var r, pc := HandlerStep(s, t, w), s.threads[t].pc;
    HandlerBooks(s, t, w);
    if pc.Committing? {
      CommitStaysAccounted(s, r, Booking(pc.rip, pc.existing));
    } else {
      forall i | Good(s, i)
        ensures Good(r, i)
      {
        HandlerKeepsGood(s, t, w, i);
      }
      SameAccounts(s, r);
    }
  }

  lemma ControlStaysAccounted(s: State, a: Action)
    requires Accounted(s) && !a.Handler?
    ensures Accounted(Do(s, a))
  {
    hide Accounted;
    var r := Do(s, a);
    if Clears(s, a) {
      NothingCounted(r);
    } else {
      assert forall i :: Good(s, i) ==> Good(r, i);
      SameAccounts(s, r);
    }
  }

  lemma NothingCounted(s: State)
    requires s.stats == map[] && s.booked == multiset{}
    ensures Accounted(s)
  {
  }

  lemma CommitsGood(s: State, t: nat)
    requires AllSafe(s) || Dormant(s)
    requires t < |s.threads| && s.threads[t].pc.Committing?
    ensures Good(s, s.threads[t].pc.existing)
  {
  }

  /** Safe or dormant: a clean start makes a dormant state safe, freeing the arena makes any state dormant. */
  lemma StepStaysSafeOrDormant(s: State, a: Action)
    requires Exclusive(s) && OffWhileBusy(s) && AllGrounded(s) && CleanStart(s, a)
    requires AllSafe(s) || Dormant(s)
    ensures AllSafe(Do(s, a)) || Dormant(Do(s, a))
  {
    hide HandlerStep, Safe, Grounded, HoldsStale, Exclusive, AllSafe;
    if a == Continue && s.control == StartGeneration {
      BumpIsSafe(s);
    } else if Clears(s, a) {
      ClearingIsDormant(s);
    } else if AllSafe(s) {
      StepStaysSafe(s, a);
    } else {
      StepStaysSealed(s, a);
      DormantStays(s, a);
    }
  }

  lemma ClearingIsDormant(s: State)
    requires Exclusive(s) && OffWhileBusy(s) && s.control == Ending
    ensures Dormant(Do(s, Continue))
  {
  }

  lemma DormantStays(s: State, a: Action)
    requires s.control != StartEnable && !(a == Continue && s.control == StartGeneration)
    ensures Do(s, a).control != StartEnable
  {
    if a.Handler? && a.thread < |s.threads| {
      HandlerFrame(s, a.thread, a.world);
    }
    hide HandlerStep;
  }

  lemma StepStaysSound(s: State, a: Action)
    requires Sound(s) && CleanStart(s, a)
    ensures Sound(Do(s, a))
  {
    hide HandlerStep, ControlStep, Exclusive, OffWhileBusy, AllGrounded, Separate, Accounted, AllSafe, Dormant,
         CleanStart;
    StepStaysExclusive(s, a);
    StepStaysOff(s, a);
    StepStaysGrounded(s, a);
    StepStaysSeparate(s, a);
    StepStaysSafeOrDormant(s, a);
    if !a.Handler? {
      ControlStaysAccounted(s, a);
    } else if a.thread < |s.threads| {
      if s.threads[a.thread].pc.Committing? {
        CommitsGood(s, a.thread);
      }
      HandlerStaysAccounted(s, a.thread, a.world);
    }
  }

  lemma InitialIsSound(threads: nat)
    ensures Sound(Initial(threads))
  {
  }

  /** When no capture starts under a handler that carries a stale index, every key of the statistics, at every
      moment of every run, counts one address under one stack, and that stack is on record at its offset. */
  lemma CountsAreAttributed(threads: nat, run: seq<Action>)
    requires forall k :: 0 <= k < |run| ==> CleanStart(Run(Initial(threads), run[..k]), run[k])
    ensures Accounted(Run(Initial(threads), run)) && Separate(Run(Initial(threads), run))
  {
    hide Run, CleanStart;
    RunStaysSound(threads, run);
  }

  lemma {:induction false} RunStaysSound(threads: nat, run: seq<Action>)
    requires forall k :: 0 <= k < |run| ==> CleanStart(Run(Initial(threads), run[..k]), run[k])
    ensures Sound(Run(Initial(threads), run))
  {
    hide Do, CleanStart, Sound;
    if run == [] {
      InitialIsSound(threads);
    } else {
      var n := |run| - 1;
      var s := Run(Initial(threads), run[..n]);
      assert forall k :: 0 <= k < n ==> run[..n][..k] == run[..k];
      RunStaysSound(threads, run[..n]);
      assert CleanStart(s, run[n]);
      StepStaysSound(s, run[n]);
    }
  }

  /** In particular when no handler is under way at the bump. */
  lemma IdleStartIsClean(s: State, a: Action)
    requires forall t :: 0 <= t < |s.threads| ==> s.threads[t].pc == Idle || s.threads[t].pc == ReadGeneration
    ensures CleanStart(s, a)
  {
  }

  // ----- a handler that does carry one

  lemma Then(run: seq<Action>, s: State, a: Action) returns (run': seq<Action>, s': State)
    requires s == Run(Initial(1), run)
    ensures run' == run + [a] && s' == Do(s, a) && s' == Run(Initial(1), run')
  {
    run', s' := run + [a], Do(s, a);
    assert run'[..|run|] == run;
  }

  const CALL := World(7, [3], 0, false)

  /** The first capture starts. */
  lemma FirstCapture() returns (run: seq<Action>, s: State)
    ensures s == Run(Initial(1), run)
    ensures s == State(true, 2, false, map[], multiset{}, map[], 0, Ready, [Thread(Idle, 0, At(0, []), 0)])
  {
    run, s := [], Initial(1);
    assert s.threads == [Thread(Idle, 0, At(0, []), 0)];
    hide Run, Initial;
    run, s := Then(run, s, Start);
    run, s := Then(run, s, Continue);
    run, s := Then(run, s, Continue);
  }

  /** The handler brings the thread's state up to date. */
  lemma EnterHandler(run0: seq<Action>, s0: State) returns (run: seq<Action>, s: State)
    requires s0 == Run(Initial(1), run0) && s0.enabled && s0.generation != 0
    requires s0.threads == [Thread(Idle, 0, At(0, []), 0)]
    ensures s == Run(Initial(1), run)
    ensures s == s0.(threads := [Thread(WantInsert, s0.generation, None, 0)])
  {
    run, s := run0, s0;
    hide Run, Initial;
    run, s := Then(run, s, Handler(0, CALL));
    run, s := Then(run, s, Handler(0, CALL));
    run, s := Then(run, s, Handler(0, CALL));
    run, s := Then(run, s, Handler(0, CALL));
  }

  /** The handler records its stack and gets to where it wants to commit. */
  lemma RecordStack(run0: seq<Action>, s0: State, g: nat) returns (run: seq<Action>, s: State)
    requires s0 == Run(Initial(1), run0) && !s0.lock && s0.threads == [Thread(WantInsert, g, None, 0)]
    requires s0.stacks == map[] && s0.used == 0
    ensures s == Run(Initial(1), run)
    ensures s == s0.(stacks := map[[3] := 0], used := 2,
                     threads := [Thread(WantCommit(7, At(0, [3])), g, At(0, [3]), 0)])
  {
    run, s := run0, s0;
    hide Run, Initial;
    run, s := Then(run, s, Handler(0, CALL));
    run, s := Then(run, s, Handler(0, CALL));
    run, s := Then(run, s, Handler(0, CALL));
    run, s := Then(run, s, Handler(0, CALL));
  }

  /** The capture is saved, and the next one is about to start. */
  lemma NextCapture(run0: seq<Action>, s0: State) returns (run: seq<Action>, s: State)
    requires s0 == Run(Initial(1), run0) && s0.control == Ready && !s0.lock && s0.enabled
    ensures s == Run(Initial(1), run)
    ensures s == State(false, s0.generation, false, map[], multiset{}, map[], 0, StartGeneration, s0.threads)
  {
    run, s := run0, s0;
    hide Run, Initial;
    run, s := Then(run, s, End(true));
    run, s := Then(run, s, Continue);
    run, s := Then(run, s, Continue);
    run, s := Then(run, s, Continue);
    run, s := Then(run, s, Start);
  }

  /** A thread is interrupted between recording its stack and its commit; meanwhile the capture is saved and
      a new one starts.  There is a run in which the commit then counts under a stack that is not there. */
  lemma SpanningMiscounts()
    ensures exists run :: !Attributed(Run(Initial(1), run))
  {
    hide Run, Initial, Do;
    var before, s := FirstCapture();
    before, s := EnterHandler(before, s);
    before, s := RecordStack(before, s, 2);
    before, s := NextCapture(before, s);
    assert HoldsStale(s, s.threads[0]);
    MiscountsIff(1, before);
    var run :| Miscounts(Do(s, Continue), run);
    RunOne(s, Continue);
    RunConcat(Initial(1), before, [Continue]);
    RunConcat(Initial(1), before + [Continue], run);
    assert !Attributed(Run(Initial(1), before + [Continue] + run));
  }
}
