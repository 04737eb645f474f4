/**
 What the event loop gets done: every turn runs what was queued before it, owners waiting
 in `Detach` are released, and a stopped loop returns.
 */
module EventLoopProgress {
  import opened Bytes
  import opened Selector
  import opened EventLoopSteps
  import opened EventLoopSafety
  import opened EventLoopLife
  import opened EventLoopRuns
  import opened EventLoopTraces

  // ------------------------------------------------------------------- every turn

  lemma RanStep(s: State, e: Event)
    requires Enabled(s, e)
    ensures s.work.ran <= Next(s, e).work.ran && s.work.pushed <= Next(s, e).work.pushed
  {
    PushedStep(s, e);
  }

  /** What has been queued and what has finished only grows. */
  lemma {:induction false} RanGrows(s: State, run: seq<Event>)
    requires Possible(s, run)
    ensures s.work.ran <= After(s, run).work.ran && s.work.pushed <= After(s, run).work.pushed
    decreases |run|
  {
    hide Next, Enabled;
    if run != [] {
      RanStep(s, run[0]);
      RanGrows(Next(s, run[0]), run[1..]);
    }
  }

  /** What a loop has run when its batch is done. */
  function AtEndOfBatch(s: State): seq<Functor> {
    s.work.ran + (Started(s) + s.work.batch)
  }

  lemma BatchCarried(s: State, e: Event)
    requires s.phase.Running? && Enabled(s, e) && !e.EndRun?
    ensures Next(s, e).phase.Running? && AtEndOfBatch(Next(s, e)) == AtEndOfBatch(s)
  {
    if e.RunNext? {
      assert s.work.batch == [s.work.batch[0]] + s.work.batch[1..];
    } else if e.Finish? {
      assert Started(s) == [s.work.current.value];
    } else {
      BatchLeft(s, e);
    }
  }

  lemma BatchLeft(s: State, e: Event)
    requires s.phase.Running? && Enabled(s, e) && !e.EndRun? && !e.RunNext? && !e.Finish?
    ensures Next(s, e).phase.Running?
    ensures Next(s, e).work.ran == s.work.ran && Next(s, e).work.batch == s.work.batch
    ensures Next(s, e).work.current == s.work.current
  {
    hide Reported, OwnerAt, InUserCode, Published, Registered, Removed, Begin, End;
  }

  /** A batch under way has run by the time the loop goes on. */
  lemma {:induction false} BatchRuns(s: State, run: seq<Event>)
    requires s.phase.Running? && Possible(s, run) && EndRun in run
    ensures AtEndOfBatch(s) <= After(s, run).work.ran
    decreases |run|
  {
    hide Next, Enabled, AtEndOfBatch;
    if run[0] == EndRun {
      NothingLeft(s);
      RanGrows(Next(s, EndRun), run[1..]);
    } else {
      assert run == [run[0]] + run[1..];
      BatchCarried(s, run[0]);
      BatchRuns(Next(s, run[0]), run[1..]);
    }
  }

  lemma NothingLeft(s: State)
    requires Enabled(s, EndRun)
    ensures Next(s, EndRun).work.ran == AtEndOfBatch(s)
  {
  }

  /** In every interleaving, whatever was queued in a state has run when the loop has next
      swapped its queue and gone through that batch. */
  lemma EveryTurnRunsAll(run: seq<Event>, before: seq<Event>, after: seq<Event>)
    requires Possible(Initial(), run)
    requires Possible(After(Initial(), run), before)
    requires var u := After(After(Initial(), run), before);
             Enabled(u, Swap) && Possible(Next(u, Swap), after) && EndRun in after
    ensures
      var s := After(Initial(), run);
      s.work.pushed <= After(Next(After(s, before), Swap), after).work.ran
  {
    hide Next, Enabled, Possible, After, AtEndOfBatch;
    Reached(run);
    var s := After(Initial(), run);
    var u := After(s, before);
    AlwaysSound(s, before);
    RanGrows(s, before);
    SwapTakesAll(u);
    BatchRuns(Next(u, Swap), after);
  }

  lemma SwapTakesAll(s: State)
    requires InOrder(s) && Enabled(s, Swap)
    ensures Next(s, Swap).phase.Running? && AtEndOfBatch(Next(s, Swap)) == s.work.pushed
  {
  }

  // ------------------------------------------------------------ release from Detach

  lemma WaitStep(s: State, e: Event, h: int)
    requires Enabled(s, e) && OwnerAt(s, h).Waiting? && e != Return(h)
    ensures OwnerAt(Next(s, e), h).Waiting?
    ensures About(h, Next(s, e).work.pushed) == About(h, s.work.pushed)
  {
    hide About, Next, Enabled;
    PushedStep(s, e);
    AboutSum(h, s.work.pushed, QueuedBy(e));
    AboutQueued(h, e);
    WaitsOn(s, e, h);
  }

  lemma WaitsOn(s: State, e: Event, h: int)
    requires Enabled(s, e) && OwnerAt(s, h).Waiting? && e != Return(h)
    ensures OwnerAt(Next(s, e), h).Waiting?
    ensures QueuedBy(e) != [] ==> !Mentions(QueuedBy(e)[0], h)
  {
    hide Reported, InUserCode, Published, Registered, Removed, Updated, Begin, End;
  }

  /** Nothing about a handler is queued while its owner waits. */
  lemma {:induction false} WaitRun(s: State, run: seq<Event>, h: int)
    requires Possible(s, run) && OwnerAt(s, h).Waiting? && Return(h) !in run
    ensures OwnerAt(After(s, run), h).Waiting?
    ensures About(h, After(s, run).work.pushed) == About(h, s.work.pushed)
    decreases |run|
  {
    hide Next, Enabled, About, OwnerAt;
    if run != [] {
      assert forall e :: e in run[1..] ==> e in run;
      WaitStep(s, run[0], h);
      WaitRun(Next(s, run[0]), run[1..], h);
    }
  }

  lemma AboutLength(h: int, a: seq<Functor>, b: seq<Functor>)
    requires a <= b
    ensures |About(h, a)| <= |About(h, b)|
  {
    AboutSum(h, a, b[|a|..]);
    assert b == a + b[|a|..];
  }

  /** All that was ever queued about a handler has finished, so nothing is pending for it. */
  lemma NothingPendingAbout(t: State, h: int, queued: seq<Functor>)
    requires InOrder(t) && queued <= t.work.ran && |About(h, t.work.pushed)| == |About(h, queued)|
    ensures About(h, Pending(t)) == []
  {
    hide About, Pending;
    AboutSum(h, t.work.ran, Pending(t));
    AboutLength(h, queued, t.work.ran);
  }

  /** In every interleaving, an owner found waiting in `Detach` may return after the loop has
      next swapped its queue and gone through that batch, unless it has returned already. */
  lemma EveryTurnReleases(run: seq<Event>, before: seq<Event>, after: seq<Event>, h: int)
    requires Possible(Initial(), run)
    requires Possible(After(Initial(), run), before)
    requires var u := After(After(Initial(), run), before);
             Enabled(u, Swap) && Possible(Next(u, Swap), after) && EndRun in after
    requires OwnerAt(After(Initial(), run), h).Waiting? && Return(h) !in before && Return(h) !in after
    ensures
      var v := After(Next(After(After(Initial(), run), before), Swap), after);
      && OwnerAt(v, h).Waiting? && h !in v.reg.live
      && (!v.phase.Aborted? && OwnerOf(h) !in v.wakeup.wakers ==> Enabled(v, Return(h)))
  {
    hide Next, Enabled, Possible, After, About, OwnerAt;
    EveryTurnRunsAll(run, before, after);
    Reached(run);
    var s := After(Initial(), run);
    var u := After(s, before);
    var t := Next(u, Swap);
    var v := After(t, after);
    AlwaysSound(s, before);
    SoundStep(u, Swap);
    AlwaysSound(t, after);
    WaitRun(s, before, h);
    WaitStep(u, Swap, h);
    WaitRun(t, after, h);
    NothingPendingAbout(v, h, s.work.pushed);
    Released(v, h);
  }

  lemma Released(v: State, h: int)
    requires Life(v, h) && OwnerAt(v, h).Waiting? && About(h, Pending(v)) == []
    ensures h !in v.reg.live
    ensures !v.phase.Aborted? && OwnerOf(h) !in v.wakeup.wakers ==> Enabled(v, Return(h))
  {
  }

  // ------------------------------------------------------------- a turn can be taken

  /** Running and finishing `n` functors that do nothing but their own work. */
  function Drain(n: nat): seq<Event> {
    if n == 0 then [] else [RunNext, Finish] + Drain(n - 1)
  }

  lemma {:induction false} DrainRuns(s: State)
    requires s.phase.Running? && s.work.current.None? && LoopThread !in s.wakeup.wakers
    ensures Possible(s, Drain(|s.work.batch|))
    ensures
      var t := After(s, Drain(|s.work.batch|));
      && t.work.ran == s.work.ran + s.work.batch && t.work.batch == []
      && t.work.queue == s.work.queue && t.work.pushed == s.work.pushed
      && t.phase.Running? && t.work.current.None? && t.wakeup.wakers == s.wakeup.wakers && t.owners == s.owners
    decreases |s.work.batch|
  {
    if s.work.batch == [] {
      assert s.work.ran + s.work.batch == s.work.ran;
    } else {
      var t := Next(Next(s, RunNext), Finish);
      DrainRuns(t);
      var rest := Drain(|t.work.batch|);
      assert Drain(|s.work.batch|) == [RunNext, Finish] + rest;
      assert ([RunNext, Finish] + rest)[1..] == [Finish] + rest && ([Finish] + rest)[1..] == rest;
      assert s.work.ran + s.work.batch == (s.work.ran + [s.work.batch[0]]) + s.work.batch[1..];
    }
  }

  /** What a loop woken by a byte does until its batch is done. */
  function Turn(s: State): seq<Event> {
    [SelectReturn([WAKE]), DispatchNext, EndDispatch] + ([Swap] + Drain(|s.work.queue|))
  }

  /** Everything queued in `s` has run in `t`. */
  predicate Drained(s: State, t: State) {
    && t.phase.Running? && t.work.ran == s.work.pushed
    && t.work.queue == [] && t.work.batch == [] && t.work.current.None?
    && t.owners == s.owners && t.wakeup.wakers == s.wakeup.wakers
  }

  /** One turn of a loop that a byte wakes runs everything queued so far. */
  lemma OneTurnRunsAll(run: seq<Event>)
    requires Possible(Initial(), run)
    requires var s := After(Initial(), run); s.phase.Blocked? && s.wakeup.pipe > 0
    ensures
      var s := After(Initial(), run);
      Possible(s, Turn(s)) && Drained(s, After(s, Turn(s)))
  {
    Reached(run);
    TurnRunsAll(After(Initial(), run));
  }

  /** So an owner blocked in `Detach` can return after that turn, and the selector watches
      exactly what handlers ask for. */
  lemma OneTurnReleases(run: seq<Event>, h: int)
    requires Possible(Initial(), run)
    requires var s := After(Initial(), run); s.phase.Blocked? && s.wakeup.pipe > 0
    ensures
      var s := After(Initial(), run);
      && Possible(s, Turn(s))
      && var t := After(s, Turn(s));
      && (OwnerAt(s, h).Waiting? && OwnerOf(h) !in s.wakeup.wakers ==> Enabled(t, Return(h)))
      && (h in t.reg.tables.handlers && !OwnerAt(s, h).Changed? ==> InterestIn(t.reg.tables, h) == EventsOf(t.reg, h))
  {
    hide Next, Turn, Possible, After;
    Reached(run);
    var s := After(Initial(), run);
    TurnRunsAll(s);
    AlwaysSound(s, Turn(s));
    NothingPending(After(s, Turn(s)), h);
  }

  /** No deadlock: when no thread is about to write a byte, an owner blocked in `Detach`
      can return or the loop has a byte to wake for. */
  lemma DetachIsNotStuck(run: seq<Event>, h: int)
    requires Possible(Initial(), run)
    requires
      var s := After(Initial(), run);
      s.phase.Blocked? && s.wakeup.wakers == multiset{} && OwnerAt(s, h).Waiting?
    ensures
      var s := After(Initial(), run);
      Enabled(s, Return(h)) || s.wakeup.pipe > 0
  {
    hide Possible, After, About;
    Reached(run);
    var s := After(Initial(), run);
    if s.wakeup.pipe == 0 {
      UsersAboutNone(h, s.work.queue);
      assert Pending(s) == s.work.queue;
      Released(s, h);
    }
  }

  lemma NothingPending(t: State, h: int)
    requires Life(t, h) && Settled(t, h) && t.work.queue == [] && t.work.batch == [] && t.work.current.None?
    ensures OwnerAt(t, h).Waiting? ==> h !in t.reg.live && h !in t.reg.locals
    ensures h in t.reg.tables.handlers && !OwnerAt(t, h).Changed? ==> InterestIn(t.reg.tables, h) == EventsOf(t.reg, h)
  {
    assert Pending(t) == [];
  }

  /** A byte takes a blocked loop to the swap. */
  lemma ByteWakes(s: State)
    requires TablesAgree(s) && WakesItself(s) && s.phase.Blocked? && s.wakeup.pipe > 0
    ensures
      && Enabled(s, SelectReturn([WAKE]))
      && var a := Next(s, SelectReturn([WAKE]));
      && Enabled(a, DispatchNext) && Enabled(Next(a, DispatchNext), EndDispatch)
      && Next(Next(a, DispatchNext), EndDispatch) ==
         s.(phase := Swapping, wakeup := s.wakeup.(pipe := s.wakeup.pipe - 1))
  {
    hide InUserCode, OwnerAt, Registered, Removed, Updated, Published, Begin, End, Queued, Woken, Promised;
  }

  lemma TurnRunsAll(s: State)
    requires InOrder(s) && TablesAgree(s) && WakesItself(s) && s.phase.Blocked? && s.wakeup.pipe > 0
    ensures
      Possible(s, Turn(s)) && Drained(s, After(s, Turn(s)))
  {
    hide Possible, After, Drain;
    ByteWakes(s);
    var u := s.(phase := Swapping, wakeup := s.wakeup.(pipe := s.wakeup.pipe - 1));
    SwapAndDrain(u);
    hide Next, Enabled;
    Three(s, SelectReturn([WAKE]), DispatchNext, EndDispatch, [Swap] + Drain(|s.work.queue|));
  }

  lemma SwapIs(s: State)
    requires InOrder(s) && s.phase.Swapping? && LoopThread !in s.wakeup.wakers
    ensures Enabled(s, Swap)
    ensures
      var t := Next(s, Swap);
      && t.phase.Running? && t.wakeup.wakers == s.wakeup.wakers && t.owners == s.owners
      && t.work.ran == s.work.ran && t.work.current.None?
      && t.work.batch == s.work.queue && t.work.queue == [] && s.work.pushed == s.work.ran + s.work.queue
  {
  }

  lemma SwapAndDrain(s: State)
    requires InOrder(s) && s.phase.Swapping? && LoopThread !in s.wakeup.wakers
    ensures
      var run := [Swap] + Drain(|s.work.queue|);
      Possible(s, run) && Drained(s, After(s, run))
  {
    hide Possible, After, Drain, Next, Enabled, InOrder;
    SwapIs(s);
    DrainRuns(Next(s, Swap));
    First(s, Swap, Drain(|s.work.queue|));
  }

  // --------------------------------------------------------------- a stopped loop

  /** What the loop thread does next when its user's code does nothing more; a thread inside
      `Stop` writes its byte when the loop needs it. */
  function Onward(s: State): Event {
    if LoopThread in s.wakeup.wakers then LoopWake
    else
      match s.phase
      case Outside => StartRun
      case Checking => Check
      case Entering => Enter
      case Blocked => if s.wakeup.pipe > 0 then SelectReturn([WAKE]) else StopWake
      case Dispatching(rest) => if rest == [] then EndDispatch else DispatchNext
      case Swapping => Swap
      case Running =>
        if s.work.current.Some? then Finish else if s.work.batch != [] then RunNext else EndRun
      case Aborted => Check
  }

  function PhaseRank(s: State): nat {
    match s.phase
    case Outside => 0
    case Aborted => 0
    case Checking => 1
    case Running => 2
    case Swapping => 3
    case Dispatching(_) => 4
    case Blocked => 5
    case Entering => 6
  }

  function Left(s: State): nat {
    match s.phase
    case Running => 2 * |s.work.batch| + (if s.work.current.Some? then 1 else 0)
    case Dispatching(rest) => |rest|
    case Blocked => if s.wakeup.pipe == 0 then 1 else 0
    case _ => 0
  }

  lemma OnwardStep(s: State)
    requires TablesAgree(s) && WakesItself(s) && StopSeen(s) && s.stop && !s.phase.Outside? && !s.phase.Aborted?
    ensures var e := Onward(s); Enabled(s, e) && Polite(s, e) && !e.StartRun? && Next(s, e).stop
    ensures
      var t := Next(s, Onward(s));
      || PhaseRank(t) < PhaseRank(s)
      || (PhaseRank(t) == PhaseRank(s)
          && (Left(t) < Left(s) || (Left(t) == Left(s) && |t.wakeup.wakers| < |s.wakeup.wakers|)))
  {
    hide InUserCode, OwnerAt, Registered, Removed, Updated, Published, Begin, End, Queued;
    if s.phase.Blocked? && s.wakeup.pipe > 0 {
      assert Reported(s, [WAKE]);
    }
  }

  /** A loop that was told to stop can return from wherever it is, unless it runs into the
      assertion on the way. */
  lemma {:induction false} StoppedLoopEnds(s: State) returns (run: seq<Event>)
    requires Sound(s) && s.stop
    ensures Possible(s, run) && StartRun !in run
    ensures After(s, run).phase.Outside? || After(s, run).phase.Aborted?
    ensures RestKnown(s) ==> After(s, run).phase.Outside?
    decreases PhaseRank(s), Left(s), |s.wakeup.wakers|
  {
    if s.phase.Outside? || s.phase.Aborted? {
      run := [];
    } else {
      hide Next, Enabled, PhaseRank, Left, Onward, Life, Settled;
      OnwardStep(s);
      var e := Onward(s);
      SoundStep(s, e);
      if RestKnown(s) {
        RestKnownStep(s, e);
      }
      var more := StoppedLoopEnds(Next(s, e));
      run := [e] + more;
      First(s, e, more);
    }
  }

  /** From every state reached with `_stop` set, `Run` can still return, or ends at the
      assertion; it returns if no callback detached a handler still to be called back for. */
  lemma StopReturns(before: seq<Event>) returns (after: seq<Event>)
    requires Possible(Initial(), before) && After(Initial(), before).stop
    ensures
      var s := After(Initial(), before);
      && Possible(s, after) && StartRun !in after
      && (After(s, after).phase.Outside? || After(s, after).phase.Aborted?)
      && (AllPolite(Initial(), before) ==> After(s, after).phase.Outside?)
  {
    hide Next, Enabled;
    Reached(before);
    if AllPolite(Initial(), before) {
      ReachedPolitely(before);
    }
    after := StoppedLoopEnds(After(Initial(), before));
  }
}
