/**
 The promises of the event loop, for every interleaving of its threads, and the runs
 that show where a promise needs its condition.
 */
module EventLoopTheorems {
  import opened Bytes
  import opened Selector
  import opened EventLoopSteps
  import opened EventLoopSafety
  import opened EventLoopLife
  import opened EventLoopRuns
  import opened EventLoopTraces

  /** Functors run exactly once and in the order they were queued: at any time the
      functors ever queued are those that finished, the one running, the rest of the
      batch and the queue. */
  lemma ExactlyOnceInOrder(run: seq<Event>)
    requires Possible(Initial(), run)
    ensures
      var s := After(Initial(), run);
      s.work.pushed == s.work.ran + Started(s) + s.work.batch + s.work.queue
  {
    hide Possible, After, Covered, WakesItself, StopSeen, FlagsFollow, TablesAgree, RestAgrees, Life, Settled;
    Reached(run);
    var s := After(Initial(), run);
    assert s.work.ran + Pending(s) == s.work.ran + Started(s) + s.work.batch + s.work.queue;
  }

  /** A loop about to block has for every queued functor an unread byte or a thread about
      to write one, but for those the loop thread queued outside `Run`. So a loop that sleeps
      with no byte and no such thread has nothing to run exactly when none was queued that
      way, and `_stop` is not set unless a thread is still inside `Stop`. */
  lemma NoLostWakeup(run: seq<Event>)
    requires Possible(Initial(), run)
    ensures
      var s := After(Initial(), run);
      s.phase.Entering? || s.phase.Blocked? ==>
        && |s.work.queue| <= s.wakeup.pipe + |s.wakeup.wakers| + s.wakeup.silent
        && (s.wakeup.pipe == 0 && s.wakeup.wakers == multiset{} ==>
              && |s.work.queue| == s.wakeup.silent
              && (s.work.queue == [] <==> s.wakeup.silent == 0)
              && (s.stop ==> s.wakeup.stoppers > 0))
  {
    Reached(run);
  }

  /** A functor queued on the loop thread before `Run` is left waiting: no byte is written. */
  lemma QueuedBeforeRun(id: nat)
    ensures
      var run := [LoopPush(id), StartRun, Check, Enter];
      && Possible(Initial(), run)
      && var s := After(Initial(), run);
         s.phase.Blocked? && s.wakeup.pipe == 0 && s.wakeup.wakers == multiset{} && s.work.queue == [User(id)]
  {
    Four(Initial(), LoopPush(id), StartRun, Check, Enter);
  }

  /** After `_stop` is set in a running loop, `select` is entered at most once more, and
      then only with a byte in the pipe or about to be written; and `Run` has returned once
      the loop has tested `_stop` again. */
  lemma StopIsObeyed(before: seq<Event>, after: seq<Event>)
    requires Possible(Initial(), before)
    requires var s := After(Initial(), before); s.stop && Possible(s, after) && StartRun !in after
    ensures
      var s := After(Initial(), before);
      && Entries(after) <= (if s.phase.Entering? then 1 else 0)
      && (Check in after ==> After(s, after).phase.Outside?)
      && var t := After(s, after);
         t.phase.Entering? || t.phase.Blocked? ==> t.wakeup.pipe + t.wakeup.stoppers >= 1
  {
    hide Next, Enabled;
    Reached(before);
    var s := After(Initial(), before);
    StopEntersOnce(s, after);
    if Check in after {
      StopLeaves(s, after);
    }
    AlwaysSound(s, after);
  }

  /** A stop made before `Run` is overwritten. */
  lemma StopBeforeRun()
    ensures
      var run := [StopSet, StopWake, StartRun] + [Check];
      Possible(Initial(), run) && !After(Initial(), run).stop && After(Initial(), run).phase.Entering?
  {
    hide Possible, After;
    var s := Next(Next(Next(Initial(), StopSet), StopWake), StartRun);
    One(s, Check);
    Three(Initial(), StopSet, StopWake, StartRun, [Check]);
  }

  /** `UpdateInLoop` always runs on an attached handler. */
  lemma UpdateRunsAttached(run: seq<Event>, h: int)
    requires Possible(Initial(), run)
    requires var s := After(Initial(), run);
             s.phase.Running? && s.work.current.None? && s.work.batch != [] && s.work.batch[0] == Update(h)
    ensures
      var s := After(Initial(), run);
      h in s.reg.live && h in s.reg.tables.handlers
  {
    Reached(run);
    FirstUpdateIsLive(After(Initial(), run), h);
  }

  lemma FirstUpdateIsLive(s: State, h: int)
    requires FlagsFollow(s) && Life(s, h) && s.work.current.None? && s.work.batch != [] && s.work.batch[0] == Update(h)
    ensures h in s.reg.live && h in s.reg.tables.handlers
  {
    var rest := s.work.batch[1..] + s.work.queue;
    assert Pending(s) == [Update(h)] + rest;
    AboutSum(h, [Update(h)], rest);
    AboutOne(h, Update(h));
    assert About(h, Pending(s))[0] == Update(h);
  }

  /** A handler table entry or a functor still to run refers to the handler. */
  ghost predicate Referenced(s: State, h: int) {
    h in s.reg.tables.handlers || h in s.reg.live || exists f :: f in Pending(s) && Mentions(f, h)
  }

  /** When `Detach` returns, nothing refers to the handler any more, if and only if
      `Detach` was called with the handler attached. */
  lemma DetachIsolates(run: seq<Event>, h: int)
    requires Possible(Initial(), run)
    requires var s := After(Initial(), run); h !in s.reg.locals && OwnerAt(s, h).Gone?
    ensures
      var s := After(Initial(), run);
      Referenced(s, h) <==> OwnerAt(s, h).early
  {
    Reached(run);
    var s := After(Initial(), run);
    assert Life(s, h);
    if OwnerAt(s, h) == Gone(false) {
      GoneIsUnknown(s, h);
    } else if h !in s.reg.live {
      var f := About(h, Pending(s))[0];
      AboutKeeps(h, Pending(s), f);
    }
  }

  /** `Detach` before the attach ran returns at once and the handler is attached later. */
  lemma DetachTooEarly(h: int)
    requires h != WAKE
    ensures
      var run := [Construct(h), OwnerWake(h), AskDetach(h)] +
                 ([StartRun, Check, Enter] + [SelectFail, Swap, RunNext, Finish]);
      && Possible(Initial(), run)
      && var s := After(Initial(), run);
         OwnerAt(s, h) == Gone(true) && h in s.reg.tables.handlers && h in s.reg.live
  {
    hide Possible, After;
    var s := Asked(h);
    assert Next(Next(Next(Initial(), Construct(h)), OwnerWake(h)), AskDetach(h)) == s;
    AttachedLater(h);
    Three(Initial(), Construct(h), OwnerWake(h), AskDetach(h),
          [StartRun, Check, Enter] + [SelectFail, Swap, RunNext, Finish]);
  }

  /** The state after an owner constructed a handler and called `Detach` before the loop ran. */
  function Asked(h: int): State {
    State(Outside, false, Work([Attach(h)], [], None, [Attach(h)], []), Wakeup(1, multiset{}, 0, 0),
          Register(Tables({WAKE}, map[]), {WAKE}, map[h := 0], {WAKE}), map[h := Gone(true)])
  }

  lemma AttachedLater(h: int)
    requires h != WAKE
    ensures
      var run := [StartRun, Check, Enter] + [SelectFail, Swap, RunNext, Finish];
      && Possible(Asked(h), run)
      && var s := After(Asked(h), run);
         OwnerAt(s, h) == Gone(true) && h in s.reg.tables.handlers && h in s.reg.live
  {
    hide Possible, After;
    var s := Asked(h);
    var u := Next(Next(Next(s, StartRun), Check), Enter);
    assert u == s.(phase := Blocked, reg := Published(s.reg, WAKE, EVENT_READ));
    AttachRuns(u, h);
    Three(s, StartRun, Check, Enter, [SelectFail, Swap, RunNext, Finish]);
  }

  /** A turn without callbacks that attaches the one handler waiting for it. */
  lemma AttachRuns(s: State, h: int)
    requires s.phase.Blocked? && s.work.queue == [Attach(h)] && LoopThread !in s.wakeup.wakers
    requires s.work.current.None? && s.work.batch == []
    ensures
      var run := [SelectFail, Swap, RunNext, Finish];
      && Possible(s, run)
      && var t := After(s, run);
         t.owners == s.owners && h in t.reg.tables.handlers && h in t.reg.live
  {
    hide Possible, After;
    var u := Next(Next(s, SelectFail), Swap);
    assert u == s.(phase := Running, work := s.work.(batch := [Attach(h)], queue := []),
                   wakeup := s.wakeup.(silent := 0));
    Four(s, SelectFail, Swap, RunNext, Finish);
  }

  /** Every socket still to be called back for is met once, the wakeup callback finds its
      byte, and if no callback detached a handler still to be called back for, each has a
      handler and the assertion in the loop has not failed. */
  lemma DispatchFindsHandlers(run: seq<Event>)
    requires Possible(Initial(), run)
    ensures
      var s := After(Initial(), run);
      && Distinct(Rest(s)) && (WAKE in Rest(s) ==> s.wakeup.pipe > 0)
      && (AllPolite(Initial(), run) ==> !s.phase.Aborted? && forall h :: h in Rest(s) ==> h in s.reg.tables.handlers)
  {
    hide Next, Enabled, Possible, After, AllPolite;
    Reached(run);
    if AllPolite(Initial(), run) {
      ReachedPolitely(run);
    }
  }

  /** `n` callbacks that do nothing. */
  function Dispatches(n: nat): seq<Event> {
    seq(n, _ => DispatchNext)
  }

  lemma DispatchesFirst(n: nat)
    requires n > 0
    ensures Dispatches(n) == [DispatchNext] + Dispatches(n - 1)
  {
  }

  /** Dispatching runs into the first socket without a handler. */
  lemma {:induction false} DispatchAborts(s: State, h: int) returns (n: nat)
    requires s.phase.Dispatching? && LoopThread !in s.wakeup.wakers
    requires h in s.phase.rest && h !in s.reg.tables.handlers
    ensures Possible(s, Dispatches(n)) && After(s, Dispatches(n)).phase.Aborted?
    decreases |s.phase.rest|
  {
    var t := Next(s, DispatchNext);
    if t.phase.Aborted? {
      n := 1;
      assert Dispatches(1) == [DispatchNext];
      One(s, DispatchNext);
    } else {
      var m := DispatchAborts(t, h);
      n := m + 1;
      DispatchesFirst(n);
      First(s, DispatchNext, Dispatches(m));
    }
  }

  lemma {:induction false} DispatchesArePolite(s: State, n: nat)
    requires Possible(s, Dispatches(n))
    ensures AllPolite(s, Dispatches(n))
    decreases n
  {
    if n > 0 {
      DispatchesFirst(n);
      assert Dispatches(n)[1..] == Dispatches(n - 1);
      DispatchesArePolite(Next(s, DispatchNext), n - 1);
    }
  }

  /** A callback that detaches a handler lets the callbacks after it run into the assertion
      exactly when that handler is still to be called back for. */
  lemma DetachInCallback(run: seq<Event>, h: int)
    requires Possible(Initial(), run) && AllPolite(Initial(), run)
    requires var s := After(Initial(), run); s.phase.Dispatching? && Enabled(s, LoopDetach(h))
    ensures
      var s := After(Initial(), run);
      var t := Next(s, LoopDetach(h));
      (exists n: nat :: Possible(t, Dispatches(n)) && After(t, Dispatches(n)).phase.Aborted?) <==> h in Rest(s)
  {
    hide Possible, After, AllPolite;
    ReachedPolitely(run);
    var s := After(Initial(), run);
    var t := Next(s, LoopDetach(h));
    if h in Rest(s) {
      var n := DispatchAborts(t, h);
    } else {
      SoundStep(s, LoopDetach(h));
      RestKnownStep(s, LoopDetach(h));
      forall n: nat | Possible(t, Dispatches(n))
        ensures !After(t, Dispatches(n)).phase.Aborted?
      {
        DispatchesArePolite(t, n);
        AlwaysKnown(t, Dispatches(n));
      }
    }
  }

  /** The state after the loop thread attached two handlers for reading before `Run`. */
  function TwoHandlers(): State {
    Initial().(reg := Register(Tables({WAKE, 5, 6}, map[5 := EVENT_READ, 6 := EVENT_READ]), {WAKE, 5, 6},
                               map[5 := EVENT_READ, 6 := EVENT_READ], {WAKE, 5, 6}))
  }

  lemma SecondAttached(s: State)
    requires s == Next(Initial(), LoopAttach(5))
    ensures
      && Enabled(s, LoopAttach(6))
      && Next(s, LoopAttach(6)) ==
         Initial().(reg := Register(Tables({WAKE, 5, 6}, map[]), {WAKE, 5, 6}, map[5 := 0, 6 := 0], {WAKE, 5, 6}))
  {
  }

  lemma BothSet(s: State)
    requires s.reg == Register(Tables({WAKE, 5, 6}, map[]), {WAKE, 5, 6}, map[5 := 0, 6 := 0], {WAKE, 5, 6})
    requires s == Initial().(reg := s.reg)
    ensures
      && Enabled(s, LoopSet(5, EVENT_READ)) && Enabled(Next(s, LoopSet(5, EVENT_READ)), LoopSet(6, EVENT_READ))
      && Next(Next(s, LoopSet(5, EVENT_READ)), LoopSet(6, EVENT_READ)) == TwoHandlers()
  {
    var t := Next(s, LoopSet(5, EVENT_READ));
    assert t.reg.events == map[5 := EVENT_READ, 6 := 0];
    assert Next(t, LoopSet(6, EVENT_READ)).reg == TwoHandlers().reg;
  }

  lemma TwoAttached()
    ensures
      var run := [LoopAttach(5), LoopAttach(6), LoopSet(5, EVENT_READ), LoopSet(6, EVENT_READ)];
      Possible(Initial(), run) && After(Initial(), run) == TwoHandlers()
  {
    assert Enabled(Initial(), LoopAttach(5));
    hide Possible, After, Next, Enabled;
    var s := Next(Initial(), LoopAttach(5));
    SecondAttached(s);
    BothSet(Next(s, LoopAttach(6)));
    Four(Initial(), LoopAttach(5), LoopAttach(6), LoopSet(5, EVENT_READ), LoopSet(6, EVENT_READ));
  }

  /** From there, a run in which the callback of one handler detaches the other, active too. */
  lemma CallbackDetachesOther()
    ensures
      var run := [StartRun] + ([Check] + ([Enter, SelectReturn([5, 6]), DispatchNext] + [LoopDetach(6), DispatchNext]));
      Possible(TwoHandlers(), run) && After(TwoHandlers(), run).phase.Aborted?
  {
    hide Possible, After;
    var s := Next(TwoHandlers(), StartRun);
    var t := Next(s, Check);
    BothActive(t);
    var run := [Enter, SelectReturn([5, 6]), DispatchNext] + [LoopDetach(6), DispatchNext];
    First(s, Check, run);
    First(TwoHandlers(), StartRun, [Check] + run);
  }

  lemma LastDetached(s: State, h: int)
    requires s.phase == Dispatching([h]) && LoopThread !in s.wakeup.wakers && h in s.reg.locals && h != WAKE
    ensures Possible(s, [LoopDetach(h), DispatchNext]) && After(s, [LoopDetach(h), DispatchNext]).phase.Aborted?
  {
    hide Possible, After;
    var t := Next(s, LoopDetach(h));
    assert t.phase == s.phase && h !in t.reg.tables.handlers;
    One(t, DispatchNext);
    First(s, LoopDetach(h), [DispatchNext]);
    assert [LoopDetach(h)] + [DispatchNext] == [LoopDetach(h), DispatchNext];
  }

  lemma BothActive(s: State)
    requires s.phase.Entering? && LoopThread !in s.wakeup.wakers && s.wakeup.pipe == 0
    requires {5, 6} <= s.reg.tables.handlers && {5, 6} <= s.reg.tables.selector.Keys && 6 in s.reg.locals
    ensures
      var run := [Enter, SelectReturn([5, 6]), DispatchNext] + [LoopDetach(6), DispatchNext];
      Possible(s, run) && After(s, run).phase.Aborted?
  {
    hide Possible, After;
    var t := Next(Next(Next(s, Enter), SelectReturn([5, 6])), DispatchNext);
    assert t == s.(phase := Dispatching([6]));
    LastDetached(t, 6);
    Three(s, Enter, SelectReturn([5, 6]), DispatchNext, [LoopDetach(6), DispatchNext]);
  }

  /** What the selector watches is what handlers ask for: a socket of interest has a
      handler, and unless an update is on its way the events are the current ones. */
  lemma SelectorAgrees(run: seq<Event>, h: int)
    requires Possible(Initial(), run)
    ensures
      var s := After(Initial(), run);
      && (h in s.reg.tables.selector ==> h in s.reg.tables.handlers)
      && (h in s.reg.tables.handlers && !OwnerAt(s, h).Changed?
          && Update(h) !in s.work.batch && Update(h) !in s.work.queue ==>
            InterestIn(s.reg.tables, h) == EventsOf(s.reg, h))
  {
    Reached(run);
    assert Settled(After(Initial(), run), h);
  }
}
