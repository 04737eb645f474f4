/**
 What each call on the event loop and its handlers comes to, over every run that contains
 the call: a detach waits for the loop, a functor queued is run, a handler constructed is
 attached, a change of events is watched, a stop is seen.
 */
module EventLoopCalls {
  import opened Bytes
  import opened Selector
  import opened EventLoopSteps
  import opened EventLoopSafety
  import opened EventLoopLife
  import opened EventLoopRuns
  import opened EventLoopTraces
  import opened EventLoopTheorems
  import opened EventLoopProgress

  // ------------------------------------------------------------------------ detach

  /** Where an owner inside `Detach`, or past it, can get without constructing again. */
  lemma OwnerStep(s: State, e: Event, h: int)
    requires Enabled(s, e) && e != Construct(h)
    ensures OwnerAt(s, h).Gone? ==> OwnerAt(Next(s, e), h) == OwnerAt(s, h)
    ensures OwnerAt(s, h).Waiting? ==>
              OwnerAt(Next(s, e), h) == if e == Return(h) then Gone(false) else Waiting
    ensures OwnerAt(s, h).Leaving? ==>
              OwnerAt(Next(s, e), h) == if e == PushDetach(h) then Waiting else Leaving
  {
    if !OwnerEvent(e) || e.h != h {
      OthersLeave(s, e, h);
    }
  }

  lemma OthersLeave(s: State, e: Event, h: int)
    requires Enabled(s, e) && !(OwnerEvent(e) && e.h == h)
    ensures OwnerAt(Next(s, e), h) == OwnerAt(s, h)
  {
    hide Reported, InUserCode, Published, Registered, Removed, Updated, Begin, End, Queued, Promised, Woken;
  }

  lemma {:induction false} GoneStays(s: State, run: seq<Event>, h: int)
    requires Possible(s, run) && Construct(h) !in run && OwnerAt(s, h).Gone?
    ensures OwnerAt(After(s, run), h) == OwnerAt(s, h)
    decreases |run|
  {
    hide Next, Enabled, OwnerAt;
    if run != [] {
      assert forall e :: e in run[1..] ==> e in run;
      OwnerStep(s, run[0], h);
      GoneStays(Next(s, run[0]), run[1..], h);
    }
  }

  lemma {:induction false} WaitingReturns(s: State, run: seq<Event>, h: int)
    requires Possible(s, run) && Construct(h) !in run && OwnerAt(s, h).Waiting?
    requires OwnerAt(After(s, run), h).Gone?
    ensures OwnerAt(After(s, run), h) == Gone(false) && Return(h) in run
    decreases |run|
  {
    hide Next, Enabled, OwnerAt;
    if run != [] {
      assert forall e :: e in run[1..] ==> e in run;
      OwnerStep(s, run[0], h);
      if run[0] == Return(h) {
        GoneStays(Next(s, run[0]), run[1..], h);
      } else {
        WaitingReturns(Next(s, run[0]), run[1..], h);
      }
    }
  }

  lemma {:induction false} LeavingWaits(s: State, run: seq<Event>, h: int)
    requires Possible(s, run) && Construct(h) !in run && OwnerAt(s, h).Leaving?
    requires OwnerAt(After(s, run), h).Gone?
    ensures OwnerAt(After(s, run), h) == Gone(false) && PushDetach(h) in run && Return(h) in run
    ensures Detach(h) in After(s, run).work.pushed
    decreases |run|
  {
    hide Next, Enabled, OwnerAt;
    if run != [] {
      assert forall e :: e in run[1..] ==> e in run;
      OwnerStep(s, run[0], h);
      if run[0] == PushDetach(h) {
        WaitingReturns(Next(s, run[0]), run[1..], h);
        PushedStep(s, run[0]);
        RanGrows(Next(s, run[0]), run[1..]);
        assert Detach(h) in Next(s, run[0]).work.pushed;
      } else {
        LeavingWaits(Next(s, run[0]), run[1..], h);
      }
    }
  }

  lemma LocalsStep(s: State, e: Event, h: int)
    requires Enabled(s, e) && e != LoopAttach(h) && h !in s.reg.locals
    ensures h !in Next(s, e).reg.locals
  {
    if e.LoopAttach? {
      assert e.h != h;
    } else if Registers(e) {
      hide Reported, InUserCode, OwnerAt, Registered, Removed, Updated, Begin, End;
    } else {
      hide Next, Enabled;
      RegisterFrame(s, e);
    }
  }

  lemma {:induction false} StaysForeign(s: State, run: seq<Event>, h: int)
    requires Possible(s, run) && LoopAttach(h) !in run && h !in s.reg.locals
    ensures h !in After(s, run).reg.locals
    decreases |run|
  {
    hide Next, Enabled;
    if run != [] {
      assert forall e :: e in run[1..] ==> e in run;
      LocalsStep(s, run[0], h);
      StaysForeign(Next(s, run[0]), run[1..], h);
    }
  }

  /** What `Detach` finds decides: on an attached handler it does not return at once. */
  lemma AskDetachLooks(s: State, h: int)
    requires Enabled(s, AskDetach(h))
    ensures
      var t := Next(s, AskDetach(h));
      && (OwnerAt(t, h).Gone? <==> h !in s.reg.live)
      && (h in s.reg.live ==> OwnerAt(t, h).Leaving? && Enabled(t, PushDetach(h)))
  {
  }

  /** A `Detach` called on an attached handler, once it has returned, has queued `DetachInLoop`,
      the loop has run it, and no table entry and no functor refers to the handler. Called on
      a handler that is not attached it returns at once. */
  lemma DetachDetaches(before: seq<Event>, after: seq<Event>, h: int)
    requires Possible(Initial(), before) && Enabled(After(Initial(), before), AskDetach(h))
    requires Possible(Next(After(Initial(), before), AskDetach(h)), after)
    requires Construct(h) !in after && LoopAttach(h) !in after
    ensures
      var s := After(Initial(), before);
      var t := Next(s, AskDetach(h));
      var u := After(t, after);
      && (OwnerAt(t, h).Gone? <==> h !in s.reg.live)
      && (h in s.reg.live && OwnerAt(u, h).Gone? ==>
            !Referenced(u, h) && PushDetach(h) in after && Return(h) in after && Detach(h) in u.work.ran)
  {
    var s := After(Initial(), before);
    AskDetachLooks(s, h);
    Foreign(s, h);
    hide Next, Enabled, OwnerAt, Pending, Life;
    Reached(before);
    var t := Next(s, AskDetach(h));
    var u := After(t, after);
    SoundStep(s, AskDetach(h));
    AlwaysSound(t, after);
    if h in s.reg.live && OwnerAt(u, h).Gone? {
      LeavingWaits(t, after, h);
      LocalsStep(s, AskDetach(h), h);
      StaysForeign(t, after, h);
      GoneIsUnknown(u, h);
      assert u.work.pushed == u.work.ran + Pending(u);
      assert !Mentions(Detach(h), h) ==> false;
    }
  }

  lemma Foreign(s: State, h: int)
    requires Enabled(s, AskDetach(h))
    ensures h !in s.reg.locals
  {
  }

  // ---------------------------------------------------------------- queue and attach

  /** A functor queued by any thread, or by a callback, has run after the loop has next
      swapped its queue and gone through that batch. */
  lemma QueuedRuns(run: seq<Event>, id: nat, loop: bool, before: seq<Event>, after: seq<Event>)
    requires Possible(Initial(), run)
    requires
      var s, e := After(Initial(), run), if loop then LoopPush(id) else Push(id);
      && Enabled(s, e) && Possible(Next(s, e), before)
      && var u := After(Next(s, e), before);
         Enabled(u, Swap) && Possible(Next(u, Swap), after) && EndRun in after
    ensures
      var s, e := After(Initial(), run), if loop then LoopPush(id) else Push(id);
      User(id) in After(Next(After(Next(s, e), before), Swap), after).work.ran
  {
    hide Next, Enabled, Possible, After, Sound;
    var s := After(Initial(), run);
    Reached(run);
    if loop {
      PushQueues(s, LoopPush(id), id);
      SoundStep(s, LoopPush(id));
      TurnRuns(Next(s, LoopPush(id)), before, after);
    } else {
      PushQueues(s, Push(id), id);
      SoundStep(s, Push(id));
      TurnRuns(Next(s, Push(id)), before, after);
    }
  }

  lemma PushQueues(s: State, e: Event, id: nat)
    requires Enabled(s, e) && (e == Push(id) || e == LoopPush(id))
    ensures User(id) in Next(s, e).work.pushed
  {
    hide Reported, InUserCode, OwnerAt, Registered, Removed, Updated, Begin, End;
    assert Next(s, e).work.pushed[|s.work.pushed|] == User(id);
  }

  lemma TurnRuns(s: State, before: seq<Event>, after: seq<Event>)
    requires Sound(s) && Possible(s, before)
    requires var u := After(s, before); Enabled(u, Swap) && Possible(Next(u, Swap), after) && EndRun in after
    ensures s.work.pushed <= After(Next(After(s, before), Swap), after).work.ran
  {
    hide Next, Enabled, Possible, After, AtEndOfBatch;
    AlwaysSound(s, before);
    RanGrows(s, before);
    SwapTakesAll(After(s, before));
    BatchRuns(Next(After(s, before), Swap), after);
  }

  /** How often a handler was to be attached. */
  function Attaches(h: int, fs: seq<Functor>): nat {
    if fs == [] then 0 else (if fs[0] == Attach(h) then 1 else 0) + Attaches(h, fs[1..])
  }

  lemma {:induction false} AttachesSum(h: int, a: seq<Functor>, b: seq<Functor>)
    ensures Attaches(h, a + b) == Attaches(h, a) + Attaches(h, b)
  {
    if a == [] {
      assert a + b == b;
    } else {
      assert (a + b)[1..] == a[1..] + b;
      AttachesSum(h, a[1..], b);
    }
  }

  lemma AttachesStep(s: State, e: Event, h: int)
    requires Enabled(s, e) && e != Construct(h)
    ensures Attaches(h, Next(s, e).work.pushed) == Attaches(h, s.work.pushed)
  {
    hide Next, Enabled;
    PushedStep(s, e);
    AttachesSum(h, s.work.pushed, QueuedBy(e));
    if QueuedBy(e) != [] {
      assert Attaches(h, QueuedBy(e)) == (if QueuedBy(e)[0] == Attach(h) then 1 else 0) + Attaches(h, []);
    }
  }

  lemma {:induction false} AttachesKept(s: State, run: seq<Event>, h: int)
    requires Possible(s, run) && Construct(h) !in run
    ensures Attaches(h, After(s, run).work.pushed) == Attaches(h, s.work.pushed)
    decreases |run|
  {
    hide Next, Enabled, Attaches;
    if run != [] {
      assert forall e :: e in run[1..] ==> e in run;
      AttachesStep(s, run[0], h);
      AttachesKept(Next(s, run[0]), run[1..], h);
    }
  }

  lemma {:induction false} AttachesAmong(h: int, fs: seq<Functor>)
    ensures Attach(h) in fs ==> Attaches(h, fs) > 0
  {
    if fs != [] {
      AttachesAmong(h, fs[1..]);
    }
  }

  /** Nothing is left to attach. */
  lemma NoAttachPending(v: State, h: int, queued: seq<Functor>)
    requires InOrder(v) && queued <= v.work.ran && Attaches(h, v.work.pushed) == Attaches(h, queued)
    ensures Attach(h) !in Pending(v)
  {
    hide Attaches, Pending;
    AttachesSum(h, v.work.ran, Pending(v));
    var more := v.work.ran[|queued|..];
    assert v.work.ran == queued + more;
    AttachesSum(h, queued, more);
    AttachesAmong(h, Pending(v));
  }

  lemma AttachedOrPending(v: State, h: int)
    requires Life(v, h) && h !in v.reg.locals && (OwnerAt(v, h).Ready? || OwnerAt(v, h).Changed?)
    requires Attach(h) !in Pending(v)
    ensures h in v.reg.live
  {
    if h !in v.reg.live {
      var f := About(h, Pending(v))[0];
      AboutKeeps(h, Pending(v), f);
    }
  }

  /** A handler constructed on another thread is attached after the loop has next swapped its
      queue and gone through that batch, as long as its owner has not called `Detach`. */
  lemma ConstructAttaches(run: seq<Event>, h: int, before: seq<Event>, after: seq<Event>)
    requires Possible(Initial(), run)
    requires
      var s := After(Initial(), run);
      && Enabled(s, Construct(h)) && Possible(Next(s, Construct(h)), before)
      && var u := After(Next(s, Construct(h)), before);
         Enabled(u, Swap) && Possible(Next(u, Swap), after) && EndRun in after
    requires Construct(h) !in before && Construct(h) !in after
    ensures
      var v := After(Next(After(Next(After(Initial(), run), Construct(h)), before), Swap), after);
      (OwnerAt(v, h).Ready? || OwnerAt(v, h).Changed?) && h !in v.reg.locals ==> h in v.reg.live
  {
    var s := After(Initial(), run);
    hide Next, Enabled, Attaches, Pending, OwnerAt;
    Reached(run);
    SoundStep(s, Construct(h));
    var t := Next(s, Construct(h));
    TurnRuns(t, before, after);
    var u := After(t, before);
    var w := Next(u, Swap);
    var v := After(w, after);
    AlwaysSound(t, before);
    SoundStep(u, Swap);
    AlwaysSound(w, after);
    AttachesKept(t, before, h);
    AttachesStep(u, Swap, h);
    AttachesKept(w, after, h);
    NoAttachPending(v, h, t.work.pushed);
    if (OwnerAt(v, h).Ready? || OwnerAt(v, h).Changed?) && h !in v.reg.locals {
      AttachedOrPending(v, h);
    }
  }

  // ------------------------------------------------------------------ events and stop

  /** A step that sets the events of a handler. */
  predicate SetsEvents(e: Event, h: int) {
    (e.StartRun? && h == WAKE) || ((e.Construct? || e.Change? || e.LoopAttach? || e.LoopSet?) && e.h == h)
  }

  lemma EventsStep(s: State, e: Event, h: int)
    requires Enabled(s, e) && !SetsEvents(e, h)
    ensures EventsOf(Next(s, e).reg, h) == EventsOf(s.reg, h)
  {
    hide Reported, InUserCode, OwnerAt, Registered, Removed, Updated, Begin, End;
  }

  lemma {:induction false} EventsStay(s: State, run: seq<Event>, h: int)
    requires Possible(s, run) && forall e :: e in run ==> !SetsEvents(e, h)
    ensures EventsOf(After(s, run).reg, h) == EventsOf(s.reg, h)
    decreases |run|
  {
    hide Next, Enabled, SetsEvents, EventsOf;
    if run != [] {
      assert run[0] in run && forall e :: e in run[1..] ==> e in run;
      EventsStep(s, run[0], h);
      EventsStay(Next(s, run[0]), run[1..], h);
    }
  }

  lemma ChangeSets(s: State, h: int, ev: Events, loop: bool)
    requires Enabled(s, if loop then LoopSet(h, ev) else Change(h, ev))
    ensures EventsOf(Next(s, if loop then LoopSet(h, ev) else Change(h, ev)).reg, h) == ev
  {
  }

  /** A new handler asks for nothing. */
  lemma ConstructSets(s: State, h: int, loop: bool)
    requires Enabled(s, if loop then LoopAttach(h) else Construct(h))
    ensures EventsOf(Next(s, if loop then LoopAttach(h) else Construct(h)).reg, h) == 0
  {
  }

  /** An owner between two steps of its program can take the next. */
  lemma OwnerGoesOn(s: State, h: int, ev: Events)
    requires !s.phase.Aborted? && h !in s.reg.locals
    ensures OwnerOf(h) in s.wakeup.wakers ==> Enabled(s, OwnerWake(h))
    ensures OwnerOf(h) !in s.wakeup.wakers ==>
              && (OwnerAt(s, h) == Gone(false) ==> Enabled(s, Construct(h)))
              && (OwnerAt(s, h).Ready? ==> Enabled(s, Change(h, ev)) && Enabled(s, AskDetach(h)))
              && (OwnerAt(s, h).Changed? ==> Enabled(s, PushUpdate(h)))
              && (OwnerAt(s, h).Leaving? ==> Enabled(s, PushDetach(h)))
              && (OwnerAt(s, h).Waiting? && h !in s.reg.live ==> Enabled(s, Return(h)))
  {
  }

  /** The events an owner, or code on the loop thread, last gave a handler are those the
      selector watches, once the handler is registered and no update is on its way. */
  lemma ChangeIsWatched(run: seq<Event>, h: int, ev: Events, loop: bool, after: seq<Event>)
    requires Possible(Initial(), run)
    requires
      var s, e := After(Initial(), run), if loop then LoopSet(h, ev) else Change(h, ev);
      Enabled(s, e) && Possible(Next(s, e), after)
    requires forall e :: e in after ==> !SetsEvents(e, h)
    ensures
      var v := After(Next(After(Initial(), run), if loop then LoopSet(h, ev) else Change(h, ev)), after);
      && h in v.reg.tables.handlers && !OwnerAt(v, h).Changed?
      && Update(h) !in v.work.batch && Update(h) !in v.work.queue ==>
        InterestIn(v.reg.tables, h) == ev
  {
    var s, e := After(Initial(), run), if loop then LoopSet(h, ev) else Change(h, ev);
    hide Next, Enabled, SetsEvents, EventsOf, InterestIn;
    Reached(run);
    SoundStep(s, e);
    AlwaysSound(Next(s, e), after);
    ChangeSets(s, h, ev, loop);
    EventsStay(Next(s, e), after, h);
    assert Settled(After(Next(s, e), after), h);
  }

  /** After `Stop`, from any thread, `_stop` is set until `Run` is called again, and the loop
      enters `select` at most once more. */
  lemma StopStops(run: seq<Event>, loop: bool, after: seq<Event>)
    requires Possible(Initial(), run)
    requires
      var s, e := After(Initial(), run), if loop then LoopStop else StopSet;
      Enabled(s, e) && Possible(Next(s, e), after) && StartRun !in after
    ensures
      var t := Next(After(Initial(), run), if loop then LoopStop else StopSet);
      && t.stop && After(t, after).stop
      && Entries(after) <= (if t.phase.Entering? then 1 else 0)
      && (Check in after ==> After(t, after).phase.Outside?)
  {
    var s, e := After(Initial(), run), if loop then LoopStop else StopSet;
    var t := Next(s, e);
    assert t.stop;
    hide Next, Enabled;
    StopEntersOnce(t, after);
    if Check in after {
      StopLeaves(t, after);
    }
  }

  // ---------------------------------------------------------------------- callbacks

  /** The sockets called back for in a run, in order. */
  function CalledBack(s: State, run: seq<Event>): seq<int>
    requires Possible(s, run)
    decreases |run|
  {
    if run == [] then []
    else (if run[0].DispatchNext? then [Rest(s)[0]] else []) + CalledBack(Next(s, run[0]), run[1..])
  }

  lemma DispatchStep(s: State, e: Event)
    requires s.phase.Dispatching? && Enabled(s, e)
    ensures
      var t := Next(s, e);
      if e.DispatchNext? then t.phase.Aborted? || (t.phase.Dispatching? && t.phase.rest == s.phase.rest[1..])
      else if e.EndDispatch? then s.phase.rest == [] && t.phase.Swapping?
      else t.phase == s.phase
  {
    hide Reported, OwnerAt, Registered, Removed, Updated, Begin, End;
  }

  /** Callbacks go through the sockets in order, one each. */
  lemma {:induction false} RestCalledBack(s: State, run: seq<Event>)
    requires s.phase.Dispatching? && Possible(s, run) && EndDispatch !in run
    ensures
      var t := After(s, run);
      t.phase.Aborted? || (t.phase.Dispatching? && CalledBack(s, run) + t.phase.rest == s.phase.rest)
    decreases |run|
  {
    hide Next, Enabled;
    if run != [] {
      assert forall e :: e in run[1..] ==> e in run;
      DispatchStep(s, run[0]);
      DispatchNeedsRest(s, run[0]);
      var t := Next(s, run[0]);
      if t.phase.Aborted? {
        AbortedEnds(t, run[1..]);
      } else {
        RestCalledBack(t, run[1..]);
        if run[0].DispatchNext? {
          assert s.phase.rest == [s.phase.rest[0]] + s.phase.rest[1..];
        }
      }
    }
  }

  /** Exactly the sockets that `select` reported are called back for, in its order and each
      once, before the queue is swapped, unless the assertion failed. */
  lemma AllCalledBack(s: State, active: seq<int>, run: seq<Event>)
    requires Enabled(s, SelectReturn(active)) && Possible(Next(s, SelectReturn(active)), run) && EndDispatch !in run
    ensures
      var t := Next(s, SelectReturn(active));
      var u := After(t, run);
      || u.phase.Aborted?
      || (u.phase.Dispatching? && CalledBack(t, run) <= active
          && (Enabled(u, EndDispatch) ==> CalledBack(t, run) == active))
  {
    var t := Next(s, SelectReturn(active));
    assert t.phase == Dispatching(active);
    RestCalledBack(t, run);
    var u := After(t, run);
    if Enabled(u, EndDispatch) {
      assert u.phase.rest == [] && CalledBack(t, run) + [] == CalledBack(t, run);
    }
  }

  lemma DispatchNeedsRest(s: State, e: Event)
    requires Enabled(s, e)
    ensures e.DispatchNext? ==> Rest(s) != []
  {
  }

  lemma AbortedEnds(s: State, run: seq<Event>)
    requires s.phase.Aborted? && Possible(s, run)
    ensures run == []
  {
  }
}
