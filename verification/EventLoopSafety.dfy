/**
 What every run of the event loop keeps: functors run exactly once and in order, no
 wakeup is lost, a stop is obeyed, and what the loop dispatches agrees with its tables.
 */
module EventLoopSafety {
  import opened Bytes
  import opened Selector
  import opened EventLoopSteps

  function Started(s: State): seq<Functor> {
    match s.work.current
    case None => []
    case Some(f) => [f]
  }

  /** Queued functors that have not finished, oldest first. */
  function Pending(s: State): seq<Functor> {
    Started(s) + s.work.batch + s.work.queue
  }

  /** What a step appends to the queue. */
  function QueuedBy(e: Event): seq<Functor> {
    match e
    case LoopPush(id) => [User(id)]
    case Push(id) => [User(id)]
    case Construct(h) => [Attach(h)]
    case PushUpdate(h) => [Update(h)]
    case PushDetach(h) => [Detach(h)]
    case _ => []
  }

  // --------------------------------------------------- what each step leaves alone

  /** Steps that change the tables, the flags or the events. */
  predicate Registers(e: Event) {
    e.StartRun? || e.RunNext? || e.Finish? || e.LoopAttach? || e.LoopSet? || e.LoopDetach? || e.Construct? || e.Change?
  }

  lemma WorkFrame(s: State, e: Event)
    requires Enabled(s, e)
    ensures !e.RunNext? && !e.Finish? && !e.Swap? && QueuedBy(e) == [] ==> Next(s, e).work == s.work
    ensures QueuedBy(e) != [] ==> Next(s, e).work == Queued(s.work, QueuedBy(e)[0])
    ensures !e.RunNext? && !e.Finish? ==> Next(s, e).work.current == s.work.current
  {
    hide Reported, OwnerAt, InUserCode, Rest, Published, Registered, Removed, Begin, End, Promised, Woken, Registers;
  }

  lemma RegisterFrame(s: State, e: Event)
    requires Enabled(s, e) && !Registers(e)
    ensures Next(s, e).reg == s.reg
  {
    hide Reported, OwnerAt, InUserCode, Rest, Promised, Woken, Queued;
  }

  // ----------------------------------------------------------- exactly once, in order

  predicate InOrder(s: State) {
    s.work.pushed == s.work.ran + Pending(s) && BatchOnlyRunning(s)
  }

  lemma QueuedAppends(s: State, f: Functor)
    ensures Pending(s.(work := Queued(s.work, f))) == Pending(s) + [f]
  {
  }

  lemma SamePending(s: State, t: State)
    requires s.work == t.work
    ensures Pending(s) == Pending(t)
  {
  }

  lemma PendingStart(s: State)
    requires InOrder(s) && Enabled(s, RunNext)
    ensures Pending(Next(s, RunNext)) == Pending(s)
  {
    assert s.work.batch == [s.work.batch[0]] + s.work.batch[1..];
  }

  lemma PendingSwap(s: State)
    requires InOrder(s) && Enabled(s, Swap)
    ensures Pending(Next(s, Swap)) == Pending(s)
  {
  }

  lemma PendingFinish(s: State)
    requires Enabled(s, Finish)
    ensures Pending(s) == [s.work.current.value] + Pending(Next(s, Finish))
  {
  }

  /** Pending functors leave at the front when they finish and enter at the back. */
  lemma PendingStep(s: State, e: Event)
    requires InOrder(s) && Enabled(s, e)
    ensures e.Finish? ==> Pending(s) == [s.work.current.value] + Pending(Next(s, e))
    ensures !e.Finish? ==> Pending(Next(s, e)) == Pending(s) + QueuedBy(e)
  {
    hide Next, Enabled, Pending, InOrder;
    if e.Finish? {
      PendingFinish(s);
    } else if e.RunNext? {
      PendingStart(s);
    } else if e.Swap? {
      PendingSwap(s);
    } else {
      WorkFrame(s, e);
      if QueuedBy(e) != [] {
        QueuedAppends(s, QueuedBy(e)[0]);
        SamePending(Next(s, e), s.(work := Queued(s.work, QueuedBy(e)[0])));
      } else {
        SamePending(Next(s, e), s);
      }
    }
  }

  /** Outside `Running` no batch is under way. */
  predicate BatchOnlyRunning(s: State) {
    !s.phase.Running? ==> s.work.batch == [] && s.work.current.None?
  }

  lemma BatchStep(s: State, e: Event)
    requires BatchOnlyRunning(s) && Enabled(s, e)
    ensures BatchOnlyRunning(Next(s, e))
  {
    hide Reported, OwnerAt, InUserCode, Published, Registered, Removed, Begin, End;
  }

  lemma PushedStep(s: State, e: Event)
    requires Enabled(s, e)
    ensures Next(s, e).work.pushed == s.work.pushed + QueuedBy(e)
    ensures Next(s, e).work.ran == s.work.ran + if e.Finish? then [s.work.current.value] else []
  {
    if !e.RunNext? && !e.Finish? && !e.Swap? {
      hide Next, Enabled;
      WorkFrame(s, e);
    }
  }

  lemma InOrderStep(s: State, e: Event)
    requires InOrder(s) && Enabled(s, e)
    ensures InOrder(Next(s, e))
  {
    hide Pending, Next, Enabled;
    PendingStep(s, e);
    BatchStep(s, e);
    PushedStep(s, e);
  }

  // ---------------------------------------------------------------- no lost wakeup

  /** Unless a swap is bound to follow, every queued functor has its own byte, or a
      thread about to write that byte, or was queued outside `Run`. */
  predicate Covered(s: State) {
    !s.phase.Dispatching? && !s.phase.Swapping? && !s.phase.Aborted? ==>
      |s.work.queue| <= s.wakeup.pipe + |s.wakeup.wakers| + s.wakeup.silent
  }

  lemma CoveredStep(s: State, e: Event)
    requires Covered(s) && Enabled(s, e)
    ensures Covered(Next(s, e))
  {
  }

  /** How many functors of users are among them. */
  function Users(fs: seq<Functor>): (n: nat)
    ensures n <= |fs|
  {
    if fs == [] then 0 else (if fs[0].User? then 1 else 0) + Users(fs[1..])
  }

  lemma {:induction false} UsersSum(a: seq<Functor>, b: seq<Functor>)
    ensures Users(a + b) == Users(a) + Users(b)
  {
    if a == [] {
      assert a + b == b;
    } else {
      assert (a + b)[1..] == a[1..] + b;
      UsersSum(a[1..], b);
    }
  }

  /** What was queued without a byte is still in the queue, and it is of users. */
  predicate SilentQueued(s: State) {
    s.wakeup.silent <= Users(s.work.queue)
  }

  lemma SilentQueuedStep(s: State, e: Event)
    requires SilentQueued(s) && Enabled(s, e)
    ensures SilentQueued(Next(s, e))
  {
    UsersSum(s.work.queue, QueuedBy(e));
    if e.LoopPush? {
      assert Users(QueuedBy(e)) == 1 + Users([]);
    }
    if !e.Swap? {
      QueueGrows(s, e);
    }
  }

  lemma QueueGrows(s: State, e: Event)
    requires Enabled(s, e) && !e.Swap?
    ensures Next(s, e).work.queue == s.work.queue + QueuedBy(e)
    ensures Next(s, e).wakeup.silent == s.wakeup.silent
            || (e.LoopPush? && Next(s, e).wakeup.silent == s.wakeup.silent + 1)
  {
    hide Reported, OwnerAt, InUserCode, Rest, Published, Registered, Removed, Begin, End;
  }

  /** The loop thread writes its own wakeup byte before it goes on. */
  predicate WakesItself(s: State) {
    LoopThread in s.wakeup.wakers ==> s.phase.Running?
  }

  lemma WakesItselfStep(s: State, e: Event)
    requires WakesItself(s) && Enabled(s, e)
    ensures WakesItself(Next(s, e))
  {
  }

  // -------------------------------------------------------------------------- stop

  /** A loop that has not noticed `_stop` yet will not sleep. */
  predicate StopSeen(s: State) {
    s.stop && (s.phase.Entering? || s.phase.Blocked?) ==> s.wakeup.pipe + s.wakeup.stoppers >= 1
  }

  lemma StopSeenStep(s: State, e: Event)
    requires StopSeen(s) && Enabled(s, e)
    ensures StopSeen(Next(s, e))
  {
  }

  /** How often a run enters `select`. */
  function Entries(run: seq<Event>): nat {
    if run == [] then 0 else (if run[0].Enter? then 1 else 0) + Entries(run[1..])
  }

  /** Once `_stop` is set, `select` is entered only by a loop already past its test, and
      only once. */
  lemma {:induction false} StopEntersOnce(s: State, run: seq<Event>)
    requires Possible(s, run) && s.stop && StartRun !in run
    ensures After(s, run).stop
    ensures Entries(run) <= if s.phase.Entering? then 1 else 0
    decreases |run|
  {
    if run != [] {
      assert run[0] != StartRun && forall e :: e in run[1..] ==> e in run;
      StopEntersOnce(Next(s, run[0]), run[1..]);
    }
  }

  /** Once `_stop` is set, the next test of it ends the run of the loop. */
  lemma {:induction false} StopLeaves(s: State, run: seq<Event>)
    requires Possible(s, run) && StartRun !in run
    requires s.phase.Outside? || (s.stop && Check in run)
    ensures After(s, run).phase.Outside?
    decreases |run|
  {
    if run != [] {
      assert run[0] != StartRun && forall e :: e in run[1..] ==> e in run;
      assert run[0] != Check && Check in run ==> Check in run[1..];
      OutsideOrStopped(s, run[0]);
      StopLeaves(Next(s, run[0]), run[1..]);
    }
  }

  lemma OutsideOrStopped(s: State, e: Event)
    requires Enabled(s, e) && !e.StartRun?
    ensures s.phase.Outside? ==> Next(s, e).phase.Outside?
    ensures s.stop ==> Next(s, e).stop && (e.Check? ==> Next(s, e).phase.Outside?)
  {
  }

  // ------------------------------------------------------------------------ tables

  /** `_detached` follows the handler table but for the functor that is between the two. */
  ghost predicate Follows(current: Option<Functor>, r: Register) {
    && (forall h :: current == Some(Attach(h)) ==> h in r.tables.handlers)
    && (forall h :: current == Some(Detach(h)) ==> h !in r.tables.handlers)
    && (forall h :: current != Some(Attach(h)) && current != Some(Detach(h)) ==>
          (h in r.live <==> h in r.tables.handlers))
  }

  ghost predicate FlagsFollow(s: State) {
    Follows(s.work.current, s.reg)
  }

  lemma FlagsFollowStep(s: State, e: Event)
    requires FlagsFollow(s) && InOrder(s) && Enabled(s, e)
    ensures FlagsFollow(Next(s, e))
  {
    hide Pending;
    if e.RunNext? {
    } else if e.Finish? {
    } else if e.LoopAttach? {
    } else if e.LoopDetach? {
    } else {
      FlagsFollowElse(s, e);
    }
  }

  lemma FlagsFollowElse(s: State, e: Event)
    requires FlagsFollow(s) && Enabled(s, e) && !e.RunNext? && !e.Finish? && !e.LoopAttach? && !e.LoopDetach?
    ensures FlagsFollow(Next(s, e))
  {
    WorkFrame(s, e);
    if e.StartRun? || e.LoopSet? || e.Construct? || e.Change? {
      assert Next(s, e).reg.live == s.reg.live && Next(s, e).reg.tables.handlers == s.reg.tables.handlers;
    } else {
      hide Next, Enabled;
      RegisterFrame(s, e);
    }
  }

  /** No queued functor is about a handler of the loop thread. */
  predicate ForeignOnly(s: State, fs: seq<Functor>) {
    forall f :: f in fs && !f.User? ==> f.h !in s.reg.locals
  }

  predicate RegisterAgrees(r: Register) {
    && r.tables.selector.Keys <= r.tables.handlers
    && (forall h :: h in r.tables.selector ==> r.tables.selector[h] != 0)
    && WAKE in r.tables.handlers && WAKE in r.locals
  }

  predicate TablesAgree(s: State) {
    RegisterAgrees(s.reg) && (!s.phase.Outside? ==> WAKE in s.reg.tables.selector)
  }

  lemma BeginAgrees(s: State)
    requires TablesAgree(s) && ForeignOnly(s, Pending(s)) && InOrder(s) && Enabled(s, RunNext)
    ensures TablesAgree(Next(s, RunNext))
  {
    assert s.work.batch[0] in Pending(s);
  }

  lemma TablesAgreeStep(s: State, e: Event)
    requires TablesAgree(s) && ForeignOnly(s, Pending(s)) && InOrder(s) && Enabled(s, e)
    ensures TablesAgree(Next(s, e))
  {
    hide Pending, InOrder, ForeignOnly;
    if e.RunNext? {
      BeginAgrees(s);
    } else if e.Finish? {
    } else if Registers(e) {
      RegistersAgree(s, e);
    } else {
      hide RegisterAgrees;
      RegisterFrame(s, e);
    }
  }

  lemma RegistersAgree(s: State, e: Event)
    requires TablesAgree(s) && Enabled(s, e) && Registers(e) && !e.RunNext? && !e.Finish?
    ensures TablesAgree(Next(s, e))
  {
    if e.StartRun? {
    } else if e.LoopAttach? {
    } else if e.LoopSet? {
    } else if e.LoopDetach? {
    } else {
    }
  }

  /** Each socket still to be called back for is met once, and the wakeup callback will find
      a byte. */
  predicate RestAgrees(s: State) {
    Distinct(Rest(s)) && (WAKE in Rest(s) ==> s.wakeup.pipe > 0)
  }

  lemma RestAgreesStep(s: State, e: Event)
    requires RestAgrees(s) && TablesAgree(s) && Enabled(s, e)
    ensures RestAgrees(Next(s, e))
  {
    if e.DispatchNext? {
      assert Rest(s)[0] in Rest(s);
      if Rest(s)[0] == WAKE {
        assert WAKE !in Rest(s)[1..];
      }
    } else if e.SelectReturn? {
    } else {
      RestFrame(s, e);
    }
  }

  lemma RestFrame(s: State, e: Event)
    requires Enabled(s, e) && !e.DispatchNext? && !e.SelectReturn?
    ensures Rest(Next(s, e)) == Rest(s) && Next(s, e).wakeup.pipe >= s.wakeup.pipe
    ensures !Next(s, e).phase.Aborted?
  {
    hide Reported, OwnerAt, InUserCode, Published, Registered, Removed, Begin, End, Queued;
  }

  /** Each socket still to be called back for has a handler. */
  predicate RestKnown(s: State) {
    !s.phase.Aborted? && forall h :: h in Rest(s) ==> h in s.reg.tables.handlers
  }

  lemma RestKnownStep(s: State, e: Event)
    requires RestKnown(s) && TablesAgree(s) && Enabled(s, e) && Polite(s, e)
    ensures RestKnown(Next(s, e))
  {
    if e.DispatchNext? {
      assert Rest(s)[0] in Rest(s);
    } else if e.SelectReturn? {
    } else if Registers(e) {
      RestFrame(s, e);
      RestKnownRegister(s, e);
    } else {
      hide Next, Enabled;
      RestFrame(s, e);
      RegisterFrame(s, e);
    }
  }

  lemma RestKnownRegister(s: State, e: Event)
    requires RestKnown(s) && Enabled(s, e) && Registers(e) && Polite(s, e)
    ensures forall h :: h in Rest(s) ==> h in Next(s, e).reg.tables.handlers
  {
    if e.LoopDetach? {
    } else if e.RunNext? {
    } else {
      assert s.reg.tables.handlers <= Next(s, e).reg.tables.handlers;
    }
  }
}
