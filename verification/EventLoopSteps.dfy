/**
 The event loop of netb/EventLoop.cpp and the handlers of netb/EventHandler.cpp as a
 state machine. Every step is one that a thread takes without another thread being
 able to interfere: one critical section, one access to a shared flag, one byte on
 the wakeup pipe. A run is any interleaving of steps of the loop thread, of the
 owners of handlers, of threads that queue functors and of threads that stop the loop.
 */
module EventLoopSteps {
  import opened Bytes
  import opened Selector

  /** What the loop knows about handlers. A handler is named by its socket. */
  datatype Tables = Tables(handlers: set<int>, selector: map<int, Events>)

  /** `SocketSelector::Set` on the map a selector stands for. */
  function SetInterest(m: map<int, Events>, h: int, e: Events): map<int, Events> {
    if e == 0 then m - {h} else m[h := e]
  }

  function Registered(t: Tables, h: int, e: Events): Tables {
    Tables(t.handlers + {h}, SetInterest(t.selector, h, e))
  }

  function Updated(t: Tables, h: int, e: Events): Tables {
    if h in t.handlers then t.(selector := SetInterest(t.selector, h, e)) else t
  }

  function Removed(t: Tables, h: int): Tables {
    Tables(t.handlers - {h}, t.selector - {h})
  }

  /** A queued function: one of the three a handler queues, or a user's. */
  datatype Functor = Attach(h: int) | Update(h: int) | Detach(h: int) | User(id: nat)

  /**
   Where the loop thread is: not in `Run`; at `while(!_stop)`; past that test; inside
   `select`; calling back for the sockets `rest`; about to swap the queue; running the
   functors it swapped out. The assertion that a reported socket has a handler ends the
   process.
   */
  datatype Phase =
    Outside | Checking | Entering | Blocked | Dispatching(rest: seq<int>) | Swapping | Running | Aborted

  /**
   Where the owner of a handler is: it has none (`early` when `Detach` returned although
   the handler had not been attached yet); between calls; after changing `_events` and
   before queueing `UpdateInLoop`; inside `Detach` after seeing the handler attached;
   waiting for the condition.
   */
  datatype Owner = Gone(early: bool) | Ready | Changed | Leaving | Waiting

  /** A thread that queued a functor and has not written its wakeup byte yet. */
  datatype Who = Producer | OwnerOf(h: int) | LoopThread

  /** Functors waiting, swapped out and running, and as history every functor ever queued
      and every functor that finished. */
  datatype Work = Work(queue: seq<Functor>, batch: seq<Functor>, current: Option<Functor>,
                       pushed: seq<Functor>, ran: seq<Functor>)

  /** Unread bytes of the pipe, threads about to write one for a functor and from inside
      `Stop`, and as history how many functors the loop thread queued outside `Run` since
      the queue was last swapped. */
  datatype Wakeup = Wakeup(pipe: nat, wakers: multiset<Who>, stoppers: nat, silent: nat)

  /** The tables, the handlers whose `_detached` is false, their `_events`, and the
      handlers constructed on the loop thread. */
  datatype Register = Register(tables: Tables, live: set<int>, events: map<int, Events>, locals: set<int>)

  datatype State = State(phase: Phase, stop: bool, work: Work, wakeup: Wakeup, reg: Register, owners: map<int, Owner>)

  /** The socket of the loop's own wakeup handler. */
  const WAKE: int := 0

  datatype Event =
    // the loop thread in Run
    | StartRun | Check | Enter | SelectReturn(active: seq<int>) | SelectFail
    | DispatchNext | EndDispatch | Swap | RunNext | Finish | EndRun
    // code of callbacks and functors on the loop thread
    | LoopPush(id: nat) | LoopWake | LoopStop
    | LoopAttach(h: int) | LoopSet(h: int, e: Events) | LoopDetach(h: int)
    // other threads
    | Push(id: nat) | Wake | StopSet | StopWake
    | Construct(h: int) | Change(h: int, e: Events) | PushUpdate(h: int)
    | AskDetach(h: int) | PushDetach(h: int) | OwnerWake(h: int) | Return(h: int)

  function Initial(): State {
    State(Outside, false, Work([], [], None, [], []), Wakeup(0, multiset{}, 0, 0),
          Register(Tables({WAKE}, map[]), {WAKE}, map[], {WAKE}), map[])
  }

  function OwnerAt(s: State, h: int): Owner {
    if h in s.owners then s.owners[h] else Gone(false)
  }

  function EventsOf(r: Register, h: int): Events {
    if h in r.events then r.events[h] else 0
  }

  function InterestIn(t: Tables, h: int): Events {
    if h in t.selector then t.selector[h] else 0
  }

  /** The sockets still to be called back for. */
  function Rest(s: State): seq<int> {
    if s.phase.Dispatching? then s.phase.rest else []
  }

  /** The loop thread executes code of its user: before or after `Run`, in a callback
      or in a queued functor. */
  predicate InUserCode(s: State) {
    s.phase.Outside? || s.phase.Dispatching? ||
    (s.phase.Running? && s.work.current.Some? && s.work.current.value.User?)
  }

  predicate LoopEvent(e: Event) {
    e.StartRun? || e.Check? || e.Enter? || e.SelectReturn? || e.SelectFail? || e.DispatchNext? || e.EndDispatch? ||
    e.Swap? || e.RunNext? || e.Finish? || e.EndRun? || e.LoopPush? || e.LoopStop? || e.LoopAttach? || e.LoopSet? ||
    e.LoopDetach?
  }

  predicate OwnerEvent(e: Event) {
    e.Construct? || e.Change? || e.PushUpdate? || e.AskDetach? || e.PushDetach? || e.Return?
  }

  /** What `select` may report: sockets of interest, each once, and the wakeup socket
      exactly when a byte is unread. */
  predicate Reported(s: State, active: seq<int>) {
    && active != [] && Distinct(active)
    && (forall h :: h in active ==> h in s.reg.tables.selector)
    && (WAKE in s.reg.tables.selector ==> (WAKE in active <==> s.wakeup.pipe > 0))
  }

  /** A thread is past every earlier step of its own program and no lock or wait holds it. */
  predicate Enabled(s: State, e: Event) {
    && !s.phase.Aborted?
    && (LoopEvent(e) ==> LoopThread !in s.wakeup.wakers)
    && (OwnerEvent(e) ==> OwnerOf(e.h) !in s.wakeup.wakers && e.h !in s.reg.locals)
    && match e
       case StartRun => s.phase.Outside?
       case Check => s.phase.Checking?
       case Enter => s.phase.Entering?
       case SelectReturn(active) => s.phase.Blocked? && Reported(s, active)
       case SelectFail => s.phase.Blocked?
       case DispatchNext => Rest(s) != []
       case EndDispatch => s.phase.Dispatching? && s.phase.rest == []
       case Swap => s.phase.Swapping?
       case RunNext => s.phase.Running? && s.work.current.None? && s.work.batch != []
       case Finish => s.phase.Running? && s.work.current.Some?
       case EndRun => s.phase.Running? && s.work.current.None? && s.work.batch == []
       case LoopPush(_) => InUserCode(s)
       case LoopWake => LoopThread in s.wakeup.wakers
       case LoopStop => InUserCode(s)
       case LoopAttach(h) => InUserCode(s) && h !in s.reg.locals && OwnerAt(s, h) == Gone(false)
       case LoopSet(h, _) => InUserCode(s) && h in s.reg.live && h != WAKE
       case LoopDetach(h) => InUserCode(s) && h in s.reg.locals && h != WAKE
       case Push(_) => true
       case Wake => Producer in s.wakeup.wakers
       case StopSet => true
       case StopWake => s.wakeup.stoppers > 0
       case Construct(h) => OwnerAt(s, h) == Gone(false)
       case Change(h, _) => OwnerAt(s, h).Ready?
       case PushUpdate(h) => OwnerAt(s, h).Changed?
       case AskDetach(h) => OwnerAt(s, h).Ready?
       case PushDetach(h) => OwnerAt(s, h).Leaving?
       case OwnerWake(h) => OwnerOf(h) in s.wakeup.wakers
       case Return(h) => OwnerAt(s, h).Waiting? && h !in s.reg.live
  }

  function Queued(w: Work, f: Functor): Work {
    w.(queue := w.queue + [f], pushed := w.pushed + [f])
  }

  function Promised(w: Wakeup, who: Who): Wakeup {
    w.(wakers := w.wakers + multiset{who})
  }

  function Woken(w: Wakeup, who: Who): Wakeup {
    w.(wakers := w.wakers - multiset{who}, pipe := w.pipe + 1)
  }

  /** The body of a functor up to the point where it publishes `_detached`. */
  function Begin(r: Register, f: Functor): Tables {
    match f
    case Attach(h) => Registered(r.tables, h, EventsOf(r, h))
    case Update(h) => Updated(r.tables, h, EventsOf(r, h))
    case Detach(h) => Removed(r.tables, h)
    case User(_) => r.tables
  }

  /** `_detached` after the functor. */
  function End(live: set<int>, f: Functor): set<int> {
    match f
    case Attach(h) => live + {h}
    case Detach(h) => live - {h}
    case _ => live
  }

  /** A handler changes its events on the loop thread and publishes them at once. */
  function Published(r: Register, h: int, e: Events): Register {
    r.(events := r.events[h := e], tables := Updated(r.tables, h, e))
  }

  function Next(s: State, e: Event): State
    requires Enabled(s, e)
  {
    match e
    case StartRun => s.(phase := Checking, stop := false, reg := Published(s.reg, WAKE, EVENT_READ))
    case Check => s.(phase := if s.stop then Outside else Entering)
    case Enter => s.(phase := Blocked)
    case SelectReturn(active) => s.(phase := Dispatching(active))
    case SelectFail => s.(phase := Swapping)
    case DispatchNext =>
      var h := s.phase.rest[0];
      if h !in s.reg.tables.handlers then s.(phase := Aborted)
      else
        s.(phase := Dispatching(s.phase.rest[1..]),
           wakeup := if h == WAKE && s.wakeup.pipe > 0 then s.wakeup.(pipe := s.wakeup.pipe - 1) else s.wakeup)
    case EndDispatch => s.(phase := Swapping)
    case Swap =>
      s.(phase := Running, work := s.work.(batch := s.work.queue, queue := []), wakeup := s.wakeup.(silent := 0))
    case RunNext =>
      var f := s.work.batch[0];
      s.(work := s.work.(current := Some(f), batch := s.work.batch[1..]), reg := s.reg.(tables := Begin(s.reg, f)))
    case Finish =>
      var f := s.work.current.value;
      s.(work := s.work.(current := None, ran := s.work.ran + [f]), reg := s.reg.(live := End(s.reg.live, f)))
    case EndRun => s.(phase := Checking)
    case LoopPush(id) =>
      s.(work := Queued(s.work, User(id)),
         wakeup := if s.phase.Running? then Promised(s.wakeup, LoopThread)
                   else if s.phase.Outside? then s.wakeup.(silent := s.wakeup.silent + 1)
                   else s.wakeup)
    case LoopWake => s.(wakeup := Woken(s.wakeup, LoopThread))
    case LoopStop => s.(stop := true)
    case LoopAttach(h) =>
      s.(reg := Register(Registered(s.reg.tables, h, 0), s.reg.live + {h}, s.reg.events[h := 0], s.reg.locals + {h}))
    case LoopSet(h, ev) => s.(reg := Published(s.reg, h, ev))
    case LoopDetach(h) =>
      s.(reg := s.reg.(tables := Removed(s.reg.tables, h), live := s.reg.live - {h}, locals := s.reg.locals - {h}))
    case Push(id) => s.(work := Queued(s.work, User(id)), wakeup := Promised(s.wakeup, Producer))
    case Wake => s.(wakeup := Woken(s.wakeup, Producer))
    case StopSet => s.(stop := true, wakeup := s.wakeup.(stoppers := s.wakeup.stoppers + 1))
    case StopWake => s.(wakeup := s.wakeup.(stoppers := s.wakeup.stoppers - 1, pipe := s.wakeup.pipe + 1))
    case Construct(h) =>
      s.(work := Queued(s.work, Attach(h)), wakeup := Promised(s.wakeup, OwnerOf(h)),
         reg := s.reg.(events := s.reg.events[h := 0]), owners := s.owners[h := Ready])
    case Change(h, ev) => s.(reg := s.reg.(events := s.reg.events[h := ev]), owners := s.owners[h := Changed])
    case PushUpdate(h) =>
      s.(work := Queued(s.work, Update(h)), wakeup := Promised(s.wakeup, OwnerOf(h)), owners := s.owners[h := Ready])
    case AskDetach(h) => s.(owners := s.owners[h := if h in s.reg.live then Leaving else Gone(true)])
    case PushDetach(h) =>
      s.(work := Queued(s.work, Detach(h)), wakeup := Promised(s.wakeup, OwnerOf(h)), owners := s.owners[h := Waiting])
    case OwnerWake(h) => s.(wakeup := Woken(s.wakeup, OwnerOf(h)))
    case Return(h) => s.(owners := s.owners[h := Gone(false)])
  }

  /** No callback detaches a handler still to be called back for. */
  predicate Polite(s: State, e: Event) {
    e.LoopDetach? ==> e.h !in Rest(s)
  }

  /** A run: steps each of which its thread can take when its turn comes. */
  predicate Possible(s: State, run: seq<Event>)
    decreases |run|
  {
    run == [] || (Enabled(s, run[0]) && Possible(Next(s, run[0]), run[1..]))
  }

  function After(s: State, run: seq<Event>): State
    requires Possible(s, run)
    decreases |run|
  {
    if run == [] then s else After(Next(s, run[0]), run[1..])
  }

  predicate AllPolite(s: State, run: seq<Event>)
    requires Possible(s, run)
    decreases |run|
  {
    run == [] || (Polite(s, run[0]) && AllPolite(Next(s, run[0]), run[1..]))
  }
}
