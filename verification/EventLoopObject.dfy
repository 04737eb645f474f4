/**
 The objects of netb/EventLoop.cpp and netb/EventHandler.cpp: the tables of the loop and
 the handlers that publish their interest in them, as the loop thread and other threads
 call them. Each method is tied to the table functions that the steps of the loop use.
 */
module EventLoopObject {
  import opened Bytes
  import opened Selector
  import opened EventLoopSteps

  /** `_events |= bit` and `_events &= ~bit`. */
  function WithRead(e: Events, on: bool): Events { Join(on, HasWrite(e), HasExcept(e)) }
  function WithWrite(e: Events, on: bool): Events { Join(HasRead(e), on, HasExcept(e)) }

  class EventLoop {
    var handlers: map<int, EventHandler>
    const selector: SocketSelector
    var queue: seq<Functor>
    var queueInvoking: bool
    var pipe: nat

    /** Handlers are found under their own socket, and every socket of interest has one. */
    ghost predicate Valid()
      reads this, selector
    {
      && selector.Valid()
      && (forall fd :: fd in handlers ==> handlers[fd].socket == fd)
      && selector.Interest().Keys <= handlers.Keys
    }

    ghost function View(): Tables
      reads this, selector
    {
      Tables(handlers.Keys, selector.Interest())
    }

    predicate Holds(handler: EventHandler)
      reads this
    {
      handler.socket in handlers && handlers[handler.socket] == handler
    }

    constructor ()
      ensures Valid() && fresh(selector) && View() == Tables({}, map[]) && queue == [] && pipe == 0 && !queueInvoking
    {
      handlers := map[];
      selector := new SocketSelector();
      queue, queueInvoking, pipe := [], false, 0;
    }

    /** The socket is watched for the handler's events. A handler already registered for
        the socket stays. */
    method RegisterHandler(handler: EventHandler)
      requires Valid()
      modifies this`handlers, selector
      ensures Valid() && View() == Registered(old(View()), handler.socket, handler.events)
      ensures handlers ==
              if handler.socket in old(handlers) then old(handlers) else old(handlers)[handler.socket := handler]
    {
      if handler.socket !in handlers {
        handlers := handlers[handler.socket := handler];
      }
      selector.Set(handler.socket, handler.events);
    }

    method UpdateHandler(handler: EventHandler) returns (ok: bool)
      requires Valid()
      modifies selector
      ensures Valid() && View() == Updated(old(View()), handler.socket, handler.events)
      ensures ok <==> handler.socket in handlers
    {
      if handler.socket !in handlers {
        return false;
      }
      selector.Set(handler.socket, handler.events);
      ok := true;
    }

    /** The handler and its interest are gone, and another handler of the same socket is
        left alone. */
    method RemoveHandler(handler: EventHandler)
      requires Valid()
      modifies this`handlers, selector
      ensures Valid() && !Holds(handler)
      ensures View() == if old(Holds(handler)) then Removed(old(View()), handler.socket) else old(View())
      ensures handlers == if old(Holds(handler)) then old(handlers) - {handler.socket} else old(handlers)
    {
      var keys: set<int> := handlers.Keys;
      while keys != {}
        invariant Valid() && keys <= handlers.Keys
        invariant Holds(handler) ==> handler.socket in keys
        invariant
          if old(Holds(handler)) && !Holds(handler)
          then handlers == old(handlers) - {handler.socket} && View() == Removed(old(View()), handler.socket)
          else handlers == old(handlers) && View() == old(View())
        decreases |keys|
      {
        SomeKey(keys);
        var fd :| fd in keys;
        keys := keys - {fd};
        if handlers[fd] == handler {
          handlers := handlers - {fd};
          selector.Remove(fd);
        }
      }
    }

    static lemma SomeKey(keys: set<int>)
      requires keys != {}
      ensures exists k :: k in keys
    {
      if forall k :: k !in keys {
        assert false;
      }
    }

    /** Append to the queue, and write a wakeup byte unless the loop thread itself queued it
        while it was not running the queue. */
    method InvokeLater(f: Functor, inLoop: bool)
      modifies this`queue, this`pipe
      ensures queue == old(queue) + [f]
      ensures pipe == if inLoop && !queueInvoking then old(pipe) else old(pipe) + 1
    {
      queue := queue + [f];
      if !inLoop || queueInvoking {
        pipe := pipe + 1;
      }
    }
  }

  class EventHandler {
    const loop: EventLoop
    const socket: int
    var events: Events
    var detached: bool

    /** Attached at once on the loop thread, queued to be attached elsewhere. */
    constructor (loop: EventLoop, socket: int, inLoop: bool)
      requires loop.Valid()
      modifies loop, loop.selector
      ensures this.loop == loop && this.socket == socket && events == 0
      ensures loop.Valid() && detached == !inLoop
      ensures loop.View() == if inLoop then Registered(old(loop.View()), socket, 0) else old(loop.View())
      ensures loop.queue == if inLoop then old(loop.queue) else old(loop.queue) + [Functor.Attach(socket)]
      ensures loop.pipe == if inLoop then old(loop.pipe) else old(loop.pipe) + 1
    {
      this.loop, this.socket := loop, socket;
      events, detached := 0, true;
      new;
      if inLoop {
        AttachInLoop();
      } else {
        loop.InvokeLater(Functor.Attach(socket), false);
      }
    }

    method AttachInLoop()
      requires loop.Valid()
      modifies this`detached, loop`handlers, loop.selector
      ensures loop.Valid() && !detached
      ensures loop.View() == Registered(old(loop.View()), socket, events)
      ensures socket !in old(loop.handlers) ==> loop.Holds(this)
    {
      loop.RegisterHandler(this);
      detached := false;
    }

    /** What `UpdateInLoop` asserts is a requirement on the caller. */
    method UpdateInLoop()
      requires loop.Valid() && !detached
      modifies loop.selector
      ensures loop.Valid() && loop.View() == Updated(old(loop.View()), socket, events)
    {
      var _ := loop.UpdateHandler(this);
    }

    method DetachInLoop()
      requires loop.Valid()
      modifies this`detached, loop`handlers, loop.selector
      ensures loop.Valid() && detached && !loop.Holds(this)
      ensures loop.View() == if old(loop.Holds(this)) then Removed(old(loop.View()), socket) else old(loop.View())
    {
      loop.RemoveHandler(this);
      detached := true;
    }

    /** Publish a change of the events: at once on the loop thread, in a functor elsewhere. */
    method Publish(inLoop: bool)
      requires loop.Valid() && (inLoop ==> !detached)
      modifies loop`queue, loop`pipe, loop.selector
      ensures loop.Valid() && loop.handlers == old(loop.handlers)
      ensures loop.View() == if inLoop then Updated(old(loop.View()), socket, events) else old(loop.View())
      ensures loop.queue == if inLoop then old(loop.queue) else old(loop.queue) + [Functor.Update(socket)]
      ensures loop.pipe == if inLoop then old(loop.pipe) else old(loop.pipe) + 1
    {
      if inLoop {
        UpdateInLoop();
      } else {
        loop.InvokeLater(Functor.Update(socket), false);
      }
    }

    method SetReading(on: bool, inLoop: bool)
      requires loop.Valid() && (inLoop ==> !detached)
      modifies this`events, loop`queue, loop`pipe, loop.selector
      ensures loop.Valid() && loop.handlers == old(loop.handlers)
      ensures HasRead(events) == on
      ensures HasWrite(events) == old(HasWrite(events)) && HasExcept(events) == old(HasExcept(events))
      ensures loop.View() == if inLoop then Updated(old(loop.View()), socket, events) else old(loop.View())
      ensures loop.queue == if inLoop then old(loop.queue) else old(loop.queue) + [Functor.Update(socket)]
      ensures loop.pipe == if inLoop then old(loop.pipe) else old(loop.pipe) + 1
    {
      PartsJoined(on, HasWrite(events), HasExcept(events));
      events := WithRead(events, on);
      Publish(inLoop);
    }

    method SetWriting(on: bool, inLoop: bool)
      requires loop.Valid() && (inLoop ==> !detached)
      modifies this`events, loop`queue, loop`pipe, loop.selector
      ensures loop.Valid() && loop.handlers == old(loop.handlers)
      ensures HasWrite(events) == on
      ensures HasRead(events) == old(HasRead(events)) && HasExcept(events) == old(HasExcept(events))
      ensures loop.View() == if inLoop then Updated(old(loop.View()), socket, events) else old(loop.View())
      ensures loop.queue == if inLoop then old(loop.queue) else old(loop.queue) + [Functor.Update(socket)]
      ensures loop.pipe == if inLoop then old(loop.pipe) else old(loop.pipe) + 1
    {
      PartsJoined(HasRead(events), on, HasExcept(events));
      events := WithWrite(events, on);
      Publish(inLoop);
    }
  }

  // ------------------------------------------------------ removal as it is written

  /** The key after `h` in the ordered handler table. */
  ghost predicate IsNextKey(handlers: set<int>, h: int, next: Option<int>) {
    match next
    case None => forall k :: k in handlers ==> k <= h
    case Some(n) => n in handlers && h < n && forall k :: k in handlers && h < k ==> n <= k
  }

  /** As it is written, removal erases the entry first and then hands the key of the next
      entry to the selector; there is none after the last entry. */
  function CodedRemoved(t: Tables, h: int, next: Option<int>): Option<Tables> {
    match next
    case None => None
    case Some(n) => Some(Tables(t.handlers - {h}, t.selector - {n}))
  }

  /** That is the removal meant exactly when another entry follows and neither has any
      interest. */
  lemma CodedRemovedIsRight(t: Tables, h: int, next: Option<int>)
    requires IsNextKey(t.handlers, h, next)
    ensures CodedRemoved(t, h, next) == Some(Removed(t, h)) <==>
            next.Some? && h !in t.selector && next.value !in t.selector
  {
    if next.Some? {
      var n := next.value;
      assert h in t.selector ==> h in t.selector - {n};
      if h !in t.selector && n !in t.selector {
        assert t.selector - {n} == t.selector == t.selector - {h};
      } else if n in t.selector {
        assert n in t.selector - {h} && n !in t.selector - {n};
      }
    }
  }

  /** Otherwise the selector goes on reporting a socket without handler, or forgets one
      that has a handler. */
  lemma CodedRemovedFails(t: Tables, h: int, next: Option<int>)
    requires IsNextKey(t.handlers, h, next) && t.selector.Keys <= t.handlers && CodedRemoved(t, h, next).Some?
    ensures
      var u := CodedRemoved(t, h, next).value;
      && (h in t.selector ==> h in u.selector && h !in u.handlers)
      && (next.value in t.selector ==> next.value in u.handlers && next.value !in u.selector)
  {
  }
}
