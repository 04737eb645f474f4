/** The life of one handler: what is queued for it, and what the tables say of it. */
module EventLoopLife {
  import opened Bytes
  import opened Selector
  import opened EventLoopSteps
  import opened EventLoopSafety

  predicate Mentions(f: Functor, h: int) {
    !f.User? && f.h == h
  }

  /** The functors that mention `h`, in order. */
  function About(h: int, fs: seq<Functor>): seq<Functor> {
    if fs == [] then [] else (if Mentions(fs[0], h) then [fs[0]] else []) + About(h, fs[1..])
  }

  lemma {:induction false} AboutSum(h: int, a: seq<Functor>, b: seq<Functor>)
    ensures About(h, a + b) == About(h, a) + About(h, b)
  {
    if a == [] {
      assert a + b == b;
    } else {
      assert (a + b)[1..] == a[1..] + b && (a + b)[0] == a[0];
      AboutSum(h, a[1..], b);
    }
  }

  lemma AboutOne(h: int, f: Functor)
    ensures About(h, [f]) == if Mentions(f, h) then [f] else []
  {
    assert About(h, [f]) == (if Mentions(f, h) then [f] else []) + About(h, []);
  }

  lemma {:induction false} AboutKeeps(h: int, fs: seq<Functor>, f: Functor)
    ensures f in About(h, fs) <==> f in fs && Mentions(f, h)
  {
    if fs != [] {
      AboutKeeps(h, fs[1..], f);
      assert f in fs <==> f == fs[0] || f in fs[1..];
    }
  }

  /** Functors of users are about no handler. */
  lemma {:induction false} UsersAboutNone(h: int, fs: seq<Functor>)
    requires Users(fs) == |fs|
    ensures About(h, fs) == []
  {
    if fs != [] {
      UsersAboutNone(h, fs[1..]);
    }
  }

  predicate Updates(fs: seq<Functor>) {
    forall f :: f in fs ==> f.Update?
  }

  /** One `Attach` and then only updates. */
  predicate AttachFirst(fs: seq<Functor>) {
    fs != [] && fs[0].Attach? && Updates(fs[1..])
  }

  /** Only updates and then one `Detach`. */
  predicate DetachLast(fs: seq<Functor>) {
    fs != [] && fs[|fs| - 1].Detach? && Updates(fs[..|fs| - 1])
  }

  /**
   What is pending for a handler, from where its owner is and whether `_detached` is false.
   */
  predicate LifeOf(owner: Owner, live: bool, pending: seq<Functor>) {
    match owner
    case Gone(early) =>
      if early then (if live then Updates(pending) else AttachFirst(pending)) else !live && pending == []
    case Ready => if live then Updates(pending) else AttachFirst(pending)
    case Changed => if live then Updates(pending) else AttachFirst(pending)
    case Leaving => live && Updates(pending)
    case Waiting => if live then DetachLast(pending) else pending == []
  }

  predicate Life(s: State, h: int) {
    if h in s.reg.locals then OwnerAt(s, h) == Gone(false) && h in s.reg.live && About(h, Pending(s)) == []
    else LifeOf(OwnerAt(s, h), h in s.reg.live, About(h, Pending(s)))
  }

  lemma AboutStep(s: State, e: Event, h: int)
    requires InOrder(s) && Enabled(s, e)
    ensures e.Finish? ==>
              About(h, Pending(s)) ==
              (if Mentions(s.work.current.value, h) then [s.work.current.value] else []) + About(h, Pending(Next(s, e)))
    ensures !e.Finish? ==>
              About(h, Pending(Next(s, e))) == About(h, Pending(s)) + About(h, QueuedBy(e))
  {
    hide About, Pending, Next;
    PendingStep(s, e);
    if e.Finish? {
      AboutSum(h, [s.work.current.value], Pending(Next(s, e)));
      AboutOne(h, s.work.current.value);
    } else {
      AboutSum(h, Pending(s), QueuedBy(e));
    }
  }

  /** Finishing the oldest pending functor. */
  lemma LifeFinish(owner: Owner, live: bool, f: Functor, rest: seq<Functor>)
    requires LifeOf(owner, live, [f] + rest) && !f.User?
    ensures LifeOf(owner, f.Attach? || (live && !f.Detach?), rest)
  {
    var p := [f] + rest;
    assert p[0] == f && p[1..] == rest && f in p && forall g :: g in rest ==> g in p;
    if rest != [] {
      assert p[..|p| - 1] == [f] + rest[..|rest| - 1];
      assert f in p[..|p| - 1];
    }
  }

  lemma LifeQueued(pending: seq<Functor>, f: Functor)
    ensures Updates(pending) && f.Update? ==> Updates(pending + [f])
    ensures AttachFirst(pending) && f.Update? ==> AttachFirst(pending + [f])
    ensures Updates(pending) && f.Detach? ==> DetachLast(pending + [f])
    ensures pending == [] && f.Attach? ==> AttachFirst(pending + [f])
  {
    if pending != [] {
      assert (pending + [f])[1..] == pending[1..] + [f];
    }
    assert (pending + [f])[..|pending|] == pending;
  }

  lemma AboutQueued(h: int, e: Event)
    ensures QueuedBy(e) == [] ==> About(h, QueuedBy(e)) == []
    ensures QueuedBy(e) != [] ==>
              About(h, QueuedBy(e)) == if Mentions(QueuedBy(e)[0], h) then QueuedBy(e) else []
  {
    if QueuedBy(e) != [] {
      AboutOne(h, QueuedBy(e)[0]);
    }
  }

  lemma LifeFinishes(s: State, h: int)
    requires InOrder(s) && Life(s, h) && Enabled(s, Finish)
    ensures Life(Next(s, Finish), h)
  {
    hide About, Pending, LifeOf;
    AboutStep(s, Finish, h);
    var f := s.work.current.value;
    if Mentions(f, h) && h !in s.reg.locals {
      LifeFinish(OwnerAt(s, h), h in s.reg.live, f, About(h, Pending(Next(s, Finish))));
    } else if !Mentions(f, h) {
      assert About(h, Pending(Next(s, Finish))) == About(h, Pending(s));
    }
  }

  lemma LifeQueues(s: State, e: Event, h: int)
    requires InOrder(s) && Life(s, h) && Enabled(s, e) && QueuedBy(e) != []
    ensures Life(Next(s, e), h)
  {
    hide About, Pending, Updates, AttachFirst, DetachLast;
    AboutStep(s, e, h);
    AboutQueued(h, e);
    var pending := About(h, Pending(s));
    if Mentions(QueuedBy(e)[0], h) {
      LifeQueued(pending, QueuedBy(e)[0]);
    } else {
      assert About(h, Pending(Next(s, e))) == pending;
    }
  }

  lemma LifeMoves(s: State, e: Event, h: int)
    requires InOrder(s) && Life(s, h) && Enabled(s, e) && QueuedBy(e) == [] && !e.Finish?
    ensures Life(Next(s, e), h)
  {
    hide About, Pending, Updates, AttachFirst, DetachLast;
    AboutStep(s, e, h);
    AboutQueued(h, e);
    assert About(h, Pending(Next(s, e))) == About(h, Pending(s));
  }

  lemma LifeStep(s: State, e: Event, h: int)
    requires InOrder(s) && Life(s, h) && Enabled(s, e)
    ensures Life(Next(s, e), h)
  {
    if e.Finish? {
      LifeFinishes(s, h);
    } else if QueuedBy(e) != [] {
      LifeQueues(s, e, h);
    } else {
      LifeMoves(s, e, h);
    }
  }
}
