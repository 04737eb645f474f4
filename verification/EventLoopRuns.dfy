/** The properties of the event loop, over every run. */
module EventLoopRuns {
  import opened Bytes
  import opened Selector
  import opened EventLoopSteps
  import opened EventLoopSafety
  import opened EventLoopLife

  // ------------------------------------------------------------- published interest

  /** The selector has the current events of a registered handler, or an update is
      queued, or its owner is about to queue one. */
  predicate Settled(s: State, h: int) {
    h in s.reg.tables.handlers && InterestIn(s.reg.tables, h) != EventsOf(s.reg, h) ==>
      OwnerAt(s, h).Changed? || Update(h) in s.work.batch || Update(h) in s.work.queue
  }

  /** A handler without owner and without anything pending is in no table. */
  lemma GoneIsUnknown(s: State, h: int)
    requires FlagsFollow(s) && Life(s, h) && h !in s.reg.locals && OwnerAt(s, h) == Gone(false)
    ensures h !in s.reg.tables.handlers && h !in s.reg.live
    ensures forall f :: f in Pending(s) ==> !Mentions(f, h)
  {
    forall f | f in Pending(s)
      ensures !Mentions(f, h)
    {
      AboutKeeps(h, Pending(s), f);
    }
    if s.work.current.Some? {
      assert s.work.current.value in Pending(s);
    }
  }

  lemma SettledStep(s: State, e: Event, h: int)
    requires FlagsFollow(s) && InOrder(s) && Life(s, h) && Settled(s, h) && Enabled(s, e)
    ensures Settled(Next(s, e), h)
  {
    hide Pending, About, FlagsFollow, InOrder, LifeOf;
    if e.RunNext? {
      hide Life;
      assert s.work.batch == [s.work.batch[0]] + s.work.batch[1..];
    } else if QueuedBy(e) != [] {
      SettledQueue(s, e, h);
    } else {
      hide Life;
      SettledElse(s, e, h);
    }
  }

  lemma SettledQueue(s: State, e: Event, h: int)
    requires FlagsFollow(s) && Life(s, h) && Settled(s, h) && Enabled(s, e) && QueuedBy(e) != []
    ensures Settled(Next(s, e), h)
  {
    hide Pending, About, FlagsFollow, LifeOf;
    if e.Construct? && e.h == h {
      GoneIsUnknown(s, h);
    } else {
      assert Next(s, e).work.queue == s.work.queue + QueuedBy(e);
    }
  }

  lemma SettledElse(s: State, e: Event, h: int)
    requires InOrder(s) && Settled(s, h) && Enabled(s, e) && QueuedBy(e) == [] && !e.RunNext?
    ensures Settled(Next(s, e), h)
  {
    hide Pending;
  }

  // ----------------------------------------------------------------- the invariant

  ghost predicate Sound(s: State) {
    && InOrder(s) && Covered(s) && SilentQueued(s) && WakesItself(s) && StopSeen(s)
    && FlagsFollow(s) && TablesAgree(s) && RestAgrees(s)
    && (forall h :: Life(s, h)) && (forall h :: Settled(s, h))
  }

  lemma PendingIsForeign(s: State)
    requires forall h :: Life(s, h)
    ensures ForeignOnly(s, Pending(s))
  {
    hide Pending, About;
    forall f | f in Pending(s) && !f.User?
      ensures f.h !in s.reg.locals
    {
      assert Life(s, f.h);
      AboutKeeps(f.h, Pending(s), f);
    }
  }

  lemma SoundStep(s: State, e: Event)
    requires Sound(s) && Enabled(s, e)
    ensures Sound(Next(s, e))
  {
    hide Next, InOrder, Covered, SilentQueued, WakesItself, StopSeen;
    hide FlagsFollow, TablesAgree, RestAgrees, Life, Settled, ForeignOnly;
    var t := Next(s, e);
    InOrderStep(s, e);
    CoveredStep(s, e);
    SilentQueuedStep(s, e);
    WakesItselfStep(s, e);
    StopSeenStep(s, e);
    FlagsFollowStep(s, e);
    PendingIsForeign(s);
    TablesAgreeStep(s, e);
    RestAgreesStep(s, e);
    forall h
      ensures Life(t, h) && Settled(t, h)
    {
      LifeStep(s, e, h);
      SettledStep(s, e, h);
    }
  }

  lemma InitiallySound()
    ensures Sound(Initial())
  {
  }

  /** Every state of every run is sound. */
  lemma {:induction false} AlwaysSound(s: State, run: seq<Event>)
    requires Sound(s) && Possible(s, run)
    ensures Sound(After(s, run))
    decreases |run|
  {
    hide Sound, Next, Enabled;
    if run != [] {
      SoundStep(s, run[0]);
      AlwaysSound(Next(s, run[0]), run[1..]);
    }
  }

  /** Over a run whose callbacks detach no handler still to be called back for, every
      socket to be called back for has a handler. */
  lemma {:induction false} AlwaysKnown(s: State, run: seq<Event>)
    requires Sound(s) && RestKnown(s) && Possible(s, run) && AllPolite(s, run)
    ensures RestKnown(After(s, run))
    decreases |run|
  {
    hide Next, Enabled, RestKnown;
    if run != [] {
      SoundStep(s, run[0]);
      RestKnownStep(s, run[0]);
      AlwaysKnown(Next(s, run[0]), run[1..]);
    }
  }
}
