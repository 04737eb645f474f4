/** Putting runs together. */
module EventLoopTraces {
  import opened Selector
  import opened EventLoopSteps
  import opened EventLoopSafety
  import opened EventLoopRuns

  lemma Reached(run: seq<Event>)
    requires Possible(Initial(), run)
    ensures Sound(After(Initial(), run))
  {
    hide Sound, Next, Enabled;
    InitiallySound();
    AlwaysSound(Initial(), run);
  }

  lemma ReachedPolitely(run: seq<Event>)
    requires Possible(Initial(), run) && AllPolite(Initial(), run)
    ensures Sound(After(Initial(), run)) && RestKnown(After(Initial(), run))
  {
    hide Sound, Next, Enabled;
    InitiallySound();
    Reached(run);
    AlwaysKnown(Initial(), run);
  }

  lemma One(s: State, e: Event)
    requires Enabled(s, e)
    ensures Possible(s, [e]) && After(s, [e]) == Next(s, e)
  {
    hide Next, Enabled;
    assert [e][1..] == [];
  }

  lemma First(s: State, e: Event, run: seq<Event>)
    requires Enabled(s, e) && Possible(Next(s, e), run)
    ensures Possible(s, [e] + run) && After(s, [e] + run) == After(Next(s, e), run)
  {
    assert ([e] + run)[1..] == run;
  }

  lemma Three(s: State, a: Event, b: Event, c: Event, run: seq<Event>)
    requires Enabled(s, a) && Enabled(Next(s, a), b) && Enabled(Next(Next(s, a), b), c)
    requires Possible(Next(Next(Next(s, a), b), c), run)
    ensures Possible(s, [a, b, c] + run)
    ensures After(s, [a, b, c] + run) == After(Next(Next(Next(s, a), b), c), run)
  {
    hide Next, Enabled, Possible, After;
    First(Next(Next(s, a), b), c, run);
    First(Next(s, a), b, [c] + run);
    First(s, a, [b] + ([c] + run));
    assert [a, b, c] + run == [a] + ([b] + ([c] + run));
  }

  lemma Four(s: State, a: Event, b: Event, c: Event, d: Event)
    requires Enabled(s, a) && Enabled(Next(s, a), b) && Enabled(Next(Next(s, a), b), c)
    requires Enabled(Next(Next(Next(s, a), b), c), d)
    ensures Possible(s, [a, b, c, d])
    ensures After(s, [a, b, c, d]) == Next(Next(Next(Next(s, a), b), c), d)
  {
    hide Next, Enabled;
    var t := Next(Next(Next(s, a), b), c);
    assert After(Next(t, d), []) == Next(t, d);
    First(t, d, []);
    Three(s, a, b, c, [d] + []);
    assert [a, b, c, d] == [a, b, c] + ([d] + []);
  }
}
