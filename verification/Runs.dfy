/** Runs of the engine, taken apart at their end. */
module Runs {
  import opened Engine

  lemma {:induction false} RunSnoc(s: State, events: seq<Event>, e: Event)
    requires Legal(s, events) && Enabled(Run(s, events), e)
    ensures Legal(s, events + [e]) && Run(s, events + [e]) == Next(Run(s, events), e)
    decreases |events|
  {
    var all := events + [e];
    if events == [] {
      assert all == [e] && all[1..] == [];
      assert Run(Next(s, e), []) == Next(s, e) && Legal(Next(s, e), []);
    } else {
      assert all[0] == events[0] && all[1..] == events[1..] + [e];
      RunSnoc(Next(s, events[0]), events[1..], e);
    }
  }

  // A legal run is a legal run and one more enabled event.
  lemma {:induction false} RunInit(s: State, events: seq<Event>)
    requires events != [] && Legal(s, events)
    ensures var init, last := events[..|events| - 1], events[|events| - 1];
            && Legal(s, init) && Enabled(Run(s, init), last)
            && Run(s, events) == Next(Run(s, init), last)
    decreases |events|
  {
    var init, last := events[..|events| - 1], events[|events| - 1];
    if |events| == 1 {
      assert init == [] && events[1..] == [];
      assert Run(Next(s, last), []) == Next(s, last);
    } else {
      var t, rest := Next(s, events[0]), events[1..];
      assert init[0] == events[0] && init[1..] == rest[..|rest| - 1] && rest[|rest| - 1] == last;
      RunInit(t, rest);
      assert Run(s, events) == Run(t, rest) && Run(s, init) == Run(t, init[1..]);
    }
  }

  ghost predicate Reachable(s: State) {
    exists s0, events :: Initial(s0) && Legal(s0, events) && Run(s0, events) == s
  }

  lemma Reach(s: State, e: Event)
    requires Reachable(s) && Enabled(s, e)
    ensures Reachable(Next(s, e))
  {
    var s0, events :| Initial(s0) && Legal(s0, events) && Run(s0, events) == s;
    RunSnoc(s0, events, e);
    assert Initial(s0) && Legal(s0, events + [e]) && Run(s0, events + [e]) == Next(s, e);
  }
}
