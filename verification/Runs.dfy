/** Runs of a machine: a state and a schedule of events. */
module Runs {

  function RunOf<S, E>(next: (S, E) -> S, s: S, events: seq<E>): S {
    if events == [] then s
    else next(RunOf(next, s, events[..|events| - 1]), events[|events| - 1])
  }

  lemma RunAppend<S, E>(next: (S, E) -> S, s: S, events: seq<E>, e: E)
    ensures RunOf(next, s, events + [e]) == next(RunOf(next, s, events), e)
  {
    assert (events + [e])[..|events|] == events;
  }

  lemma {:induction false} RunConcat<S, E>(next: (S, E) -> S, s: S, events: seq<E>, more: seq<E>)
    ensures RunOf(next, s, events + more) == RunOf(next, RunOf(next, s, events), more)
  {
    if more == [] {
      assert events + more == events;
    } else {
      var init, last := more[..|more| - 1], more[|more| - 1];
      RunConcat(next, s, events, init);
      RunAppend(next, s, events + init, last);
      assert events + more == events + init + [last];
    }
  }
}
