/** Runs as chains of linked states, without looking inside the link. */
module Chains {
  ghost predicate Chain<S(!new), E(!new)>(link: (S, E, S) -> bool, run: seq<S>, events: seq<E>)
  {
    |run| == |events| + 1 && forall i :: 0 <= i < |events| ==> link(run[i], events[i], run[i + 1])
  }

  lemma Grow<S(!new), E(!new)>(link: (S, E, S) -> bool, run: seq<S>, events: seq<E>, e: E, last: S)
    requires Chain(link, run, events) && link(run[|events|], e, last)
    ensures Chain(link, run + [last], events + [e])
  {
    var run', events' := run + [last], events + [e];
    forall i | 0 <= i < |events'|
      ensures link(run'[i], events'[i], run'[i + 1])
    {
      if i < |events| {
        assert run'[i] == run[i] && run'[i + 1] == run[i + 1] && events'[i] == events[i];
      }
    }
  }
}
