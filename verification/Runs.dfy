/** Steps of a run, told by what came before them. */
module Runs {

  /** Some step of the run is one of which P holds, given the run before it. */
  ghost predicate SomeStep<A(!new)>(P: (seq<A>, A) -> bool, run: seq<A>) {
    exists n :: 0 <= n < |run| && P(run[..n], run[n])
  }

  lemma SomeStepSnoc<A(!new)>(P: (seq<A>, A) -> bool, p: seq<A>, a: A)
    ensures SomeStep(P, p + [a]) <==> (SomeStep(P, p) || P(p, a))
  {
    var all := p + [a];
    assert all[..|p|] == p && all[|p|] == a;
    assert forall n :: 0 <= n <= |p| ==> all[..n] == p[..n];
    if n :| 0 <= n < |p| && P(p[..n], p[n]) {
      assert P(all[..n], all[n]);
    }
  }
}
