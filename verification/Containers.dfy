/** Container IDs and lists of them, as the QMP and guest agent collectors use them. */
module Containers {

  /** Container IDs are only ever compared; any countable set of names will do. */
  type ContainerId = nat

  /** xs names each member of r once and nothing else. */
  ghost predicate Lists(xs: seq<nat>, r: set<nat>) {
    (forall x :: x in xs <==> x in r) && |xs| == |r|
  }

  lemma ListsOneMore(xs: seq<nat>, r: set<nat>, x: nat)
    requires Lists(xs, r) && x !in r
    ensures Lists(xs + [x], r + {x})
  {
  }

  /** Members at different positions differ. */
  lemma ListsDistinct(xs: seq<nat>, r: set<nat>, i: nat, j: nat)
    requires Lists(xs, r) && i < j < |xs|
    ensures xs[i] != xs[j]
  {
    if xs[i] == xs[j] {
      var rest := xs[..j] + xs[j + 1..];
      assert forall x :: x in r ==> x in rest by {
        forall x | x in r ensures x in rest {
          var k :| 0 <= k < |xs| && xs[k] == x;
          assert k < j ==> rest[k] == x;
          assert k > j ==> rest[k - 1] == x;
          assert k == j ==> rest[i] == x;
        }
      }
      CoverSize(rest, r);
    }
  }

  lemma {:induction false} CoverSize(xs: seq<nat>, r: set<nat>)
    requires forall x :: x in r ==> x in xs
    ensures |r| <= |xs|
  {
    if xs != [] {
      var init, last := xs[..|xs| - 1], xs[|xs| - 1];
      assert xs == init + [last];
      CoverSize(init, r - {last});
      assert last in r ==> r == (r - {last}) + {last};
      assert last !in r ==> r == r - {last};
    }
  }
}
