/** Lists: distinctness, counting, and what does not depend on order. */
module Seqs {

  ghost predicate AllDistinct<T>(xs: seq<T>) {
    forall i, j :: 0 <= i < j < |xs| ==> xs[i] != xs[j]
  }

  lemma {:induction false} DistinctSize<T>(xs: seq<T>)
    requires AllDistinct(xs)
    ensures |set x | x in xs| == |xs|
  {
    if xs != [] {
      var init, last := xs[..|xs| - 1], xs[|xs| - 1];
      DistinctSize(init);
      assert (set x | x in xs) == (set x | x in init) + {last};
    }
  }

  // ---- Counting ----

  function CountIf<T>(xs: seq<T>, p: T -> bool): (n: nat)
    ensures n <= |xs|
  {
    if xs == [] then 0 else CountIf(xs[..|xs| - 1], p) + (if p(xs[|xs| - 1]) then 1 else 0)
  }

  lemma {:induction false} CountIfMonotone<T>(xs: seq<T>, p: T -> bool, q: T -> bool)
    requires forall x :: x in xs && p(x) ==> q(x)
    ensures CountIf(xs, p) <= CountIf(xs, q)
  {
    if xs != [] { CountIfMonotone(xs[..|xs| - 1], p, q); }
  }

  lemma CountIfSnoc<T>(xs: seq<T>, x: T, p: T -> bool)
    ensures CountIf(xs + [x], p) == CountIf(xs, p) + (if p(x) then 1 else 0)
  {
    assert (xs + [x])[..|xs|] == xs;
  }

  lemma {:induction false} CountAll<T>(xs: seq<T>, p: T -> bool)
    requires forall x :: x in xs ==> p(x)
    ensures CountIf(xs, p) == |xs|
  {
    if xs != [] { CountAll(xs[..|xs| - 1], p); }
  }

  lemma {:induction false} CountIfAgree<T>(xs: seq<T>, p: T -> bool, q: T -> bool)
    requires forall x :: x in xs ==> (p(x) <==> q(x))
    ensures CountIf(xs, p) == CountIf(xs, q)
  {
    CountIfMonotone(xs, p, q);
    CountIfMonotone(xs, q, p);
  }


  // ---- Order ----

  lemma {:induction false} CountConcat<T>(a: seq<T>, b: seq<T>, p: T -> bool)
    ensures CountIf(a + b, p) == CountIf(a, p) + CountIf(b, p)
  {
    if b == [] {
      assert a + b == a;
    } else {
      assert (a + b)[..|a + b| - 1] == a + b[..|b| - 1];
      CountConcat(a, b[..|b| - 1], p);
    }
  }

  lemma SplitAt<T>(xs: seq<T>, j: nat)
    requires j < |xs|
    ensures xs == (xs[..j] + [xs[j]]) + xs[j + 1..]
  {
  }

  lemma CountWithout<T>(xs: seq<T>, j: nat, p: T -> bool)
    requires j < |xs|
    ensures CountIf(xs, p) == CountIf(xs[..j] + xs[j + 1..], p) + (if p(xs[j]) then 1 else 0)
  {
    var before, after := xs[..j], xs[j + 1..];
    SplitAt(xs, j);
    CountConcat(before + [xs[j]], after, p);
    CountIfSnoc(before, xs[j], p);
    CountConcat(before, after, p);
  }

  lemma MembersWithout<T>(xs: seq<T>, j: nat)
    requires j < |xs|
    ensures multiset(xs) == multiset(xs[..j] + xs[j + 1..]) + multiset{xs[j]}
  {
    SplitAt(xs, j);
  }

  /** A count does not depend on the order. */
  lemma {:induction false} CountPermuted<T>(a: seq<T>, b: seq<T>, p: T -> bool)
    requires multiset(a) == multiset(b)
    ensures CountIf(a, p) == CountIf(b, p)
    decreases |a|
  {
    if a == [] {
      assert |b| == |multiset(b)| == 0;
    } else {
      var j := |a| - 1;
      assert a[j] in multiset(b);
      var k :| 0 <= k < |b| && b[k] == a[j];
      CountWithout(a, j, p);
      CountWithout(b, k, p);
      MembersWithout(a, j);
      MembersWithout(b, k);
      var a', b' := a[..j] + a[j + 1..], b[..k] + b[k + 1..];
      assert multiset(a') == multiset(a) - multiset{a[j]};
      assert multiset(b') == multiset(b) - multiset{b[k]};
      CountPermuted(a', b', p);
    }
  }

  // ---- Picking ----

  /** ys are picked at the keys P, in their order, each as Q says. */
  ghost predicate Picks<K(!new), Y>(before: (K, K) -> bool, P: K -> bool, Q: (K, Y) -> bool, at: seq<K>, ys: seq<Y>) {
    && |at| == |ys| && (forall i, j :: 0 <= i < j < |at| ==> before(at[i], at[j]))
    && (forall k :: k in at <==> P(k))
    && forall j :: 0 <= j < |at| ==> Q(at[j], ys[j])
  }

  /** Positions in order. */
  function Less(): (nat, nat) -> bool { (i, j) => i < j }

  lemma PicksNone<K(!new), Y>(before: (K, K) -> bool, P: K -> bool, Q: (K, Y) -> bool)
    requires forall k :: !P(k)
    ensures Picks(before, P, Q, [], [])
  {
  }

  lemma PicksOne<K(!new), Y>(before: (K, K) -> bool, P: K -> bool, Q: (K, Y) -> bool, k: K, y: Y)
    requires (forall l :: P(l) <==> l == k) && Q(k, y)
    ensures Picks(before, P, Q, [k], [y])
  {
  }

  lemma PicksConcat<K(!new), Y>(
      before: (K, K) -> bool, P1: K -> bool, P2: K -> bool, P: K -> bool, Q: (K, Y) -> bool,
      at1: seq<K>, ys1: seq<Y>, at2: seq<K>, ys2: seq<Y>)
    requires Picks(before, P1, Q, at1, ys1) && Picks(before, P2, Q, at2, ys2)
    requires forall k :: P(k) <==> P1(k) || P2(k)
    requires forall k, l :: P1(k) && P2(l) ==> before(k, l)
    ensures Picks(before, P, Q, at1 + at2, ys1 + ys2)
  {
    OrderedConcat(before, P1, P2, at1, at2);
    MembersConcat(P1, P2, P, at1, at2);
    MatchedConcat(Q, at1, ys1, at2, ys2);
  }

  lemma OrderedConcat<K(!new)>(before: (K, K) -> bool, P1: K -> bool, P2: K -> bool, at1: seq<K>, at2: seq<K>)
    requires forall i, j :: 0 <= i < j < |at1| ==> before(at1[i], at1[j])
    requires forall i, j :: 0 <= i < j < |at2| ==> before(at2[i], at2[j])
    requires (forall k :: k in at1 <==> P1(k)) && (forall k :: k in at2 <==> P2(k))
    requires forall k, l :: P1(k) && P2(l) ==> before(k, l)
    ensures forall i, j :: 0 <= i < j < |at1 + at2| ==> before((at1 + at2)[i], (at1 + at2)[j])
  {
    forall i, j | 0 <= i < j < |at1 + at2| ensures before((at1 + at2)[i], (at1 + at2)[j]) {
      if i < |at1| <= j {
        assert at1[i] in at1 && at2[j - |at1|] in at2;
      }
    }
  }

  lemma MembersConcat<K(!new)>(P1: K -> bool, P2: K -> bool, P: K -> bool, at1: seq<K>, at2: seq<K>)
    requires (forall k :: k in at1 <==> P1(k)) && (forall k :: k in at2 <==> P2(k))
    requires forall k :: P(k) <==> P1(k) || P2(k)
    ensures forall k :: k in at1 + at2 <==> P(k)
  {
  }

  lemma MatchedConcat<K, Y>(Q: (K, Y) -> bool, at1: seq<K>, ys1: seq<Y>, at2: seq<K>, ys2: seq<Y>)
    requires |at1| == |ys1| && |at2| == |ys2|
    requires forall j :: 0 <= j < |at1| ==> Q(at1[j], ys1[j])
    requires forall j :: 0 <= j < |at2| ==> Q(at2[j], ys2[j])
    ensures forall j :: 0 <= j < |at1 + at2| ==> Q((at1 + at2)[j], (ys1 + ys2)[j])
  {
  }
}
