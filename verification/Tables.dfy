/** Maps filled by a loop over a list: each element contributes one entry, or none. */
module Tables {
  import opened Bits

  type Contribution<+K, +V> = Option<(K, V)>

  predicate IsFor<K(==), V>(c: Contribution<K, V>, k: K) { c.Some? && c.value.0 == k }

  /** What the last contribution for a key says: the loop overwrites. */
  function LastFor<K(==), V>(cs: seq<Contribution<K, V>>, k: K): Option<V> {
    if cs == [] then None
    else if IsFor(cs[|cs| - 1], k) then Some(cs[|cs| - 1].value.1)
    else LastFor(cs[..|cs| - 1], k)
  }

  /** What the first contribution for a key says: the loop skips keys it already has. */
  function FirstFor<K(==), V>(cs: seq<Contribution<K, V>>, k: K): Option<V> {
    if cs == [] then None
    else
      match FirstFor(cs[..|cs| - 1], k)
      case Some(v) => Some(v)
      case None => if IsFor(cs[|cs| - 1], k) then Some(cs[|cs| - 1].value.1) else None
  }

  function Get<K, V>(m: map<K, V>, k: K): Option<V> { if k in m then Some(m[k]) else None }

  ghost predicate Describes<K(!new), V>(m: map<K, V>, cs: seq<Contribution<K, V>>) {
    forall k :: LastFor(cs, k) == Get(m, k)
  }

  function Updated<K, V>(m: map<K, V>, c: Contribution<K, V>): map<K, V> {
    if c.Some? then m[c.value.0 := c.value.1] else m
  }

  lemma DescribesOneMore<K(!new), V>(m: map<K, V>, cs: seq<Contribution<K, V>>, i: nat)
    requires i < |cs| && Describes(m, cs[..i])
    ensures Describes(Updated(m, cs[i]), cs[..i + 1])
  {
    assert cs[..i + 1][..i] == cs[..i];
    forall k ensures LastFor(cs[..i + 1], k) == Get(Updated(m, cs[i]), k) {
      assert LastFor(cs[..i], k) == Get(m, k);
    }
  }

  /** LastFor is nothing exactly when nothing contributes to the key; otherwise it is what the contribution
      says after which there is no other. */
  lemma {:induction false} LastForIsLast<K, V>(cs: seq<Contribution<K, V>>, k: K)
    ensures LastFor(cs, k).None? <==> forall i :: 0 <= i < |cs| ==> !IsFor(cs[i], k)
    ensures forall i :: 0 <= i < |cs| && IsFor(cs[i], k) && (forall j :: i < j < |cs| ==> !IsFor(cs[j], k)) ==>
              LastFor(cs, k) == Some(cs[i].value.1)
  {
    if cs != [] {
      var n, init := |cs| - 1, cs[..|cs| - 1];
      LastForIsLast(init, k);
      assert forall i :: 0 <= i < n ==> cs[i] == init[i];
    }
  }

  lemma {:induction false} FirstForIsFirst<K, V>(cs: seq<Contribution<K, V>>, k: K)
    ensures FirstFor(cs, k).None? <==> forall i :: 0 <= i < |cs| ==> !IsFor(cs[i], k)
    ensures forall i :: 0 <= i < |cs| && IsFor(cs[i], k) && (forall j :: 0 <= j < i ==> !IsFor(cs[j], k)) ==>
              FirstFor(cs, k) == Some(cs[i].value.1)
  {
    if cs != [] {
      var n, init := |cs| - 1, cs[..|cs| - 1];
      FirstForIsFirst(init, k);
      assert forall i :: 0 <= i < n ==> cs[i] == init[i];
    }
  }

  lemma {:induction false} FoundIsContributed<K, V>(cs: seq<Contribution<K, V>>, k: K)
    ensures LastFor(cs, k).Some? ==> Some((k, LastFor(cs, k).value)) in cs
    ensures FirstFor(cs, k).Some? ==> Some((k, FirstFor(cs, k).value)) in cs
  {
    if cs != [] {
      var n, init := |cs| - 1, cs[..|cs| - 1];
      FoundIsContributed(init, k);
      assert cs == init + [cs[n]];
    }
  }

  // ---- Lists with gaps ----

  /** The values present, in order. */
  function Somes<T>(xs: seq<Option<T>>): seq<T> {
    if xs == [] then []
    else Somes(xs[..|xs| - 1]) + match xs[|xs| - 1] case None => [] case Some(x) => [x]
  }

  lemma {:induction false} SomesAreMembers<T>(xs: seq<Option<T>>, x: T)
    ensures x in Somes(xs) <==> Some(x) in xs
  {
    if xs != [] {
      var n, init := |xs| - 1, xs[..|xs| - 1];
      SomesAreMembers(init, x);
      assert xs == init + [xs[n]];
    }
  }
}
