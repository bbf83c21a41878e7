/** Completion handlers running at the same time on the start map of bpf/block_latency.c: each looks its
    request up, measures from the start it found, and deletes the request's entry in a later call. Module
    LatencyMaps takes these calls as one; here other handlers may come between them. */
module StartRaces {
  import opened Runs

  /** A completion that has not looked up, found nothing, measures from a start, or has deleted the entry. */
  datatype Pc = Lookup | Missed | Holding(start: nat) | Sampled(start: nat)

  /** Starts are numbered as they are issued; the table names the latest one of each request. */
  datatype World<K> = World(table: map<K, nat>, issued: seq<K>, pcs: seq<Pc>)

  /** The handler of an issue, one map call of completion h, or the eviction of an entry. */
  datatype Action<K> = Issue(key: K) | Move(h: nat) | Evict(key: K)

  ghost predicate HasStart(pc: Pc) { pc.Holding? || pc.Sampled? }

  ghost predicate WellFormed<K>(jobs: seq<K>, w: World<K>) {
    && |w.pcs| == |jobs|
    && (forall k :: k in w.table ==> w.table[k] < |w.issued| && w.issued[w.table[k]] == k)
    && (forall h :: 0 <= h < |jobs| && HasStart(w.pcs[h]) ==>
          w.pcs[h].start < |w.issued| && w.issued[w.pcs[h].start] == jobs[h])
  }

  /** jobs[h] is the request that completion h is for. */
  ghost function Act<K(!new)>(jobs: seq<K>, w: World<K>, a: Action<K>): (w': World<K>)
    requires WellFormed(jobs, w)
    ensures WellFormed(jobs, w')
  {
    match a
    case Issue(k) => w.(table := w.table[k := |w.issued|], issued := w.issued + [k])
    case Evict(k) => w.(table := w.table - {k})
    case Move(h) =>
      if h >= |jobs| then w else
      match w.pcs[h]
      case Lookup => w.(pcs := w.pcs[h := if jobs[h] in w.table then Holding(w.table[jobs[h]]) else Missed])
      case Holding(s) => w.(table := w.table - {jobs[h]}, pcs := w.pcs[h := Sampled(s)])
      case _ => w
  }

  ghost function Exec<K(!new)>(jobs: seq<K>, as_: seq<Action<K>>): (w: World<K>)
    ensures WellFormed(jobs, w)
  {
    if as_ == [] then World(map[], [], seq(|jobs|, h => Lookup))
    else Act(jobs, Exec(jobs, as_[..|as_| - 1]), as_[|as_| - 1])
  }

  // ---- How long a start stays in the table ----

  ghost predicate InTable<K>(jobs: seq<K>, w: World<K>, h: nat)
    requires h < |jobs| && h < |w.pcs| && HasStart(w.pcs[h])
  {
    jobs[h] in w.table && w.table[jobs[h]] == w.pcs[h].start
  }

  /** This action issues, deletes or evicts the request. */
  ghost predicate Displaces<K>(jobs: seq<K>, w: World<K>, a: Action<K>, k: K)
    requires |w.pcs| == |jobs|
  {
    match a
    case Issue(k') => k' == k
    case Evict(k') => k' == k
    case Move(g) => g < |jobs| && w.pcs[g].Holding? && jobs[g] == k
  }

  ghost predicate Displacing<K(!new)>(jobs: seq<K>, p: seq<Action<K>>, a: Action<K>, h: nat) {
    && h < |jobs| && HasStart(Exec(jobs, p).pcs[h]) && Displaces(jobs, Exec(jobs, p), a, jobs[h])
  }

  ghost function DisplacingOf<K(!new)>(jobs: seq<K>, h: nat): (seq<Action<K>>, Action<K>) -> bool {
    (p, a) => Displacing(jobs, p, a, h)
  }

  /** Some step after h looked up its start issues, deletes or evicts h's request. */
  ghost predicate Displaced<K(!new)>(jobs: seq<K>, as_: seq<Action<K>>, h: nat) { SomeStep(DisplacingOf(jobs, h), as_) }

  lemma StartStep<K(!new)>(jobs: seq<K>, w: World<K>, a: Action<K>, h: nat)
    requires WellFormed(jobs, w) && h < |jobs| && HasStart(w.pcs[h])
    ensures var w' := Act(jobs, w, a);
      && HasStart(w'.pcs[h]) && w'.pcs[h].start == w.pcs[h].start
      && (InTable(jobs, w', h) <==> InTable(jobs, w, h) && !Displaces(jobs, w, a, jobs[h]))
  {
  }

  lemma StartTaken<K(!new)>(jobs: seq<K>, w: World<K>, a: Action<K>, h: nat)
    requires WellFormed(jobs, w) && h < |jobs| && !HasStart(w.pcs[h])
    ensures HasStart(Act(jobs, w, a).pcs[h]) ==>
      a == Move(h) && w.pcs[h] == Lookup && InTable(jobs, Act(jobs, w, a), h)
  {
  }

  lemma {:induction false} StartsStay<K(!new)>(jobs: seq<K>, as_: seq<Action<K>>, n: nat, h: nat)
    requires h < |jobs| && n <= |as_| && HasStart(Exec(jobs, as_[..n]).pcs[h])
    ensures HasStart(Exec(jobs, as_).pcs[h])
  {
    if n == |as_| {
      assert as_[..n] == as_;
    } else {
      var p := as_[..|as_| - 1];
      assert p[..n] == as_[..n];
      StartsStay(jobs, p, n, h);
      StartStep(jobs, Exec(jobs, p), as_[|as_| - 1], h);
    }
  }

  /** The start a completion measures from is still in the table exactly while nothing touched its request. */
  lemma {:induction false} StillThereIff<K(!new)>(jobs: seq<K>, as_: seq<Action<K>>, h: nat)
    requires h < |jobs| && HasStart(Exec(jobs, as_).pcs[h])
    ensures InTable(jobs, Exec(jobs, as_), h) <==> !Displaced(jobs, as_, h)
  {
    var p, a := as_[..|as_| - 1], as_[|as_| - 1];
    var w := Exec(jobs, p);
    assert as_ == p + [a];
    SomeStepSnoc(DisplacingOf(jobs, h), p, a);
    if HasStart(w.pcs[h]) {
      StillThereIff(jobs, p, h);
      StartStep(jobs, w, a, h);
    } else {
      StartTaken(jobs, w, a, h);
      if n :| 0 <= n < |p| && DisplacingOf(jobs, h)(p[..n], p[n]) {
        StartsStay(jobs, p, n, h);
      }
    }
  }

  // ---- One sample for each start ----

  /** No two completions measure from the same start. */
  ghost predicate OneToOne<K>(w: World<K>) {
    forall g, h :: 0 <= g < h < |w.pcs| && HasStart(w.pcs[g]) && HasStart(w.pcs[h]) ==> w.pcs[g].start != w.pcs[h].start
  }

  /** This step is the lookup of a completion whose request completion g has looked up, with nothing touching the
      request since: g has not deleted it yet. */
  ghost predicate Sharing<K(!new)>(jobs: seq<K>, p: seq<Action<K>>, a: Action<K>, g: nat) {
    && g < |jobs| && a.Move? && a.h < |jobs| && jobs[a.h] == jobs[g]
    && var w := Exec(jobs, p);
    w.pcs[a.h] == Lookup && HasStart(w.pcs[g]) && !Displaced(jobs, p, g)
  }

  ghost function SharingOf<K(!new)>(jobs: seq<K>): (seq<Action<K>>, Action<K>) -> bool {
    (p, a) => exists g: nat :: Sharing(jobs, p, a, g)
  }

  ghost predicate Shares<K(!new)>(jobs: seq<K>, as_: seq<Action<K>>) { SomeStep(SharingOf(jobs), as_) }

  /** A step makes two completions share a start exactly if it is such a lookup. */
  lemma OneToOneStep<K(!new)>(jobs: seq<K>, p: seq<Action<K>>, a: Action<K>)
    ensures OneToOne(Act(jobs, Exec(jobs, p), a)) <==>
      OneToOne(Exec(jobs, p)) && forall g: nat :: !Sharing(jobs, p, a, g)
  {
    var w := Exec(jobs, p);
    var w' := Act(jobs, w, a);
    forall g: nat | g < |jobs| && HasStart(w.pcs[g])
      ensures HasStart(w'.pcs[g]) && w'.pcs[g].start == w.pcs[g].start
      ensures InTable(jobs, w, g) <==> !Displaced(jobs, p, g)
    {
      StartStep(jobs, w, a, g);
      StillThereIff(jobs, p, g);
    }
    if a.Move? && a.h < |jobs| && w.pcs[a.h] == Lookup {
      LookupStep(jobs, p, a.h);
    }
  }

  /** A lookup takes the start of another completion exactly if that one's is in the table. */
  lemma LookupStep<K(!new)>(jobs: seq<K>, p: seq<Action<K>>, h: nat)
    requires h < |jobs| && Exec(jobs, p).pcs[h] == Lookup
    ensures var w, w' := Exec(jobs, p), Act(jobs, Exec(jobs, p), Move(h));
      forall g: nat :: g < |jobs| && HasStart(w.pcs[g]) ==>
        ((HasStart(w'.pcs[h]) && w'.pcs[h].start == w.pcs[g].start) <==> Sharing(jobs, p, Move(h), g))
  {
    var w := Exec(jobs, p);
    forall g: nat | g < |jobs| && HasStart(w.pcs[g])
      ensures InTable(jobs, w, g) <==> !Displaced(jobs, p, g)
    {
      StillThereIff(jobs, p, g);
    }
  }

  /** Under any schedule, every start is measured at most once if and only if no completion looks up a
      request between another completion's lookup of it and the next issue, deletion or eviction of it. */
  lemma {:induction false} OneToOneIff<K(!new)>(jobs: seq<K>, as_: seq<Action<K>>)
    ensures OneToOne(Exec(jobs, as_)) <==> !Shares(jobs, as_)
  {
    if as_ != [] {
      var p, a := as_[..|as_| - 1], as_[|as_| - 1];
      assert as_ == p + [a];
      OneToOneIff(jobs, p);
      SomeStepSnoc(SharingOf(jobs), p, a);
      OneToOneStep(jobs, p, a);
    }
  }

  /** A completion that has deleted its request is never shared. */
  lemma {:induction false} SampledIsDisplaced<K(!new)>(jobs: seq<K>, as_: seq<Action<K>>, g: nat)
    requires g < |jobs| && Exec(jobs, as_).pcs[g].Sampled?
    ensures Displaced(jobs, as_, g)
  {
    var p, a := as_[..|as_| - 1], as_[|as_| - 1];
    assert as_ == p + [a];
    SomeStepSnoc(DisplacingOf(jobs, g), p, a);
    if Exec(jobs, p).pcs[g].Sampled? {
      SampledIsDisplaced(jobs, p, g);
    }
  }

  /** This step is a lookup of a request that another completion is between its lookup and its deletion of. */
  ghost predicate CutsIn<K(!new)>(jobs: seq<K>, p: seq<Action<K>>, a: Action<K>) {
    && a.Move? && a.h < |jobs| && Exec(jobs, p).pcs[a.h] == Lookup
    && exists g: nat :: g < |jobs| && jobs[g] == jobs[a.h] && Exec(jobs, p).pcs[g].Holding?
  }

  ghost function CuttingIn<K(!new)>(jobs: seq<K>): (seq<Action<K>>, Action<K>) -> bool {
    (p, a) => CutsIn(jobs, p, a)
  }

  /** So only the calls between lookup and deletion are exposed: a schedule in which no other completion of a
      request looks it up in between measures every start at most once. */
  lemma UncutRunsAreOneToOne<K(!new)>(jobs: seq<K>, as_: seq<Action<K>>)
    requires !SomeStep(CuttingIn(jobs), as_)
    ensures OneToOne(Exec(jobs, as_))
  {
    OneToOneIff(jobs, as_);
    forall n | 0 <= n < |as_| ensures !SharingOf(jobs)(as_[..n], as_[n]) {
      assert !CuttingIn(jobs)(as_[..n], as_[n]);
      forall g: nat ensures !Sharing(jobs, as_[..n], as_[n], g) {
        if g < |jobs| && Exec(jobs, as_[..n]).pcs[g].Sampled? {
          SampledIsDisplaced(jobs, as_[..n], g);
        }
      }
    }
  }

  /** A completion deletes a start other than its own exactly if its request was touched since its lookup and
      has been issued again. */
  lemma DeletesAnotherIff<K(!new)>(jobs: seq<K>, as_: seq<Action<K>>, h: nat)
    requires h < |jobs| && Exec(jobs, as_).pcs[h].Holding?
    ensures var w := Exec(jobs, as_);
      jobs[h] in w.table && w.table[jobs[h]] != w.pcs[h].start <==> jobs[h] in w.table && Displaced(jobs, as_, h)
  {
    StillThereIff(jobs, as_, h);
  }

  lemma ExecSnoc<K(!new)>(jobs: seq<K>, p: seq<Action<K>>, a: Action<K>)
    ensures Exec(jobs, p + [a]) == Act(jobs, Exec(jobs, p), a)
  {
    assert (p + [a])[..|p|] == p;
  }

  lemma BothHold<K(!new)>(k: K) returns (as_: seq<Action<K>>)
    ensures Exec([k, k], as_) == World(map[k := 0], [k], [Holding(0), Holding(0)])
  {
    var jobs := [k, k];
    ExecSnoc(jobs, [], Issue(k));
    ExecSnoc(jobs, [] + [Issue(k)], Move(0));
    ExecSnoc(jobs, [] + [Issue(k)] + [Move(0)], Move(1));
    as_ := [] + [Issue(k)] + [Move(0)] + [Move(1)];
  }

  /** Two completions for one issue can both be sampled. */
  lemma OneIssueTwoSamples<K(!new)>(k: K) returns (as_: seq<Action<K>>)
    ensures var w := Exec([k, k], as_); w.issued == [k] && w.pcs == [Sampled(0), Sampled(0)]
  {
    var p := BothHold(k);
    ExecSnoc([k, k], p, Move(0));
    ExecSnoc([k, k], p + [Move(0)], Move(1));
    as_ := p + [Move(0)] + [Move(1)];
  }
}
