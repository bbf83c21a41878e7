/** Completion handlers running at the same time on several processors, interleaving at each call on
    the histogram map: lookup, install of an all-zero histogram, second lookup, atomic add. */
module Interleaving {
  import opened LatencyMaps
  import opened Runs

  /** A completion that has reached the histogram map with its key and slot. */
  datatype Job = Job(hk: HistKey, slot: nat)

  datatype Pc = Lookup | Missed | Relookup | Holding(cell: nat) | Added(cell: nat) | GaveUp

  /** A histogram element in kernel memory. Replacing or evicting a key leaves its old element behind,
      still writable through a pointer taken earlier but no longer in the table. */
  datatype Cell = Cell(hk: HistKey, owner: nat, slots: Counters)

  type Counters = s: seq<nat> | |s| == 26 witness seq(26, i => 0)

  ghost function ZeroHist(): (s: Counters)
    ensures forall i :: 0 <= i < |s| ==> s[i] == 0
  {
    seq(26, i => 0)
  }

  datatype World = World(table: map<HistKey, nat>, cells: seq<Cell>, pcs: seq<Pc>)

  /** The next map call of a handler, an install that the kernel refuses, or the eviction of an entry. */
  datatype Action = Move(h: nat) | Refuse(h: nat) | Evict(hk: HistKey)

  ghost predicate IsJobs(jobs: seq<Job>) {
    forall h :: 0 <= h < |jobs| ==> jobs[h].slot < MAX_SLOTS
  }

  ghost predicate Enabled(jobs: seq<Job>, a: Action) {
    !a.Evict? ==> a.h < |jobs|
  }

  ghost function Initial(jobs: seq<Job>): World {
    World(map[], [], seq(|jobs|, h => Lookup))
  }

  ghost predicate CellsOwned(jobs: seq<Job>, w: World) {
    forall c :: 0 <= c < |w.cells| ==> w.cells[c].owner < |jobs| && jobs[w.cells[c].owner].hk == w.cells[c].hk
  }

  ghost predicate TablePoints(w: World) {
    forall k :: k in w.table ==> w.table[k] < |w.cells| && w.cells[w.table[k]].hk == k
  }

  ghost predicate HandlersPoint(jobs: seq<Job>, w: World) {
    forall h :: 0 <= h < |jobs| && h < |w.pcs| && (w.pcs[h].Holding? || w.pcs[h].Added?) ==>
      w.pcs[h].cell < |w.cells| && w.cells[w.pcs[h].cell].hk == jobs[h].hk
  }

  ghost predicate WellFormed(jobs: seq<Job>, w: World) {
    IsJobs(jobs) && |w.pcs| == |jobs| && CellsOwned(jobs, w) && TablePoints(w) && HandlersPoint(jobs, w)
  }

  /** One map call of handler h, or the eviction of an entry. */
  ghost function Act(jobs: seq<Job>, w: World, a: Action): World
    requires WellFormed(jobs, w) && Enabled(jobs, a)
  {
    match a
    case Evict(k) => w.(table := w.table - {k})
    case Refuse(h) => if w.pcs[h] == Missed then w.(pcs := w.pcs[h := Relookup]) else w
    case Move(h) =>
      var k := jobs[h].hk;
      match w.pcs[h]
      case Lookup =>
        w.(pcs := w.pcs[h := if k in w.table then Holding(w.table[k]) else Missed])
      case Missed =>
        World(w.table[k := |w.cells|], w.cells + [Cell(k, h, ZeroHist())], w.pcs[h := Relookup])
      case Relookup =>
        w.(pcs := w.pcs[h := if k in w.table then Holding(w.table[k]) else GaveUp])
      case Holding(c) =>
        var s, slot := w.cells[c].slots, jobs[h].slot;
        w.(cells := w.cells[c := w.cells[c].(slots := s[slot := s[slot] + 1])], pcs := w.pcs[h := Added(c)])
      case Added(_) => w
      case GaveUp => w
  }

  ghost predicate IsSchedule(jobs: seq<Job>, as_: seq<Action>) {
    IsJobs(jobs) && forall a :: a in as_ ==> Enabled(jobs, a)
  }

  lemma CellsKeepKeys(jobs: seq<Job>, w: World, a: Action)
    requires WellFormed(jobs, w) && Enabled(jobs, a)
    ensures var w' := Act(jobs, w, a);
      && |w.cells| <= |w'.cells|
      && forall c :: 0 <= c < |w.cells| ==> w'.cells[c].hk == w.cells[c].hk && w'.cells[c].owner == w.cells[c].owner
  {
  }

  lemma ActKeepsCellsOwned(jobs: seq<Job>, w: World, a: Action)
    requires WellFormed(jobs, w) && Enabled(jobs, a)
    ensures CellsOwned(jobs, Act(jobs, w, a))
  {
    CellsKeepKeys(jobs, w, a);
  }

  lemma ActKeepsTablePoints(jobs: seq<Job>, w: World, a: Action)
    requires WellFormed(jobs, w) && Enabled(jobs, a)
    ensures TablePoints(Act(jobs, w, a))
  {
    CellsKeepKeys(jobs, w, a);
  }

  lemma ActKeepsHandlersPoint(jobs: seq<Job>, w: World, a: Action)
    requires WellFormed(jobs, w) && Enabled(jobs, a)
    ensures HandlersPoint(jobs, Act(jobs, w, a))
  {
    CellsKeepKeys(jobs, w, a);
  }

  lemma ActKeepsWellFormed(jobs: seq<Job>, w: World, a: Action)
    requires WellFormed(jobs, w) && Enabled(jobs, a)
    ensures WellFormed(jobs, Act(jobs, w, a))
  {
    ActKeepsCellsOwned(jobs, w, a);
    ActKeepsTablePoints(jobs, w, a);
    ActKeepsHandlersPoint(jobs, w, a);
  }

  ghost function Exec(jobs: seq<Job>, as_: seq<Action>): (w: World)
    requires IsSchedule(jobs, as_)
    ensures WellFormed(jobs, w)
  {
    if as_ == [] then Initial(jobs)
    else
      var w := Exec(jobs, as_[..|as_| - 1]);
      ActKeepsWellFormed(jobs, w, as_[|as_| - 1]);
      Act(jobs, w, as_[|as_| - 1])
  }

  // ---- Every add is in exactly one element ----

  ghost function AddsTo(jobs: seq<Job>, w: World, c: nat, slot: nat): set<nat> { AddersTo(jobs, w.pcs, c, slot) }

  ghost function AddersTo(jobs: seq<Job>, pcs: seq<Pc>, c: nat, slot: nat): set<nat> {
    set h: nat | h < |pcs| && h < |jobs| && pcs[h] == Added(c) && jobs[h].slot == slot
  }

  /** Handlers that completed their atomic add for this key and slot. */
  ghost function Adds(jobs: seq<Job>, w: World, hk: HistKey, slot: nat): set<nat> {
    set h: nat | h < |w.pcs| && h < |jobs| && w.pcs[h].Added? && jobs[h] == Job(hk, slot)
  }

  lemma SameAdds(jobs: seq<Job>, w: World, w': World, c: nat, slot: nat)
    requires |w.pcs| == |w'.pcs|
    requires forall h :: 0 <= h < |w.pcs| ==> (w.pcs[h] == Added(c) <==> w'.pcs[h] == Added(c))
    ensures AddsTo(jobs, w', c, slot) == AddsTo(jobs, w, c, slot)
  {
  }

  lemma OneMoreAdder(jobs: seq<Job>, pcs: seq<Pc>, h: nat, c: nat, slot: nat)
    requires |pcs| == |jobs| && h < |jobs| && pcs[h] == Holding(c)
    ensures |AddersTo(jobs, pcs[h := Added(c)], c, slot)| ==
      |AddersTo(jobs, pcs, c, slot)| + (if jobs[h].slot == slot then 1 else 0)
  {
    var after := AddersTo(jobs, pcs[h := Added(c)], c, slot);
    if jobs[h].slot == slot {
      assert after == AddersTo(jobs, pcs, c, slot) + {h};
    } else {
      assert after == AddersTo(jobs, pcs, c, slot);
    }
  }

  lemma OneMoreAdd(jobs: seq<Job>, w: World, h: nat, c: nat, slot: nat)
    requires WellFormed(jobs, w) && h < |jobs| && w.pcs[h] == Holding(c) && slot < MAX_SLOTS
    ensures |AddsTo(jobs, Act(jobs, w, Move(h)), c, slot)| ==
      |AddsTo(jobs, w, c, slot)| + (if jobs[h].slot == slot then 1 else 0)
  {
    OneMoreAdder(jobs, w.pcs, h, c, slot);
  }

  lemma OneMoreCounted(jobs: seq<Job>, w: World, h: nat, c: nat, slot: nat)
    requires WellFormed(jobs, w) && h < |jobs| && w.pcs[h] == Holding(c) && slot < MAX_SLOTS
    ensures Act(jobs, w, Move(h)).cells[c].slots[slot] ==
      w.cells[c].slots[slot] + (if jobs[h].slot == slot then 1 else 0)
  {
  }

  lemma ActCountsAdds(jobs: seq<Job>, w: World, a: Action, c: nat, slot: nat)
    requires WellFormed(jobs, w) && Enabled(jobs, a) && c < |Act(jobs, w, a).cells| && slot < MAX_SLOTS
    requires c < |w.cells| ==> w.cells[c].slots[slot] == |AddsTo(jobs, w, c, slot)|
    ensures Act(jobs, w, a).cells[c].slots[slot] == |AddsTo(jobs, Act(jobs, w, a), c, slot)|
  {
    if a.Move? && w.pcs[a.h] == Holding(c) {
      OneMoreAdd(jobs, w, a.h, c, slot);
      OneMoreCounted(jobs, w, a.h, c, slot);
    } else {
      SameAdds(jobs, w, Act(jobs, w, a), c, slot);
      if c == |w.cells| { assert AddsTo(jobs, w, c, slot) == {}; }
    }
  }

  lemma {:induction false} CellsCountAdds(jobs: seq<Job>, as_: seq<Action>, c: nat, slot: nat)
    requires IsSchedule(jobs, as_) && c < |Exec(jobs, as_).cells| && slot < MAX_SLOTS
    ensures Exec(jobs, as_).cells[c].slots[slot] == |AddsTo(jobs, Exec(jobs, as_), c, slot)|
  {
    if as_ != [] {
      var w := Exec(jobs, as_[..|as_| - 1]);
      if c < |w.cells| { CellsCountAdds(jobs, as_[..|as_| - 1], c, slot); }
      ActCountsAdds(jobs, w, as_[|as_| - 1], c, slot);
    }
  }

  lemma SubsetSize<T>(a: set<T>, b: set<T>)
    requires a <= b
    ensures |a| <= |b|
    ensures |a| == |b| ==> a == b
  {
    assert b == a + (b - a);
  }

  /** Under any interleaving and any evictions, a visible slot never exceeds the adds made for it, and
      it equals them exactly when every one of those adds went to the element now in the table. */
  lemma VisibleNeverExceedsAdds(jobs: seq<Job>, as_: seq<Action>, hk: HistKey, slot: nat)
    requires IsSchedule(jobs, as_) && hk in Exec(jobs, as_).table && slot < MAX_SLOTS
    ensures var w := Exec(jobs, as_);
      var visible, adds := w.cells[w.table[hk]].slots[slot], Adds(jobs, w, hk, slot);
      && visible <= |adds|
      && (visible == |adds| <==> forall h :: h in adds ==> w.pcs[h] == Added(w.table[hk]))
  {
    var w := Exec(jobs, as_);
    var c := w.table[hk];
    CellsCountAdds(jobs, as_, c, slot);
    SubsetSize(AddsTo(jobs, w, c, slot), Adds(jobs, w, hk, slot));
    if forall h :: h in Adds(jobs, w, hk, slot) ==> w.pcs[h] == Added(c) {
      assert AddsTo(jobs, w, c, slot) == Adds(jobs, w, hk, slot);
    }
  }

  // ---- Exactly when an add is lost ----

  ghost predicate HasPointer(pc: Pc) { pc.Holding? || pc.Added? }

  /** The element handler h has its pointer into is the one in the table. */
  ghost predicate InTable(jobs: seq<Job>, w: World, h: nat)
    requires h < |jobs| && h < |w.pcs| && HasPointer(w.pcs[h])
  {
    jobs[h].hk in w.table && w.table[jobs[h].hk] == w.pcs[h].cell
  }

  /** This action replaces or removes the entry of a key: an install by a handler that missed it, or its eviction. */
  ghost predicate Displaces(jobs: seq<Job>, w: World, a: Action, hk: HistKey)
    requires |w.pcs| == |jobs|
  {
    match a
    case Evict(k) => k == hk
    case Refuse(_) => false
    case Move(g) => g < |jobs| && w.pcs[g] == Missed && jobs[g].hk == hk
  }

  /** After the run p handler h has its pointer, and this action displaces its key. */
  ghost predicate Displacing(jobs: seq<Job>, p: seq<Action>, a: Action, h: nat) {
    && IsSchedule(jobs, p) && h < |jobs|
    && HasPointer(Exec(jobs, p).pcs[h]) && Displaces(jobs, Exec(jobs, p), a, jobs[h].hk)
  }

  ghost function DisplacingOf(jobs: seq<Job>, h: nat): (seq<Action>, Action) -> bool {
    (p, a) => Displacing(jobs, p, a, h)
  }

  /** Some step after h took its pointer displaces h's key. */
  ghost predicate Displaced(jobs: seq<Job>, as_: seq<Action>, h: nat) { SomeStep(DisplacingOf(jobs, h), as_) }

  /** One step: a handler with a pointer keeps it, and its element stays in the table unless the step displaces it. */
  lemma PointerStep(jobs: seq<Job>, w: World, a: Action, h: nat)
    requires WellFormed(jobs, w) && Enabled(jobs, a) && h < |jobs| && HasPointer(w.pcs[h])
    ensures var w' := Act(jobs, w, a);
      && |w'.pcs| == |jobs| && HasPointer(w'.pcs[h]) && w'.pcs[h].cell == w.pcs[h].cell
      && (InTable(jobs, w', h) <==> InTable(jobs, w, h) && !Displaces(jobs, w, a, jobs[h].hk))
  {
  }

  /** A pointer just taken is into the table. */
  lemma PointerTaken(jobs: seq<Job>, w: World, a: Action, h: nat)
    requires WellFormed(jobs, w) && Enabled(jobs, a) && h < |jobs| && !HasPointer(w.pcs[h])
    ensures var w' := Act(jobs, w, a);
      |w'.pcs| == |jobs| && (HasPointer(w'.pcs[h]) ==> InTable(jobs, w', h))
  {
  }

  lemma {:induction false} PointersStay(jobs: seq<Job>, as_: seq<Action>, n: nat, h: nat)
    requires IsSchedule(jobs, as_) && h < |jobs| && n <= |as_| && HasPointer(Exec(jobs, as_[..n]).pcs[h])
    ensures HasPointer(Exec(jobs, as_).pcs[h])
  {
    if n == |as_| {
      assert as_[..n] == as_;
    } else {
      var p := as_[..|as_| - 1];
      assert p[..n] == as_[..n];
      PointersStay(jobs, p, n, h);
      PointerStep(jobs, Exec(jobs, p), as_[|as_| - 1], h);
    }
  }

  /** Under any schedule and any evictions, what a handler adds is visible at the end if and only if no step
      after it took its pointer installs a zero histogram for its key or evicts the key. */
  lemma {:induction false} AddIsLostIff(jobs: seq<Job>, as_: seq<Action>, h: nat)
    requires IsSchedule(jobs, as_) && h < |jobs| && HasPointer(Exec(jobs, as_).pcs[h])
    ensures !InTable(jobs, Exec(jobs, as_), h) <==> Displaced(jobs, as_, h)
  {
    var p, a := as_[..|as_| - 1], as_[|as_| - 1];
    var w := Exec(jobs, p);
    assert as_ == p + [a];
    SomeStepSnoc(DisplacingOf(jobs, h), p, a);
    if HasPointer(w.pcs[h]) {
      AddIsLostIff(jobs, p, h);
      PointerStep(jobs, w, a, h);
    } else {
      PointerTaken(jobs, w, a, h);
      if n :| 0 <= n < |p| && DisplacingOf(jobs, h)(p[..n], p[n]) {
        PointersStay(jobs, p, n, h);
      }
    }
  }

  /** So a visible slot misses some of its adds if and only if one of them was made by a displaced handler. */
  lemma VisibleIsCompleteIff(jobs: seq<Job>, as_: seq<Action>, hk: HistKey, slot: nat)
    requires IsSchedule(jobs, as_) && hk in Exec(jobs, as_).table && slot < MAX_SLOTS
    ensures var w := Exec(jobs, as_);
      w.cells[w.table[hk]].slots[slot] == |Adds(jobs, w, hk, slot)| <==>
      forall h :: h in Adds(jobs, w, hk, slot) ==> !Displaced(jobs, as_, h)
  {
    var w := Exec(jobs, as_);
    VisibleNeverExceedsAdds(jobs, as_, hk, slot);
    forall h | h in Adds(jobs, w, hk, slot)
      ensures w.pcs[h] == Added(w.table[hk]) <==> !Displaced(jobs, as_, h)
    {
      AddIsLostIff(jobs, as_, h);
    }
  }

  // ---- Without eviction ----

  /** Nothing is evicted and no install is refused. */
  ghost predicate NoEviction(as_: seq<Action>) {
    forall a :: a in as_ ==> a.Move?
  }

  /** At some moment of the run both handlers have missed and neither has installed. */
  ghost predicate BothMissed(jobs: seq<Job>, as_: seq<Action>, g: nat, h: nat)
    requires IsSchedule(jobs, as_)
  {
    g < |jobs| && h < |jobs| && exists n :: 0 <= n <= |as_| && MissedAt(jobs, as_[..n], g, h)
  }

  ghost predicate MissedAt(jobs: seq<Job>, p: seq<Action>, g: nat, h: nat)
    requires g < |jobs| && h < |jobs|
  {
    IsSchedule(jobs, p) && Exec(jobs, p).pcs[g] == Missed && Exec(jobs, p).pcs[h] == Missed
  }

  lemma BothMissedExtends(jobs: seq<Job>, as_: seq<Action>, g: nat, h: nat)
    requires as_ != [] && IsSchedule(jobs, as_) && BothMissed(jobs, as_[..|as_| - 1], g, h)
    ensures BothMissed(jobs, as_, g, h)
  {
    var p := as_[..|as_| - 1];
    var n :| 0 <= n <= |p| && MissedAt(jobs, p[..n], g, h);
    assert p[..n] == as_[..n];
  }

  /** Without eviction a key stays in the table once it has an element, so nobody gives up. */
  ghost predicate KeysStay(jobs: seq<Job>, w: World) {
    && (forall c :: 0 <= c < |w.cells| ==> w.cells[c].hk in w.table)
    && (forall h :: 0 <= h < |jobs| && h < |w.pcs| && w.pcs[h] == Relookup ==> jobs[h].hk in w.table)
    && GaveUp !in w.pcs
  }

  ghost predicate OwnersInstalled(w: World) {
    forall c :: 0 <= c < |w.cells| && w.cells[c].owner < |w.pcs| ==> w.pcs[w.cells[c].owner] !in {Lookup, Missed}
  }

  ghost predicate TableInvariant(jobs: seq<Job>, w: World) {
    KeysStay(jobs, w) && OwnersInstalled(w)
  }

  lemma LastMove(jobs: seq<Job>, as_: seq<Action>)
    requires IsSchedule(jobs, as_) && NoEviction(as_) && as_ != []
    ensures var p, a := as_[..|as_| - 1], as_[|as_| - 1];
      && a.Move? && a.h < |jobs| && IsSchedule(jobs, p) && NoEviction(p)
      && Exec(jobs, as_) == Act(jobs, Exec(jobs, p), a)
  {
    assert as_[|as_| - 1] in as_;
  }

  lemma MoveKeepsKeys(jobs: seq<Job>, w: World, h: nat)
    requires WellFormed(jobs, w) && KeysStay(jobs, w) && h < |jobs|
    ensures KeysStay(jobs, Act(jobs, w, Move(h)))
  {
    var w' := Act(jobs, w, Move(h));
    forall c | 0 <= c < |w'.cells| ensures w'.cells[c].hk in w'.table {
      if c < |w.cells| { assert w.cells[c].hk in w.table; }
    }
  }

  lemma MoveKeepsOwners(jobs: seq<Job>, w: World, h: nat)
    requires WellFormed(jobs, w) && OwnersInstalled(w) && h < |jobs|
    ensures OwnersInstalled(Act(jobs, w, Move(h)))
  {
    var w' := Act(jobs, w, Move(h));
    forall c | 0 <= c < |w'.cells| && w'.cells[c].owner < |w'.pcs|
      ensures w'.pcs[w'.cells[c].owner] !in {Lookup, Missed}
    {
      if c < |w.cells| { assert w'.cells[c].owner == w.cells[c].owner; }
    }
  }

  lemma {:induction false} TablesKeepTheirKeys(jobs: seq<Job>, as_: seq<Action>)
    requires IsSchedule(jobs, as_) && NoEviction(as_)
    ensures TableInvariant(jobs, Exec(jobs, as_))
  {
    if as_ != [] {
      LastMove(jobs, as_);
      TablesKeepTheirKeys(jobs, as_[..|as_| - 1]);
      MoveKeepsKeys(jobs, Exec(jobs, as_[..|as_| - 1]), as_[|as_| - 1].h);
      MoveKeepsOwners(jobs, Exec(jobs, as_[..|as_| - 1]), as_[|as_| - 1].h);
    }
  }

  /** A step adds an element only for the handler that had missed, and makes a handler miss only a key
      that has no element. */
  lemma MoveShape(jobs: seq<Job>, w: World, h: nat)
    requires WellFormed(jobs, w) && TableInvariant(jobs, w) && h < |jobs|
    ensures var w' := Act(jobs, w, Move(h));
      && |w.cells| <= |w'.cells| <= |w.cells| + 1
      && (forall c :: 0 <= c < |w.cells| ==> w'.cells[c].hk == w.cells[c].hk && w'.cells[c].owner == w.cells[c].owner)
      && (|w'.cells| > |w.cells| ==>
        w.pcs[h] == Missed && w'.cells[|w.cells|].owner == h && w'.cells[|w.cells|].hk == jobs[h].hk)
      && (forall g :: 0 <= g < |jobs| && w'.pcs[g] == Missed ==>
            w.pcs[g] == Missed || forall c :: 0 <= c < |w'.cells| ==> w'.cells[c].hk != jobs[g].hk)
  {
  }

  /** Whoever misses a key that has an element raced with that element's owner. */
  lemma {:induction false} LateMissersRaced(jobs: seq<Job>, as_: seq<Action>, c: nat, h: nat)
    requires IsSchedule(jobs, as_) && NoEviction(as_) && c < |Exec(jobs, as_).cells| && h < |jobs|
    requires Exec(jobs, as_).cells[c].hk == jobs[h].hk && Exec(jobs, as_).pcs[h] == Missed
    ensures BothMissed(jobs, as_, Exec(jobs, as_).cells[c].owner, h)
  {
    LastMove(jobs, as_);
    var p := as_[..|as_| - 1];
    var w := Exec(jobs, p);
    TablesKeepTheirKeys(jobs, p);
    MoveShape(jobs, w, as_[|as_| - 1].h);
    if c == |w.cells| {
      MissedBeforeInstall(jobs, as_, as_[|as_| - 1].h, h);
    } else {
      LateMissersRaced(jobs, p, c, h);
      BothMissedExtends(jobs, as_, w.cells[c].owner, h);
    }
  }

  /** Two elements for one key have different owners, and these raced. */
  lemma {:induction false} OwnersOfOneKeyRaced(jobs: seq<Job>, as_: seq<Action>, c: nat, d: nat)
    requires IsSchedule(jobs, as_) && NoEviction(as_) && c < d < |Exec(jobs, as_).cells|
    requires Exec(jobs, as_).cells[c].hk == Exec(jobs, as_).cells[d].hk
    ensures var w := Exec(jobs, as_);
      w.cells[c].owner != w.cells[d].owner && BothMissed(jobs, as_, w.cells[c].owner, w.cells[d].owner)
  {
    LastMove(jobs, as_);
    var p, h := as_[..|as_| - 1], as_[|as_| - 1].h;
    var w := Exec(jobs, p);
    TablesKeepTheirKeys(jobs, p);
    MoveShape(jobs, w, h);
    if d == |w.cells| {
      LateMissersRaced(jobs, p, c, h);
      BothMissedExtends(jobs, as_, w.cells[c].owner, h);
    } else {
      OwnersOfOneKeyRaced(jobs, p, c, d);
      BothMissedExtends(jobs, as_, w.cells[c].owner, w.cells[d].owner);
    }
  }

  lemma MissedBeforeInstall(jobs: seq<Job>, as_: seq<Action>, g: nat, h: nat)
    requires as_ != [] && IsSchedule(jobs, as_) && g < |jobs| && h < |jobs|
    requires Exec(jobs, as_[..|as_| - 1]).pcs[g] == Missed && Exec(jobs, as_[..|as_| - 1]).pcs[h] == Missed
    ensures BothMissed(jobs, as_, g, h)
  {
    assert MissedAt(jobs, as_[..|as_| - 1], g, h);
  }

  /** Handlers g and h each installed a histogram for this key, having missed it at the same time. */
  ghost predicate BothInstalled(jobs: seq<Job>, as_: seq<Action>, hk: HistKey, g: nat, h: nat)
    requires IsSchedule(jobs, as_)
  {
    && g != h && BothMissed(jobs, as_, g, h)
    && Installed(Exec(jobs, as_), hk, g) && Installed(Exec(jobs, as_), hk, h)
  }

  ghost predicate Installed(w: World, hk: HistKey, h: nat) {
    exists c :: 0 <= c < |w.cells| && w.cells[c].hk == hk && w.cells[c].owner == h
  }

  /** Without eviction an add is lost only where two handlers missed the key together and both installed a
      zero histogram for it. */
  lemma LostAddsNeedARace(jobs: seq<Job>, as_: seq<Action>, h: nat)
    requires IsSchedule(jobs, as_) && NoEviction(as_) && h < |jobs|
    requires HasPointer(Exec(jobs, as_).pcs[h]) && !InTable(jobs, Exec(jobs, as_), h)
    ensures exists f: nat, g: nat :: BothInstalled(jobs, as_, jobs[h].hk, f, g)
  {
    TablesKeepTheirKeys(jobs, as_);
    var w := Exec(jobs, as_);
    var c, d := w.pcs[h].cell, w.table[jobs[h].hk];
    var lo, hi := if c < d then c else d, if c < d then d else c;
    OwnersOfOneKeyRaced(jobs, as_, lo, hi);
    assert w.cells[lo].hk == w.cells[hi].hk == jobs[h].hk;
    assert Installed(w, jobs[h].hk, w.cells[lo].owner) && Installed(w, jobs[h].hk, w.cells[hi].owner);
    assert BothInstalled(jobs, as_, jobs[h].hk, w.cells[lo].owner, w.cells[hi].owner);
  }

  ghost predicate AllFinished(jobs: seq<Job>, w: World)
    requires |w.pcs| == |jobs|
  {
    forall g :: 0 <= g < |jobs| ==> w.pcs[g].Added? || w.pcs[g].GaveUp?
  }

  ghost function SameJobs(jobs: seq<Job>, job: Job): set<nat> { set g: nat | g < |jobs| && jobs[g] == job }

  lemma FinishedHaveAdded(jobs: seq<Job>, w: World, job: Job)
    requires WellFormed(jobs, w) && KeysStay(jobs, w) && AllFinished(jobs, w)
    ensures Adds(jobs, w, job.hk, job.slot) == SameJobs(jobs, job)
    ensures forall g :: 0 <= g < |jobs| ==> w.pcs[g].Added?
  {
    assert forall g :: 0 <= g < |jobs| ==> w.pcs[g] in w.pcs;
  }

  /** Once all handlers have finished without eviction, a slot counts every completion for it, as the atomic
      handlers would, if and only if no handler for it had its histogram replaced after taking its pointer. */
  lemma {:induction false} FinishedRunsCountAllIff(jobs: seq<Job>, as_: seq<Action>, h: nat)
    requires IsSchedule(jobs, as_) && NoEviction(as_) && h < |jobs| && AllFinished(jobs, Exec(jobs, as_))
    ensures var w := Exec(jobs, as_);
      && jobs[h].hk in w.table
      && (w.cells[w.table[jobs[h].hk]].slots[jobs[h].slot] == |SameJobs(jobs, jobs[h])| <==>
          forall g :: g in SameJobs(jobs, jobs[h]) ==> !Displaced(jobs, as_, g))
  {
    var w, job := Exec(jobs, as_), jobs[h];
    TablesKeepTheirKeys(jobs, as_);
    FinishedHaveAdded(jobs, w, job);
    assert w.cells[w.pcs[h].cell].hk == job.hk;
    VisibleIsCompleteIff(jobs, as_, job.hk, job.slot);
  }

  /** No two handlers for one key ever miss it together. */
  ghost predicate RaceFree(jobs: seq<Job>, as_: seq<Action>)
    requires IsSchedule(jobs, as_)
  {
    forall f: nat, g: nat :: f < |jobs| && g < |jobs| && f != g && jobs[f].hk == jobs[g].hk ==>
      !BothMissed(jobs, as_, f, g)
  }

  /** A race-free run without eviction displaces nobody. */
  lemma RaceFreeRunsLoseNothing(jobs: seq<Job>, as_: seq<Action>, h: nat)
    requires IsSchedule(jobs, as_) && NoEviction(as_) && h < |jobs| && HasPointer(Exec(jobs, as_).pcs[h])
    ensures RaceFree(jobs, as_) ==> !Displaced(jobs, as_, h)
  {
    AddIsLostIff(jobs, as_, h);
    if Displaced(jobs, as_, h) {
      LostAddsNeedARace(jobs, as_, h);
      var f: nat, g: nat :| BothInstalled(jobs, as_, jobs[h].hk, f, g);
      assert Installed(Exec(jobs, as_), jobs[h].hk, f) && Installed(Exec(jobs, as_), jobs[h].hk, g);
      assert jobs[f].hk == jobs[g].hk;
    }
  }

  lemma ExecSnoc(jobs: seq<Job>, as_: seq<Action>, a: Action)
    requires IsSchedule(jobs, as_) && Enabled(jobs, a)
    ensures IsSchedule(jobs, as_ + [a]) && Exec(jobs, as_ + [a]) == Act(jobs, Exec(jobs, as_), a)
  {
    assert (as_ + [a])[..|as_|] == as_;
  }

  /** The race is real: two first completions for one key, of which only one stays visible. */
  lemma ARaceLosesAnAdd(hk: HistKey) returns (jobs: seq<Job>, as_: seq<Action>)
    ensures IsSchedule(jobs, as_) && NoEviction(as_)
    ensures var w := Exec(jobs, as_);
      && hk in w.table && w.cells[w.table[hk]].slots[0] == 1
      && |Adds(jobs, w, hk, 0)| == 2
  {
    jobs := [Job(hk, 0), Job(hk, 0)];
    var second := SecondInstall(hk);
    var w := Exec(jobs, second);
    ExecSnoc(jobs, second, Move(1));
    ExecSnoc(jobs, second + [Move(1)], Move(1));
    as_ := second + [Move(1)] + [Move(1)];
    AddBoth(jobs, w, hk);
  }

  lemma AddBoth(jobs: seq<Job>, w: World, hk: HistKey)
    requires jobs == [Job(hk, 0), Job(hk, 0)] && WellFormed(jobs, w)
    requires w.pcs == [Added(0), Relookup] && w.table == map[hk := 1] && |w.cells| == 2 && w.cells[1].slots[0] == 0
    ensures WellFormed(jobs, Act(jobs, w, Move(1)))
    ensures var w' := Act(jobs, Act(jobs, w, Move(1)), Move(1));
      && w'.table == map[hk := 1] && |w'.cells| == 2 && w'.cells[1].slots[0] == 1
      && |Adds(jobs, w', hk, 0)| == 2
  {
    ActKeepsWellFormed(jobs, w, Move(1));
    var w' := Act(jobs, Act(jobs, w, Move(1)), Move(1));
    assert w'.pcs == [Added(0), Added(1)];
    assert Adds(jobs, w', hk, 0) == {0, 1};
  }

  lemma SecondInstall(hk: HistKey) returns (as_: seq<Action>)
    ensures IsSchedule([Job(hk, 0), Job(hk, 0)], as_) && NoEviction(as_)
    ensures var w := Exec([Job(hk, 0), Job(hk, 0)], as_);
      w.pcs == [Added(0), Relookup] && w.table == map[hk := 1] && |w.cells| == 2 && w.cells[1].slots[0] == 0
  {
    as_ := [Move(0), Move(1), Move(0), Move(0), Move(0)];
    FirstInstallAndAdd(hk);
    ExecSnoc([Job(hk, 0), Job(hk, 0)], as_, Move(1));
    as_ := as_ + [Move(1)];
  }

  lemma BothLookUp(hk: HistKey)
    ensures var jobs, as_ := [Job(hk, 0), Job(hk, 0)], [Move(0), Move(1)];
      IsSchedule(jobs, as_) && Exec(jobs, as_) == World(map[], [], [Missed, Missed])
  {
    var jobs := [Job(hk, 0), Job(hk, 0)];
    ExecSnoc(jobs, [], Move(0));
    assert [] + [Move(0)] == [Move(0)] && [Move(0)] + [Move(1)] == [Move(0), Move(1)];
    assert Exec(jobs, [Move(0)]).pcs == [Missed, Lookup];
    ExecSnoc(jobs, [Move(0)], Move(1));
  }

  lemma FirstInstallAndAdd(hk: HistKey)
    ensures var jobs, first := [Job(hk, 0), Job(hk, 0)], [Move(0), Move(1), Move(0), Move(0), Move(0)];
      && IsSchedule(jobs, first)
      && var w := Exec(jobs, first); w.pcs == [Added(0), Missed] && w.table == map[hk := 0] && |w.cells| == 1
  {
    var jobs := [Job(hk, 0), Job(hk, 0)];
    var a2 := [Move(0), Move(1)];
    var a3, a4 := a2 + [Move(0)], a2 + [Move(0)] + [Move(0)];
    BothLookUp(hk);
    ExecSnoc(jobs, a2, Move(0));
    ExecSnoc(jobs, a3, Move(0));
    ExecSnoc(jobs, a4, Move(0));
    assert a4 + [Move(0)] == [Move(0), Move(1), Move(0), Move(0), Move(0)];
  }
}
