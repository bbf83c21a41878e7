/** The scrape phase of pkg/qmp/collector.go's poll: one goroutine per connection of the snapshot behind
    a counting semaphore, sharing the results, the error count and the connection table under locks.
    Every interleaving of the goroutines' lock, unlock and update steps is a schedule. */
module QmpPoll {
  import opened Bits
  import opened Containers

  ghost function Upto(n: nat): (r: set<nat>)
    ensures forall i: nat :: i in r <==> i < n
    ensures |r| == n
  {
    if n == 0 then {} else Upto(n - 1) + {n - 1}
  }

  /** Where a goroutine is. `left` counts the QMP queries its scrape still has to make, each of which
      takes the client's own lock. */
  datatype Pc =
    | WantSem
    | WantConn
    | Scraping(left: nat)
    | Querying(left: nat)
    | WantResults
    | Recording
    | WantClose
    | Closing
    | ClosingClient
    | WantDelete
    | Deleting
    | Leaving
    | Releasing
    | Finished

  /** A poll over connections 0..n: which scrapes fail, and how many queries each makes. */
  datatype Config = Config(concurrency: int, queries: seq<nat>, failing: set<nat>) {
    ghost function All(): set<nat> { Upto(|queries|) }
    ghost predicate Valid() { failing <= All() }
  }

  datatype Poll = Poll(
    pcs: seq<Pc>,
    sem: nat,
    resultsMu: Option<nat>,
    connMu: Option<nat>,
    connLocks: set<nat>,
    clientLocks: set<nat>,
    results: seq<nat>,
    errors: nat,
    connections: set<nat>,
    closed: set<nat>
  )

  ghost function Initial(cfg: Config): Poll {
    Poll(seq(|cfg.queries|, i => WantSem), 0, None, None, {}, {}, [], 0, cfg.All(), {})
  }

  /** The lock or channel operation that goroutine i is about to make would not block. */
  ghost predicate Enabled(cfg: Config, s: Poll, i: nat) {
    && i < |s.pcs| && i < |cfg.queries|
    && match s.pcs[i]
       case WantSem => s.sem < cfg.concurrency
       case WantConn => i !in s.connLocks
       case Scraping(left) => left > 0 ==> i !in s.clientLocks
       case WantResults => s.resultsMu.None?
       case WantClose => i !in s.connLocks
       case Closing => i !in s.clientLocks
       case WantDelete => s.connMu.None?
       case Finished => false
       case _ => true
  }

  ghost function Next(cfg: Config, s: Poll, i: nat): Poll
    requires Enabled(cfg, s, i)
  {
    match s.pcs[i]
    case WantSem => s.(sem := s.sem + 1, pcs := s.pcs[i := WantConn])
    case WantConn => s.(connLocks := s.connLocks + {i}, pcs := s.pcs[i := Scraping(cfg.queries[i])])
    case Scraping(left) =>
      if left > 0 then s.(clientLocks := s.clientLocks + {i}, pcs := s.pcs[i := Querying(left - 1)])
      else s.(connLocks := s.connLocks - {i}, pcs := s.pcs[i := WantResults])
    case Querying(left) => s.(clientLocks := s.clientLocks - {i}, pcs := s.pcs[i := Scraping(left)])
    case WantResults => s.(resultsMu := Some(i), pcs := s.pcs[i := Recording])
    case Recording =>
      if i in cfg.failing then s.(errors := s.errors + 1, pcs := s.pcs[i := WantClose])
      else s.(results := s.results + [i], pcs := s.pcs[i := Leaving])
    case WantClose => s.(connLocks := s.connLocks + {i}, pcs := s.pcs[i := Closing])
    case Closing => s.(closed := s.closed + {i}, clientLocks := s.clientLocks + {i}, pcs := s.pcs[i := ClosingClient])
    case ClosingClient =>
      s.(clientLocks := s.clientLocks - {i}, connLocks := s.connLocks - {i}, pcs := s.pcs[i := WantDelete])
    case WantDelete => s.(connMu := Some(i), pcs := s.pcs[i := Deleting])
    case Deleting => s.(connections := s.connections - {i}, connMu := None, pcs := s.pcs[i := Leaving])
    case Leaving => s.(resultsMu := None, pcs := s.pcs[i := Releasing])
    case Releasing => s.(sem := if s.sem > 0 then s.sem - 1 else 0, pcs := s.pcs[i := Finished])
  }

  /** Making the semaphore panics if its size is negative; no goroutine is started then. */
  ghost predicate Panics(cfg: Config) { cfg.concurrency < 0 }

  /** Running the goroutines in the order of `schedule`; nothing if one of them would block or none is started. */
  ghost function Exec(cfg: Config, schedule: seq<nat>): Option<Poll> {
    if schedule == [] then if Panics(cfg) then None else Some(Initial(cfg))
    else
      var p, i := Exec(cfg, schedule[..|schedule| - 1]), schedule[|schedule| - 1];
      if p.Some? && Enabled(cfg, p.value, i) then Some(Next(cfg, p.value, i)) else None
  }

  ghost predicate Reaches(cfg: Config, schedule: seq<nat>, s: Poll) {
    Exec(cfg, schedule) == Some(s)
  }

  ghost predicate AllFinished(s: Poll) {
    forall i :: 0 <= i < |s.pcs| ==> s.pcs[i] == Finished
  }

  ghost predicate Stuck(cfg: Config, s: Poll) {
    forall i: nat :: !Enabled(cfg, s, i)
  }

  // ---- What each program point holds and has done ----

  ghost predicate HoldsSem(pc: Pc) { !pc.WantSem? && !pc.Finished? }
  ghost predicate HoldsConn(pc: Pc) { pc.Scraping? || pc.Querying? || pc.Closing? || pc.ClosingClient? }
  ghost predicate HoldsClient(pc: Pc) { pc.Querying? || pc.ClosingClient? }
  ghost predicate HoldsConnMu(pc: Pc) { pc.Deleting? }
  ghost predicate OnErrorPath(pc: Pc) {
    pc.WantClose? || pc.Closing? || pc.ClosingClient? || pc.WantDelete? || pc.Deleting?
  }
  ghost predicate HoldsResults(pc: Pc) { pc.Recording? || OnErrorPath(pc) || pc.Leaving? }
  ghost predicate PastDelete(pc: Pc) { pc.Leaving? || pc.Releasing? || pc.Finished? }
  ghost predicate PastClose(pc: Pc) { pc.ClosingClient? || pc.WantDelete? || pc.Deleting? || PastDelete(pc) }
  ghost predicate Recorded(pc: Pc) { OnErrorPath(pc) || PastDelete(pc) }
  ghost predicate InScrape(pc: Pc) { pc.Scraping? || pc.Querying? }

  ghost function Where(pcs: seq<Pc>, p: Pc -> bool): set<nat> {
    set i: nat | i < |pcs| && p(pcs[i])
  }

  ghost function Owner(m: Option<nat>): set<nat> {
    match m case None => {} case Some(i) => {i}
  }

  lemma WhereUpdate(pcs: seq<Pc>, i: nat, pc: Pc, p: Pc -> bool)
    requires i < |pcs|
    ensures Where(pcs[i := pc], p) == if p(pc) then Where(pcs, p) + {i} else Where(pcs, p) - {i}
    ensures i in Where(pcs, p) <==> p(pcs[i])
  {
  }

  // ---- Locks ----

  ghost predicate SemMatches(cfg: Config, s: Poll) { s.sem == |Where(s.pcs, HoldsSem)| <= cfg.concurrency }
  ghost predicate ResultsMuMatches(s: Poll) { Owner(s.resultsMu) == Where(s.pcs, HoldsResults) }
  ghost predicate ConnMuMatches(s: Poll) { Owner(s.connMu) == Where(s.pcs, HoldsConnMu) }
  ghost predicate ConnLocksMatch(s: Poll) { s.connLocks == Where(s.pcs, HoldsConn) }
  ghost predicate ClientLocksMatch(s: Poll) { s.clientLocks == Where(s.pcs, HoldsClient) }

  ghost predicate LocksMatch(cfg: Config, s: Poll) {
    && |s.pcs| == |cfg.queries| && SemMatches(cfg, s) && ResultsMuMatches(s) && ConnMuMatches(s)
    && ConnLocksMatch(s) && ClientLocksMatch(s)
  }

  lemma SemStep(cfg: Config, s: Poll, i: nat)
    requires SemMatches(cfg, s) && Enabled(cfg, s, i)
    ensures SemMatches(cfg, Next(cfg, s, i))
  {
    WhereUpdate(s.pcs, i, Next(cfg, s, i).pcs[i], HoldsSem);
  }

  lemma ResultsMuStep(cfg: Config, s: Poll, i: nat)
    requires ResultsMuMatches(s) && Enabled(cfg, s, i)
    ensures ResultsMuMatches(Next(cfg, s, i))
  {
    WhereUpdate(s.pcs, i, Next(cfg, s, i).pcs[i], HoldsResults);
  }

  lemma ConnMuStep(cfg: Config, s: Poll, i: nat)
    requires ConnMuMatches(s) && Enabled(cfg, s, i)
    ensures ConnMuMatches(Next(cfg, s, i))
  {
    WhereUpdate(s.pcs, i, Next(cfg, s, i).pcs[i], HoldsConnMu);
  }

  lemma ConnLocksStep(cfg: Config, s: Poll, i: nat)
    requires ConnLocksMatch(s) && ClientLocksMatch(s) && Enabled(cfg, s, i)
    ensures ConnLocksMatch(Next(cfg, s, i)) && ClientLocksMatch(Next(cfg, s, i))
  {
    WhereUpdate(s.pcs, i, Next(cfg, s, i).pcs[i], HoldsConn);
    WhereUpdate(s.pcs, i, Next(cfg, s, i).pcs[i], HoldsClient);
  }

  // ---- Results, errors, connections ----

  ghost predicate OnlyFailuresClose(cfg: Config, s: Poll) { Where(s.pcs, OnErrorPath) <= cfg.failing }
  ghost predicate ErrorsMatch(cfg: Config, s: Poll) { s.errors == |Where(s.pcs, Recorded) * cfg.failing| }
  ghost predicate ResultsMatch(cfg: Config, s: Poll) { Lists(s.results, Where(s.pcs, Recorded) - cfg.failing) }
  ghost predicate ConnectionsMatch(cfg: Config, s: Poll) {
    s.connections == cfg.All() - Where(s.pcs, PastDelete) * cfg.failing
  }
  ghost predicate ClosedMatch(cfg: Config, s: Poll) { s.closed == Where(s.pcs, PastClose) * cfg.failing }

  /** How a step moves its goroutine through the phases. */
  lemma StepPhases(cfg: Config, s: Poll, i: nat)
    requires Enabled(cfg, s, i)
    ensures var pc, pc' := s.pcs[i], Next(cfg, s, i).pcs[i];
      && Next(cfg, s, i).pcs == s.pcs[i := pc']
      && (Recorded(pc') <==> Recorded(pc) || pc.Recording?)
      && (OnErrorPath(pc') ==> OnErrorPath(pc) || (pc.Recording? && i in cfg.failing))
      && (PastDelete(pc') <==> PastDelete(pc) || pc.Deleting? || (pc.Recording? && i !in cfg.failing))
      && (PastClose(pc') <==> PastClose(pc) || pc.Closing? || (pc.Recording? && i !in cfg.failing))
  {
  }

  lemma StepEffects(cfg: Config, s: Poll, i: nat)
    requires Enabled(cfg, s, i)
    ensures var pc, s' := s.pcs[i], Next(cfg, s, i);
      && s'.errors == (if pc.Recording? && i in cfg.failing then s.errors + 1 else s.errors)
      && s'.results == (if pc.Recording? && i !in cfg.failing then s.results + [i] else s.results)
      && s'.connections == (if pc.Deleting? then s.connections - {i} else s.connections)
      && s'.closed == (if pc.Closing? then s.closed + {i} else s.closed)
  {
  }

  lemma OnlyFailuresStep(cfg: Config, s: Poll, i: nat)
    requires OnlyFailuresClose(cfg, s) && Enabled(cfg, s, i)
    ensures OnlyFailuresClose(cfg, Next(cfg, s, i))
  {
    StepPhases(cfg, s, i);
    WhereUpdate(s.pcs, i, Next(cfg, s, i).pcs[i], OnErrorPath);
  }

  lemma ErrorsStep(cfg: Config, s: Poll, i: nat)
    requires ErrorsMatch(cfg, s) && Enabled(cfg, s, i)
    ensures ErrorsMatch(cfg, Next(cfg, s, i))
  {
    StepPhases(cfg, s, i);
    StepEffects(cfg, s, i);
    var done := Where(s.pcs, Recorded);
    WhereUpdate(s.pcs, i, Next(cfg, s, i).pcs[i], Recorded);
    SplitOne(done, i, cfg.failing);
  }

  lemma ResultsStep(cfg: Config, s: Poll, i: nat)
    requires ResultsMatch(cfg, s) && Enabled(cfg, s, i)
    ensures ResultsMatch(cfg, Next(cfg, s, i))
  {
    StepPhases(cfg, s, i);
    StepEffects(cfg, s, i);
    var done := Where(s.pcs, Recorded);
    WhereUpdate(s.pcs, i, Next(cfg, s, i).pcs[i], Recorded);
    SplitOne(done, i, cfg.failing);
  }

  lemma SplitOne(done: set<nat>, i: nat, f: set<nat>)
    ensures (done + {i}) * f == if i in f then done * f + {i} else done * f
    ensures (done + {i}) - f == if i in f then done - f else (done - f) + {i}
    ensures i in done ==> done + {i} == done
    ensures i !in done ==> done - {i} == done
  {
  }

  lemma ConnectionsStep(cfg: Config, s: Poll, i: nat)
    requires ConnectionsMatch(cfg, s) && OnlyFailuresClose(cfg, s) && Enabled(cfg, s, i)
    ensures ConnectionsMatch(cfg, Next(cfg, s, i))
  {
    StepPhases(cfg, s, i);
    StepEffects(cfg, s, i);
    WhereUpdate(s.pcs, i, Next(cfg, s, i).pcs[i], PastDelete);
    assert s.pcs[i].Deleting? ==> i in Where(s.pcs, OnErrorPath);
    SplitOne(Where(s.pcs, PastDelete), i, cfg.failing);
  }

  lemma ClosedStep(cfg: Config, s: Poll, i: nat)
    requires ClosedMatch(cfg, s) && OnlyFailuresClose(cfg, s) && Enabled(cfg, s, i)
    ensures ClosedMatch(cfg, Next(cfg, s, i))
  {
    StepPhases(cfg, s, i);
    StepEffects(cfg, s, i);
    WhereUpdate(s.pcs, i, Next(cfg, s, i).pcs[i], PastClose);
    assert s.pcs[i].Closing? ==> i in Where(s.pcs, OnErrorPath);
    SplitOne(Where(s.pcs, PastClose), i, cfg.failing);
  }

  ghost predicate Invariant(cfg: Config, s: Poll) {
    && LocksMatch(cfg, s) && OnlyFailuresClose(cfg, s)
    && ErrorsMatch(cfg, s) && ResultsMatch(cfg, s) && ConnectionsMatch(cfg, s) && ClosedMatch(cfg, s)
  }

  lemma InitialInvariant(cfg: Config)
    requires !Panics(cfg)
    ensures Invariant(cfg, Initial(cfg))
  {
    var pcs := Initial(cfg).pcs;
    NoWhere(pcs, HoldsSem);
    NoWhere(pcs, HoldsResults);
    NoWhere(pcs, HoldsConnMu);
    NoWhere(pcs, HoldsConn);
    NoWhere(pcs, HoldsClient);
    NoWhere(pcs, OnErrorPath);
    NoWhere(pcs, Recorded);
    NoWhere(pcs, PastDelete);
    NoWhere(pcs, PastClose);
  }

  /** What every reachable state of every schedule satisfies. */
  lemma {:induction false} ReachableInvariant(cfg: Config, schedule: seq<nat>, s: Poll)
    requires Reaches(cfg, schedule, s)
    ensures Invariant(cfg, s)
  {
    if schedule == [] {
      InitialInvariant(cfg);
    } else {
      var p, i := Exec(cfg, schedule[..|schedule| - 1]).value, schedule[|schedule| - 1];
      ReachableInvariant(cfg, schedule[..|schedule| - 1], p);
      SemStep(cfg, p, i);
      ResultsMuStep(cfg, p, i);
      ConnMuStep(cfg, p, i);
      ConnLocksStep(cfg, p, i);
      OnlyFailuresStep(cfg, p, i);
      ErrorsStep(cfg, p, i);
      ResultsStep(cfg, p, i);
      ConnectionsStep(cfg, p, i);
      ClosedStep(cfg, p, i);
    }
  }

  /** Safety of every schedule: at most `concurrency` scrapes are in flight, and each shared structure
      has at most one goroutine inside. */
  lemma AtMostConcurrencyScrapes(cfg: Config, schedule: seq<nat>, s: Poll)
    requires Reaches(cfg, schedule, s)
    ensures |Where(s.pcs, InScrape)| <= cfg.concurrency
    ensures |Where(s.pcs, HoldsResults)| <= 1 && |Where(s.pcs, HoldsConnMu)| <= 1
  {
    ReachableInvariant(cfg, schedule, s);
    WhereMonotone(s.pcs, InScrape, HoldsSem);
    OwnerSize(s.resultsMu);
    OwnerSize(s.connMu);
  }

  lemma OwnerSize(m: Option<nat>)
    ensures |Owner(m)| <= 1
  {
  }

  lemma WhereMonotone(pcs: seq<Pc>, p: Pc -> bool, q: Pc -> bool)
    requires forall pc :: p(pc) ==> q(pc)
    ensures |Where(pcs, p)| <= |Where(pcs, q)|
  {
    assert Where(pcs, q) == Where(pcs, p) + (Where(pcs, q) - Where(pcs, p));
  }

  // ---- Progress ----

  /** Steps a goroutine at this point can still take, at most. */
  ghost function Rank(pc: Pc, queries: nat): nat {
    match pc
    case WantSem => 2 * queries + 14
    case WantConn => 2 * queries + 13
    case Scraping(left) => 2 * left + 12
    case Querying(left) => 2 * left + 13
    case WantResults => 11
    case Recording => 10
    case WantClose => 9
    case Closing => 8
    case ClosingClient => 7
    case WantDelete => 6
    case Deleting => 5
    case Leaving => 2
    case Releasing => 1
    case Finished => 0
  }

  ghost function TotalRank(pcs: seq<Pc>, queries: seq<nat>): nat
    requires |pcs| == |queries|
  {
    if pcs == [] then 0
    else TotalRank(pcs[..|pcs| - 1], queries[..|pcs| - 1]) + Rank(pcs[|pcs| - 1], queries[|pcs| - 1])
  }

  lemma {:induction false} TotalRankUpdate(pcs: seq<Pc>, queries: seq<nat>, i: nat, pc: Pc)
    requires |pcs| == |queries| && i < |pcs|
    ensures TotalRank(pcs[i := pc], queries) ==
      TotalRank(pcs, queries) - Rank(pcs[i], queries[i]) + Rank(pc, queries[i])
  {
    var n := |pcs| - 1;
    if i < n {
      TotalRankUpdate(pcs[..n], queries[..n], i, pc);
      assert pcs[i := pc][..n] == pcs[..n][i := pc];
    } else {
      assert pcs[i := pc][..n] == pcs[..n];
    }
  }

  lemma RankDrops(cfg: Config, s: Poll, i: nat)
    requires Enabled(cfg, s, i) && |s.pcs| == |cfg.queries|
    ensures |Next(cfg, s, i).pcs| == |cfg.queries|
    ensures TotalRank(Next(cfg, s, i).pcs, cfg.queries) < TotalRank(s.pcs, cfg.queries)
  {
    var pc := Next(cfg, s, i).pcs[i];
    assert Next(cfg, s, i).pcs == s.pcs[i := pc];
    TotalRankUpdate(s.pcs, cfg.queries, i, pc);
  }

  /** Every schedule is finite: it is no longer than the ranks of the start allow. */
  lemma {:induction false} SchedulesTerminate(cfg: Config, schedule: seq<nat>, s: Poll)
    requires Reaches(cfg, schedule, s)
    ensures |s.pcs| == |cfg.queries|
    ensures |schedule| + TotalRank(s.pcs, cfg.queries) <= TotalRank(Initial(cfg).pcs, cfg.queries)
  {
    if schedule != [] {
      var p, i := Exec(cfg, schedule[..|schedule| - 1]).value, schedule[|schedule| - 1];
      SchedulesTerminate(cfg, schedule[..|schedule| - 1], p);
      RankDrops(cfg, p, i);
    }
  }

  /** A goroutine that holds the results lock can always take its next step. */
  lemma ResultsHolderRuns(cfg: Config, s: Poll, i: nat)
    requires LocksMatch(cfg, s) && s.resultsMu == Some(i)
    ensures Enabled(cfg, s, i)
  {
    assert i in Where(s.pcs, HoldsResults);
    if s.pcs[i] == WantDelete {
      assert i !in Where(s.pcs, HoldsConnMu);
      assert forall j :: j in Where(s.pcs, HoldsConnMu) ==> j in Where(s.pcs, HoldsResults);
    } else if s.pcs[i] == WantClose {
      assert i !in Where(s.pcs, HoldsConn);
    } else if s.pcs[i] == Closing {
      assert i !in Where(s.pcs, HoldsClient);
    }
  }

  /** No deadlock: while some goroutine is unfinished, one can step. */
  lemma NeverStuckBeforeTheEnd(cfg: Config, s: Poll) returns (i: nat)
    requires LocksMatch(cfg, s) && cfg.concurrency >= 1 && !AllFinished(s)
    ensures Enabled(cfg, s, i)
  {
    if s.resultsMu.Some? {
      i := s.resultsMu.value;
      ResultsHolderRuns(cfg, s, i);
    } else if j: nat :| j < |s.pcs| && HoldsSem(s.pcs[j]) {
      i := j;
      assert j !in Where(s.pcs, HoldsResults);
      assert j in Where(s.pcs, HoldsConn) <==> HoldsConn(s.pcs[j]);
      assert j in Where(s.pcs, HoldsClient) <==> HoldsClient(s.pcs[j]);
    } else {
      assert Where(s.pcs, HoldsSem) == {};
      i :| 0 <= i < |s.pcs| && s.pcs[i] != Finished;
    }
  }

  // ---- Outcome ----

  ghost predicate Outcome(cfg: Config, s: Poll) {
    && s.connections == cfg.All() - cfg.failing
    && s.closed == cfg.failing
    && s.errors == |cfg.failing|
    && Lists(s.results, s.connections)
    && |s.results| + s.errors == |cfg.queries|
    && s.sem == 0 && s.resultsMu.None? && s.connMu.None? && s.connLocks == {} && s.clientLocks == {}
  }

  /** Whatever the schedule, once the goroutines are done the table, the error count and the set of
      results are the same, all locks are free and each failed connection was closed. */
  lemma OutcomeIsScheduleIndependent(cfg: Config, schedule: seq<nat>, s: Poll)
    requires cfg.Valid() && Reaches(cfg, schedule, s) && AllFinished(s)
    ensures Outcome(cfg, s)
  {
    ReachableInvariant(cfg, schedule, s);
    FinishedSets(cfg, s);
    assert cfg.All() * cfg.failing == cfg.failing;
    assert cfg.All() == (cfg.All() - cfg.failing) + cfg.failing;
  }

  lemma EveryWhere(pcs: seq<Pc>, p: Pc -> bool)
    requires forall i :: 0 <= i < |pcs| ==> p(pcs[i])
    ensures Where(pcs, p) == Upto(|pcs|)
  {
  }

  lemma NoWhere(pcs: seq<Pc>, p: Pc -> bool)
    requires forall i :: 0 <= i < |pcs| ==> !p(pcs[i])
    ensures Where(pcs, p) == {}
  {
  }

  lemma FinishedSets(cfg: Config, s: Poll)
    requires AllFinished(s) && |s.pcs| == |cfg.queries|
    ensures Where(s.pcs, Recorded) == Where(s.pcs, PastDelete) == Where(s.pcs, PastClose) == cfg.All()
    ensures Where(s.pcs, HoldsSem) == Where(s.pcs, HoldsResults) == Where(s.pcs, HoldsConnMu) == {}
    ensures Where(s.pcs, HoldsConn) == Where(s.pcs, HoldsClient) == {}
  {
    EveryWhere(s.pcs, Recorded);
    EveryWhere(s.pcs, PastDelete);
    EveryWhere(s.pcs, PastClose);
    NoWhere(s.pcs, HoldsSem);
    NoWhere(s.pcs, HoldsResults);
    NoWhere(s.pcs, HoldsConnMu);
    NoWhere(s.pcs, HoldsConn);
    NoWhere(s.pcs, HoldsClient);
  }

  /** The poll starts, and every schedule that cannot be extended ends with all goroutines finished. */
  ghost predicate AlwaysCompletes(cfg: Config) {
    && Reaches(cfg, [], Initial(cfg))
    && forall schedule: seq<nat>, s: Poll :: Reaches(cfg, schedule, s) && Stuck(cfg, s) ==> AllFinished(s)
  }

  /** The poll panics when the semaphore's size is negative, and can hang exactly when it is zero and there is a
      connection to scrape; configuration validation does not rule either out. */
  lemma CompletesIff(cfg: Config)
    ensures AlwaysCompletes(cfg) <==> cfg.concurrency >= 1 || (cfg.concurrency == 0 && |cfg.queries| == 0)
    ensures cfg.concurrency < 0 ==> forall schedule :: Exec(cfg, schedule).None?
  {
    var start := Initial(cfg);
    if cfg.concurrency < 0 {
      forall schedule ensures Exec(cfg, schedule).None? { NoneStarts(cfg, schedule); }
    } else if cfg.concurrency >= 1 || |cfg.queries| == 0 {
      forall schedule: seq<nat>, s: Poll | Reaches(cfg, schedule, s) && Stuck(cfg, s) ensures AllFinished(s) {
        ReachableInvariant(cfg, schedule, s);
        if !AllFinished(s) {
          var i := NeverStuckBeforeTheEnd(cfg, s);
        }
      }
    } else {
      assert Reaches(cfg, [], start) && Stuck(cfg, start);
      assert start.pcs[0] != Finished;
    }
  }

  lemma {:induction false} NoneStarts(cfg: Config, schedule: seq<nat>)
    requires Panics(cfg)
    ensures Exec(cfg, schedule).None?
  {
    if schedule != [] { NoneStarts(cfg, schedule[..|schedule| - 1]); }
  }
}
