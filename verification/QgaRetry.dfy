/** The retry and stop machine of pkg/qga/collector.go: how often a VM is scraped, and when collection
    for it stops, over any run of polls in which VMs come and go. */
module QgaRetry {
  import opened Bits
  import opened Containers

  /** What a scrape of the VM yields, if it is made. */
  datatype Outcome = Success | Failed | Blacklisted

  datatype Status = Status(retryCount: nat, stopped: bool)

  const NEW: Status := Status(0, false)

  class VmState {
    var retryCount: nat
    var stopped: bool

    function Now(): Status
      reads this
    {
      Status(retryCount, stopped)
    }

    constructor ()
      ensures Now() == NEW
    {
      retryCount, stopped := 0, false;
    }

    method HandleScrapeError(blacklisted: bool, maxRetries: int)
      modifies this
      ensures retryCount == old(retryCount) + (if blacklisted then 0 else 1)
      ensures stopped == (old(stopped) || blacklisted || retryCount >= maxRetries)
    {
      if blacklisted {
        stopped := true;
        return;
      }
      retryCount := retryCount + 1;
      if retryCount >= maxRetries {
        stopped := true;
      }
    }

    /** This VM's part of a poll: skipped once stopped, else scraped with this outcome. */
    method Poll(outcome: Outcome, maxRetries: int) returns (scraped: bool)
      modifies this
      ensures scraped == !old(stopped)
      ensures Now() == Next(maxRetries, old(Now()), outcome)
    {
      scraped := false;
      if stopped {
        return;
      }
      scraped := true;
      if outcome == Success {
        retryCount := 0;
      } else {
        HandleScrapeError(outcome == Blacklisted, maxRetries);
      }
    }
  }

  function Next(maxRetries: int, s: Status, o: Outcome): Status {
    if s.stopped then s
    else
      match o
      case Success => Status(0, false)
      case Blacklisted => Status(s.retryCount, true)
      case Failed => Status(s.retryCount + 1, s.retryCount + 1 >= maxRetries)
  }

  /** A VM's status after polls that would yield these outcomes if it is scraped. */
  function After(maxRetries: int, os: seq<Outcome>): Status {
    if os == [] then NEW else Next(maxRetries, After(maxRetries, os[..|os| - 1]), os[|os| - 1])
  }

  /** How many of these polls scrape the VM. */
  function Scrapes(maxRetries: int, os: seq<Outcome>): nat {
    if os == [] then 0
    else
      Scrapes(maxRetries, os[..|os| - 1]) + (if After(maxRetries, os[..|os| - 1]).stopped then 0 else 1)
  }

  // ---- The same, said about the outcomes alone ----

  /** Length of the run of failures at the end, back to the last success. */
  function TrailingFailures(os: seq<Outcome>): (n: nat)
    ensures n <= |os|
  {
    if os == [] || os[|os| - 1] == Success then 0 else 1 + TrailingFailures(os[..|os| - 1])
  }

  /** Outcome i makes the collector give up on the VM. */
  ghost predicate GivesUp(maxRetries: int, os: seq<Outcome>, i: nat) {
    i < |os| && (os[i] == Blacklisted || (os[i] == Failed && TrailingFailures(os[..i + 1]) >= maxRetries))
  }

  /** The first outcome that makes the collector give up, or the number of outcomes. */
  ghost function FirstGivingUp(maxRetries: int, os: seq<Outcome>): (n: nat)
    ensures n <= |os|
    ensures n < |os| ==> GivesUp(maxRetries, os, n)
    ensures forall i: nat :: i < n ==> !GivesUp(maxRetries, os, i)
  {
    if os == [] then 0
    else
      var n := FirstGivingUp(maxRetries, os[..|os| - 1]);
      GivesUpPrefix(maxRetries, os);
      if n < |os| - 1 then n else if GivesUp(maxRetries, os, |os| - 1) then |os| - 1 else |os|
  }

  lemma GivesUpPrefix(maxRetries: int, os: seq<Outcome>)
    requires os != []
    ensures forall i: nat :: i < |os| - 1 ==> (GivesUp(maxRetries, os, i) <==> GivesUp(maxRetries, os[..|os| - 1], i))
  {
    forall i: nat | i < |os| - 1
      ensures GivesUp(maxRetries, os, i) <==> GivesUp(maxRetries, os[..|os| - 1], i)
    {
      assert os[..|os| - 1][..i + 1] == os[..i + 1];
    }
  }

  /** While the VM is not stopped its retry count is the trailing run of failures; it is stopped exactly
      from the first blacklist error or the first run of failures that reaches the limit, and it is
      scraped up to and including that poll and never after. */
  lemma {:induction false} StatusIsHistory(maxRetries: int, os: seq<Outcome>)
    ensures var s, n := After(maxRetries, os), FirstGivingUp(maxRetries, os);
      && (s.stopped <==> n < |os|)
      && (!s.stopped ==> s.retryCount == TrailingFailures(os))
      && Scrapes(maxRetries, os) == if n < |os| then n + 1 else |os|
  {
    if os != [] {
      StatusIsHistory(maxRetries, os[..|os| - 1]);
      GivesUpPrefix(maxRetries, os);
      assert os[..|os| - 1 + 1] == os;
    }
  }

  /** Stopping is final for as long as the VM stays. */
  lemma {:induction false} StoppedIsAbsorbing(maxRetries: int, os: seq<Outcome>, more: seq<Outcome>)
    requires After(maxRetries, os).stopped
    ensures After(maxRetries, os + more) == After(maxRetries, os)
    ensures Scrapes(maxRetries, os + more) == Scrapes(maxRetries, os)
  {
    if more == [] {
      assert os + more == os;
    } else {
      StoppedIsAbsorbing(maxRetries, os, more[..|more| - 1]);
      assert (os + more)[..|os + more| - 1] == os + more[..|more| - 1];
    }
  }

  lemma {:induction false} AllFailuresTrail(os: seq<Outcome>)
    requires Success !in os
    ensures TrailingFailures(os) == |os|
  {
    if os != [] { AllFailuresTrail(os[..|os| - 1]); }
  }

  /** A VM that never succeeds is scraped at most max(1, maxRetries) times, however long it stays. */
  lemma HopelessVmsAreDropped(maxRetries: int, os: seq<Outcome>)
    requires Success !in os
    ensures Scrapes(maxRetries, os) <= if maxRetries > 1 then maxRetries else 1
  {
    StatusIsHistory(maxRetries, os);
    var n, limit := FirstGivingUp(maxRetries, os), if maxRetries > 1 then maxRetries else 1;
    if limit - 1 < |os| {
      AllFailuresTrail(os[..limit]);
      assert os[limit - 1] in os;
      assert GivesUp(maxRetries, os, limit - 1);
    }
  }

  // ---- VMs that come and go ----

  /** One poll: the active containers, those a new connection can be dialed to, and what each connected
      VM's scrape would yield. */
  datatype PollInput = PollInput(active: set<ContainerId>, dialable: set<ContainerId>,
                                 outcomes: map<ContainerId, Outcome>) {
    function OutcomeOf(id: ContainerId): Outcome { if id in outcomes then outcomes[id] else Failed }
  }

  function PollVms(maxRetries: int, vms: map<ContainerId, Status>, p: PollInput): map<ContainerId, Status> {
    map id | id in vms.Keys * p.active + p.dialable * p.active ::
      Next(maxRetries, if id in vms then vms[id] else NEW, p.OutcomeOf(id))
  }

  function RunVms(maxRetries: int, ps: seq<PollInput>): map<ContainerId, Status> {
    if ps == [] then map[] else PollVms(maxRetries, RunVms(maxRetries, ps[..|ps| - 1]), ps[|ps| - 1])
  }

  /** The outcomes offered to a VM since it was last connected, nothing while it is not. */
  function Since(ps: seq<PollInput>, id: ContainerId): Option<seq<Outcome>> {
    if ps == [] then None
    else
      var p, h := ps[|ps| - 1], Since(ps[..|ps| - 1], id);
      if id !in p.active || (h.None? && id !in p.dialable) then None
      else Some((if h.Some? then h.value else []) + [p.OutcomeOf(id)])
  }

  /** A VM's status depends only on its own history since it last arrived: leaving forgets failures and
      stops alike, and no VM's outcomes affect another. */
  lemma {:induction false} VmsAreIndependent(maxRetries: int, ps: seq<PollInput>, id: ContainerId)
    ensures id in RunVms(maxRetries, ps) <==> Since(ps, id).Some?
    ensures id in RunVms(maxRetries, ps) ==> RunVms(maxRetries, ps)[id] == After(maxRetries, Since(ps, id).value)
  {
    if ps != [] {
      VmsAreIndependent(maxRetries, ps[..|ps| - 1], id);
      var h, p := Since(ps[..|ps| - 1], id), ps[|ps| - 1];
      var os := if h.Some? then h.value else [];
      assert (os + [p.OutcomeOf(id)])[..|os|] == os;
    }
  }
}
