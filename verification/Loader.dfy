/** pkg/ebpf/loader.go: loading and attaching the eBPF subsystems, rolling back on failure, retrying, and
    releasing everything at shutdown. Kernel resources are numbered in the order they are acquired. */
module Loader {
  import opened Bits
  import opened Seqs

  datatype Subsystem = Block | Nfs | Kprobe

  /** The kernel tracepoints and functions probes attach to. */
  datatype Point =
    | BlockRqIssue | BlockRqComplete
    | NfsInitiateRead | NfsInitiateWrite | NfsReadpageDone | NfsWritebackDone
    | NfsFileRead | NfsFileWrite | NfsFileOpen | Nfs4FileOpen | NfsGetattr

  /** An attached probe; `isReturn` tells return probes. */
  datatype Link = Link(id: nat, owner: Subsystem, point: Point, isReturn: bool)

  /** How one load attempt goes: whether the spec is read and its objects load, where a probe attaches, and
      where a return probe does. */
  datatype Attempt = Attempt(specOk: bool, loadOk: bool, attaches: set<Point>, exits: set<Point>)

  datatype Target = Target(point: Point, optional: bool)

  function NfsPoints(): seq<Point> { [NfsInitiateRead, NfsInitiateWrite, NfsReadpageDone, NfsWritebackDone] }

  function KprobeTargets(): seq<Target> {
    [Target(NfsFileRead, false), Target(NfsFileWrite, false), Target(NfsFileOpen, false),
     Target(Nfs4FileOpen, true), Target(NfsGetattr, false)]
  }

  function Ids(links: seq<Link>): seq<nat> { seq(|links|, i requires 0 <= i < |links| => links[i].id) }

  lemma IdsConcat(a: seq<Link>, b: seq<Link>)
    ensures Ids(a + b) == Ids(a) + Ids(b)
  {
  }

  ghost predicate Numbered(links: seq<Link>, first: nat) {
    forall i :: 0 <= i < |links| ==> links[i].id == first + i
  }

  /** Links numbered from `first`, one per point. */
  ghost predicate AttachedTo(links: seq<Link>, owner: Subsystem, points: seq<Point>, isReturn: bool, first: nat) {
    && |links| == |points|
    && forall i :: 0 <= i < |links| ==> links[i] == Link(first + i, owner, points[i], isReturn)
  }

  /** The functions whose entry probe attaches, in order. */
  function Attachable(targets: seq<Target>, attaches: set<Point>): seq<Point> {
    if targets == [] then []
    else Attachable(targets[..|targets| - 1], attaches) +
         (if targets[|targets| - 1].point in attaches then [targets[|targets| - 1].point] else [])
  }

  /** Attached functions are distinct targets, and every target whose probe attaches is among them. */
  lemma {:induction false} AttachableDistinct(targets: seq<Target>, attaches: set<Point>)
    requires forall i, j :: 0 <= i < j < |targets| ==> targets[i].point != targets[j].point
    ensures forall p :: p in Attachable(targets, attaches) <==>
      p in attaches && exists t :: t in targets && t.point == p
    ensures AllDistinct(Attachable(targets, attaches))
  {
    if targets != [] {
      var init, last := targets[..|targets| - 1], targets[|targets| - 1];
      AttachableDistinct(init, attaches);
      var rest := Attachable(init, attaches);
      assert targets == init + [last];
      assert last.point !in rest;
      assert forall i :: 0 <= i < |rest| ==> rest[i] in rest;
    }
  }

  // ---- The loader's state as a value ----

  /** The fields of Programs, and the kernel's side: how many resources it has handed out, and the closes made. */
  datatype State = State(
    blockObjs: Option<nat>, nfsObjs: Option<nat>, kprobeObjs: Option<nat>, links: seq<Link>,
    blockHists: Option<nat>, nfsHists: Option<nat>, kprobeHists: Option<nat>,
    blockActive: bool, nfsActive: bool, kprobeActive: bool, retryNfs: bool, retryKprobe: bool,
    acquired: nat, closes: multiset<nat>)

  const EMPTY: State :=
    State(None, None, None, [], None, None, None, false, false, false, false, false, 0, multiset{})

  function One(o: Option<nat>): multiset<nat> { match o case None => multiset{} case Some(r) => multiset{r} }

  predicate Active(s: State, sub: Subsystem) {
    match sub case Block => s.blockActive case Nfs => s.nfsActive case Kprobe => s.kprobeActive
  }

  /** A link is open exactly while its subsystem is active; only the block subsystem keeps links when it is not. */
  ghost predicate LinksSound(s: State) {
    forall i :: 0 <= i < |s.links| ==> LinkSound(s, s.links[i])
  }

  ghost predicate LinkSound(s: State, l: Link) {
    l.id < s.acquired && if Active(s, l.owner) then l.id !in s.closes else l.owner.Block? && l.id in s.closes
  }

  /** An NFS subsystem is active exactly when its objects and its histogram map are set, the objects then being
      open, and it is never active and awaiting a retry at once. */
  ghost predicate ObjsSound(s: State, active: bool, retry: bool, objs: Option<nat>, hists: Option<nat>) {
    && (active <==> objs.Some?) && hists == objs && !(active && retry)
    && (objs.Some? ==> objs.value < s.acquired && objs.value !in s.closes)
  }

  /** The block objects and map also stay set after a load that failed to attach; the objects are then closed. */
  ghost predicate BlockSound(s: State) {
    && (s.blockActive ==> s.blockObjs.Some?) && s.blockHists == s.blockObjs
    && (s.blockObjs.Some? ==> s.blockObjs.value < s.acquired && (s.blockObjs.value !in s.closes <==> s.blockActive))
    && (s.blockObjs.None? ==> forall i :: 0 <= i < |s.links| ==> !s.links[i].owner.Block?)
  }

  /** What Close closes, as often as it does. */
  function Recorded(s: State): multiset<nat> {
    multiset(Ids(s.links)) + One(s.blockObjs) + One(s.nfsObjs) + One(s.kprobeObjs)
  }

  /** Nothing is closed twice, recorded twice or either before it was acquired, and what is not closed is recorded. */
  ghost predicate ClosesSound(s: State) { forall x: nat :: Accounted(s, x) }

  ghost predicate Accounted(s: State, x: nat) {
    s.closes[x] <= 1 && Recorded(s)[x] <= 1 && (x < s.acquired <==> s.closes[x] + Recorded(s)[x] > 0)
  }

  /** Kept by every step before shutdown. */
  ghost predicate Sound(s: State) {
    && LinksSound(s) && BlockSound(s) && ClosesSound(s)
    && ObjsSound(s, s.nfsActive, s.retryNfs, s.nfsObjs, s.nfsHists)
    && ObjsSound(s, s.kprobeActive, s.retryKprobe, s.kprobeObjs, s.kprobeHists)
  }

  ghost predicate NothingOpen(s: State) { forall x: nat :: x < s.acquired ==> x in s.closes }

  /** Each resource handed out has been closed exactly once. */
  ghost predicate ClosedOnce(s: State) { forall x: nat :: s.closes[x] == if x < s.acquired then 1 else 0 }

  /** The closes made since `before` are one of each resource from lo to below hi. */
  ghost predicate ClosedRange(before: multiset<nat>, after: multiset<nat>, lo: nat, hi: nat) {
    forall x: nat :: ClosedAt(before, after, lo, hi, x)
  }

  predicate ClosedAt(before: multiset<nat>, after: multiset<nat>, lo: nat, hi: nat, x: nat) {
    after[x] == before[x] + if lo <= x < hi then 1 else 0
  }

  lemma {:induction false} NumberedRange(ls: seq<Link>, first: nat)
    requires Numbered(ls, first)
    ensures ClosedRange(multiset{}, multiset(Ids(ls)), first, first + |ls|)
  {
    if ls != [] {
      var init, last := ls[..|ls| - 1], ls[|ls| - 1];
      NumberedRange(init, first);
      assert Ids(ls) == Ids(init) + [last.id];
      var hi := first + |ls|;
      forall x: nat ensures ClosedAt(multiset{}, multiset(Ids(ls)), first, hi, x) {
        assert ClosedAt(multiset{}, multiset(Ids(init)), first, first + |init|, x);
      }
    }
  }

  /** State after a successful NFS load: objects r and links ls, all new and open. */
  function WithNfs(s: State, r: nat, ls: seq<Link>): State {
    s.(nfsObjs := Some(r), nfsHists := Some(r), nfsActive := true, retryNfs := false,
       links := s.links + ls, acquired := s.acquired + 1 + |ls|)
  }

  function WithKprobe(s: State, r: nat, ls: seq<Link>): State {
    s.(kprobeObjs := Some(r), kprobeHists := Some(r), kprobeActive := true, retryKprobe := false,
       links := s.links + ls, acquired := s.acquired + 1 + |ls|)
  }

  /** r and then ls, links of one subsystem, are the next resources to be acquired. */
  ghost predicate Acquired(s: State, owner: Subsystem, r: nat, ls: seq<Link>) {
    r == s.acquired && Numbered(ls, r + 1) && forall i :: 0 <= i < |ls| ==> ls[i].owner == owner
  }

  /** What a load that failed leaves: all it acquired closed again, once. */
  ghost predicate RolledBack(s: State, s': State) {
    s'.acquired >= s.acquired && ClosedRange(s.closes, s'.closes, s.acquired, s'.acquired)
  }

  /** What one attempt to load the NFS tracepoints does: all of it, or nothing but the request for a retry. */
  ghost predicate NfsOutcome(s: State, ok: bool, s': State) {
    if ok then exists r, ls :: Acquired(s, Nfs, r, ls) && s' == WithNfs(s, r, ls)
    else RolledBack(s, s') && s' == s.(acquired := s'.acquired, closes := s'.closes, retryNfs := true)
  }

  /** What one attempt to load the NFS function probes does: all of it, or nothing but the request for a retry. */
  ghost predicate KprobeOutcome(s: State, ok: bool, s': State) {
    if ok then exists r, ls :: Acquired(s, Kprobe, r, ls) && s' == WithKprobe(s, r, ls)
    else RolledBack(s, s') && s' == s.(acquired := s'.acquired, closes := s'.closes, retryKprobe := true)
  }

  /** A failed load keeps what is recorded, and what is open of it. */
  lemma RolledBackSound(s: State, s': State)
    requires Sound(s) && RolledBack(s, s')
    requires s'.(retryNfs := s.retryNfs, retryKprobe := s.retryKprobe) ==
             s.(acquired := s'.acquired, closes := s'.closes)
    ensures LinksSound(s') && BlockSound(s') && ClosesSound(s')
    ensures forall x: nat :: x < s.acquired ==> s'.closes[x] == s.closes[x]
  {
    forall x: nat | x < s.acquired ensures s'.closes[x] == s.closes[x] {
      assert ClosedAt(s.closes, s'.closes, s.acquired, s'.acquired, x);
    }
    forall i | 0 <= i < |s'.links| ensures LinkSound(s', s'.links[i]) {
      assert LinkSound(s, s.links[i]);
    }
    assert Recorded(s') == Recorded(s);
    forall x: nat ensures Accounted(s', x) {
      assert Accounted(s, x) && ClosedAt(s.closes, s'.closes, s.acquired, s'.acquired, x);
    }
  }

  lemma RecordedGrowsAt(s: State, s': State, r: nat, ids: multiset<nat>, hi: nat, x: nat)
    requires Accounted(s, x) && r == s.acquired < hi == s'.acquired && ClosedAt(multiset{}, ids, r + 1, hi, x)
    requires s'.closes == s.closes && Recorded(s') == Recorded(s) + multiset{r} + ids
    ensures Accounted(s', x)
  {
    assert Recorded(s')[x] == Recorded(s)[x] + multiset{r}[x] + ids[x];
  }

  /** A successful load records each new resource once. */
  lemma RecordedGrows(s: State, s': State, r: nat, ls: seq<Link>)
    requires ClosesSound(s) && r == s.acquired && Numbered(ls, r + 1) && s'.closes == s.closes
    requires s'.acquired == r + 1 + |ls| && Recorded(s') == Recorded(s) + multiset{r} + multiset(Ids(ls))
    ensures ClosesSound(s')
  {
    var ids, hi := multiset(Ids(ls)), r + 1 + |ls|;
    NumberedRange(ls, r + 1);
    forall x: nat ensures Accounted(s', x) {
      assert Accounted(s, x) && ClosedAt(multiset{}, ids, r + 1, hi, x);
      RecordedGrowsAt(s, s', r, ids, hi, x);
    }
  }

  lemma NewLinksSound(s: State, s': State, owner: Subsystem, r: nat, ls: seq<Link>)
    requires LinksSound(s) && ClosesSound(s) && Acquired(s, owner, r, ls) && Active(s', owner)
    requires s'.links == s.links + ls && s'.closes == s.closes && s'.acquired == r + 1 + |ls|
    requires forall sub :: sub != owner ==> Active(s', sub) == Active(s, sub)
    requires forall i :: 0 <= i < |s.links| ==> s.links[i].owner != owner
    ensures LinksSound(s')
  {
    forall i | 0 <= i < |s'.links| ensures LinkSound(s', s'.links[i]) {
      if i < |s.links| {
        assert LinkSound(s, s.links[i]);
      } else {
        assert s'.links[i] == ls[i - |s.links|];
        assert Accounted(s, s'.links[i].id);
      }
    }
  }

  /** An inactive NFS subsystem has no links. */
  lemma NoLinks(s: State, sub: Subsystem)
    requires LinksSound(s) && !Active(s, sub) && sub != Block
    ensures forall i :: 0 <= i < |s.links| ==> s.links[i].owner != sub
  {
    forall i | 0 <= i < |s.links| ensures s.links[i].owner != sub {
      assert LinkSound(s, s.links[i]);
    }
  }

  lemma NewIsOpen(s: State)
    requires ClosesSound(s)
    ensures s.acquired !in s.closes
  {
    assert Accounted(s, s.acquired);
  }

  lemma NewLinksOwner(s: State, s': State, owner: Subsystem, ls: seq<Link>)
    requires BlockSound(s) && owner != Block && s'.links == s.links + ls
    requires forall i :: 0 <= i < |ls| ==> ls[i].owner == owner
    ensures s.blockObjs.None? ==> forall i :: 0 <= i < |s'.links| ==> !s'.links[i].owner.Block?
  {
  }

  lemma WithNfsSound(s: State, r: nat, ls: seq<Link>)
    requires Sound(s) && !s.nfsActive && Acquired(s, Nfs, r, ls)
    ensures Sound(WithNfs(s, r, ls))
  {
    var s' := WithNfs(s, r, ls);
    NoLinks(s, Nfs);
    NewLinksSound(s, s', Nfs, r, ls);
    IdsConcat(s.links, ls);
    RecordedGrows(s, s', r, ls);
    NewIsOpen(s);
    NewLinksOwner(s, s', Nfs, ls);
  }

  lemma NfsOutcomeSound(s: State, ok: bool, s': State)
    requires Sound(s) && !s.nfsActive && NfsOutcome(s, ok, s')
    ensures Sound(s')
  {
    if ok {
      var r, ls :| Acquired(s, Nfs, r, ls) && s' == WithNfs(s, r, ls);
      WithNfsSound(s, r, ls);
    } else {
      RolledBackSound(s, s');
    }
  }

  lemma WithKprobeSound(s: State, r: nat, ls: seq<Link>)
    requires Sound(s) && !s.kprobeActive && Acquired(s, Kprobe, r, ls)
    ensures Sound(WithKprobe(s, r, ls))
  {
    var s' := WithKprobe(s, r, ls);
    NoLinks(s, Kprobe);
    NewLinksSound(s, s', Kprobe, r, ls);
    IdsConcat(s.links, ls);
    RecordedGrows(s, s', r, ls);
    NewIsOpen(s);
    NewLinksOwner(s, s', Kprobe, ls);
  }

  lemma KprobeOutcomeSound(s: State, ok: bool, s': State)
    requires Sound(s) && !s.kprobeActive && KprobeOutcome(s, ok, s')
    ensures Sound(s')
  {
    if ok {
      var r, ls :| Acquired(s, Kprobe, r, ls) && s' == WithKprobe(s, r, ls);
      WithKprobeSound(s, r, ls);
    } else {
      RolledBackSound(s, s');
    }
  }

  /** The block subsystem loads first, with the first resource as its objects and the next ones as its links. */
  function WithBlock(links: seq<Link>, closes: multiset<nat>, ok: bool): State {
    EMPTY.(blockObjs := Some(0), blockHists := Some(0), links := links, acquired := 1 + |links|, closes := closes,
      blockActive := ok)
  }

  lemma EmptySound()
    ensures Sound(EMPTY)
  {
    assert Recorded(EMPTY) == multiset{};
    assert forall x: nat :: Accounted(EMPTY, x);
  }

  /** Closing what the block load recorded closes all it acquired. */
  lemma BlockRecorded(links: seq<Link>, closes: multiset<nat>, ok: bool)
    requires Acquired(EMPTY, Block, 0, links)
    ensures ClosedRange(multiset{}, Recorded(WithBlock(links, closes, ok)), 0, 1 + |links|)
  {
    var s, hi := WithBlock(links, closes, ok), 1 + |links|;
    NumberedRange(links, 1);
    forall x: nat ensures ClosedAt(multiset{}, Recorded(s), 0, hi, x) {
      assert ClosedAt(multiset{}, multiset(Ids(links)), 1, hi, x);
      assert Recorded(s)[x] == multiset(Ids(links))[x] + multiset{0 as nat}[x];
    }
  }

  lemma BlockStateSound(links: seq<Link>, closes: multiset<nat>, ok: bool)
    requires Acquired(EMPTY, Block, 0, links)
    requires if ok then closes == multiset{} else ClosedRange(multiset{}, closes, 0, 1 + |links|)
    ensures Sound(WithBlock(links, closes, ok))
  {
    var s := WithBlock(links, closes, ok);
    BlockRecorded(links, closes, ok);
    forall x: nat ensures closes[x] == (if !ok && x < s.acquired then 1 else 0) && Accounted(s, x) {
      assert !ok ==> ClosedAt(multiset{}, closes, 0, 1 + |links|, x);
      assert ClosedAt(multiset{}, Recorded(s), 0, 1 + |links|, x);
    }
  }

  /** With no subsystem active nothing is left open, so a program whose loading failed leaks nothing. */
  lemma InactiveHoldsNothing(s: State)
    requires Sound(s) && !s.blockActive && !s.nfsActive && !s.kprobeActive
    ensures NothingOpen(s) && ClosedOnce(s)
  {
    forall x: nat ensures s.closes[x] == if x < s.acquired then 1 else 0 {
      assert Accounted(s, x);
      if x in Ids(s.links) {
        var i :| 0 <= i < |s.links| && s.links[i].id == x;
        assert LinkSound(s, s.links[i]);
      }
    }
  }

  // ---- Shutdown ----

  /** The block objects are recorded although attaching failed. */
  predicate HoldsClosedBlock(s: State) { s.blockObjs.Some? && !s.blockActive }

  /** What Close leaves. */
  function Shut(s: State): State { s.(closes := s.closes + Recorded(s)) }

  /** Something recorded is closed already exactly when the block objects are. */
  lemma RecordedIsOpen(s: State, x: nat)
    requires Sound(s) && !HoldsClosedBlock(s) && x in Recorded(s)
    ensures x !in s.closes
  {
    if x in Ids(s.links) {
      var i :| 0 <= i < |s.links| && s.links[i].id == x;
      assert LinkSound(s, s.links[i]);
    }
  }

  lemma ShutOnce(s: State, x: nat)
    requires Sound(s) && !HoldsClosedBlock(s)
    ensures Shut(s).closes[x] == if x < s.acquired then 1 else 0
  {
    assert Accounted(s, x);
    if x in Recorded(s) { RecordedIsOpen(s, x); }
  }

  lemma ShutTwice(s: State)
    requires Sound(s) && HoldsClosedBlock(s)
    ensures Shut(s).closes[s.blockObjs.value] == 2
  {
    var r := s.blockObjs.value;
    assert Accounted(s, r) && r in One(s.blockObjs);
    assert s.closes[r] == 1 && Recorded(s)[r] == 1;
  }

  /** Closing at shutdown leaves nothing open. Each resource has then been closed exactly once over the whole run
      if and only if the block objects are not on record from a load that failed to attach; those are closed
      twice. */
  lemma ShutdownClosesOnceIff(s: State)
    requires Sound(s)
    ensures NothingOpen(Shut(s))
    ensures ClosedOnce(Shut(s)) <==> !HoldsClosedBlock(s)
    ensures HoldsClosedBlock(s) ==> Shut(s).closes[s.blockObjs.value] == 2
  {
    forall x: nat | x < s.acquired ensures x in Shut(s).closes {
      assert Accounted(s, x);
    }
    if HoldsClosedBlock(s) {
      ShutTwice(s);
    } else {
      forall x: nat ensures Shut(s).closes[x] == if x < s.acquired then 1 else 0 {
        ShutOnce(s, x);
      }
    }
  }

  // ---- Outcomes of an attempt ----

  ghost predicate BlockLoads(a: Attempt) {
    a.specOk && a.loadOk && BlockRqIssue in a.attaches && BlockRqComplete in a.attaches
  }

  /** The objects load, but one of the tracepoints does not attach. */
  ghost predicate FailsToAttach(a: Attempt) {
    a.specOk && a.loadOk && !(BlockRqIssue in a.attaches && BlockRqComplete in a.attaches)
  }

  ghost predicate NfsLoads(a: Attempt) {
    a.specOk && a.loadOk && forall p :: p in NfsPoints() ==> p in a.attaches
  }

  /** The entry probe of every function but the optional one attaches, and the return probe of every function
      whose entry probe does. */
  ghost predicate KprobeLoads(a: Attempt) {
    && a.specOk && a.loadOk && (forall t :: t in KprobeTargets() && !t.optional ==> t.point in a.attaches)
    && forall p :: p in Attachable(KprobeTargets(), a.attaches) ==> p in a.exits
  }

  /** One entry and one return probe for each function, and no others. */
  ghost predicate Paired(ls: seq<Link>, fns: seq<Point>, first: nat) {
    exists entries, exits ::
      ls == entries + exits && AttachedTo(entries, Kprobe, fns, false, first) &&
        AttachedTo(exits, Kprobe, fns, true, first + |fns|)
  }

  lemma PairedIsNumbered(ls: seq<Link>, fns: seq<Point>, first: nat)
    requires Paired(ls, fns, first)
    ensures Numbered(ls, first) && forall i :: 0 <= i < |ls| ==> ls[i].owner == Kprobe
  {
    var entries, exits :| ls == entries + exits && AttachedTo(entries, Kprobe, fns, false, first) &&
      AttachedTo(exits, Kprobe, fns, true, first + |fns|);
    forall i | 0 <= i < |ls| ensures ls[i].id == first + i && ls[i].owner == Kprobe {
      if i >= |entries| { assert ls[i] == exits[i - |entries|]; }
    }
  }

  /** The probed functions by name: all but the NFSv4 open must attach, and that one is probed if it does. */
  lemma FunctionsByName(attaches: set<Point>)
    requires {NfsFileRead, NfsFileWrite, NfsFileOpen, NfsGetattr} <= attaches
    ensures Attachable(KprobeTargets(), attaches) ==
      [NfsFileRead, NfsFileWrite, NfsFileOpen] + (if Nfs4FileOpen in attaches then [Nfs4FileOpen] else []) +
      [NfsGetattr]
  {
    var ts := KprobeTargets();
    AttachableStep(ts, attaches, 5);
    AttachableStep(ts, attaches, 4);
    AttachableStep(ts, attaches, 3);
    AttachableStep(ts, attaches, 2);
    AttachableStep(ts, attaches, 1);
    assert ts[..5] == ts && ts[..0] == [];
  }

  lemma RequiredByName(attaches: set<Point>)
    ensures (forall t :: t in KprobeTargets() && !t.optional ==> t.point in attaches) <==>
      {NfsFileRead, NfsFileWrite, NfsFileOpen, NfsGetattr} <= attaches
  {
    var ts := KprobeTargets();
    assert ts[0] in ts && ts[1] in ts && ts[2] in ts && ts[4] in ts;
  }

  /** When the NFS subsystems load, by the names of their tracepoints and functions. */
  lemma LoadsByName(a: Attempt)
    ensures NfsLoads(a) <==>
      && a.specOk && a.loadOk
      && {NfsInitiateRead, NfsInitiateWrite, NfsReadpageDone, NfsWritebackDone} <= a.attaches
    ensures KprobeLoads(a) <==>
      && a.specOk && a.loadOk && {NfsFileRead, NfsFileWrite, NfsFileOpen, NfsGetattr} <= a.attaches * a.exits
      && (Nfs4FileOpen in a.attaches ==> Nfs4FileOpen in a.exits)
  {
    var ps := NfsPoints();
    assert ps[0] in ps && ps[1] in ps && ps[2] in ps && ps[3] in ps;
    RequiredByName(a.attaches);
    if {NfsFileRead, NfsFileWrite, NfsFileOpen, NfsGetattr} <= a.attaches { FunctionsByName(a.attaches); }
  }

  lemma AttachableStep(ts: seq<Target>, attaches: set<Point>, n: nat)
    requires 0 < n <= |ts|
    ensures Attachable(ts[..n], attaches) ==
      Attachable(ts[..n - 1], attaches) + (if ts[n - 1].point in attaches then [ts[n - 1].point] else [])
  {
    assert ts[..n][..n - 1] == ts[..n - 1];
  }

  class Programs {
    var blockObjs: Option<nat>
    var nfsObjs: Option<nat>
    var kprobeObjs: Option<nat>
    var links: seq<Link>
    var blockHists: Option<nat>
    var nfsHists: Option<nat>
    var kprobeHists: Option<nat>
    var blockActive: bool
    var nfsActive: bool
    var kprobeActive: bool
    var retryNfs: bool
    var retryKprobe: bool
    var acquired: nat
    var closes: multiset<nat>

    function Now(): State
      reads this
    {
      State(blockObjs, nfsObjs, kprobeObjs, links, blockHists, nfsHists, kprobeHists,
            blockActive, nfsActive, kprobeActive, retryNfs, retryKprobe, acquired, closes)
    }

    constructor ()
      ensures Now() == EMPTY
    {
      blockObjs, nfsObjs, kprobeObjs, links := None, None, None, [];
      blockHists, nfsHists, kprobeHists := None, None, None;
      blockActive, nfsActive, kprobeActive, retryNfs, retryKprobe := false, false, false, false, false;
      acquired, closes := 0, multiset{};
    }

    method Acquire() returns (r: nat)
      modifies `acquired
      ensures r == old(acquired) && acquired == old(acquired) + 1
    {
      r := acquired;
      acquired := acquired + 1;
    }

    method CloseLinks(ls: seq<Link>)
      modifies `closes
      ensures closes == old(closes) + multiset(Ids(ls))
    {
      for i := 0 to |ls|
        invariant closes == old(closes) + multiset(Ids(ls)[..i])
      {
        assert Ids(ls)[..i + 1] == Ids(ls)[..i] + [ls[i].id];
        closes := closes + multiset{ls[i].id};
      }
      assert Ids(ls)[..|ls|] == Ids(ls);
    }

    method CloseObjs(o: Option<nat>)
      modifies `closes
      ensures closes == old(closes) + One(o)
    {
      if o.Some? {
        closes := closes + multiset{o.value};
      }
    }

    method Close()
      modifies `closes
      ensures closes == old(closes) + Recorded(old(Now()))
    {
      CloseLinks(links);
      CloseObjs(blockObjs);
      CloseObjs(nfsObjs);
      CloseObjs(kprobeObjs);
    }

    /** Closing new links again. */
    method CloseNew(ls: seq<Link>)
      requires |ls| <= acquired && Numbered(ls, acquired - |ls|)
      modifies `closes
      ensures ClosedRange(old(closes), closes, acquired - |ls|, acquired)
    {
      CloseLinks(ls);
      NumberedRange(ls, acquired - |ls|);
      ghost var lo := acquired - |ls|;
      forall x: nat ensures ClosedAt(old(closes), closes, lo, acquired, x) {
        assert ClosedAt(multiset{}, multiset(Ids(ls)), lo, acquired, x);
      }
    }

    /** Attaches points one after the other, stopping at the first that fails. */
    method AttachAll(owner: Subsystem, points: seq<Point>, isReturn: bool, attaches: set<Point>)
      returns (ls: seq<Link>, all: bool)
      modifies `acquired
      ensures all <==> forall p :: p in points ==> p in attaches
      ensures all ==> |ls| == |points|
      ensures |ls| <= |points| && AttachedTo(ls, owner, points[..|ls|], isReturn, old(acquired))
      ensures acquired == old(acquired) + |ls|
    {
      ls := [];
      for i := 0 to |points|
        invariant |ls| == i && AttachedTo(ls, owner, points[..i], isReturn, old(acquired))
        invariant forall j :: 0 <= j < i ==> points[j] in attaches
        invariant acquired == old(acquired) + i
      {
        if points[i] !in attaches {
          return ls, false;
        }
        var id := Acquire();
        ls := ls + [Link(id, owner, points[i], isReturn)];
      }
      all := true;
    }

    /** Entry probes, skipping an optional one that does not attach. */
    method AttachEntries(targets: seq<Target>, attaches: set<Point>) returns (ls: seq<Link>, fns: seq<Point>, all: bool)
      modifies `acquired
      ensures all <==> forall t :: t in targets && !t.optional ==> t.point in attaches
      ensures all ==> fns == Attachable(targets, attaches)
      ensures AttachedTo(ls, Kprobe, fns, false, old(acquired))
      ensures acquired == old(acquired) + |ls|
    {
      ls, fns := [], [];
      for k := 0 to |targets|
        invariant fns == Attachable(targets[..k], attaches) && AttachedTo(ls, Kprobe, fns, false, old(acquired))
        invariant forall i :: 0 <= i < k && !targets[i].optional ==> targets[i].point in attaches
        invariant acquired == old(acquired) + |ls|
      {
        assert targets[..k + 1][..k] == targets[..k];
        if targets[k].point !in attaches {
          if targets[k].optional {
            continue;
          }
          return ls, fns, false;
        }
        var id := Acquire();
        ls, fns := ls + [Link(id, Kprobe, targets[k].point, false)], fns + [targets[k].point];
      }
      assert targets[..|targets|] == targets;
      all := true;
    }

    /** All links to the NFS tracepoints, or none of them left open. */
    method AttachNfs(attaches: set<Point>) returns (ls: seq<Link>, all: bool)
      modifies `acquired, `closes
      ensures all <==> forall p :: p in NfsPoints() ==> p in attaches
      ensures acquired >= old(acquired)
      ensures all ==> AttachedTo(ls, Nfs, NfsPoints(), false, old(acquired)) && acquired == old(acquired) + |ls|
      ensures if all then closes == old(closes) else ClosedRange(old(closes), closes, old(acquired), acquired)
    {
      ls, all := AttachAll(Nfs, NfsPoints(), false, attaches);
      if !all {
        CloseNew(ls);
      }
      assert all ==> NfsPoints()[..|ls|] == NfsPoints();
    }

    /** Entry and return probes of the NFS functions, or none of them left open. */
    method AttachKprobes(a: Attempt) returns (ls: seq<Link>, all: bool)
      modifies `acquired, `closes
      ensures a.specOk && a.loadOk ==> (all <==> KprobeLoads(a))
      ensures acquired >= old(acquired)
      ensures all ==> Paired(ls, Attachable(KprobeTargets(), a.attaches), old(acquired))
      ensures all ==> acquired == old(acquired) + |ls|
      ensures if all then closes == old(closes) else ClosedRange(old(closes), closes, old(acquired), acquired)
    {
      var entries, fns;
      entries, fns, all := AttachEntries(KprobeTargets(), a.attaches);
      ls := entries;
      if !all {
        CloseNew(entries);
        return;
      }
      var exits;
      exits, all := AttachAll(Kprobe, fns, true, a.exits);
      ls := entries + exits;
      if !all {
        CloseNew(ls);
        return;
      }
      assert fns[..|exits|] == fns;
    }

    /** Closing the objects of a load whose links are closed. */
    method CloseNewObjs(objs: nat, ghost before: multiset<nat>)
      requires objs < acquired && ClosedRange(before, closes, objs + 1, acquired)
      modifies `closes
      ensures ClosedRange(before, closes, objs, acquired)
    {
      ghost var links := closes;
      CloseObjs(Some(objs));
      forall x: nat ensures ClosedAt(before, closes, objs, acquired, x) {
        assert ClosedAt(before, links, objs + 1, acquired, x);
      }
    }

    /** A failed load changes nothing and releases all it acquired. */
    method LoadNfs(a: Attempt) returns (ok: bool, ghost r: nat, ghost ls: seq<Link>)
      modifies `nfsObjs, `nfsHists, `links, `acquired, `closes
      ensures ok <==> NfsLoads(a)
      ensures !ok ==> unchanged(`nfsObjs, `nfsHists, `links) && RolledBack(old(Now()), Now())
      ensures ok ==> nfsObjs == nfsHists == Some(r) && links == old(links) + ls
      ensures ok ==> Acquired(old(Now()), Nfs, r, ls) && acquired == old(acquired) + 1 + |ls| && closes == old(closes)
      ensures ok ==> AttachedTo(ls, Nfs, NfsPoints(), false, r + 1)
    {
      r, ls := 0, [];
      if !a.specOk || !a.loadOk {
        return false, r, ls;
      }
      var objs := Acquire();
      var nfsLinks, all := AttachNfs(a.attaches);
      if !all {
        CloseNewObjs(objs, old(closes));
        return false, r, ls;
      }
      nfsObjs, nfsHists := Some(objs), Some(objs);
      links := links + nfsLinks;
      ok, r, ls := true, objs, nfsLinks;
    }

    method LoadKprobe(a: Attempt) returns (ok: bool, ghost r: nat, ghost ls: seq<Link>)
      modifies `kprobeObjs, `kprobeHists, `links, `acquired, `closes
      ensures ok <==> KprobeLoads(a)
      ensures !ok ==> unchanged(`kprobeObjs, `kprobeHists, `links) && RolledBack(old(Now()), Now())
      ensures ok ==> kprobeObjs == kprobeHists == Some(r) && links == old(links) + ls
      ensures ok ==> Acquired(old(Now()), Kprobe, r, ls)
      ensures ok ==> acquired == old(acquired) + 1 + |ls| && closes == old(closes)
      ensures ok ==> Paired(ls, Attachable(KprobeTargets(), a.attaches), r + 1)
    {
      r, ls := 0, [];
      if !a.specOk || !a.loadOk {
        return false, r, ls;
      }
      var objs := Acquire();
      var kprobeLinks, all := AttachKprobes(a);
      if !all {
        CloseNewObjs(objs, old(closes));
        return false, r, ls;
      }
      PairedIsNumbered(kprobeLinks, Attachable(KprobeTargets(), a.attaches), objs + 1);
      kprobeObjs, kprobeHists := Some(objs), Some(objs);
      links := links + kprobeLinks;
      ok, r, ls := true, objs, kprobeLinks;
    }

    /** The block objects stay recorded when an attach fails; what was acquired is closed again. */
    method LoadBlock(a: Attempt) returns (ok: bool)
      requires Now() == EMPTY
      modifies `blockObjs, `blockHists, `links, `acquired, `closes
      ensures ok <==> BlockLoads(a)
      ensures !(a.specOk && a.loadOk) ==> Now() == EMPTY
      ensures a.specOk && a.loadOk ==> Now() == WithBlock(links, closes, false) && Acquired(EMPTY, Block, 0, links)
      ensures ok ==> closes == multiset{}
      ensures a.specOk && a.loadOk && !ok ==> ClosedRange(multiset{}, closes, 0, acquired)
      ensures ok ==> |links| == 2 && links[0].point == BlockRqIssue && links[1].point == BlockRqComplete
    {
      if !a.specOk || !a.loadOk {
        return false;
      }
      var objs := Acquire();
      blockObjs, blockHists := Some(objs), Some(objs);
      ok := AttachBlock(a.attaches);
    }

    /** Block attaches its two tracepoints, undoing all of the load when one fails. */
    method AttachBlock(attaches: set<Point>) returns (ok: bool)
      requires Now() == WithBlock(links, closes, false) && links == [] && closes == multiset{}
      modifies `links, `acquired, `closes
      ensures ok <==> BlockRqIssue in attaches && BlockRqComplete in attaches
      ensures Now() == WithBlock(links, closes, false) && Acquired(EMPTY, Block, 0, links)
      ensures if ok then closes == multiset{} else ClosedRange(multiset{}, closes, 0, acquired)
      ensures ok ==> |links| == 2 && links[0].point == BlockRqIssue && links[1].point == BlockRqComplete
    {
      if BlockRqIssue !in attaches {
        UndoBlockObjs();
        return false;
      }
      var id := Acquire();
      links := [Link(id, Block, BlockRqIssue, false)];
      if BlockRqComplete !in attaches {
        UndoBlock();
        return false;
      }
      id := Acquire();
      links := links + [Link(id, Block, BlockRqComplete, false)];
      ok := true;
    }

    method UndoBlockObjs()
      requires Now() == WithBlock(links, closes, false) && links == [] && closes == multiset{}
      modifies `closes
      ensures ClosedRange(multiset{}, closes, 0, acquired)
    {
      CloseObjs(blockObjs);
      BlockRecorded(links, closes, false);
      assert closes == Recorded(WithBlock(links, closes, false));
    }

    method UndoBlock()
      requires Now() == WithBlock(links, closes, false) && Acquired(EMPTY, Block, 0, links) && closes == multiset{}
      modifies `closes
      ensures ClosedRange(multiset{}, closes, 0, acquired)
    {
      BlockRecorded(links, closes, false);
      Close();
      assert closes == Recorded(old(Now()));
    }

    /** An NFS load with the flags its callers set: on failure the subsystem awaits a retry. */
    method TryNfs(a: Attempt) returns (ok: bool)
      requires !nfsActive
      modifies `nfsObjs, `nfsHists, `links, `nfsActive, `retryNfs, `acquired, `closes
      ensures ok == nfsActive == !retryNfs && (ok <==> NfsLoads(a))
      ensures NfsOutcome(old(Now()), ok, Now())
    {
      ghost var r: nat, ls: seq<Link>;
      ok, r, ls := LoadNfs(a);
      nfsActive, retryNfs := ok, !ok;
      assert ok ==> Now() == WithNfs(old(Now()), r, ls);
    }

    method TryKprobe(a: Attempt) returns (ok: bool)
      requires !kprobeActive
      modifies `kprobeObjs, `kprobeHists, `links, `kprobeActive, `retryKprobe, `acquired, `closes
      ensures ok == kprobeActive == !retryKprobe && (ok <==> KprobeLoads(a))
      ensures KprobeOutcome(old(Now()), ok, Now())
    {
      ghost var r: nat, ls: seq<Link>;
      ok, r, ls := LoadKprobe(a);
      kprobeActive, retryKprobe := ok, !ok;
      assert ok ==> Now() == WithKprobe(old(Now()), r, ls);
    }

    method StepBlock(a: Attempt)
      requires Now() == EMPTY
      modifies `blockObjs, `blockHists, `links, `blockActive, `acquired, `closes
      ensures Sound(Now()) && blockActive == BlockLoads(a)
      ensures blockHists.Some? <==> a.specOk && a.loadOk
    {
      EmptySound();
      blockActive := LoadBlock(a);
      if blockObjs.Some? {
        BlockStateSound(links, closes, blockActive);
        assert Now() == WithBlock(links, closes, blockActive);
      }
    }

    /** A load attempt of one NFS subsystem leads from sound states to sound states. */
    method StepNfs(a: Attempt)
      requires Sound(Now()) && !nfsActive
      modifies `nfsObjs, `nfsHists, `links, `nfsActive, `retryNfs, `acquired, `closes
      ensures Sound(Now()) && nfsActive == !retryNfs == NfsLoads(a)
    {
      ghost var before := Now();
      var ok := TryNfs(a);
      NfsOutcomeSound(before, ok, Now());
    }

    method StepKprobe(a: Attempt)
      requires Sound(Now()) && !kprobeActive
      modifies `kprobeObjs, `kprobeHists, `links, `kprobeActive, `retryKprobe, `acquired, `closes
      ensures Sound(Now()) && kprobeActive == !retryKprobe == KprobeLoads(a)
    {
      ghost var before := Now();
      var ok := TryKprobe(a);
      KprobeOutcomeSound(before, ok, Now());
    }

    /** The NFS part of LoadAndAttach. */
    method StepEnabled(enableNfs: bool, enableKprobe: bool, nfs: Attempt, kprobe: Attempt)
      requires Sound(Now()) && !nfsActive && !kprobeActive && !retryNfs && !retryKprobe
      modifies `nfsObjs, `nfsHists, `nfsActive, `retryNfs, `kprobeObjs, `kprobeHists, `kprobeActive, `retryKprobe
      modifies `links, `acquired, `closes
      ensures Sound(Now())
      ensures nfsActive == (enableNfs && NfsLoads(nfs)) && retryNfs == (enableNfs && !NfsLoads(nfs))
      ensures kprobeActive == (enableKprobe && KprobeLoads(kprobe))
      ensures retryKprobe == (enableKprobe && !KprobeLoads(kprobe))
    {
      if enableNfs {
        StepNfs(nfs);
      }
      if enableKprobe {
        StepKprobe(kprobe);
      }
    }

    /** LoadAndAttach on a new Programs. It fails as a whole only where block tracing alone was asked for:
        an NFS subsystem that does not load is left for a retry instead. */
    method LoadAndAttach(enableBlock: bool, enableNfs: bool, enableKprobe: bool, block: Attempt, nfs: Attempt,
                         kprobe: Attempt)
      returns (failed: bool)
      requires Now() == EMPTY
      modifies this
      ensures Sound(Now())
      ensures blockActive == (enableBlock && BlockLoads(block))
      ensures nfsActive == (enableNfs && NfsLoads(nfs)) && retryNfs == (enableNfs && !NfsLoads(nfs))
      ensures kprobeActive == (enableKprobe && KprobeLoads(kprobe))
      ensures retryKprobe == (enableKprobe && !KprobeLoads(kprobe))
      ensures failed <==> enableBlock && !BlockLoads(block) && !enableNfs && !enableKprobe
      ensures failed ==> NothingOpen(Now()) && ClosedOnce(Now())
      ensures blockHists == blockObjs && (HoldsClosedBlock(Now()) <==> enableBlock && FailsToAttach(block))
    {
      if enableBlock {
        StepBlock(block);
      }
      StepEnabled(enableNfs, enableKprobe, nfs, kprobe);
      var requested := enableBlock || enableNfs || enableKprobe;
      var active := blockActive || nfsActive || kprobeActive;
      failed := requested && !active && !retryNfs && !retryKprobe;
      if failed {
        InactiveHoldsNothing(Now());
      }
    }

    /** RetryFailed over the ticks until shutdown: it ends early once nothing awaits a retry. */
    method RetryFailed(ticks: seq<(Attempt, Attempt)>)
      requires Sound(Now())
      modifies `nfsObjs, `nfsHists, `nfsActive, `retryNfs, `kprobeObjs, `kprobeHists, `kprobeActive, `retryKprobe
      modifies `links, `acquired, `closes
      ensures Sound(Now())
      ensures nfsActive == (old(nfsActive) || (old(retryNfs) && exists i :: 0 <= i < |ticks| && NfsLoads(ticks[i].0)))
      ensures kprobeActive == (old(kprobeActive) || (old(retryKprobe) && exists i ::
        0 <= i < |ticks| && KprobeLoads(ticks[i].1)))
    {
      for i := 0 to |ticks|
        invariant Sound(Now())
        invariant retryNfs == (old(retryNfs) && forall j :: 0 <= j < i ==> !NfsLoads(ticks[j].0))
        invariant retryKprobe == (old(retryKprobe) && forall j :: 0 <= j < i ==> !KprobeLoads(ticks[j].1))
        invariant nfsActive == (old(nfsActive) || (old(retryNfs) && !retryNfs))
        invariant kprobeActive == (old(kprobeActive) || (old(retryKprobe) && !retryKprobe))
      {
        if !retryNfs && !retryKprobe {
          break;
        }
        if retryNfs {
          StepNfs(ticks[i].0);
        }
        if retryKprobe {
          StepKprobe(ticks[i].1);
        }
      }
    }

    /** Shutdown closes what is recorded, whether it is open or not. */
    method Shutdown()
      requires Sound(Now())
      modifies `closes
      ensures Now() == Shut(old(Now())) && NothingOpen(Now())
      ensures ClosedOnce(Now()) <==> !HoldsClosedBlock(old(Now()))
    {
      ShutdownClosesOnceIff(Now());
      Close();
    }

    method RetryAndShutdown(ticks: seq<(Attempt, Attempt)>)
      requires Sound(Now())
      modifies this
      ensures NothingOpen(Now())
      ensures ClosedOnce(Now()) <==> !HoldsClosedBlock(old(Now()))
    {
      RetryFailed(ticks);
      Shutdown();
    }

    /** A whole run: loading and, unless that failed as a whole, the ticks at which subsystems are retried and
        shutdown. Nothing is open at its end, and each resource was closed exactly once, by the load that failed
        to attach it or at shutdown, if and only if block did not fail to attach beside an enabled NFS subsystem. */
    method LoadRetryAndShutdown(enableBlock: bool, enableNfs: bool, enableKprobe: bool, block: Attempt, nfs: Attempt,
                                kprobe: Attempt, ticks: seq<(Attempt, Attempt)>)
      requires Now() == EMPTY
      modifies this
      ensures NothingOpen(Now())
      ensures ClosedOnce(Now()) <==> !(enableBlock && FailsToAttach(block) && (enableNfs || enableKprobe))
    {
      var failed := LoadAndAttach(enableBlock, enableNfs, enableKprobe, block, nfs, kprobe);
      if !failed {
        RetryAndShutdown(ticks);
      }
    }
  }

  /** An attempt whose objects load but whose tracepoints do not attach: the block map stays set on a loader
      that reports block monitoring as inactive and holds nothing open. */
  method BlockMapStaysSet() returns (p: Programs)
    ensures p.blockHists.Some? && !p.blockActive && NothingOpen(p.Now())
  {
    p := new Programs();
    var attempt := Attempt(true, true, {}, {});
    var failed := p.LoadAndAttach(true, false, false, attempt, attempt, attempt);
    assert failed;
  }
}
