/** The connection table of pkg/qmp/collector.go over any run of polls and the final shutdown.
    A connection is named by the number of its dial; goroutines of one poll run one after the other
    here, in any order, which module QmpPoll shows to make no difference. */
module QmpConnections {
  import opened Containers
  import opened QmpScrape

  /** A launcher pod and the VM it runs, as a connection keeps them. */
  datatype Pod = Pod(namespace: string, vmi: string, name: string)

  /** A running launcher pod with its compute container; `dials` says whether the second container
      lookup and the dial for it would succeed. */
  datatype Target = Target(id: ContainerId, pod: Pod, dials: bool)

  /** What one poll meets: its targets, and what the scrapes that succeed return. */
  datatype PollInput = PollInput(targets: seq<Target>, scraped: map<ContainerId, VmiResult>)

  /** A result as Collect reads it. */
  datatype Vmi = Vmi(pod: Pod, node: string, result: VmiResult)

  function ActiveIds(targets: seq<Target>): set<ContainerId> {
    set t | t in targets :: t.id
  }

  function DialableIds(targets: seq<Target>): set<ContainerId> {
    set t | t in targets && t.dials :: t.id
  }

  ghost function TargetPods(targets: seq<Target>): set<(ContainerId, Pod)> {
    set t | t in targets :: (t.id, t.pod)
  }

  /** Containers that are connected when the scrapes of a poll start. */
  function SnapshotIds(before: set<ContainerId>, targets: seq<Target>): set<ContainerId> {
    before * ActiveIds(targets) + DialableIds(targets)
  }

  ghost predicate SubMap(m: map<ContainerId, nat>, n: map<ContainerId, nat>) {
    forall id :: id in m ==> id in n && m[id] == n[id]
  }

  /** After a poll, results and surviving connections correspond one to one, and with the errors they
      make up the snapshot, also when several targets carry the same container ID. Every connection
      belongs to an active container, and one that survives is the one that was there before. */
  ghost predicate PollOutcome(before: map<ContainerId, nat>, input: PollInput, after: map<ContainerId, nat>,
                              results: seq<ContainerId>, errors: int)
  {
    var snapshot := SnapshotIds(before.Keys, input.targets);
    && after.Keys == snapshot * input.scraped.Keys
    && after.Keys <= ActiveIds(input.targets)
    && Lists(results, after.Keys)
    && errors == |snapshot - input.scraped.Keys|
    && |results| + errors == |snapshot|
    && Agree(before, after)
  }

  /** The table's pods: connections kept from before, and new ones as their targets were. */
  ghost predicate PodsKnown(before: map<ContainerId, nat>, after: map<ContainerId, nat>, pods: seq<Pod>,
                            targets: seq<Target>) {
    forall id :: id in after ==> after[id] < |pods| && PodKnown(before, id, after[id], pods[after[id]], targets)
  }

  ghost predicate PodKnown(before: map<ContainerId, nat>, id: ContainerId, h: nat, pod: Pod, targets: seq<Target>) {
    (id in before && before[id] == h) || (id, pod) in TargetPods(targets)
  }

  /** The published results are those of the named containers' scrapes, under the pods of their connections. */
  ghost predicate Published(results: seq<Vmi>, ids: seq<ContainerId>, connections: map<ContainerId, nat>,
                            pods: seq<Pod>,
                            node: string, scraped: map<ContainerId, VmiResult>)
  {
    && |results| == |ids|
    && forall i :: 0 <= i < |ids| ==>
         && ids[i] in connections && connections[ids[i]] < |pods| && ids[i] in scraped
         && results[i] == Vmi(pods[connections[ids[i]]], node, scraped[ids[i]])
  }

  lemma PublishedOneMore(results: seq<Vmi>, ids: seq<ContainerId>, connections: map<ContainerId, nat>, pods: seq<Pod>,
                         node: string, scraped: map<ContainerId, VmiResult>, id: ContainerId)
    requires Published(results, ids, connections, pods, node, scraped)
    requires id in connections && connections[id] < |pods| && id in scraped
    ensures Published(results + [Vmi(pods[connections[id]], node, scraped[id])], ids + [id], connections, pods, node,
      scraped)
  {
  }

  /** Dropping the failed connections from the snapshot changes nothing for the others. */
  lemma FailuresDropped(before: map<ContainerId, nat>, snapshot: map<ContainerId, nat>, after: map<ContainerId, nat>,
                        pods: seq<Pod>, targets: seq<Target>, results: seq<Vmi>, ids: seq<ContainerId>, node: string,
                        scraped: map<ContainerId, VmiResult>)
    requires SubMap(after, snapshot) && Lists(ids, after.Keys)
    requires PodsKnown(before, snapshot, pods, targets) && Published(results, ids, snapshot, pods, node, scraped)
    ensures PodsKnown(before, after, pods, targets) && Published(results, ids, after, pods, node, scraped)
  {
    assert forall i :: 0 <= i < |ids| ==> ids[i] in ids;
  }

  ghost predicate HandlesBelow(connections: map<ContainerId, nat>, dialed: nat) {
    forall id :: id in connections ==> connections[id] < dialed
  }

  lemma SnapshotSplits(before: set<ContainerId>, targets: seq<Target>, ok: set<ContainerId>)
    ensures var snapshot := SnapshotIds(before, targets);
      snapshot <= ActiveIds(targets) && |snapshot| == |snapshot * ok| + |snapshot - ok|
  {
    var snapshot := SnapshotIds(before, targets);
    assert snapshot == (snapshot * ok) + (snapshot - ok);
    assert DialableIds(targets) <= ActiveIds(targets);
  }

  /** Containers in both tables have the same connection in both. */
  ghost predicate Agree(m: map<ContainerId, nat>, n: map<ContainerId, nat>) {
    forall id :: id in m && id in n ==> m[id] == n[id]
  }

  lemma KeptAgree(before: map<ContainerId, nat>, kept: map<ContainerId, nat>, after: map<ContainerId, nat>,
                  targets: seq<Target>)
    requires kept.Keys == before.Keys * ActiveIds(targets) && SubMap(kept, before)
    requires after.Keys == kept.Keys + DialableIds(targets) && SubMap(kept, after)
    ensures after.Keys == SnapshotIds(before.Keys, targets) && Agree(before, after)
  {
    SnapshotSplits(before.Keys, targets, {});
    forall id | id in before && id in after ensures before[id] == after[id] {
      assert id in ActiveIds(targets);
      assert id in kept;
    }
  }

  lemma PollAddsUp(before: map<ContainerId, nat>, snapshot: map<ContainerId, nat>, after: map<ContainerId, nat>,
                   input: PollInput, rs: seq<ContainerId>, errors: nat)
    requires snapshot.Keys == SnapshotIds(before.Keys, input.targets) && Agree(before, snapshot)
    requires after.Keys == snapshot.Keys * input.scraped.Keys && SubMap(after, snapshot)
    requires Lists(rs, after.Keys) && errors == |snapshot.Keys - input.scraped.Keys|
    ensures PollOutcome(before, input, after, rs, errors)
  {
    SnapshotSplits(before.Keys, input.targets, input.scraped.Keys);
  }

  /** The table after a poll, on the targets: a container is connected exactly if it is a target, was connected before
      or could be dialed, and its scrape succeeded; a connection from before is kept. */
  lemma ConnectedIff(before: map<ContainerId, nat>, input: PollInput, after: map<ContainerId, nat>,
                     results: seq<ContainerId>, errors: int, id: ContainerId)
    requires PollOutcome(before, input, after, results, errors)
    ensures id in after <==>
      && id in input.scraped
      && ((id in before && exists t :: t in input.targets && t.id == id) ||
          exists t :: t in input.targets && t.id == id && t.dials)
    ensures id in after && id in before ==> after[id] == before[id]
    ensures id in results <==> id in after
  {
  }

  /** The dialed clients that have not been closed are exactly those in the table, one per container,
      and no client has been closed twice. */
  ghost predicate Consistent(connections: map<ContainerId, nat>, owner: map<nat, ContainerId>, closed: set<nat>,
                             closes: multiset<nat>, dialed: nat)
  {
    && Inverse(connections, owner)
    && (forall h: nat :: h in owner <==> h < dialed && h !in closed)
    && (forall h: nat :: closes[h] == if h in closed then 1 else 0)
    && (forall h :: h in closed ==> h < dialed)
  }

  /** `owner` names the container of each handle in the table. */
  ghost predicate Inverse(connections: map<ContainerId, nat>, owner: map<nat, ContainerId>) {
    && (forall id :: id in connections ==> connections[id] in owner && owner[connections[id]] == id)
    && (forall h :: h in owner ==> owner[h] in connections && connections[owner[h]] == h)
  }

  /** The snapshot `before` has been scraped except for `todo`. */
  ghost predicate Progress(before: set<ContainerId>, now: set<ContainerId>, todo: set<ContainerId>,
                           ok: set<ContainerId>,
                           ids: seq<ContainerId>, errors: nat)
  {
    && todo <= before && now == todo + (before - todo) * ok
    && Lists(ids, (before - todo) * ok) && errors == |(before - todo) - ok|
  }

  lemma ScrapesBegin(before: set<ContainerId>, ok: set<ContainerId>)
    ensures Progress(before, before, before, ok, [], 0)
  {
    assert before - before == {};
  }

  lemma ScrapesEnd(before: set<ContainerId>, now: set<ContainerId>, ok: set<ContainerId>, ids: seq<ContainerId>,
                   errors: nat)
    requires Progress(before, now, {}, ok, ids, errors)
    ensures now == before * ok && Lists(ids, now) && errors == |before - ok|
  {
    assert before - {} == before;
  }

  lemma ScrapedOk(before: set<ContainerId>, now: set<ContainerId>, todo: set<ContainerId>, ok: set<ContainerId>,
                  ids: seq<ContainerId>, errors: nat, id: ContainerId)
    requires Progress(before, now, todo, ok, ids, errors) && id in todo && id in ok
    ensures Progress(before, now, todo - {id}, ok, ids + [id], errors)
  {
    var done := before - todo;
    assert before - (todo - {id}) == done + {id};
    assert (done + {id}) * ok == done * ok + {id};
    assert (done + {id}) - ok == done - ok;
    ListsOneMore(ids, done * ok, id);
  }

  lemma ScrapeFailed(before: set<ContainerId>, now: set<ContainerId>, todo: set<ContainerId>, ok: set<ContainerId>,
                     ids: seq<ContainerId>, errors: nat, id: ContainerId)
    requires Progress(before, now, todo, ok, ids, errors) && id in todo && id !in ok
    ensures Progress(before, now - {id}, todo - {id}, ok, ids, errors + 1)
  {
    var done := before - todo;
    assert before - (todo - {id}) == done + {id};
    assert (done + {id}) * ok == done * ok;
    assert (done + {id}) - ok == (done - ok) + {id};
  }

  class Collector {
    var connections: map<ContainerId, nat>
    var closedConns: set<nat>
    var clientCloses: multiset<nat>
    var pods: seq<Pod>
    ghost var owner: map<nat, ContainerId>
    var results: seq<Vmi>
    ghost var resultIds: seq<ContainerId>
    var scrapeErrors: nat
    const node: string

    ghost predicate Valid()
      reads this
    {
      Consistent(connections, owner, closedConns, clientCloses, |pods|)
    }

    constructor (node: string)
      ensures Valid() && connections == map[] && pods == [] && results == [] && scrapeErrors == 0
    {
      this.node := node;
      connections, closedConns, clientCloses, pods := map[], {}, multiset{}, [];
      owner, results, resultIds, scrapeErrors := map[], [], [], 0;
    }

    /** vmConnection.close */
    method CloseConn(h: nat)
      modifies `closedConns, `clientCloses
      ensures closedConns == old(closedConns) + {h}
      ensures clientCloses == if h in old(closedConns) then old(clientCloses) else old(clientCloses) + multiset{h}
    {
      if h !in closedConns {
        closedConns := closedConns + {h};
        clientCloses := clientCloses + multiset{h};
      }
    }

    /** conn.close() followed by the removal of its entry. */
    method CloseAndDelete(id: ContainerId)
      requires Valid() && id in connections
      modifies `connections, `owner, `closedConns, `clientCloses
      ensures Valid() && connections == old(connections) - {id}
    {
      var h := connections[id];
      CloseConn(h);
      connections := connections - {id};
      owner := owner - {h};
    }

    method RemoveDeparted(active: set<ContainerId>)
      requires Valid()
      modifies `connections, `owner, `closedConns, `clientCloses
      ensures Valid()
      ensures connections.Keys == old(connections).Keys * active
      ensures SubMap(connections, old(connections))
    {
      var todo := connections.Keys;
      while todo != {}
        invariant Valid() && todo <= connections.Keys <= old(connections).Keys
        invariant forall id :: id in old(connections) ==> (id in connections <==> id in todo || id in active)
        invariant SubMap(connections, old(connections))
      {
        var id :| id in todo;
        todo := todo - {id};
        if id !in active {
          CloseAndDelete(id);
        }
      }
    }

    /** A dialed client enters the table, or is closed again when its container already has one. */
    method Install(id: ContainerId, pod: Pod)
      requires Valid()
      modifies `connections, `owner, `closedConns, `clientCloses, `pods
      ensures Valid() && pods == old(pods) + [pod]
      ensures connections == if id in old(connections) then old(connections) else old(connections)[id := |old(pods)|]
    {
      var h := |pods|;
      pods := pods + [pod];
      if id !in connections {
        connections := connections[id := h];
        owner := owner[h := id];
      } else {
        CloseConn(h);
      }
    }

    method ConnectNew(targets: seq<Target>)
      requires Valid()
      modifies `connections, `owner, `closedConns, `clientCloses, `pods
      ensures Valid() && old(pods) <= pods
      ensures connections.Keys == old(connections).Keys + DialableIds(targets)
      ensures SubMap(old(connections), connections)
      ensures PodsKnown(old(connections), connections, pods, targets)
    {
      var existing := connections.Keys;
      for i := 0 to |targets|
        invariant Valid()
        invariant connections.Keys == existing + DialableIds(targets[..i])
        invariant SubMap(old(connections), connections) && old(pods) <= pods
        invariant PodsKnown(old(connections), connections, pods, targets)
      {
        var t := targets[i];
        assert targets[..i + 1] == targets[..i] + [t];
        if t.id !in existing && t.dials {
          Install(t.id, t.pod);
        }
      }
      assert targets[..|targets|] == targets;
    }

    /** Removal of departed connections and dialing of new targets. */
    method Reconcile(targets: seq<Target>)
      requires Valid()
      modifies `connections, `owner, `closedConns, `clientCloses, `pods
      ensures Valid() && old(pods) <= pods
      ensures connections.Keys == SnapshotIds(old(connections).Keys, targets)
      ensures Agree(old(connections), connections)
      ensures PodsKnown(old(connections), connections, pods, targets)
    {
      var active := ActiveIds(targets);
      RemoveDeparted(active);
      ghost var kept := connections;
      ConnectNew(targets);
      KeptAgree(old(connections), kept, connections, targets);
    }

    /** Everything the scrape loop keeps: the snapshot has been scraped except for `todo`. */
    ghost predicate Scraping(snapshot: map<ContainerId, nat>, scraped: map<ContainerId, VmiResult>,
                             todo: set<ContainerId>,
                             rs: seq<Vmi>, ids: seq<ContainerId>, errors: nat)
      reads this
    {
      && Valid() && SubMap(connections, snapshot) && HandlesBelow(snapshot, |pods|)
      && Progress(snapshot.Keys, connections.Keys, todo, scraped.Keys, ids, errors)
      && Published(rs, ids, snapshot, pods, node, scraped)
    }

    /** The goroutine of one connection. */
    method ScrapeOne(id: ContainerId, snapshot: map<ContainerId, nat>, scraped: map<ContainerId, VmiResult>,
                     ghost todo: set<ContainerId>, rs: seq<Vmi>, ghost ids: seq<ContainerId>, errors: nat)
      returns (rs': seq<Vmi>, ghost ids': seq<ContainerId>, errors': nat)
      requires Scraping(snapshot, scraped, todo, rs, ids, errors) && id in todo
      modifies `connections, `owner, `closedConns, `clientCloses
      ensures Scraping(snapshot, scraped, todo - {id}, rs', ids', errors')
    {
      rs', ids', errors' := rs, ids, errors;
      if id in scraped {
        ScrapedOk(snapshot.Keys, connections.Keys, todo, scraped.Keys, ids, errors, id);
        PublishedOneMore(rs, ids, snapshot, pods, node, scraped, id);
        rs', ids' := rs + [Vmi(pods[snapshot[id]], node, scraped[id])], ids + [id];
      } else {
        ScrapeFailed(snapshot.Keys, connections.Keys, todo, scraped.Keys, ids, errors, id);
        errors' := errors + 1;
        DropFailed(id, snapshot);
      }
    }

    method DropFailed(id: ContainerId, ghost snapshot: map<ContainerId, nat>)
      requires Valid() && id in connections && SubMap(connections, snapshot)
      modifies `connections, `owner, `closedConns, `clientCloses
      ensures Valid() && SubMap(connections, snapshot) && connections.Keys == old(connections).Keys - {id}
    {
      CloseAndDelete(id);
    }

    method ScrapeAll(scraped: map<ContainerId, VmiResult>)
      returns (rs: seq<Vmi>, ghost ids: seq<ContainerId>, errors: nat)
      requires Valid()
      modifies `connections, `owner, `closedConns, `clientCloses
      ensures Valid() && SubMap(connections, old(connections))
      ensures connections.Keys == old(connections).Keys * scraped.Keys
      ensures Lists(ids, connections.Keys) && Published(rs, ids, old(connections), pods, node, scraped)
      ensures errors == |old(connections).Keys - scraped.Keys|
    {
      var snapshot := connections;
      var todo := snapshot.Keys;
      rs, ids, errors := [], [], 0;
      ScrapesBegin(todo, scraped.Keys);
      while todo != {}
        invariant Scraping(snapshot, scraped, todo, rs, ids, errors)
      {
        var id :| id in todo;
        rs, ids, errors := ScrapeOne(id, snapshot, scraped, todo, rs, ids, errors);
        todo := todo - {id};
      }
      ScrapesEnd(snapshot.Keys, connections.Keys, scraped.Keys, ids, errors);
    }

    /** The scrape phase of a poll: what the goroutines return is published. */
    method ScrapeAndPublish(scraped: map<ContainerId, VmiResult>)
      requires Valid()
      modifies `connections, `owner, `closedConns, `clientCloses, `results, `resultIds, `scrapeErrors
      ensures Valid() && SubMap(connections, old(connections))
      ensures connections.Keys == old(connections).Keys * scraped.Keys && Lists(resultIds, connections.Keys)
      ensures Published(results, resultIds, old(connections), pods, node, scraped)
      ensures scrapeErrors == old(scrapeErrors) + |old(connections).Keys - scraped.Keys|
    {
      var errors: nat;
      results, resultIds, errors := ScrapeAll(scraped);
      scrapeErrors := scrapeErrors + errors;
    }

    /** One poll: departed connections are closed, new targets dialed, the snapshot scraped. */
    method Poll(input: PollInput)
      requires Valid()
      modifies this
      ensures Valid() && old(pods) <= pods
      ensures PollOutcome(old(connections), input, connections, resultIds, scrapeErrors - old(scrapeErrors))
      ensures PodsKnown(old(connections), connections, pods, input.targets)
      ensures Published(results, resultIds, connections, pods, node, input.scraped)
    {
      Reconcile(input.targets);
      ghost var snapshot := connections;
      ScrapeAndPublish(input.scraped);
      PollAddsUp(old(connections), snapshot, connections, input, resultIds, scrapeErrors - old(scrapeErrors));
      FailuresDropped(old(connections), snapshot, connections, pods, input.targets, results, resultIds, node,
        input.scraped);
    }

    method CloseAll()
      requires Valid()
      modifies `connections, `owner, `closedConns, `clientCloses
      ensures Valid() && connections == map[]
    {
      while connections != map[]
        invariant Valid()
        decreases connections.Keys
      {
        var id :| id in connections.Keys;
        CloseAndDelete(id);
      }
    }

    /** The collector's life: any polls, then shutdown. Every client it ever dialed has then been closed,
        each exactly once. */
    method Run(inputs: seq<PollInput>)
      requires Valid()
      modifies this
      ensures Valid() && connections == map[]
      ensures forall h: nat :: clientCloses[h] == if h < |pods| then 1 else 0
    {
      for i := 0 to |inputs|
        invariant Valid()
      {
        Poll(inputs[i]);
      }
      CloseAll();
    }
  }
}
