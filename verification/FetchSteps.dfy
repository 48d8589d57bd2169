/** What a step of the fetcher leaves as it was: requests once stale stay stale, and a drain only
    sends what waits. */
module FetchSteps {
  import opened NodeIds
  import opened Paths
  import opened FetchTypes
  import opened FetchingGraph
  import opened FetchingQueue
  import opened FetchProtocol

  // ---------------------------------------------------------------- stale requests

  /** No node is current again for a request below `next` for which it was not. */
  ghost predicate StaleStays(was: Nodes, now: Nodes, next: nat) {
    forall id, r :: 0 < r < next && IsCurrent(now, id, r) ==> IsCurrent(was, id, r)
  }

  /** No request issued so far concerns the node any more. */
  ghost predicate Superseded(nodes: Nodes, id: NodeId, next: nat) {
    forall r :: 0 < r < next ==> !IsCurrent(nodes, id, r)
  }

  lemma StaleStaysTwice(was: Nodes, mid: Nodes, now: Nodes, next: nat, later: nat)
    requires StaleStays(was, mid, next) && StaleStays(mid, now, later) && next <= later
    ensures StaleStays(was, now, next)
  {
  }

  lemma StaleSelf(nodes: Nodes, next: nat)
    ensures StaleStays(nodes, nodes, next)
  {
  }

  lemma SupersededStays(was: Nodes, now: Nodes, id: NodeId, next: nat)
    requires Superseded(was, id, next) && StaleStays(was, now, next)
    ensures Superseded(now, id, next)
  {
  }

  /** Over any run, each step of which keeps what is stale: once stale, always stale. */
  lemma {:induction false} StaleForGood(run: seq<Nodes>, nexts: seq<nat>, i: nat, j: nat, id: NodeId, request: nat)
    requires |run| == |nexts| && i <= j < |run|
    requires forall k :: 0 <= k < |run| - 1 ==> nexts[k] <= nexts[k + 1] && StaleStays(run[k], run[k + 1], nexts[k])
    requires 0 < request < nexts[i] && !IsCurrent(run[i], id, request)
    ensures !IsCurrent(run[j], id, request) && request < nexts[j]
  {
    if i < j {
      StaleForGood(run, nexts, i, j - 1, id, request);
      assert StaleStays(run[j - 1], run[j - 1 + 1], nexts[j - 1]);
    }
  }

  lemma AddedStale(nodes: Nodes, id: NodeId, next: nat)
    ensures StaleStays(nodes, Added(nodes, id), next)
  {
  }

  lemma RescheduledStale(nodes: Nodes, id: NodeId, sequence: nat, status: FetchStatus, force: bool, next: nat)
    requires id in nodes
    ensures StaleStays(nodes, nodes[id := Rescheduled(nodes[id], sequence, status, force)], next)
  {
  }

  /** Asked for more than was started, or with force, a node gives its request up. */
  lemma RescheduledSuperseded(nodes: Nodes, id: NodeId, sequence: nat, status: FetchStatus, force: bool, next: nat)
    requires id in nodes && (force || !nodes[id].fetchStarted.Includes(status))
    ensures Superseded(nodes[id := Rescheduled(nodes[id], sequence, status, force)], id, next)
  {
  }

  lemma RestrictedKeys(nodes: Nodes, gone: set<NodeId>)
    ensures Restricted(nodes, gone).Keys == nodes.Keys - gone
  {
  }

  lemma RestrictedStale(nodes: Nodes, gone: set<NodeId>, next: nat)
    ensures StaleStays(nodes, Restricted(nodes, gone), next)
    ensures forall id :: id in gone ==> Superseded(Restricted(nodes, gone), id, next)
  {
  }

  lemma SameButCacheStale(now: Nodes, was: Nodes, next: nat)
    requires SameButCache(now, was)
    ensures StaleStays(was, now, next)
  {
  }

  // ---------------------------------------------------------------- a response revives no request

  /** The node is, or is to be, fetched with inverse references. */
  predicate Inverts(n: FetchingNode) {
    n.pendingStatus.inverse || n.fetchStarted.inverse
  }

  /** No other node is fetched with inverse references. */
  ghost predicate NoMoreInverse(was: Nodes, now: Nodes) {
    forall id :: id in now && Inverts(now[id]) ==> id in was && Inverts(was[id])
  }

  /** Nothing stale is revived, and no node is asked for inverse references. */
  ghost predicate Calm(was: Nodes, now: Nodes, next: nat) {
    StaleStays(was, now, next) && NoMoreInverse(was, now)
  }

  predicate SameAsk(a: FetchingNode, b: FetchingNode) {
    b.fetchStarted == a.fetchStarted && b.requestId == a.requestId && b.pendingStatus == a.pendingStatus
  }

  lemma CalmTwice(was: Nodes, mid: Nodes, now: Nodes, next: nat, later: nat)
    requires Calm(was, mid, next) && Calm(mid, now, later) && next <= later
    ensures Calm(was, now, next)
  {
  }

  lemma AddedCalm(nodes: Nodes, id: NodeId, next: nat)
    ensures Calm(nodes, Added(nodes, id), next)
  {
  }

  lemma RescheduledCalm(nodes: Nodes, id: NodeId, sequence: nat, next: nat)
    requires id in nodes
    ensures Calm(nodes, nodes[id := Rescheduled(nodes[id], sequence, NODE_ONLY, false)], next)
  {
  }

  lemma WrittenCalm(nodes: Nodes, id: NodeId, n: FetchingNode, next: nat)
    requires id in nodes && SameAsk(nodes[id], n)
    ensures Calm(nodes, nodes[id := n], next)
  {
  }

  lemma LinkedCalm(nodes: Nodes, node: NodeId, from: NodeId, next: nat)
    requires node in nodes && from in nodes && node != from
    ensures Calm(nodes, Linked(nodes, node, from), next)
  {
  }

  lemma DependentStale(nodes: Nodes, id: NodeId, from: NodeId, next: nat)
    requires id in nodes && id != from
    ensures Calm(nodes, Dependent(nodes, id, from), next)
  {
    hide Calm, Linked, Rescheduled, Added;
    AddedCalm(nodes, from, next);
    var a := Added(nodes, from);
    AddedHas(nodes, from);
    var b := a[from := a[from].(force := a[from].force || a[id].force)];
    WrittenCalm(a, from, b[from], next);
    CalmTwice(nodes, a, b, next, next);
    LinkedCalm(b, id, from, next);
    CalmTwice(nodes, b, DependentUnscheduled(nodes, id, from), next, next);
    var c := DependentUnscheduled(nodes, id, from);
    RescheduledCalm(c, from, c[from].pendingSequence, next);
    CalmTwice(nodes, c, Dependent(nodes, id, from), next, next);
  }

  lemma AddedHas(nodes: Nodes, id: NodeId)
    ensures id in Added(nodes, id) && nodes.Keys <= Added(nodes, id).Keys
  {
  }

  lemma ValidatedStale(v: Validator, p: Progress, id: NodeId, from: NodeId, next: nat)
    requires id in p.nodes
    ensures Calm(p.nodes, Validated(v, p, id, from).nodes, next)
  {
    if !from.Null? && id != from {
      DependentStale(p.nodes, id, from, next);
    }
  }

  lemma ChildAdoptedStale(v: Validator, p: Progress, id: NodeId, r: ReferenceDescription, next: nat)
    requires id in p.nodes
    ensures Calm(p.nodes, WithChildAdopted(v, p, id, r).nodes, next)
  {
    hide Calm, Validated, Adopted, Added;
    AddedHas(p.nodes, r.node);
    AddedCalm(p.nodes, r.node, next);
    var a := Added(p.nodes, r.node);
    var n := Adopted(a[r.node], id, a[id], r);
    AdoptedKeepsFetch(a[r.node], id, a[id], r);
    WrittenCalm(a, r.node, n, next);
    var b := p.(nodes := a[r.node := n]);
    CalmTwice(p.nodes, a, b.nodes, next, next);
    ValidatedStale(v, b, id, PROPERTY_TYPE, next);
    CalmTwice(p.nodes, b.nodes, Validated(v, b, id, PROPERTY_TYPE).nodes, next, next);
  }

  lemma AdoptedKeepsFetch(child: FetchingNode, parent: NodeId, n: FetchingNode, r: ReferenceDescription)
    ensures SameAsk(child, Adopted(child, parent, n, r))
  {
  }

  lemma ChildStale(v: Validator, p: Progress, id: NodeId, r: ReferenceDescription, next: nat)
    requires id in p.nodes && r.node != id
    ensures Calm(p.nodes, WithChild(v, p, id, r).nodes, next)
  {
    hide Calm, WithChildAdopted, Rescheduled;
    ChildAdoptedStale(v, p, id, r, next);
    var a := WithChildAdopted(v, p, id, r).nodes;
    LinkedCalm(a, r.node, id, next);
    var b := Linked(a, r.node, id);
    LinkedCalm(b, id, r.node, next);
    var c := Linked(b, id, r.node);
    RescheduledCalm(c, r.node, c[id].pendingSequence, next);
    CalmTwice(p.nodes, a, b, next, next);
    CalmTwice(p.nodes, b, c, next, next);
    CalmTwice(p.nodes, c, WithChild(v, p, id, r).nodes, next, next);
  }

  lemma RecordStale(v: Validator, p: Progress, id: NodeId, n: FetchingNode, from: NodeId, next: nat)
    requires id in p.nodes && SameAsk(p.nodes[id], n)
    ensures Calm(p.nodes, Validated(v, p.(nodes := p.nodes[id := n]), id, from).nodes, next)
  {
    hide Calm, Validated;
    var q := p.(nodes := p.nodes[id := n]);
    WrittenCalm(p.nodes, id, n, next);
    ValidatedStale(v, q, id, from, next);
    CalmTwice(p.nodes, q.nodes, Validated(v, q, id, from).nodes, next, next);
  }

  lemma InvertedKeepsFetch(n: FetchingNode, r: ReferenceDescription)
    ensures SameAsk(n, Inverted(n, r))
  {
  }

  lemma ExtendedKeepsFetch(n: FetchingNode, r: ReferenceDescription)
    ensures SameAsk(n, Extended(n, r))
  {
  }

  lemma ReferenceStale(v: Validator, p: Progress, d: BrowseDescription, r: ReferenceDescription, next: nat)
    requires d.node in p.nodes && !TripsCheck(d, r)
    ensures Calm(p.nodes, WithReference(v, p, d, r).nodes, next)
  {
    hide Calm, Validated, WithChild, Inverted, Extended;
    var id := d.node;
    WrittenCalm(p.nodes, id, p.nodes[id].(status := Bad), next);
    ValidatedStale(v, p, id, r.referenceType, next);
    var a := Validated(v, p, id, r.referenceType);
    InvertedKeepsFetch(a.nodes[id], r);
    ExtendedKeepsFetch(a.nodes[id], r);
    RecordStale(v, a, id, Inverted(a.nodes[id], r), r.node, next);
    RecordStale(v, a, id, Extended(a.nodes[id], r), r.node, next);
    if id != r.node {
      ChildStale(v, a, id, r, next);
    }
    if Calm(a.nodes, WithReference(v, p, d, r).nodes, next) {
      CalmTwice(p.nodes, a.nodes, WithReference(v, p, d, r).nodes, next, next);
    }
  }

  lemma {:induction false} ReferencesStale(v: Validator, p: Progress, d: BrowseDescription,
                                           references: seq<ReferenceDescription>, next: nat)
    requires d.node in p.nodes && NoneTrips(d, references)
    ensures Calm(p.nodes, WithReferences(v, p, d, references).nodes, next)
  {
    hide Calm, WithReference, TripsCheck;
    if references == [] {
      CalmSelf(p.nodes, next);
    } else {
      var last := |references| - 1;
      ReferencesStale(v, p, d, references[..last], next);
      var q := WithReferences(v, p, d, references[..last]);
      ReferenceStale(v, q, d, references[last], next);
      CalmTwice(p.nodes, q.nodes, WithReferences(v, p, d, references).nodes, next, next);
    }
  }

  lemma CalmSelf(nodes: Nodes, next: nat)
    ensures Calm(nodes, nodes, next)
  {
  }

  lemma BrowseStale(v: Validator, p: Progress, request: nat, d: BrowseDescription, result: BrowseResult, next: nat)
    requires result.status.Good? ==> NoneTrips(d, result.references)
    ensures Calm(p.nodes, WithBrowse(v, p, request, d, result).nodes, next)
  {
    hide Calm, WithReferences, NoneTrips;
    CalmSelf(p.nodes, next);
    if IsCurrent(p.nodes, d.node, request) {
      var marked := p.nodes[d.node].(referencesFetched := true);
      WrittenCalm(p.nodes, d.node, marked, next);
      WrittenCalm(p.nodes, d.node, marked.(status := result.status), next);
      if result.status.Good? {
        var q := p.(nodes := p.nodes[d.node := marked]);
        ReferencesStale(v, q, d, result.references, next);
        CalmTwice(p.nodes, q.nodes, WithReferences(v, q, d, result.references).nodes, next, next);
      }
    }
  }

  lemma {:induction false} BrowsesStale(v: Validator, p: Progress, request: nat, ds: seq<BrowseDescription>,
                                        results: seq<BrowseResult>, next: nat)
    requires |ds| == |results| && PassesChecks(ds, results)
    ensures Calm(p.nodes, WithBrowses(v, p, request, ds, results).nodes, next)
  {
    hide Calm, WithBrowse;
    if ds == [] {
      CalmSelf(p.nodes, next);
    } else {
      var last := |ds| - 1;
      BrowsesStale(v, p, request, ds[..last], results[..last], next);
      var q := WithBrowses(v, p, request, ds[..last], results[..last]);
      BrowseStale(v, q, request, ds[last], results[last], next);
      CalmTwice(p.nodes, q.nodes, WithBrowses(v, p, request, ds, results).nodes, next, next);
    }
  }

  lemma ReadStale(v: Validator, p: Progress, request: nat, a: ReadValueId, result: DataValue, next: nat)
    ensures Calm(p.nodes, WithRead(v, p, request, a, result).nodes, next)
  {
    hide Calm, Validated, SetFetchedAttribute;
    CalmSelf(p.nodes, next);
    if IsCurrent(p.nodes, a.node, request) {
      var marked := p.nodes[a.node].(attributesFetched := true);
      WrittenCalm(p.nodes, a.node, marked, next);
      WrittenCalm(p.nodes, a.node, marked.(status := result.status), next);
      var decoding := SetFetchedAttribute(marked, a.attribute, result.value);
      DecodingKeepsFetch(marked, a.attribute, result.value);
      RecordStale(v, p, a.node, decoding.node, decoding.dependency, next);
    }
  }

  lemma DecodingKeepsFetch(n: FetchingNode, attribute: AttributeId, value: Variant)
    ensures var m := SetFetchedAttribute(n, attribute, value).node;
      SameAsk(n, m)
  {
    hide SetFetchedAttribute;
    SetAttributeIsSameFetch(n, attribute, value);
  }

  lemma {:induction false} ReadsStale(v: Validator, p: Progress, request: nat, asks: seq<ReadValueId>,
                                      results: seq<DataValue>, next: nat)
    requires |asks| == |results|
    ensures Calm(p.nodes, WithReads(v, p, request, asks, results).nodes, next)
  {
    hide Calm, WithRead;
    if asks == [] {
      CalmSelf(p.nodes, next);
    } else {
      var last := |asks| - 1;
      ReadsStale(v, p, request, asks[..last], results[..last], next);
      var q := WithReads(v, p, request, asks[..last], results[..last]);
      ReadStale(v, q, request, asks[last], results[last], next);
      CalmTwice(p.nodes, q.nodes, WithReads(v, p, request, asks, results).nodes, next, next);
    }
  }

  /** Whatever else a response brings, what it says of a node for which its request is stale is
      passed over. */
  lemma StaleBrowseIgnored(v: Validator, p: Progress, request: nat, ds: seq<BrowseDescription>,
                           results: seq<BrowseResult>, k: nat)
    requires |ds| == |results| && PassesChecks(ds, results) && k < |ds|
    requires 0 < request && !IsCurrent(p.nodes, ds[k].node, request)
    ensures PassesChecks(ds[..k], results[..k]) && PassesChecks(ds[..k + 1], results[..k + 1])
    ensures WithBrowses(v, p, request, ds[..k + 1], results[..k + 1])
      == WithBrowses(v, p, request, ds[..k], results[..k])
  {
    PassesChecksOf(ds, results, k);
    PassesChecksOf(ds, results, k + 1);
    PassesCheck(ds, results, k);
    WithBrowsesStep(v, p, request, ds, results, k);
    BrowsesStale(v, p, request, ds[..k], results[..k], request + 1);
  }

  lemma StaleReadIgnored(v: Validator, p: Progress, request: nat, asks: seq<ReadValueId>, results: seq<DataValue>,
                         k: nat)
    requires |asks| == |results| && k < |asks| && 0 < request && !IsCurrent(p.nodes, asks[k].node, request)
    ensures WithReads(v, p, request, asks[..k + 1], results[..k + 1])
      == WithReads(v, p, request, asks[..k], results[..k])
  {
    WithReadsStep(v, p, request, asks, results, k);
    ReadsStale(v, p, request, asks[..k], results[..k], request + 1);
  }

  // ---------------------------------------------------------------- a drain only sends

  predicate SameRecord(a: FetchingNode, b: FetchingNode) {
    b == a.(cacheIteration := b.cacheIteration, cacheState := b.cacheState)
  }

  /** The node is as it was, or was waiting and has been sent with a request that is new. */
  predicate OnTheWay(a: FetchingNode, b: FetchingNode, next: nat) {
    || SameRecord(a, b)
    || (a.pending && next <= b.requestId
        && SameRecord(a.(pending := false, fetchStarted := a.pendingStatus, requestId := b.requestId,
                         attributesFetched := false, referencesFetched := b.referencesFetched), b))
  }

  ghost predicate Underway(was: Nodes, now: Nodes, next: nat) {
    now.Keys == was.Keys && forall id :: id in was ==> OnTheWay(was[id], now[id], next)
  }

  lemma UnderwayTwice(was: Nodes, mid: Nodes, now: Nodes, next: nat, later: nat)
    requires Underway(was, mid, next) && Underway(mid, now, later) && next <= later
    ensures Underway(was, now, next)
  {
    forall id | id in was ensures OnTheWay(was[id], now[id], next) {
      assert OnTheWay(was[id], mid[id], next) && OnTheWay(mid[id], now[id], later);
    }
  }

  lemma UnderwayStale(was: Nodes, now: Nodes, next: nat)
    requires Underway(was, now, next)
    ensures StaleStays(was, now, next)
  {
    forall id, r | 0 < r < next && IsCurrent(now, id, r) ensures IsCurrent(was, id, r) {
      assert OnTheWay(was[id], now[id], next);
    }
  }

  lemma UnderwaySelf(nodes: Nodes, next: nat)
    ensures Underway(nodes, nodes, next)
  {
  }

  lemma PoppedNone(nodes: Nodes)
    ensures PoppedAll(nodes, {}) == nodes
  {
  }

  lemma PoppedStep(nodes: Nodes, batch: set<NodeId>, id: NodeId)
    requires id in PoppedAll(nodes, batch) && PoppedAll(nodes, batch)[id].pending
    ensures id in nodes && nodes[id].pending && id !in batch
    ensures PoppedAll(nodes, batch)[id := Popped(PoppedAll(nodes, batch)[id])] == PoppedAll(nodes, batch + {id})
  {
  }

  lemma SameButCacheUnderway(was: Nodes, now: Nodes, next: nat)
    requires SameButCache(now, was)
    ensures Underway(was, now, next)
  {
  }

  lemma SentUnderway(was: Nodes, batch: set<NodeId>, request: nat)
    requires forall id :: id in batch ==> id in was && was[id].pending
    ensures Underway(was, SentAll(PoppedAll(was, batch), batch, request), request)
  {
    hide FetchReferences;
    var now := SentAll(PoppedAll(was, batch), batch, request);
    forall id | id in was ensures OnTheWay(was[id], now[id], request) {
      SentRecord(was, batch, request, id);
    }
  }

  lemma SentRecord(was: Nodes, batch: set<NodeId>, request: nat, id: NodeId)
    requires id in was && (id in batch ==> was[id].pending)
    ensures var now := SentAll(PoppedAll(was, batch), batch, request);
      id in now && OnTheWay(was[id], now[id], request)
  {
    hide FetchReferences;
  }

  /** What was asked is what the node waits for, or what it was started for. */
  predicate Covers(n: FetchingNode, status: FetchStatus) {
    if n.pending then n.pendingStatus.Includes(status) else n.fetchStarted.Includes(status)
  }

  lemma CoversUnderway(a: FetchingNode, b: FetchingNode, next: nat, status: FetchStatus)
    requires OnTheWay(a, b, next) && Covers(a, status)
    ensures Covers(b, status)
  {
  }

  /** Scheduled and perhaps sent, a node is fetched for what was asked; asked for more than was
      started, or with force, it waits for none of the earlier requests. */
  lemma FetchedIsCovered(was: Nodes, now: Nodes, id: NodeId, sequence: nat, status: FetchStatus, force: bool, next: nat)
    requires var added := Added(was, id);
      && (added[id].pending ==> added[id].fetchStarted.IsEmpty())
      && Underway(added[id := Rescheduled(added[id], sequence, status, force)], now, next)
    ensures id in now && Covers(now[id], status)
    ensures id !in was || force || !was[id].fetchStarted.Includes(status) ==> Superseded(now, id, next)
  {
    var added := Added(was, id);
    var mid := added[id := Rescheduled(added[id], sequence, status, force)];
    assert OnTheWay(mid[id], now[id], next);
    RescheduledIsCovered(added[id], sequence, status, force);
    CoversUnderway(mid[id], now[id], next, status);
    UnderwayStale(mid, now, next);
  }

  lemma RescheduledIsCovered(n: FetchingNode, sequence: nat, status: FetchStatus, force: bool)
    requires n.pending ==> n.fetchStarted.IsEmpty()
    ensures Covers(Rescheduled(n, sequence, status, force), status)
  {
  }

  // ---------------------------------------------------------------- what was asked of the services

  /** Of the requests issued so far, only `read` and `browse` may have been answered since. */
  ghost predicate Asks(was: Exchange, now: Exchange, next: nat, read: nat, browse: nat) {
    && (forall r :: 0 < r < next ==>
         if r in was.toRead && r != read then r in now.toRead && now.toRead[r] == was.toRead[r] else r !in now.toRead)
    && (forall r :: 0 < r < next ==>
         if r in was.toBrowse && r != browse then r in now.toBrowse && now.toBrowse[r] == was.toBrowse[r]
         else r !in now.toBrowse)
  }

  lemma AsksSelf(x: Exchange, next: nat)
    ensures Asks(x, x, next, 0, 0)
  {
  }

  lemma AsksTwice(was: Exchange, mid: Exchange, now: Exchange, next: nat, later: nat, read: nat, browse: nat)
    requires Asks(was, mid, next, read, browse) && Asks(mid, now, later, 0, 0) && next <= later
    ensures Asks(was, now, next, read, browse)
  {
  }

  // ---------------------------------------------------------------- the reports

  function StateIds(nodes: seq<NodeRecord>): seq<NodeId> {
    seq(|nodes|, i requires 0 <= i < |nodes| => nodes[i].id)
  }

  function ErrorIds(errors: seq<FetchError>): seq<NodeId> {
    seq(|errors|, i requires 0 <= i < |errors| => errors[i].id)
  }

  /** The ids a report names, with multiplicity. */
  function IdsIn(result: FetchCompletedResult): multiset<NodeId> {
    multiset(StateIds(result.nodes)) + multiset(ErrorIds(result.errors))
  }

  /** How often each node was reported to the handler. */
  function ReportedIn(reports: seq<FetchCompletedResult>): multiset<NodeId> {
    if reports == [] then multiset{} else ReportedIn(reports[..|reports| - 1]) + IdsIn(reports[|reports| - 1])
  }

  lemma ReportedMore(reports: seq<FetchCompletedResult>, result: FetchCompletedResult)
    ensures ReportedIn(reports + [result]) == ReportedIn(reports) + IdsIn(result)
  {
    assert (reports + [result])[..|reports|] == reports;
  }

  lemma {:induction false} DistinctMultiset(s: seq<NodeId>)
    requires Distinct(s)
    ensures multiset(s) == multiset(Elements(s))
  {
    if s != [] {
      var init, last := s[..|s| - 1], s[|s| - 1];
      assert s == init + [last];
      assert last !in init;
      DistinctMultiset(init);
      assert Elements(s) == Elements(init) + {last};
    }
  }

  /** A node is reported as a state or as an error by its status, so never as both. */
  lemma ReportedByStatus(result: FetchCompletedResult, nodes: Nodes, released: set<NodeId>)
    requires ReportsExactly(result, nodes, released)
    ensures forall x :: x in StateIds(result.nodes) ==> x in nodes && nodes[x].status.Good?
    ensures forall x :: x in ErrorIds(result.errors) ==> x in nodes && !nodes[x].status.Good?
  {
    forall x | x in StateIds(result.nodes) ensures x in nodes && nodes[x].status.Good? {
      var i :| 0 <= i < |result.nodes| && result.nodes[i].id == x;
    }
    forall x | x in ErrorIds(result.errors) ensures x in nodes && !nodes[x].status.Good? {
      var i :| 0 <= i < |result.errors| && result.errors[i].id == x;
    }
  }

  lemma IdsAreListed(result: FetchCompletedResult)
    ensures result.Ids() == Elements(StateIds(result.nodes)) + Elements(ErrorIds(result.errors))
  {
    forall x | x in result.Ids() ensures x in StateIds(result.nodes) || x in ErrorIds(result.errors) {
      if i :| 0 <= i < |result.nodes| && result.nodes[i].id == x {
        assert StateIds(result.nodes)[i] == x;
      } else {
        var j :| 0 <= j < |result.errors| && result.errors[j].id == x;
        assert ErrorIds(result.errors)[j] == x;
      }
    }
  }

  lemma ListedOnce(result: FetchCompletedResult, nodes: Nodes, released: set<NodeId>)
    requires ReportsExactly(result, nodes, released)
    ensures Distinct(StateIds(result.nodes)) && Distinct(ErrorIds(result.errors)) && result.Ids() == released
  {
  }

  /** An exact report names each released node once. */
  lemma ExactReportIds(result: FetchCompletedResult, nodes: Nodes, released: set<NodeId>)
    requires ReportsExactly(result, nodes, released)
    ensures IdsIn(result) == multiset(released)
  {
    hide ReportsExactly, StateIds, ErrorIds, Distinct;
    var good, bad := StateIds(result.nodes), ErrorIds(result.errors);
    ReportedByStatus(result, nodes, released);
    IdsAreListed(result);
    ListedOnce(result, nodes, released);
    DistinctMultiset(good);
    DistinctMultiset(bad);
    assert Elements(good) !! Elements(bad) && Elements(good) + Elements(bad) == released;
  }

  lemma NoneComplete(nodes: Nodes)
    requires Settled(nodes)
    ensures CompleteNodes(nodes) == {} && Restricted(nodes, {}) == nodes
  {
    RestrictedNothing(nodes);
  }

  /** A released node was started. */
  lemma ReleasedWasStarted(nodes: Nodes, x: Exchange, nextRequestId: nat)
    requires Sound(nodes, {}, x, nextRequestId)
    ensures forall id :: id in CompleteNodes(nodes) ==> !nodes[id].fetchStarted.IsEmpty()
  {
    forall id | id in CompleteNodes(nodes) ensures !nodes[id].fetchStarted.IsEmpty() {
      CompleteIsFetched(nodes, id);
    }
  }

  /** A step that ends in a drain: what is stale stays so, and what `left` the step has been sent at most. */
  lemma FinishStep(was: Nodes, mid: Nodes, now: Nodes, left: Nodes, next: nat, later: nat)
    requires StaleStays(was, mid, next) && Underway(mid, now, later) && next <= later
    ensures StaleStays(was, now, next)
    ensures Underway(left, mid, next) ==> Underway(left, now, next)
  {
    hide StaleStays, Underway;
    UnderwayStale(mid, now, later);
    StaleStaysTwice(was, mid, now, next, later);
    if Underway(left, mid, next) {
      UnderwayTwice(left, mid, now, next, later);
    }
  }

  lemma UnderwayEarlier(was: Nodes, now: Nodes, next: nat, later: nat)
    requires Underway(was, now, later) && next <= later
    ensures Underway(was, now, next)
  {
    forall id | id in was ensures OnTheWay(was[id], now[id], next) {
      assert OnTheWay(was[id], now[id], later);
    }
  }

  lemma SentIs(nodes: Nodes, batch: set<NodeId>, request: nat)
    ensures SentAll(nodes, batch, request)
      == ReferencesAsked(AttributesAsked(Stamped(nodes, batch, request), batch), batch)
  {
  }

  lemma AsksIssued(x: Exchange, request: nat, asked: seq<ReadValueId>, browsed: seq<BrowseDescription>)
    ensures Asks(x, x.(toRead := x.toRead[request := asked], toBrowse := x.toBrowse[request := browsed]), request, 0, 0)
  {
  }

  lemma AsksAllBut(x: Exchange, now: Exchange, next: nat, request: nat)
    requires now.toRead == x.toRead && now.toBrowse == x.toBrowse - {request}
    ensures Asks(x, now, next, 0, request)
  {
  }

  /** An empty Browse has an empty answer, which changes no node. */
  lemma NothingBrowsed(v: Validator, p: Progress, request: nat)
    ensures EffectiveBrowse(Good, 0, []) == []
    ensures WithBrowses(v, p, request, [], EffectiveBrowse(Good, 0, [])) == p
  {
  }

  lemma AsksAnswered(x: Exchange, issued: Exchange, now: Exchange, next: nat)
    requires Asks(x, issued, next, 0, 0) && Asks(issued, now, next + 1, 0, next)
    ensures Asks(x, now, next, 0, 0)
  {
  }

  lemma AsksDone(x: Exchange, now: Exchange, next: nat, read: nat, browse: nat)
    requires Asks(x, now, next, read, browse)
    ensures 0 < read < next ==> read !in now.toRead
    ensures 0 < browse < next ==> browse !in now.toBrowse
  {
  }

  // ---------------------------------------------------------------- inverse references

  /** The browse whose answer can trip the check on inverse references. */
  predicate AsksInverse(d: BrowseDescription) {
    d.direction.Inverse? && d.referenceType == NON_HIERARCHICAL_REFERENCES
  }

  /** No node is fetched with inverse references, and no browse is out for them. */
  ghost predicate Uninverted(nodes: Nodes, x: Exchange) {
    && (forall id :: id in nodes ==> !Inverts(nodes[id]))
    && (forall r, d :: r in x.toBrowse && d in x.toBrowse[r] ==> !AsksInverse(d))
  }

  lemma StaysUninverted(was: Nodes, x: Exchange, now: Nodes, y: Exchange)
    requires Uninverted(was, x) && NoMoreInverse(was, now)
    requires forall r :: r in y.toBrowse ==> r in x.toBrowse && y.toBrowse[r] == x.toBrowse[r]
    ensures Uninverted(now, y)
  {
  }

  lemma AddedUninverted(nodes: Nodes, x: Exchange, id: NodeId)
    requires Uninverted(nodes, x)
    ensures Uninverted(Added(nodes, id), x)
  {
  }

  lemma RescheduledUninverted(nodes: Nodes, x: Exchange, id: NodeId, sequence: nat, status: FetchStatus, force: bool)
    requires Uninverted(nodes, x) && id in nodes && !status.inverse
    ensures Uninverted(nodes[id := Rescheduled(nodes[id], sequence, status, force)], x)
  {
  }

  lemma PoppedUninverted(nodes: Nodes, x: Exchange, id: NodeId)
    requires Uninverted(nodes, x) && id in nodes
    ensures Uninverted(nodes[id := Popped(nodes[id])], x)
  {
  }

  lemma RestrictedUninverted(nodes: Nodes, x: Exchange, gone: set<NodeId>)
    requires Uninverted(nodes, x)
    ensures Uninverted(Restricted(nodes, gone), x)
  {
  }

  lemma CacheUninverted(now: Nodes, was: Nodes, x: Exchange)
    requires Uninverted(was, x) && SameButCache(now, was)
    ensures Uninverted(now, x)
  {
  }

  lemma {:induction false} BrowsesUninverted(nodes: Nodes, batch: seq<NodeId>)
    requires forall id :: id in batch ==> id in nodes && !nodes[id].fetchStarted.inverse
    ensures forall d :: d in BrowsesFor(nodes, batch) ==> !AsksInverse(d)
  {
    if batch != [] {
      BrowsesUninverted(nodes, batch[..|batch| - 1]);
    }
  }

  lemma SentUninverted(nodes: Nodes, batch: seq<NodeId>, x: Exchange, request: nat, y: Exchange)
    requires Uninverted(nodes, x) && forall id :: id in batch ==> id in nodes
    requires var asked := AttributesAsked(Stamped(nodes, Elements(batch), request), Elements(batch));
      && (forall id :: id in batch ==> id in asked)
      && y.toBrowse == x.toBrowse[request := BrowsesFor(asked, batch)]
    ensures Uninverted(SentAll(nodes, Elements(batch), request), y)
  {
    hide FetchReferences, FetchAttributes;
    BrowsesUninverted(AttributesAsked(Stamped(nodes, Elements(batch), request), Elements(batch)), batch);
  }

  /** A reference that names the node itself as its child. */
  predicate NamesItself(d: BrowseDescription, r: ReferenceDescription) {
    && !r.referenceType.Null? && !r.node.Null? && d.direction.Forward? && d.referenceType == AGGREGATES
    && r.forward && r.referenceType != HAS_SUBTYPE && r.node == d.node
  }

  predicate NoneNamesItself(ds: seq<BrowseDescription>, results: seq<BrowseResult>)
    requires |ds| == |results|
  {
    forall i, j :: 0 <= i < |results| && 0 <= j < |results[i].references| && results[i].status.Good? ==>
      !NamesItself(ds[i], results[i].references[j])
  }

  /** Where no browse asks for inverse references, only a node as its own child trips a check. */
  lemma PassesIff(nodes: Nodes, x: Exchange, request: nat, results: seq<BrowseResult>)
    requires Uninverted(nodes, x) && request in x.toBrowse && |results| == |x.toBrowse[request]|
    ensures PassesChecks(x.toBrowse[request], results) <==> NoneNamesItself(x.toBrowse[request], results)
  {
    var ds := x.toBrowse[request];
    forall i, j | 0 <= i < |results| && 0 <= j < |results[i].references|
      ensures TripsCheck(ds[i], results[i].references[j]) <==> NamesItself(ds[i], results[i].references[j])
    {
      assert ds[i] in x.toBrowse[request] && !AsksInverse(ds[i]);
    }
  }
}
