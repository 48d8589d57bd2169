/** What the fetcher asks for, what the services answer, and the invariants that hold between two
    steps of the protocol. Everything here is about values; `NodeFetching` holds the object. */
module FetchProtocol {
  import opened NodeIds
  import opened Paths
  import opened FetchTypes
  import opened FetchingGraph
  import opened FetchingQueue

  const MAX_REQUEST_NODE_COUNT := 100
  const MAX_PARALLEL_REQUEST_COUNT := 5
  const PRIMITIVE_REQUEST_COUNT := 2

  // ---------------------------------------------------------------- requests

  datatype AttributeId = NodeClassAttribute | BrowseName | DisplayName | DataTypeAttribute | ValueAttribute

  datatype ReadValueId = ReadValueId(node: NodeId, attribute: AttributeId)

  datatype Direction = Forward | Inverse

  datatype BrowseDescription = BrowseDescription(node: NodeId, direction: Direction, referenceType: NodeId)

  datatype DataValue = DataValue(status: Status, value: Variant)

  datatype BrowseResult = BrowseResult(status: Status, references: seq<ReferenceDescription>)

  /** One reference as the view service returned it for one browse. */
  datatype Delivery = Delivery(description: BrowseDescription, reference: ReferenceDescription)

  /** The requests in flight by request id, and what the answered browses delivered. */
  datatype Exchange = Exchange(
    toRead: map<nat, seq<ReadValueId>>,
    toBrowse: map<nat, seq<BrowseDescription>>,
    answers: map<nat, seq<Delivery>>)

  function FetchAttributes(id: NodeId, n: FetchingNode): (r: seq<ReadValueId>)
    ensures r != [] && forall i :: 0 <= i < |r| ==> r[i].node == id
  {
    [ReadValueId(id, BrowseName), ReadValueId(id, DisplayName)]
    + (if !n.isProperty || n.isDeclaration then [ReadValueId(id, NodeClassAttribute)] else [])
    + [ReadValueId(id, DataTypeAttribute)]
    + (if n.isProperty then [ReadValueId(id, ValueAttribute)] else [])
  }

  function FetchReferences(id: NodeId, n: FetchingNode): (r: seq<BrowseDescription>)
    ensures forall i :: 0 <= i < |r| ==> r[i].node == id
  {
    (if !n.isProperty then [BrowseDescription(id, Forward, AGGREGATES)] else [])
    + (if !n.isProperty || n.isDeclaration then [BrowseDescription(id, Forward, NON_HIERARCHICAL_REFERENCES)] else [])
    + (if n.fetchStarted.inverse then [BrowseDescription(id, Inverse, NON_HIERARCHICAL_REFERENCES)] else [])
    + (if id != ROOT_FOLDER && n.state.parent.Null? && n.state.referenceType.Null?
       then [BrowseDescription(id, Inverse, HIERARCHICAL_REFERENCES)] else [])
  }

  // ---------------------------------------------------------------- one node

  predicate AsksAttributes(asked: seq<ReadValueId>, id: NodeId) {
    exists i :: 0 <= i < |asked| && asked[i].node == id
  }

  predicate AsksReferences(asked: seq<BrowseDescription>, id: NodeId) {
    exists i :: 0 <= i < |asked| && asked[i].node == id
  }

  /** The disabled `CheckInvariants`, and that no unfetched node is forgotten: a node is queued and
      has no request, or was sent with a request, and what it still lacks is outstanding there. */
  predicate NodeOk(id: NodeId, n: FetchingNode, x: Exchange, nextRequestId: nat) {
    && (n.pending <==> n.fetchStarted.IsEmpty())
    && (n.pending ==> n.pendingStatus.node && n.requestId == 0 && !n.attributesFetched && !n.referencesFetched)
    && (!n.pending ==>
         && n.fetchStarted.node
         && 0 < n.requestId < nextRequestId
         && (n.attributesFetched || (n.requestId in x.toRead && AsksAttributes(x.toRead[n.requestId], id)))
         && (n.referencesFetched || (n.requestId in x.toBrowse && AsksReferences(x.toBrowse[n.requestId], id))))
  }

  /** Without a request, and not waiting for one. */
  predicate Unsent(n: FetchingNode) {
    !n.pending && n.requestId == 0 && !n.attributesFetched && !n.referencesFetched
  }

  /** A node just added, before it is scheduled. */
  predicate Idle(n: FetchingNode) {
    Unsent(n) && n.fetchStarted.IsEmpty()
  }

  /** All nodes meet `NodeOk`, but for those among `idle` that are still idle. */
  ghost predicate NodesOk(nodes: Nodes, idle: set<NodeId>, x: Exchange, nextRequestId: nat) {
    forall id :: id in nodes ==>
      NodeOk(id, nodes[id], x, nextRequestId) || (id in idle && Idle(nodes[id]))
  }

  /** The browses that `FetchReferences` builds. */
  predicate IsAsked(d: BrowseDescription) {
    if d.direction.Forward? then d.referenceType in {AGGREGATES, NON_HIERARCHICAL_REFERENCES}
    else d.referenceType in {HIERARCHICAL_REFERENCES, NON_HIERARCHICAL_REFERENCES}
  }

  /** `running_request_count_` counts the unanswered requests and never exceeds the window. An
      answer is logged once its browse is being `answering`, and not before. */
  ghost predicate CountsOk(running: nat, x: Exchange, nextRequestId: nat, answering: nat) {
    && running == |x.toRead| + |x.toBrowse|
    && running <= MAX_PARALLEL_REQUEST_COUNT
    && 0 < nextRequestId
    && (forall r :: r in x.toRead || r in x.toBrowse || r in x.answers ==> 0 < r < nextRequestId)
    && (forall r :: r in x.toBrowse && r in x.answers ==> r == answering)
    && (forall r :: r in x.toBrowse ==> forall d :: d in x.toBrowse[r] ==> IsAsked(d))
  }

  /** No node that could be released is still kept. */
  ghost predicate Settled(nodes: Nodes) {
    forall x :: x in nodes ==> !Complete(nodes, x)
  }

  lemma SettledKept(was: Nodes, now: Nodes)
    requires Settled(was) && was.Keys <= now.Keys
    requires forall x, y :: DependsOn(was, x, y) ==> DependsOn(now, x, y)
    requires forall x :: x in now && now[x].Fetched() ==> x in was && was[x].Fetched()
    ensures Settled(now)
  {
    forall x | x in now ensures !Complete(now, x) {
      ReachesSelf(Dependencies(now), x);
      if now[x].Fetched() {
        var b :| Reaches(Dependencies(was), x, b) && !was[b].Fetched();
        ReachesMore(was, now, x, b);
      }
    }
  }

  lemma ReachesMore(was: Nodes, now: Nodes, a: NodeId, b: NodeId)
    requires was.Keys <= now.Keys && Reaches(Dependencies(was), a, b)
    requires forall x, y :: DependsOn(was, x, y) ==> DependsOn(now, x, y)
    ensures b in was && Reaches(Dependencies(now), a, b)
  {
    var p :| IsPath(Dependencies(was), p) && p[0] == a && p[|p| - 1] == b;
    forall i | 0 <= i < |p| - 1 ensures p[i + 1] in Dependencies(now)[p[i]] {
      assert DependsOn(was, p[i], p[i + 1]);
    }
    assert IsPath(Dependencies(now), p);
    assert b in Dependencies(was);
  }

  lemma AddedStaysSettled(nodes: Nodes, id: NodeId)
    requires Settled(nodes)
    ensures Settled(Added(nodes, id))
  {
    hide Settled;
    forall a, b | DependsOn(nodes, a, b) ensures DependsOn(Added(nodes, id), a, b) {}
    SettledKept(nodes, Added(nodes, id));
  }

  /** Nothing outstanding and nothing that stalls: then nothing is left. */
  lemma NoneQueued(q: seq<Entry>, nextSequence: nat, nodes: Nodes)
    requires QueueOk(multiset(q), nextSequence, nodes)
    ensures q == [] <==> PendingNodes(nodes) == {}
  {
    if q != [] {
      assert q[0] in multiset(q);
      assert q[0].node in Queued(multiset(q));
    }
  }

  lemma AllAnswered(nodes: Nodes, running: nat, x: Exchange, nextRequestId: nat)
    requires Settled(nodes) && Sound(nodes, {}, x, nextRequestId) && CountsOk(running, x, nextRequestId, 0)
    requires PendingNodes(nodes) == {} || MAX_PARALLEL_REQUEST_COUNT < running + PRIMITIVE_REQUEST_COUNT
    requires x.toRead == map[] && x.toBrowse == map[]
    ensures nodes == map[] && running == 0
  {
    forall id | id in nodes ensures nodes[id].Fetched() {
      assert id !in PendingNodes(nodes);
    }
    if id :| id in nodes {
      assert false;
    }
  }

  // ---------------------------------------------------------------- scheduling a node

  /** `FetchNode` up to the queue: an earlier start that covers the request is kept, any other is
      cancelled and the node waits again. */
  function Rescheduled(n: FetchingNode, sequence: nat, status: FetchStatus, force: bool): FetchingNode {
    if !n.fetchStarted.IsEmpty() && n.fetchStarted.Includes(status) && !force then n
    else
      var m := if n.fetchStarted.IsEmpty() then n else Cancelled(n);
      m.(force := m.force || force, pendingStatus := m.pendingStatus.Union(status), pendingSequence := sequence,
         pending := true)
  }

  /** Whatever the node was doing, it now waits for, or is being fetched for, what is asked; a forced
      request always waits anew. */
  lemma RescheduledCovers(n: FetchingNode, sequence: nat, status: FetchStatus, force: bool)
    requires n.pending ==> n.fetchStarted.IsEmpty()
    requires n.fetchStarted.IsEmpty() ==> !n.Fetched()
    ensures var r := Rescheduled(n, sequence, status, force);
      if r.pending then r.pendingStatus.Includes(status) && r.fetchStarted.IsEmpty() && !r.Fetched()
      else r == n && r.fetchStarted.Includes(status) && !force
  {
  }

  /** What waits anew waits at the new sequence, for all it waited for and what is asked now, with nothing
      left of a fetch given up; what the node said otherwise, and its place in the graph, stay. */
  lemma RescheduledAnew(n: FetchingNode, sequence: nat, status: FetchStatus, force: bool)
    ensures var r := Rescheduled(n, sequence, status, force);
      if !n.fetchStarted.IsEmpty() && n.fetchStarted.Includes(status) && !force then r == n
      else
        && r.pending && r.pendingSequence == sequence && r.force == (n.force || force)
        && r.pendingStatus.Bits() == n.pendingStatus.Bits() | status.Bits()
        && (n.fetchStarted.IsEmpty() ==> r.state == n.state && r.status == n.status && r.requestId == n.requestId)
        && (!n.fetchStarted.IsEmpty() ==>
              r.state.references == [] && r.state.(references := n.state.references) == n.state
              && r.status.Good? && r.requestId == 0 && !r.attributesFetched && !r.referencesFetched)
        && r.fetchStarted.IsEmpty() && r.dependsOf == n.dependsOf && r.dependentNodes == n.dependentNodes
        && r.isProperty == n.isProperty && r.isDeclaration == n.isDeclaration
  {
    StatusBits(n.pendingStatus, status);
  }

  function Cancelled(n: FetchingNode): FetchingNode {
    n.(fetchStarted := NOTHING, requestId := 0, attributesFetched := false, referencesFetched := false,
       status := Good, state := n.state.(references := []))
  }

  lemma RescheduledOk(id: NodeId, n: FetchingNode, x: Exchange, nextRequestId: nat,
                      sequence: nat, status: FetchStatus, force: bool)
    requires status.node
    requires NodeOk(id, n, x, nextRequestId) || Idle(n)
    ensures NodeOk(id, Rescheduled(n, sequence, status, force), x, nextRequestId)
    ensures Rescheduled(n, sequence, status, force).Fetched() ==> n.Fetched()
  {
  }

  // ---------------------------------------------------------------- what a response delivered

  predicate IsNonHierarchical(d: Delivery, id: NodeId, r: ReferenceDescription) {
    && d.reference == r && d.description.node == id
    && d.description.direction.Forward? && d.description.referenceType != AGGREGATES
    && !r.referenceType.Null? && !r.node.Null? && r.forward && r.referenceType != HAS_TYPE_DEFINITION
  }

  predicate DeliveredIn(answer: seq<Delivery>, id: NodeId, r: ReferenceDescription) {
    exists k :: 0 <= k < |answer| && IsNonHierarchical(answer[k], id, r)
  }

  predicate Delivered(answers: map<nat, seq<Delivery>>, request: nat, id: NodeId, r: ReferenceDescription) {
    request in answers && DeliveredIn(answers[request], id, r)
  }

  /** The references a node holds are those, and only those, that answered its last request. */
  ghost predicate ReferencesOk(nodes: Nodes, answers: map<nat, seq<Delivery>>) {
    forall x, r :: x in nodes ==>
      (r in nodes[x].state.references <==> Delivered(answers, nodes[x].requestId, x, r))
  }

  function DeliveriesOf(description: BrowseDescription, references: seq<ReferenceDescription>): (d: seq<Delivery>)
    ensures |d| == |references|
    ensures forall i :: 0 <= i < |d| ==> d[i] == Delivery(description, references[i])
  {
    seq(|references|, i requires 0 <= i < |references| => Delivery(description, references[i]))
  }

  /** All references of a response, in order; a bad result delivers none. */
  function Deliveries(descriptions: seq<BrowseDescription>, results: seq<BrowseResult>): seq<Delivery>
    requires |descriptions| == |results|
  {
    if descriptions == [] then []
    else
      var last := |descriptions| - 1;
      Deliveries(descriptions[..last], results[..last])
      + if results[last].status.Good? then DeliveriesOf(descriptions[last], results[last].references) else []
  }

  // ---------------------------------------------------------------- steps that keep the invariants

  /** The node invariants and where the references came from. */
  ghost predicate Sound(nodes: Nodes, idle: set<NodeId>, x: Exchange, nextRequestId: nat) {
    && NodesOk(nodes, idle, x, nextRequestId)
    && ReferencesOk(nodes, x.answers)
    && 0 !in x.answers
  }

  /** `b` differs from `a` in no field that the graph object maintains. */
  predicate SameEdges(a: FetchingNode, b: FetchingNode) {
    a.dependsOf == b.dependsOf && a.dependentNodes == b.dependentNodes && a.cacheIteration == b.cacheIteration
  }

  lemma TouchKeepsGraph(nodes: Nodes, iteration: nat, id: NodeId, n: FetchingNode)
    requires GraphOk(nodes, iteration) && id in nodes && SameEdges(nodes[id], n)
    ensures GraphOk(nodes[id := n], iteration)
    ensures forall a, b :: DependsOn(nodes[id := n], a, b) <==> DependsOn(nodes, a, b)
  {
    var r := nodes[id := n];
    forall a, b ensures DependsOn(r, a, b) <==> DependsOn(nodes, a, b) {}
    forall a, b ensures IsDependent(r, a, b) <==> IsDependent(nodes, a, b) {}
  }

  lemma TouchKeepsQueue(entries: multiset<Entry>, nextSequence: nat, nodes: Nodes, id: NodeId, n: FetchingNode)
    requires QueueOk(entries, nextSequence, nodes) && id in nodes && n.pending == nodes[id].pending
    ensures QueueOk(entries, nextSequence, nodes[id := n])
  {
    SamePending(nodes[id := n], nodes);
  }

  lemma ScheduledIsRescheduled(nodes: Nodes, id: NodeId, n: FetchingNode, sequence: nat, status: FetchStatus,
                               force: bool)
    requires id in nodes
    requires var was := nodes[id];
      && (was.fetchStarted.IsEmpty() || !was.fetchStarted.Includes(status) || force)
      && var m := if was.fetchStarted.IsEmpty() then was else Cancelled(was);
         n == m.(force := m.force || force, pendingStatus := m.pendingStatus.Union(status), pendingSequence := sequence)
    ensures n.(pending := true) == Rescheduled(nodes[id], sequence, status, force)
    ensures SetPending(nodes[id := n], id, true) == nodes[id := Rescheduled(nodes[id], sequence, status, force)]
  {
  }

  lemma RescheduledKept(nodes: Nodes, id: NodeId, sequence: nat, status: FetchStatus)
    requires id in nodes && !nodes[id].fetchStarted.IsEmpty() && nodes[id].fetchStarted.Includes(status)
    ensures nodes[id := Rescheduled(nodes[id], sequence, status, false)] == nodes
  {
  }

  lemma AddedIsSound(nodes: Nodes, idle: set<NodeId>, x: Exchange, nextRequestId: nat, id: NodeId)
    requires Sound(nodes, idle, x, nextRequestId)
    ensures Sound(Added(nodes, id), idle + {id}, x, nextRequestId)
  {
  }

  lemma RescheduledIsSound(nodes: Nodes, iteration: nat, idle: set<NodeId>, x: Exchange, nextRequestId: nat,
                           id: NodeId, sequence: nat, status: FetchStatus, force: bool)
    requires GraphOk(nodes, iteration) && Sound(nodes, idle + {id}, x, nextRequestId) && id in nodes && status.node
    ensures var after := nodes[id := Rescheduled(nodes[id], sequence, status, force)];
      GraphOk(after, iteration) && Sound(after, idle, x, nextRequestId)
  {
    TouchKeepsGraph(nodes, iteration, id, Rescheduled(nodes[id], sequence, status, force));
    RescheduledOk(id, nodes[id], x, nextRequestId, sequence, status, force);
  }

  lemma LinkedIsSound(nodes: Nodes, idle: set<NodeId>, x: Exchange, nextRequestId: nat, node: NodeId, from: NodeId)
    requires Sound(nodes, idle, x, nextRequestId) && node in nodes && from in nodes && node != from
    ensures Sound(Linked(nodes, node, from), idle, x, nextRequestId)
  {
  }

  lemma RestrictedIsSound(nodes: Nodes, gone: set<NodeId>, idle: set<NodeId>, x: Exchange, nextRequestId: nat)
    requires Sound(nodes, idle, x, nextRequestId)
    ensures Sound(Restricted(nodes, gone), idle, x, nextRequestId)
  {
  }

  lemma SameButCacheIsSound(a: Nodes, b: Nodes, idle: set<NodeId>, x: Exchange, nextRequestId: nat)
    requires Sound(b, idle, x, nextRequestId) && SameButCache(a, b)
    ensures Sound(a, idle, x, nextRequestId)
  {
  }

  // ---------------------------------------------------------------- sending a batch

  /** Taken from the queue: the fetch starts for the status that was pending. */
  function Popped(n: FetchingNode): FetchingNode {
    n.(pending := false, fetchStarted := n.pendingStatus)
  }

  function PoppedAll(nodes: Nodes, batch: set<NodeId>): Nodes {
    map id | id in nodes :: if id in batch then Popped(nodes[id]) else nodes[id]
  }

  function ReadsFor(nodes: Nodes, batch: seq<NodeId>): seq<ReadValueId>
    requires forall id :: id in batch ==> id in nodes
  {
    if batch == [] then []
    else ReadsFor(nodes, batch[..|batch| - 1]) + FetchAttributes(batch[|batch| - 1], nodes[batch[|batch| - 1]])
  }

  function BrowsesFor(nodes: Nodes, batch: seq<NodeId>): seq<BrowseDescription>
    requires forall id :: id in batch ==> id in nodes
  {
    if batch == [] then []
    else BrowsesFor(nodes, batch[..|batch| - 1]) + FetchReferences(batch[|batch| - 1], nodes[batch[|batch| - 1]])
  }

  function Stamped(nodes: Nodes, batch: set<NodeId>, request: nat): Nodes {
    map id | id in nodes :: if id in batch then nodes[id].(requestId := request) else nodes[id]
  }

  function AttributesAsked(nodes: Nodes, batch: set<NodeId>): Nodes {
    map id | id in nodes ::
      if id in batch then nodes[id].(attributesFetched := FetchAttributes(id, nodes[id]) == []) else nodes[id]
  }

  function ReferencesAsked(nodes: Nodes, batch: set<NodeId>): Nodes {
    map id | id in nodes ::
      if id in batch then nodes[id].(referencesFetched := FetchReferences(id, nodes[id]) == []) else nodes[id]
  }

  function SentAll(nodes: Nodes, batch: set<NodeId>, request: nat): Nodes {
    ReferencesAsked(AttributesAsked(Stamped(nodes, batch, request), batch), batch)
  }

  /** `Sound`, with the nodes `batch` just taken from the queue. */
  ghost predicate BatchSound(nodes: Nodes, batch: set<NodeId>, x: Exchange, nextRequestId: nat) {
    && (forall id :: id in nodes && id !in batch ==> NodeOk(id, nodes[id], x, nextRequestId))
    && (forall id :: id in batch ==> id in nodes && Unsent(nodes[id]) && nodes[id].fetchStarted.node)
    && ReferencesOk(nodes, x.answers)
    && 0 !in x.answers
  }

  lemma SoundIsBatchSound(nodes: Nodes, x: Exchange, nextRequestId: nat)
    requires Sound(nodes, {}, x, nextRequestId)
    ensures BatchSound(nodes, {}, x, nextRequestId)
  {
  }

  lemma PoppedIsSound(nodes: Nodes, iteration: nat, batch: set<NodeId>, x: Exchange, nextRequestId: nat, id: NodeId)
    requires GraphOk(nodes, iteration) && BatchSound(nodes, batch, x, nextRequestId)
    requires id in nodes && nodes[id].pending
    ensures var after := nodes[id := Popped(nodes[id])];
      && GraphOk(after, iteration)
      && BatchSound(after, batch + {id}, x, nextRequestId)
    ensures nodes[id].fetchStarted.IsEmpty() && !nodes[id].pendingStatus.IsEmpty()
  {
    TouchKeepsGraph(nodes, iteration, id, Popped(nodes[id]));
  }

  lemma SameEdgesKeepGraph(nodes: Nodes, now: Nodes, iteration: nat)
    requires GraphOk(nodes, iteration) && now.Keys == nodes.Keys
    requires forall id :: id in nodes ==> SameEdges(nodes[id], now[id])
    ensures GraphOk(now, iteration)
    ensures forall a, b :: DependsOn(now, a, b) <==> DependsOn(nodes, a, b)
  {
    forall a, b ensures DependsOn(now, a, b) <==> DependsOn(nodes, a, b) {}
    forall a, b ensures IsDependent(now, a, b) <==> IsDependent(nodes, a, b) {}
  }

  lemma NoneStamped(nodes: Nodes, request: nat)
    ensures Stamped(nodes, {}, request) == nodes
  {
  }

  lemma StampedStep(nodes: Nodes, done: set<NodeId>, id: NodeId, request: nat)
    requires id in nodes
    ensures var s := Stamped(nodes, done, request);
      && s.Keys == nodes.Keys && s[id := s[id].(requestId := request)] == Stamped(nodes, done + {id}, request)
      && Stamped(nodes, done + {id}, request).Keys == nodes.Keys
  {
  }

  lemma AttributesAskedNone(nodes: Nodes)
    ensures AttributesAsked(nodes, {}) == nodes
  {
  }

  lemma ReferencesAskedNone(nodes: Nodes)
    ensures ReferencesAsked(nodes, {}) == nodes
  {
  }

  lemma AttributesAskedStep(nodes: Nodes, done: set<NodeId>, id: NodeId)
    requires id in nodes
    ensures var n := AttributesAsked(nodes, done)[id];
      && FetchAttributes(id, n) == FetchAttributes(id, nodes[id])
      && AttributesAsked(nodes, done)[id := n.(attributesFetched := FetchAttributes(id, n) == [])]
         == AttributesAsked(nodes, done + {id})
  {
  }

  lemma ReferencesAskedStep(nodes: Nodes, done: set<NodeId>, id: NodeId)
    requires id in nodes
    ensures var n := ReferencesAsked(nodes, done)[id];
      && FetchReferences(id, n) == FetchReferences(id, nodes[id])
      && ReferencesAsked(nodes, done)[id := n.(referencesFetched := FetchReferences(id, n) == [])]
         == ReferencesAsked(nodes, done + {id})
  {
  }

  lemma {:induction false} ReadsAskAll(nodes: Nodes, batch: seq<NodeId>, id: NodeId)
    requires forall b :: b in batch ==> b in nodes
    requires id in batch
    ensures AsksAttributes(ReadsFor(nodes, batch), id)
  {
    var last := |batch| - 1;
    var before := ReadsFor(nodes, batch[..last]);
    if batch[last] == id {
      assert ReadsFor(nodes, batch)[|before|].node == id;
    } else {
      ReadsAskAll(nodes, batch[..last], id);
      var i :| 0 <= i < |before| && before[i].node == id;
      assert ReadsFor(nodes, batch)[i].node == id;
    }
  }

  lemma {:induction false} BrowsesAskAll(nodes: Nodes, batch: seq<NodeId>, id: NodeId)
    requires forall b :: b in batch ==> b in nodes
    requires id in batch && FetchReferences(id, nodes[id]) != []
    ensures AsksReferences(BrowsesFor(nodes, batch), id)
  {
    var last := |batch| - 1;
    var before := BrowsesFor(nodes, batch[..last]);
    if batch[last] == id {
      assert BrowsesFor(nodes, batch)[|before|].node == id;
    } else {
      BrowsesAskAll(nodes, batch[..last], id);
      var i :| 0 <= i < |before| && before[i].node == id;
      assert BrowsesFor(nodes, batch)[i].node == id;
    }
  }

  /** Sending makes the batch whole again: each of its nodes waits for the new request. */
  lemma SentIsSound(nodes: Nodes, batch: seq<NodeId>, x: Exchange, request: nat)
    requires BatchSound(nodes, Elements(batch), x, request)
    requires 0 < request && request !in x.answers
    requires request !in x.toRead && request !in x.toBrowse
    ensures forall id :: id in batch ==> id in nodes
    ensures var after := x.(toRead := x.toRead[request := ReadsFor(nodes, batch)],
                            toBrowse := x.toBrowse[request := BrowsesFor(nodes, batch)]);
      Sound(SentAll(nodes, Elements(batch), request), {}, after, request + 1)
  {
    forall id | id in batch ensures id in nodes { assert id in Elements(batch); }
    var sent := SentAll(nodes, Elements(batch), request);
    var after := x.(toRead := x.toRead[request := ReadsFor(nodes, batch)],
                    toBrowse := x.toBrowse[request := BrowsesFor(nodes, batch)]);
    forall id | id in sent ensures NodeOk(id, sent[id], after, request + 1) {
      if id in batch {
        ReadsAskAll(nodes, batch, id);
        if FetchReferences(id, nodes[id]) != [] {
          BrowsesAskAll(nodes, batch, id);
        }
      } else {
        assert NodeOk(id, nodes[id], x, request);
      }
    }
  }

  lemma SentIsUnfetched(nodes: Nodes, batch: set<NodeId>, request: nat, id: NodeId)
    requires id in nodes
    ensures SentAll(nodes, batch, request)[id].Fetched() ==> nodes[id].Fetched() && id !in batch
  {
  }

  lemma SentStaysSettled(nodes: Nodes, batch: set<NodeId>, request: nat)
    requires Settled(nodes)
    ensures Settled(SentAll(nodes, batch, request))
  {
    hide Settled, FetchReferences, FetchAttributes;
    var now := SentAll(nodes, batch, request);
    forall a, b | DependsOn(nodes, a, b) ensures DependsOn(now, a, b) {}
    forall id | id in now && now[id].Fetched() ensures nodes[id].Fetched() {
      SentIsUnfetched(nodes, batch, request, id);
    }
    SettledKept(nodes, SentAll(nodes, batch, request));
  }

  // ---------------------------------------------------------------- applying a response

  /** The outcome of decoding one attribute, and the node it makes this one depend on, if any. */
  datatype Decoding = Decoding(node: FetchingNode, dependency: NodeId)

  /** `SetFetchedAttribute` */
  function SetFetchedAttribute(n: FetchingNode, attribute: AttributeId, value: Variant): Decoding {
    match attribute
    case NodeClassAttribute =>
      if value.ClassValue? then Decoding(n.(state := n.state.(nodeClass := value.nodeClass)), Null)
      else Decoding(n.(status := BadWrongTypeId), Null)
    case BrowseName =>
      if value.NameValue? && value.name != "" then Decoding(n.(state := n.state.(browseName := value.name)), Null)
      else Decoding(n.(status := BadWrongTypeId), Null)
    case DisplayName =>
      if value.TextValue? then Decoding(n.(state := n.state.(displayName := value.text)), Null)
      else Decoding(n.(status := BadWrongTypeId), Null)
    case DataTypeAttribute =>
      if value.IdValue? && !value.id.Null? then Decoding(n.(state := n.state.(dataType := value.id)), value.id)
      else Decoding(n.(status := BadWrongTypeId), Null)
    case ValueAttribute =>
      Decoding(n.(state := n.state.(value := Some(value))), Null)
  }

  /** The response to `request` still concerns the node. */
  predicate IsCurrent(nodes: Nodes, id: NodeId, request: nat) {
    id in nodes && !nodes[id].fetchStarted.IsEmpty() && nodes[id].requestId == request
  }

  predicate SameProgress(a: FetchingNode, b: FetchingNode) {
    && a.fetchStarted == b.fetchStarted && a.requestId == b.requestId
    && a.attributesFetched == b.attributesFetched && a.referencesFetched == b.referencesFetched
  }

  /** No node left, and no node's own fetch moved. */
  ghost predicate Undisturbed(was: Nodes, now: Nodes) {
    was.Keys <= now.Keys && forall id :: id in was ==> SameProgress(was[id], now[id])
  }

  /** What `AddFetchedReference` and `SetFetchedAttribute` may change in a record. */
  predicate SameFetch(a: FetchingNode, b: FetchingNode) {
    b == a.(state := b.state, status := b.status, force := b.force, isProperty := b.isProperty,
            isDeclaration := b.isDeclaration)
  }

  lemma OnlyForceDiffers(n: FetchingNode, force: bool)
    ensures SameFetch(n, n.(force := force)) && n.(force := force).state.references == n.state.references
  {
  }

  lemma TouchedIsSound(nodes: Nodes, iteration: nat, entries: multiset<Entry>, nextSequence: nat, idle: set<NodeId>,
                       x: Exchange, nextRequestId: nat, id: NodeId, n: FetchingNode)
    requires GraphOk(nodes, iteration) && QueueOk(entries, nextSequence, nodes) && Sound(nodes, idle, x, nextRequestId)
    requires id in nodes && SameFetch(nodes[id], n) && n.state.references == nodes[id].state.references
    ensures GraphOk(nodes[id := n], iteration) && QueueOk(entries, nextSequence, nodes[id := n])
    ensures Sound(nodes[id := n], idle, x, nextRequestId)
    ensures Undisturbed(nodes, nodes[id := n])
  {
    TouchKeepsGraph(nodes, iteration, id, n);
    TouchKeepsQueue(entries, nextSequence, nodes, id, n);
  }

  function Logged(x: Exchange, request: nat, more: seq<Delivery>): Exchange
    requires request in x.answers
  {
    x.(answers := x.answers[request := x.answers[request] + more])
  }

  /** The references of a node after one more was delivered. */
  function Collected(references: seq<ReferenceDescription>, id: NodeId, d: Delivery): seq<ReferenceDescription> {
    if IsNonHierarchical(d, id, d.reference) && d.reference !in references then references + [d.reference]
    else references
  }

  lemma DeliveredMore(answer: seq<Delivery>, d: Delivery, id: NodeId, r: ReferenceDescription)
    ensures DeliveredIn(answer + [d], id, r) <==> DeliveredIn(answer, id, r) || IsNonHierarchical(d, id, r)
  {
    var more := answer + [d];
    if DeliveredIn(answer, id, r) {
      var k :| 0 <= k < |answer| && IsNonHierarchical(answer[k], id, r);
      assert more[k] == answer[k];
    }
    assert more[|answer|] == d;
  }

  /** Logging a delivery to a current node and collecting it keep the books in agreement. */
  lemma CollectedIsSound(nodes: Nodes, idle: set<NodeId>, x: Exchange, nextRequestId: nat, request: nat,
                         id: NodeId, d: Delivery, n: FetchingNode)
    requires Sound(nodes, idle, x, nextRequestId) && request in x.answers && d.description.node == id
    requires IsCurrent(nodes, id, request) && SameFetch(nodes[id], n)
    requires n.state.references == Collected(nodes[id].state.references, id, d)
    ensures Sound(nodes[id := n], idle, Logged(x, request, [d]), nextRequestId)
  {
    var now := nodes[id := n];
    var after := Logged(x, request, [d]);
    forall y, r | y in now
      ensures r in now[y].state.references <==> Delivered(after.answers, now[y].requestId, y, r)
    {
      DeliveredMore(x.answers[request], d, y, r);
      assert r in nodes[y].state.references <==> Delivered(x.answers, nodes[y].requestId, y, r);
    }
  }

  /** A delivery to a node that is gone or has another request by now changes nothing. */
  lemma {:induction false} StaleIsSound(nodes: Nodes, idle: set<NodeId>, x: Exchange, nextRequestId: nat, request: nat,
                                        id: NodeId, description: BrowseDescription,
                                        references: seq<ReferenceDescription>)
    requires Sound(nodes, idle, x, nextRequestId) && request in x.answers && description.node == id
    requires !IsCurrent(nodes, id, request)
    ensures Sound(nodes, idle, Logged(x, request, DeliveriesOf(description, references)), nextRequestId)
  {
    var more := DeliveriesOf(description, references);
    var answer := x.answers[request];
    forall y, r | y in nodes && nodes[y].requestId == request
      ensures DeliveredIn(answer + more, y, r) <==> DeliveredIn(answer, y, r)
    {
      assert NodeOk(y, nodes[y], x, nextRequestId) || Idle(nodes[y]);
      assert y != id;
      if DeliveredIn(answer, y, r) {
        var k :| 0 <= k < |answer| && IsNonHierarchical(answer[k], y, r);
        assert (answer + more)[k] == answer[k];
      }
    }
  }

  /** The references for which `AddFetchedReference` or `AddDependency` would abort. */
  predicate TripsCheck(d: BrowseDescription, r: ReferenceDescription) {
    && !r.referenceType.Null? && !r.node.Null?
    && if d.direction.Inverse? then d.referenceType == NON_HIERARCHICAL_REFERENCES
       else d.referenceType == AGGREGATES && r.forward && r.referenceType != HAS_SUBTYPE && r.node == d.node
  }

  /** `ValidateDependency` for a node the validator does not know. */
  function Dependent(nodes: Nodes, id: NodeId, from: NodeId): Nodes
    requires id in nodes && id != from
  {
    var c := DependentUnscheduled(nodes, id, from);
    c[from := Rescheduled(c[from], c[from].pendingSequence, NODE_ONLY, false)]
  }

  function DependentUnscheduled(nodes: Nodes, id: NodeId, from: NodeId): (c: Nodes)
    requires id in nodes && id != from
    ensures from in c && id in c
  {
    var a := Added(nodes, from);
    var b := a[from := a[from].(force := a[from].force || a[id].force)];
    Linked(b, id, from)
  }

  /** What a node says of itself, apart from its place in the graph and in the queue. */
  predicate SameContent(a: FetchingNode, b: FetchingNode) {
    SameProgress(a, b) && a.state == b.state && a.status == b.status && a.isProperty == b.isProperty
    && a.isDeclaration == b.isDeclaration
  }

  ghost predicate SameContents(was: Nodes, now: Nodes) {
    was.Keys <= now.Keys && forall id :: id in was ==> SameContent(was[id], now[id])
  }

  lemma SameContentsOfSelf(nodes: Nodes)
    ensures SameContents(nodes, nodes)
  {
  }

  lemma DependentIsUndisturbed(nodes: Nodes, idle: set<NodeId>, x: Exchange, nextRequestId: nat, id: NodeId,
                               from: NodeId)
    requires Sound(nodes, idle, x, nextRequestId) && id in nodes && id != from
    ensures SameContents(nodes, Dependent(nodes, id, from)) && Undisturbed(nodes, Dependent(nodes, id, from))
  {
    hide Sound, NodesOk, ReferencesOk;
    var now := Dependent(nodes, id, from);
    DependentContent(nodes, idle, x, nextRequestId, id, from);
    forall y | y in nodes ensures SameContent(nodes[y], now[y]) {
      if y != from && y != id {
        assert now[y] == nodes[y];
      }
    }
  }

  lemma DependentContent(nodes: Nodes, idle: set<NodeId>, x: Exchange, nextRequestId: nat, id: NodeId, from: NodeId)
    requires Sound(nodes, idle, x, nextRequestId) && id in nodes && id != from
    ensures var now := Dependent(nodes, id, from);
      && nodes.Keys <= now.Keys && SameContent(nodes[id], now[id])
      && (from in nodes ==> SameContent(nodes[from], now[from]))
  {
    assert from in nodes ==> NodeOk(from, nodes[from], x, nextRequestId) || Idle(nodes[from]);
  }

  lemma RescheduledStaysSettled(nodes: Nodes, idle: set<NodeId>, x: Exchange, nextRequestId: nat,
                                id: NodeId, sequence: nat, status: FetchStatus, force: bool)
    requires Settled(nodes) && Sound(nodes, idle, x, nextRequestId) && id in nodes && status.node
    ensures Settled(nodes[id := Rescheduled(nodes[id], sequence, status, force)])
  {
    hide Settled, NodesOk, ReferencesOk;
    var now := nodes[id := Rescheduled(nodes[id], sequence, status, force)];
    RescheduledNotFetched(nodes, idle, x, nextRequestId, id, sequence, status, force);
    forall a, b | DependsOn(nodes, a, b) ensures DependsOn(now, a, b) {}
    SettledKept(nodes, now);
  }

  lemma RescheduledNotFetched(nodes: Nodes, idle: set<NodeId>, x: Exchange, nextRequestId: nat,
                              id: NodeId, sequence: nat, status: FetchStatus, force: bool)
    requires Sound(nodes, idle, x, nextRequestId) && id in nodes && status.node
    ensures Rescheduled(nodes[id], sequence, status, force).Fetched() ==> nodes[id].Fetched()
  {
    RescheduledOk(id, nodes[id], x, nextRequestId, sequence, status, force);
  }

  lemma PoppedKeepsQueue(entries: multiset<Entry>, nextSequence: nat, nodes: Nodes, id: NodeId)
    requires id in nodes && nodes[id].pending
    requires QueueOk(entries, nextSequence, SetPending(nodes, id, false))
    ensures var mid := SetPending(nodes, id, false);
      && mid[id := mid[id].(fetchStarted := mid[id].pendingStatus)] == nodes[id := Popped(nodes[id])]
      && QueueOk(entries, nextSequence, nodes[id := Popped(nodes[id])])
  {
    hide QueueOk;
    var mid := SetPending(nodes, id, false);
    var n := mid[id].(fetchStarted := mid[id].pendingStatus);
    assert n == Popped(nodes[id]);
    TouchKeepsQueue(entries, nextSequence, mid, id, n);
  }

  lemma PoppedStaysSettled(nodes: Nodes, id: NodeId)
    requires Settled(nodes) && id in nodes
    ensures Settled(nodes[id := Popped(nodes[id])])
  {
    hide Settled;
    var now := nodes[id := Popped(nodes[id])];
    forall a, b | DependsOn(nodes, a, b) ensures DependsOn(now, a, b) {}
    SettledKept(nodes, now);
  }

  lemma {:induction false} RequestsOfStamped(nodes: Nodes, now: Nodes, batch: seq<NodeId>)
    requires forall id :: id in batch ==> id in nodes && id in now
    requires forall id :: id in batch ==>
      && now[id].isProperty == nodes[id].isProperty && now[id].isDeclaration == nodes[id].isDeclaration
      && now[id].fetchStarted == nodes[id].fetchStarted && now[id].state == nodes[id].state
    ensures ReadsFor(now, batch) == ReadsFor(nodes, batch)
    ensures BrowsesFor(now, batch) == BrowsesFor(nodes, batch)
  {
    if batch != [] {
      RequestsOfStamped(nodes, now, batch[..|batch| - 1]);
    }
  }

  lemma {:induction false} BrowsesAreAsked(nodes: Nodes, batch: seq<NodeId>)
    requires forall id :: id in batch ==> id in nodes
    ensures forall d :: d in BrowsesFor(nodes, batch) ==> IsAsked(d)
  {
    if batch != [] {
      BrowsesAreAsked(nodes, batch[..|batch| - 1]);
    }
  }

  /** After the three collecting loops and with both requests on their way, all is whole again. */
  lemma SentIsWhole(nodes: Nodes, iteration: nat, entries: multiset<Entry>, nextSequence: nat, running: nat,
                    batch: seq<NodeId>, x: Exchange, request: nat)
    requires GraphOk(nodes, iteration) && QueueOk(entries, nextSequence, nodes) && Settled(nodes)
    requires BatchSound(nodes, Elements(batch), x, request) && CountsOk(running, x, request, 0)
    requires running + PRIMITIVE_REQUEST_COUNT <= MAX_PARALLEL_REQUEST_COUNT
    ensures forall id :: id in batch ==> id in nodes
    ensures var stamped := Stamped(nodes, Elements(batch), request);
      var sent := SentAll(nodes, Elements(batch), request);
      var after := x.(toRead := x.toRead[request := ReadsFor(stamped, batch)],
                      toBrowse := x.toBrowse[request := BrowsesFor(AttributesAsked(stamped, Elements(batch)), batch)]);
      && GraphOk(sent, iteration) && QueueOk(entries, nextSequence, sent) && Settled(sent)
      && Sound(sent, {}, after, request + 1)
      && CountsOk(running + PRIMITIVE_REQUEST_COUNT, after, request + 1, 0)
  {
    hide Settled, Sound, GraphOk, CountsOk, QueueOk;
    var all := Elements(batch);
    forall id | id in batch ensures id in nodes { assert id in all; }
    var stamped := Stamped(nodes, all, request);
    var reading, browsing := ReadsFor(nodes, batch), BrowsesFor(nodes, batch);
    BrowsesAreAsked(nodes, batch);
    SentCounts(x, running, request, reading, browsing);
    SentIsSound(nodes, batch, x, request);
    RequestsOfStamped(nodes, stamped, batch);
    RequestsOfStamped(nodes, AttributesAsked(stamped, all), batch);
    SameEdgesKeepGraph(nodes, SentAll(nodes, all, request), iteration);
    SentStaysSettled(nodes, all, request);
    SentKeepsQueue(nodes, entries, nextSequence, all, request);
  }

  lemma SentKeepsQueue(nodes: Nodes, entries: multiset<Entry>, nextSequence: nat, batch: set<NodeId>, request: nat)
    requires QueueOk(entries, nextSequence, nodes)
    ensures QueueOk(entries, nextSequence, SentAll(nodes, batch, request))
  {
    SamePending(SentAll(nodes, batch, request), nodes);
  }

  lemma SentCounts(x: Exchange, running: nat, request: nat, reading: seq<ReadValueId>, browsing: seq<BrowseDescription>)
    requires CountsOk(running, x, request, 0) && running + PRIMITIVE_REQUEST_COUNT <= MAX_PARALLEL_REQUEST_COUNT
    requires forall d :: d in browsing ==> IsAsked(d)
    ensures 0 < request && request !in x.toRead && request !in x.toBrowse && request !in x.answers
    ensures CountsOk(running + PRIMITIVE_REQUEST_COUNT,
                     x.(toRead := x.toRead[request := reading], toBrowse := x.toBrowse[request := browsing]),
                     request + 1, 0)
  {
  }

  // ---------------------------------------------------------------- nodes that leave

  lemma ReleasedIsSound(was: Nodes, now: Nodes, iteration: nat, entries: multiset<Entry>, nextSequence: nat,
                        x: Exchange,
                        nextRequestId: nat)
    requires GraphOk(was, iteration) && Sound(was, {}, x, nextRequestId) && QueueOk(entries, nextSequence, was)
    requires SameButCache(now, Restricted(was, CompleteNodes(was)))
    ensures Sound(now, {}, x, nextRequestId) && QueueOk(entries, nextSequence, now) && Settled(now)
    ensures now.Keys == was.Keys - CompleteNodes(was)
  {
    hide Sound, SameButCache, Settled, QueueOk, Complete, CompleteNodes;
    var done := CompleteNodes(was);
    RestrictedIsSound(was, done, {}, x, nextRequestId);
    SameButCacheIsSound(now, Restricted(was, done), {}, x, nextRequestId);
    ReleasedKeepsQueue(was, now, entries, nextSequence, x, nextRequestId);
    ReleasedIsSettled(was, now);
    SameButCacheKeys(now, Restricted(was, done));
  }

  lemma SameButCacheKeys(a: Nodes, b: Nodes)
    requires SameButCache(a, b)
    ensures a.Keys == b.Keys
  {
  }

  lemma CompleteIsFetched(nodes: Nodes, id: NodeId)
    requires id in CompleteNodes(nodes)
    ensures id in nodes && nodes[id].Fetched()
  {
    ReachesSelf(Dependencies(nodes), id);
  }

  lemma ReleasedKeepsQueue(was: Nodes, now: Nodes, entries: multiset<Entry>, nextSequence: nat, x: Exchange,
                           nextRequestId: nat)
    requires Sound(was, {}, x, nextRequestId) && QueueOk(entries, nextSequence, was)
    requires SameButCache(now, Restricted(was, CompleteNodes(was)))
    ensures QueueOk(entries, nextSequence, now)
  {
    hide Complete, CompleteNodes, ReferencesOk;
    forall id | id in was && was[id].pending ensures id !in CompleteNodes(was) {
      if id in CompleteNodes(was) {
        CompleteIsFetched(was, id);
      }
    }
    SamePending(now, was);
  }

  lemma ReleasedIsSettled(was: Nodes, now: Nodes)
    requires EdgesOk(was) && SameButCache(now, Restricted(was, CompleteNodes(was)))
    ensures Settled(now)
  {
    hide Complete, EdgesOk;
    forall id | id in now ensures !Complete(now, id) {
      RestrictedComplete(was, CompleteNodes(was), id);
      SameButCacheComplete(now, Restricted(was, CompleteNodes(was)), id);
    }
  }

  /** Each entry of a node into the graph ends in at most one report or cancellation, and the node
      is in the graph till then. */
  ghost predicate Balanced(added: multiset<NodeId>, reported: multiset<NodeId>, cancelled: multiset<NodeId>,
                           live: set<NodeId>) {
    forall id :: added[id] == reported[id] + cancelled[id] + if id in live then 1 else 0
  }

  /** Since `was`, each node that is new was entered once and no other was. */
  ghost predicate Entered(was: multiset<NodeId>, now: multiset<NodeId>, before: set<NodeId>, live: set<NodeId>) {
    now == was + multiset(live - before)
  }

  lemma NoneEntered(was: multiset<NodeId>, now: multiset<NodeId>, before: set<NodeId>, live: set<NodeId>)
    requires live <= before
    ensures Entered(was, now, before, live) <==> now == was
  {
    assert live - before == {};
  }

  lemma EnteredMore(was: multiset<NodeId>, now: multiset<NodeId>, before: set<NodeId>, live: set<NodeId>)
    requires Entered(was, now, before, live)
    ensures was <= now
  {
  }

  /** The books of two states tell which nodes entered between them, if none left. */
  lemma EnteredExactly(was: multiset<NodeId>, now: multiset<NodeId>, reported: multiset<NodeId>,
                       cancelled: multiset<NodeId>, before: set<NodeId>, live: set<NodeId>)
    requires Balanced(was, reported, cancelled, before) && Balanced(now, reported, cancelled, live)
    requires before <= live
    ensures Entered(was, now, before, live)
  {
  }

  /** Where entries are only added, a node that is gone was reported or cancelled meanwhile. */
  lemma LeftIsAccounted(added: multiset<NodeId>, reported: multiset<NodeId>, cancelled: multiset<NodeId>,
                        live: set<NodeId>, added': multiset<NodeId>, reported': multiset<NodeId>,
                        cancelled': multiset<NodeId>, live': set<NodeId>, id: NodeId)
    requires Balanced(added, reported, cancelled, live) && Balanced(added', reported', cancelled', live')
    requires added <= added' && id in live
    ensures id in live' || reported'[id] + cancelled'[id] > reported[id] + cancelled[id]
  {
    assert added[id] <= added'[id];
  }

  lemma ReportIsEmpty(result: FetchCompletedResult, nodes: Nodes, done: set<NodeId>)
    requires ReportsExactly(result, nodes, done)
    ensures done == {} <==> result.nodes == [] && result.errors == []
  {
    if result.nodes != [] {
      assert result.nodes[0].id in result.Ids();
    }
    if result.errors != [] {
      assert result.errors[0].id in result.Ids();
    }
  }

  lemma LedgerAfterRelease(added: multiset<NodeId>, reported: multiset<NodeId>, cancelled: multiset<NodeId>,
                           was: set<NodeId>, now: set<NodeId>, done: set<NodeId>)
    requires Balanced(added, reported, cancelled, was)
    requires done <= was && now == was - done
    ensures Balanced(added, reported + multiset(done), cancelled, now)
  {
  }

  lemma LedgerAfterCancel(added: multiset<NodeId>, reported: multiset<NodeId>, cancelled: multiset<NodeId>,
                          live: set<NodeId>, id: NodeId)
    requires Balanced(added, reported, cancelled, live) && id in live
    ensures Balanced(added, reported, cancelled + multiset{id}, live - {id})
  {
  }

  lemma RemovedIsSound(nodes: Nodes, iteration: nat, entries: multiset<Entry>, nextSequence: nat, x: Exchange,
                       nextRequestId: nat, id: NodeId)
    requires GraphOk(nodes, iteration) && Sound(nodes, {}, x, nextRequestId) && id in nodes
    requires QueueOk(entries, nextSequence, SetPending(nodes, id, false))
    ensures GraphOk(SetPending(nodes, id, false), iteration)
    ensures Restricted(SetPending(nodes, id, false), {id}) == Restricted(nodes, {id})
    ensures Sound(Restricted(nodes, {id}), {}, x, nextRequestId)
    ensures QueueOk(entries, nextSequence, Restricted(nodes, {id}))
  {
    hide Sound, GraphOk;
    TouchKeepsGraph(nodes, iteration, id, nodes[id].(pending := false));
    RestrictedIsSound(nodes, {id}, {}, x, nextRequestId);
    RestrictedPending(nodes, id);
  }

  lemma RestrictedPending(nodes: Nodes, id: NodeId)
    requires id in nodes
    ensures PendingNodes(SetPending(nodes, id, false)) == PendingNodes(Restricted(nodes, {id}))
  {
    SamePending(SetPending(nodes, id, false), Restricted(nodes, {id}));
  }

  /** What is reported of a node are the references that answered its last request, all of them. */
  ghost predicate FromLastRequests(result: FetchCompletedResult, nodes: Nodes, answers: map<nat, seq<Delivery>>) {
    forall i, r :: 0 <= i < |result.nodes| ==>
      var n := result.nodes[i];
      n.id in nodes && (r in n.state.references <==> Delivered(answers, nodes[n.id].requestId, n.id, r))
  }

  lemma ReportedReferences(result: FetchCompletedResult, nodes: Nodes, x: Exchange, nextRequestId: nat)
    requires Sound(nodes, {}, x, nextRequestId) && ReportsExactly(result, nodes, CompleteNodes(nodes))
    ensures FromLastRequests(result, nodes, x.answers)
  {
  }

  lemma AddedIsUndisturbed(nodes: Nodes, id: NodeId)
    ensures Undisturbed(nodes, Added(nodes, id))
  {
  }

  lemma UndisturbedTwice(a: Nodes, b: Nodes, c: Nodes)
    requires Undisturbed(a, b) && Undisturbed(b, c)
    ensures Undisturbed(a, c)
  {
  }

  lemma LinkedKeepsQueue(entries: multiset<Entry>, nextSequence: nat, nodes: Nodes, node: NodeId, from: NodeId)
    requires QueueOk(entries, nextSequence, nodes) && node in nodes && from in nodes && node != from
    ensures QueueOk(entries, nextSequence, Linked(nodes, node, from))
    ensures Undisturbed(nodes, Linked(nodes, node, from))
    ensures forall a, b ::
      DependsOn(Linked(nodes, node, from), a, b) <==> DependsOn(nodes, a, b) || (a == node && b == from)
  {
    SamePending(Linked(nodes, node, from), nodes);
  }

  lemma RescheduledIsUndisturbed(nodes: Nodes, idle: set<NodeId>, x: Exchange, nextRequestId: nat, id: NodeId,
                                 sequence: nat)
    requires Sound(nodes, idle, x, nextRequestId) && id in nodes
    ensures var now := nodes[id := Rescheduled(nodes[id], sequence, NODE_ONLY, false)];
      Undisturbed(nodes, now) && forall a, b :: DependsOn(now, a, b) <==> DependsOn(nodes, a, b)
  {
    assert NodeOk(id, nodes[id], x, nextRequestId) || Idle(nodes[id]);
  }

  /** The child a reference names, as its parent saves it. */
  function Adopted(child: FetchingNode, parent: NodeId, n: FetchingNode, r: ReferenceDescription): FetchingNode {
    var c := child.(state := child.state.(referenceType := r.referenceType, parent := parent),
                    force := child.force || n.force);
    if r.referenceType == HAS_PROPERTY then
      c.(state := c.state.(nodeClass := Variable, typeDefinition := PROPERTY_TYPE), isProperty := true,
         isDeclaration := IsTypeDefinition(n.state.nodeClass))
    else c
  }

  lemma AdoptedIsSameFetch(child: FetchingNode, parent: NodeId, n: FetchingNode, r: ReferenceDescription)
    ensures SameFetch(child, Adopted(child, parent, n, r))
    ensures Adopted(child, parent, n, r).state.references == child.state.references
  {
  }

  /** The parent or supertype an inverse reference names. */
  function Inverted(n: FetchingNode, r: ReferenceDescription): FetchingNode {
    if r.referenceType == HAS_SUBTYPE then n.(state := n.state.(supertype := r.node))
    else n.(state := n.state.(parent := r.node, referenceType := r.referenceType))
  }

  /** A forward non-hierarchical reference: the type definition, or one more in the list. */
  function Extended(n: FetchingNode, r: ReferenceDescription): FetchingNode {
    if r.referenceType == HAS_TYPE_DEFINITION then n.(state := n.state.(typeDefinition := r.node))
    else if r in n.state.references then n
    else n.(state := n.state.(references := n.state.references + [r]))
  }

  // ---------------------------------------------------------------- what a response makes of the nodes

  /** What the caller's cache answers, call after call: it may come to know more. */
  type Validator = (nat, NodeId) -> bool

  /** The nodes, and how often the validator was asked. */
  datatype Progress = Progress(nodes: Nodes, asked: nat)

  /** `ValidateDependency` */
  function Validated(v: Validator, p: Progress, id: NodeId, from: NodeId): (q: Progress)
    requires id in p.nodes
    ensures p.nodes.Keys <= q.nodes.Keys
  {
    if from.Null? || id == from then p
    else if v(p.asked, from) then p.(asked := p.asked + 1)
    else Progress(Dependent(p.nodes, id, from), p.asked + 1)
  }

  function WithChildAdopted(v: Validator, p: Progress, id: NodeId, r: ReferenceDescription): (q: Progress)
    requires id in p.nodes
    ensures p.nodes.Keys <= q.nodes.Keys && r.node in q.nodes
  {
    var a := Added(p.nodes, r.node);
    var b := p.(nodes := a[r.node := Adopted(a[r.node], id, a[id], r)]);
    if r.referenceType == HAS_PROPERTY then Validated(v, b, id, PROPERTY_TYPE) else b
  }

  /** A forward aggregating reference. */
  function WithChild(v: Validator, p: Progress, id: NodeId, r: ReferenceDescription): (q: Progress)
    requires id in p.nodes && r.node != id
    ensures p.nodes.Keys <= q.nodes.Keys
  {
    var a := WithChildAdopted(v, p, id, r);
    var b := Linked(Linked(a.nodes, r.node, id), id, r.node);
    a.(nodes := b[r.node := Rescheduled(b[r.node], b[id].pendingSequence, NODE_ONLY, false)])
  }

  function WithInverse(v: Validator, p: Progress, id: NodeId, r: ReferenceDescription): (q: Progress)
    requires id in p.nodes
    ensures p.nodes.Keys <= q.nodes.Keys
  {
    Validated(v, p.(nodes := p.nodes[id := Inverted(p.nodes[id], r)]), id, r.node)
  }

  function WithNonHierarchical(v: Validator, p: Progress, id: NodeId, r: ReferenceDescription): (q: Progress)
    requires id in p.nodes
    ensures p.nodes.Keys <= q.nodes.Keys
  {
    Validated(v, p.(nodes := p.nodes[id := Extended(p.nodes[id], r)]), id, r.node)
  }

  /** `AddFetchedReference` */
  function WithReference(v: Validator, p: Progress, d: BrowseDescription, r: ReferenceDescription): (q: Progress)
    requires d.node in p.nodes && !TripsCheck(d, r)
    ensures p.nodes.Keys <= q.nodes.Keys
  {
    var id := d.node;
    if r.referenceType.Null? || r.node.Null? then p.(nodes := p.nodes[id := p.nodes[id].(status := Bad)])
    else
      var a := Validated(v, p, id, r.referenceType);
      if d.direction.Inverse? then if r.forward then a else WithInverse(v, a, id, r)
      else if d.referenceType == AGGREGATES then
        if r.forward && r.referenceType != HAS_SUBTYPE then WithChild(v, a, id, r) else a
      else if r.forward then WithNonHierarchical(v, a, id, r)
      else a
  }

  predicate NoneTrips(d: BrowseDescription, references: seq<ReferenceDescription>) {
    forall j :: 0 <= j < |references| ==> !TripsCheck(d, references[j])
  }

  function WithReferences(v: Validator, p: Progress, d: BrowseDescription,
                          references: seq<ReferenceDescription>): (q: Progress)
    requires d.node in p.nodes && NoneTrips(d, references)
    ensures p.nodes.Keys <= q.nodes.Keys
  {
    if references == [] then p
    else
      var last := |references| - 1;
      WithReference(v, WithReferences(v, p, d, references[..last]), d, references[last])
  }

  /** `ApplyBrowseResult` */
  function WithBrowse(v: Validator, p: Progress, request: nat, d: BrowseDescription, result: BrowseResult)
    : (q: Progress)
    requires result.status.Good? ==> NoneTrips(d, result.references)
    ensures p.nodes.Keys <= q.nodes.Keys
  {
    if !IsCurrent(p.nodes, d.node, request) then p
    else
      var marked := p.nodes[d.node].(referencesFetched := true);
      if result.status.Good? then WithReferences(v, p.(nodes := p.nodes[d.node := marked]), d, result.references)
      else p.(nodes := p.nodes[d.node := marked.(status := result.status)])
  }

  function WithBrowses(v: Validator, p: Progress, request: nat, ds: seq<BrowseDescription>,
                       results: seq<BrowseResult>): (q: Progress)
    requires |ds| == |results| && PassesChecks(ds, results)
    ensures p.nodes.Keys <= q.nodes.Keys
  {
    if ds == [] then p
    else
      var last := |ds| - 1;
      WithBrowse(v, WithBrowses(v, p, request, ds[..last], results[..last]), request, ds[last], results[last])
  }

  /** `ApplyReadResult` */
  function WithRead(v: Validator, p: Progress, request: nat, a: ReadValueId, result: DataValue): (q: Progress)
    ensures p.nodes.Keys <= q.nodes.Keys
  {
    if !IsCurrent(p.nodes, a.node, request) then p
    else
      var marked := p.nodes[a.node].(attributesFetched := true);
      if result.status.Good? then
        var decoding := SetFetchedAttribute(marked, a.attribute, result.value);
        Validated(v, p.(nodes := p.nodes[a.node := decoding.node]), a.node, decoding.dependency)
      else
        p.(nodes := p.nodes[a.node := if a.attribute.BrowseName? then marked.(status := result.status) else marked])
  }

  function WithReads(v: Validator, p: Progress, request: nat, asks: seq<ReadValueId>, results: seq<DataValue>)
    : (q: Progress)
    requires |asks| == |results|
    ensures p.nodes.Keys <= q.nodes.Keys
  {
    if asks == [] then p
    else
      var last := |asks| - 1;
      WithRead(v, WithReads(v, p, request, asks[..last], results[..last]), request, asks[last], results[last])
  }

  lemma ExtendedIsCollected(n: FetchingNode, id: NodeId, d: Delivery)
    requires d.description.node == id && d.description.direction.Forward? && d.description.referenceType != AGGREGATES
    requires !d.reference.referenceType.Null? && !d.reference.node.Null? && d.reference.forward
    ensures SameFetch(n, Extended(n, d.reference))
    ensures Extended(n, d.reference).state.references == Collected(n.state.references, id, d)
  {
    hide SameFetch;
    var s, r := n.state, d.reference;
    if r.referenceType == HAS_TYPE_DEFINITION {
      StateIsSameFetch(n, s.(typeDefinition := r.node));
    } else {
      assert IsNonHierarchical(d, id, r);
      StateIsSameFetch(n, s);
      assert n.(state := s) == n;
      StateIsSameFetch(n, s.(references := s.references + [r]));
    }
  }

  lemma CurrentStays(was: Nodes, now: Nodes, id: NodeId, request: nat)
    requires Undisturbed(was, now) && IsCurrent(was, id, request)
    ensures IsCurrent(now, id, request) && now[id].referencesFetched == was[id].referencesFetched
    ensures now[id].attributesFetched == was[id].attributesFetched
  {
  }

  lemma KeptAfter(a: Nodes, b: Nodes, c: Nodes)
    requires Undisturbed(a, b) && SameContents(b, c)
    ensures Undisturbed(a, c) && b.Keys <= c.Keys
  {
  }

  lemma DeliveredIsWhole(nodes: Nodes, iteration: nat, entries: multiset<Entry>, nextSequence: nat, x: Exchange,
                         nextRequestId: nat, running: nat, answering: nat, request: nat, id: NodeId, d: Delivery,
                         n: FetchingNode)
    requires GraphOk(nodes, iteration) && QueueOk(entries, nextSequence, nodes) && Sound(nodes, {}, x, nextRequestId)
    requires CountsOk(running, x, nextRequestId, answering)
    requires request in x.answers && d.description.node == id
    requires IsCurrent(nodes, id, request) && SameFetch(nodes[id], n)
    requires n.state.references == Collected(nodes[id].state.references, id, d)
    ensures var now := nodes[id := n];
      && GraphOk(now, iteration) && QueueOk(entries, nextSequence, now)
      && Sound(now, {}, Logged(x, request, [d]), nextRequestId)
      && CountsOk(running, Logged(x, request, [d]), nextRequestId, answering)
      && Undisturbed(nodes, now)
  {
    TouchKeepsGraph(nodes, iteration, id, n);
    TouchKeepsQueue(entries, nextSequence, nodes, id, n);
    CollectedIsSound(nodes, {}, x, nextRequestId, request, id, d, n);
  }

  /** What a Browse response means: all results, or a failure for each browse. */
  function EffectiveBrowse(status: Status, count: nat, results: seq<BrowseResult>): (r: seq<BrowseResult>)
    ensures |r| == count
  {
    if status.Good? && |results| == count then results
    else seq(count, _ => BrowseResult(if status.Good? then Bad else status, []))
  }

  function EffectiveRead(status: Status, count: nat, results: seq<DataValue>): (r: seq<DataValue>)
    ensures |r| == count
  {
    if status.Good? && |results| == count then results
    else seq(count, _ => DataValue(if status.Good? then Bad else status, OtherValue(0)))
  }

  predicate PassesChecks(descriptions: seq<BrowseDescription>, results: seq<BrowseResult>)
    requires |descriptions| == |results|
  {
    forall i, j :: 0 <= i < |results| && 0 <= j < |results[i].references| && results[i].status.Good? ==>
      !TripsCheck(descriptions[i], results[i].references[j])
  }

  /** Only a request for inverse non-hierarchical references builds a browse whose answer can trip
      the check on inverse references. */
  lemma InverseCheckTripsOnlyByFlag(id: NodeId, n: FetchingNode)
    ensures (exists d, r :: d in FetchReferences(id, n) && d.direction.Inverse? && TripsCheck(d, r))
            <==> n.fetchStarted.inverse
  {
    if n.fetchStarted.inverse {
      var d := BrowseDescription(id, Inverse, NON_HIERARCHICAL_REFERENCES);
      var r := ReferenceDescription(HAS_SUBTYPE, false, ROOT_FOLDER);
      assert d in FetchReferences(id, n) && TripsCheck(d, r);
    }
  }

  function WithToBrowse(x: Exchange, request: nat, left: seq<BrowseDescription>): Exchange {
    x.(toBrowse := x.toBrowse[request := left])
  }

  function WithToRead(x: Exchange, request: nat, left: seq<ReadValueId>): Exchange {
    x.(toRead := x.toRead[request := left])
  }

  lemma StartAnswer(nodes: Nodes, x: Exchange, nextRequestId: nat, running: nat, request: nat)
    requires Sound(nodes, {}, x, nextRequestId) && CountsOk(running, x, nextRequestId, 0) && request in x.toBrowse
    ensures request !in x.answers
    ensures var after := x.(answers := x.answers[request := []]);
      Sound(nodes, {}, after, nextRequestId) && CountsOk(running, after, nextRequestId, request)
  {
    assert x.answers.Keys !! {request};
  }

  /** The first browse still to apply is done: its node is fetched or no longer concerned. */
  lemma NextBrowse(nodes: Nodes, x: Exchange, nextRequestId: nat, running: nat, request: nat)
    requires Sound(nodes, {}, x, nextRequestId) && CountsOk(running, x, nextRequestId, request)
    requires request in x.toBrowse && x.toBrowse[request] != []
    requires var id := x.toBrowse[request][0].node; IsCurrent(nodes, id, request) ==> nodes[id].referencesFetched
    ensures var after := WithToBrowse(x, request, x.toBrowse[request][1..]);
      Sound(nodes, {}, after, nextRequestId) && CountsOk(running, after, nextRequestId, request)
  {
    var left := x.toBrowse[request];
    var after := WithToBrowse(x, request, left[1..]);
    forall y | y in nodes ensures NodeOk(y, nodes[y], after, nextRequestId) {
      assert NodeOk(y, nodes[y], x, nextRequestId);
      if !nodes[y].pending && !nodes[y].referencesFetched && nodes[y].requestId == request {
        var k :| 0 <= k < |left| && left[k].node == y;
        assert k > 0 && left[1..][k - 1].node == y;
      }
    }
  }

  lemma FinishBrowse(nodes: Nodes, x: Exchange, nextRequestId: nat, running: nat, request: nat)
    requires Sound(nodes, {}, x, nextRequestId) && CountsOk(running, x, nextRequestId, request)
    requires request in x.toBrowse && x.toBrowse[request] == []
    ensures running > 0
    ensures var after := x.(toBrowse := x.toBrowse - {request});
      Sound(nodes, {}, after, nextRequestId) && CountsOk(running - 1, after, nextRequestId, 0)
  {
    var after := x.(toBrowse := x.toBrowse - {request});
    assert x.toBrowse.Keys == after.toBrowse.Keys + {request};
    assert |x.toBrowse| == |after.toBrowse| + 1;
  }

  lemma NextRead(nodes: Nodes, x: Exchange, nextRequestId: nat, running: nat, request: nat)
    requires Sound(nodes, {}, x, nextRequestId) && CountsOk(running, x, nextRequestId, 0)
    requires request in x.toRead && x.toRead[request] != []
    requires var id := x.toRead[request][0].node; IsCurrent(nodes, id, request) ==> nodes[id].attributesFetched
    ensures var after := WithToRead(x, request, x.toRead[request][1..]);
      Sound(nodes, {}, after, nextRequestId) && CountsOk(running, after, nextRequestId, 0)
  {
    var left := x.toRead[request];
    var after := WithToRead(x, request, left[1..]);
    forall y | y in nodes ensures NodeOk(y, nodes[y], after, nextRequestId) {
      assert NodeOk(y, nodes[y], x, nextRequestId);
      if !nodes[y].pending && !nodes[y].attributesFetched && nodes[y].requestId == request {
        var k :| 0 <= k < |left| && left[k].node == y;
        assert k > 0 && left[1..][k - 1].node == y;
      }
    }
  }

  lemma FinishRead(nodes: Nodes, x: Exchange, nextRequestId: nat, running: nat, request: nat)
    requires Sound(nodes, {}, x, nextRequestId) && CountsOk(running, x, nextRequestId, 0)
    requires request in x.toRead && x.toRead[request] == []
    ensures running > 0
    ensures var after := x.(toRead := x.toRead - {request});
      Sound(nodes, {}, after, nextRequestId) && CountsOk(running - 1, after, nextRequestId, 0)
  {
    var after := x.(toRead := x.toRead - {request});
    assert x.toRead.Keys == after.toRead.Keys + {request};
    assert |x.toRead| == |after.toRead| + 1;
  }

  /** A response part that reaches its node sets a flag that nothing else depends on. */
  lemma MarkedIsSound(nodes: Nodes, iteration: nat, entries: multiset<Entry>, nextSequence: nat, x: Exchange,
                      nextRequestId: nat, id: NodeId, request: nat, n: FetchingNode)
    requires GraphOk(nodes, iteration) && QueueOk(entries, nextSequence, nodes) && Sound(nodes, {}, x, nextRequestId)
    requires IsCurrent(nodes, id, request)
    requires n == nodes[id].(attributesFetched := true) || n == nodes[id].(referencesFetched := true)
    ensures var now := nodes[id := n];
      && GraphOk(now, iteration) && QueueOk(entries, nextSequence, now) && Sound(now, {}, x, nextRequestId)
      && IsCurrent(now, id, request)
  {
    TouchKeepsGraph(nodes, iteration, id, n);
    TouchKeepsQueue(entries, nextSequence, nodes, id, n);
  }

  lemma SetAttributeIsSameFetch(n: FetchingNode, attribute: AttributeId, value: Variant)
    ensures var m := SetFetchedAttribute(n, attribute, value).node;
      SameFetch(n, m) && m.state.references == n.state.references
  {
    hide SameFetch;
    FailedIsSameFetch(n, BadWrongTypeId);
    match attribute
    case NodeClassAttribute => if value.ClassValue? { StateIsSameFetch(n, n.state.(nodeClass := value.nodeClass)); }
    case BrowseName => if value.NameValue? { StateIsSameFetch(n, n.state.(browseName := value.name)); }
    case DisplayName => if value.TextValue? { StateIsSameFetch(n, n.state.(displayName := value.text)); }
    case DataTypeAttribute => if value.IdValue? { StateIsSameFetch(n, n.state.(dataType := value.id)); }
    case ValueAttribute => StateIsSameFetch(n, n.state.(value := Some(value)));
  }

  lemma StateIsSameFetch(n: FetchingNode, state: NodeState)
    ensures SameFetch(n, n.(state := state)) && n.(state := state).state == state
  {
  }

  lemma DeliveriesStep(descriptions: seq<BrowseDescription>, results: seq<BrowseResult>, i: nat)
    requires |descriptions| == |results| && i < |results|
    ensures Deliveries(descriptions[..i + 1], results[..i + 1]) ==
      Deliveries(descriptions[..i], results[..i])
      + if results[i].status.Good? then DeliveriesOf(descriptions[i], results[i].references) else []
  {
    assert descriptions[..i + 1][..i] == descriptions[..i] && results[..i + 1][..i] == results[..i];
  }

  lemma FailedIsSameFetch(n: FetchingNode, status: Status)
    ensures SameFetch(n, n.(status := status))
  {
  }

  lemma LoggedNothing(x: Exchange, request: nat)
    requires request in x.answers
    ensures Logged(x, request, []) == x
  {
    assert x.answers[request] + [] == x.answers[request];
  }

  lemma LoggedOneMore(x: Exchange, request: nat, deliveries: seq<Delivery>, j: nat)
    requires request in x.answers && j < |deliveries|
    ensures Logged(Logged(x, request, deliveries[..j]), request, [deliveries[j]])
      == Logged(x, request, deliveries[..j + 1])
  {
    assert x.answers[request] + deliveries[..j] + [deliveries[j]] == x.answers[request] + deliveries[..j + 1];
  }

  lemma SameContentsIsUndisturbed(was: Nodes, now: Nodes)
    requires SameContents(was, now)
    ensures Undisturbed(was, now)
  {
  }

  lemma NextIsAsked(x: Exchange, nextRequestId: nat, running: nat, answering: nat, request: nat)
    requires CountsOk(running, x, nextRequestId, answering) && request in x.toBrowse && x.toBrowse[request] != []
    ensures IsAsked(x.toBrowse[request][0])
  {
    assert x.toBrowse[request][0] in x.toBrowse[request];
  }

  lemma PassesCheck(descriptions: seq<BrowseDescription>, results: seq<BrowseResult>, i: nat)
    requires |descriptions| == |results| && PassesChecks(descriptions, results) && i < |results|
    ensures results[i].status.Good? ==> NoneTrips(descriptions[i], results[i].references)
  {
  }

  lemma PassesChecksOf(descriptions: seq<BrowseDescription>, results: seq<BrowseResult>, i: nat)
    requires |descriptions| == |results| && PassesChecks(descriptions, results) && i <= |results|
    ensures PassesChecks(descriptions[..i], results[..i])
  {
  }

  lemma WithReferencesStep(v: Validator, p: Progress, d: BrowseDescription, references: seq<ReferenceDescription>,
                           i: nat)
    requires d.node in p.nodes && NoneTrips(d, references) && i < |references|
    ensures WithReferences(v, p, d, references[..i + 1])
      == WithReference(v, WithReferences(v, p, d, references[..i]), d, references[i])
  {
    assert references[..i + 1][..i] == references[..i];
  }

  lemma WithBrowsesStep(v: Validator, p: Progress, request: nat, ds: seq<BrowseDescription>,
                        results: seq<BrowseResult>, i: nat)
    requires |ds| == |results| && i < |ds|
    requires PassesChecks(ds[..i], results[..i]) && PassesChecks(ds[..i + 1], results[..i + 1])
    requires results[i].status.Good? ==> NoneTrips(ds[i], results[i].references)
    ensures WithBrowses(v, p, request, ds[..i + 1], results[..i + 1])
      == WithBrowse(v, WithBrowses(v, p, request, ds[..i], results[..i]), request, ds[i], results[i])
  {
    assert ds[..i + 1][..i] == ds[..i] && results[..i + 1][..i] == results[..i];
  }

  lemma WithReadsStep(v: Validator, p: Progress, request: nat, asks: seq<ReadValueId>, results: seq<DataValue>, i: nat)
    requires |asks| == |results| && i < |asks|
    ensures WithReads(v, p, request, asks[..i + 1], results[..i + 1])
      == WithRead(v, WithReads(v, p, request, asks[..i], results[..i]), request, asks[i], results[i])
  {
    assert asks[..i + 1][..i] == asks[..i] && results[..i + 1][..i] == results[..i];
  }

  /** `WithRead` as two writes to the record, the mark first. */
  lemma WithReadAfterMark(v: Validator, p: Progress, request: nat, a: ReadValueId, result: DataValue)
    ensures !IsCurrent(p.nodes, a.node, request) ==> WithRead(v, p, request, a, result) == p
    ensures IsCurrent(p.nodes, a.node, request) ==>
      var m := p.nodes[a.node].(attributesFetched := true);
      var marked := p.nodes[a.node := m];
      var decoding := SetFetchedAttribute(m, a.attribute, result.value);
      WithRead(v, p, request, a, result) ==
        if result.status.Good? then
          Validated(v, p.(nodes := marked[a.node := decoding.node]), a.node, decoding.dependency)
        else if a.attribute.BrowseName? then p.(nodes := marked[a.node := m.(status := result.status)])
        else p.(nodes := marked)
  {
    hide SetFetchedAttribute, Validated;
    if IsCurrent(p.nodes, a.node, request) {
      var m := p.nodes[a.node].(attributesFetched := true);
      var decoding := SetFetchedAttribute(m, a.attribute, result.value);
      assert p.nodes[a.node := m][a.node := decoding.node] == p.nodes[a.node := decoding.node];
      var failed := m.(status := result.status);
      assert p.nodes[a.node := m][a.node := failed] == p.nodes[a.node := failed];
    }
  }

  // ---------------------------------------------------------------- what a node waits for

  /** The node will not be reported before `from`, unless the caller knows `from` already. */
  ghost predicate Awaits(v: Validator, since: nat, q: Progress, id: NodeId, from: NodeId) {
    from.Null? || from == id || (exists k :: since <= k < q.asked && v(k, from)) || DependsOn(q.nodes, id, from)
  }

  /** The validator was asked on, and no edge was lost. */
  ghost predicate Further(p: Progress, q: Progress) {
    && p.asked <= q.asked && p.nodes.Keys <= q.nodes.Keys
    && forall a, b :: DependsOn(p.nodes, a, b) ==> DependsOn(q.nodes, a, b)
  }

  lemma AwaitsFurther(v: Validator, since: nat, p: Progress, q: Progress, id: NodeId, from: NodeId)
    requires Awaits(v, since, p, id, from) && Further(p, q)
    ensures Awaits(v, since, q, id, from)
  {
  }

  lemma FurtherTwice(p: Progress, q: Progress, r: Progress)
    requires Further(p, q) && Further(q, r)
    ensures Further(p, r)
  {
  }

  lemma ValidatedAwaits(v: Validator, p: Progress, id: NodeId, from: NodeId)
    requires id in p.nodes
    ensures var q := Validated(v, p, id, from); Awaits(v, p.asked, q, id, from) && Further(p, q)
  {
    if !from.Null? && id != from && !v(p.asked, from) {
      DependentDepends(p.nodes, id, from);
    }
  }

  lemma DependentDepends(nodes: Nodes, id: NodeId, from: NodeId)
    requires id in nodes && id != from
    ensures var now := Dependent(nodes, id, from);
      DependsOn(now, id, from) && forall a, b :: DependsOn(nodes, a, b) ==> DependsOn(now, a, b)
  {
    hide Rescheduled, Linked, Further;
    var p := Progress(nodes, 0);
    var added := p.(nodes := Added(nodes, from));
    AddedIsFurther(p, from);
    var forced := added.nodes[from].(force := added.nodes[from].force || added.nodes[id].force);
    var written := added.(nodes := added.nodes[from := forced]);
    WrittenIsFurther(added, from, forced);
    var linked := written.(nodes := Linked(written.nodes, id, from));
    LinkedDepends(written, id, from);
    var n := linked.nodes[from];
    var last := linked.(nodes := linked.nodes[from := Rescheduled(n, n.pendingSequence, NODE_ONLY, false)]);
    RescheduledKeepsEdges(n, n.pendingSequence);
    WrittenIsFurther(linked, from, last.nodes[from]);
    FurtherTwice(p, added, written);
    FurtherTwice(p, written, linked);
    FurtherTwice(p, linked, last);
    FurtherEdges(p, last);
    FurtherEdges(linked, last);
  }

  lemma LinkedDepends(p: Progress, id: NodeId, from: NodeId)
    requires id in p.nodes && from in p.nodes && id != from
    ensures var q := p.(nodes := Linked(p.nodes, id, from));
      Further(p, q) && DependsOn(q.nodes, id, from) && id in q.nodes && from in q.nodes
  {
  }

  lemma FurtherEdges(p: Progress, q: Progress)
    requires Further(p, q)
    ensures forall a, b :: DependsOn(p.nodes, a, b) ==> DependsOn(q.nodes, a, b)
  {
  }

  lemma WrittenIsFurther(p: Progress, id: NodeId, n: FetchingNode)
    requires id in p.nodes && n.dependsOf == p.nodes[id].dependsOf
    ensures Further(p, p.(nodes := p.nodes[id := n]))
  {
  }

  lemma ChildAwaits(v: Validator, p: Progress, id: NodeId, r: ReferenceDescription)
    requires id in p.nodes && r.node != id
    ensures var q := WithChild(v, p, id, r);
      && Further(p, q) && DependsOn(q.nodes, id, r.node) && DependsOn(q.nodes, r.node, id)
      && (r.referenceType == HAS_PROPERTY ==> Awaits(v, p.asked, q, id, PROPERTY_TYPE))
  {
    hide Rescheduled, Adopted, Validated, Awaits, FetchStatus.Includes;
    var added := p.(nodes := Added(p.nodes, r.node));
    AddedIsFurther(p, r.node);
    var a := WithChildAdopted(v, p, id, r);
    var n := Adopted(added.nodes[r.node], id, added.nodes[id], r);
    AdoptedIsSameFetch(added.nodes[r.node], id, added.nodes[id], r);
    var written := added.(nodes := added.nodes[r.node := n]);
    WrittenIsFurther(added, r.node, n);
    FurtherTwice(p, added, written);
    ValidatedAwaits(v, written, id, PROPERTY_TYPE);
    if r.referenceType == HAS_PROPERTY {
      FurtherTwice(p, written, a);
    }
    LinkedBoth(a.nodes, id, r.node);
    var linked := a.(nodes := Linked(Linked(a.nodes, r.node, id), id, r.node));
    FurtherTwice(p, a, linked);
    var m := Rescheduled(linked.nodes[r.node], linked.nodes[id].pendingSequence, NODE_ONLY, false);
    RescheduledKeepsEdges(linked.nodes[r.node], linked.nodes[id].pendingSequence);
    WrittenIsFurther(linked, r.node, m);
    var q := linked.(nodes := linked.nodes[r.node := m]);
    FurtherTwice(p, linked, q);
    if r.referenceType == HAS_PROPERTY {
      AwaitsFurther(v, p.asked, a, linked, id, PROPERTY_TYPE);
      AwaitsFurther(v, p.asked, linked, q, id, PROPERTY_TYPE);
    }
  }

  lemma AddedIsFurther(p: Progress, id: NodeId)
    ensures Further(p, p.(nodes := Added(p.nodes, id)))
  {
  }

  lemma RescheduledKeepsEdges(n: FetchingNode, sequence: nat)
    ensures Rescheduled(n, sequence, NODE_ONLY, false).dependsOf == n.dependsOf
  {
  }

  lemma LinkedBoth(nodes: Nodes, a: NodeId, b: NodeId)
    requires a in nodes && b in nodes && a != b
    ensures var now := Linked(Linked(nodes, b, a), a, b);
      && DependsOn(now, a, b) && DependsOn(now, b, a) && nodes.Keys <= now.Keys
      && forall x, y :: DependsOn(nodes, x, y) ==> DependsOn(now, x, y)
  {
  }

  /** The reference runs the way it was asked for, and is no subtype among the children. */
  predicate Accepted(d: BrowseDescription, r: ReferenceDescription) {
    && r.forward == d.direction.Forward?
    && !(d.direction.Forward? && d.referenceType == AGGREGATES && r.referenceType == HAS_SUBTYPE)
  }

  /** Whatever a fetched reference makes a node mention, the node waits for, or the caller knows. */
  lemma ReferenceAwaited(v: Validator, p: Progress, d: BrowseDescription, r: ReferenceDescription)
    requires d.node in p.nodes && !TripsCheck(d, r) && !r.referenceType.Null? && !r.node.Null?
    ensures var q := WithReference(v, p, d, r);
      && Further(p, q)
      && Awaits(v, p.asked, q, d.node, r.referenceType)
      && (Accepted(d, r) ==> Awaits(v, p.asked, q, d.node, r.node))
  {
    hide Validated, WithChild, WithInverse, WithNonHierarchical, Awaits, Further, DependsOn;
    var id := d.node;
    var a, q := Validated(v, p, id, r.referenceType), WithReference(v, p, d, r);
    ValidatedAwaits(v, p, id, r.referenceType);
    if Accepted(d, r) {
      if d.direction.Forward? && d.referenceType == AGGREGATES {
        ChildAwaits(v, a, id, r);
        DependsAwaits(v, p.asked, q, id, r.node);
      } else {
        InverseAwaits(v, a, id, r);
        NonHierarchicalAwaits(v, a, id, r);
        SinceEarlier(v, p, a, q, id, r.node);
      }
      FurtherTwice(p, a, q);
      AwaitsFurther(v, p.asked, a, q, id, r.referenceType);
    }
  }

  lemma InvertedKeepsEdges(n: FetchingNode, r: ReferenceDescription)
    ensures Inverted(n, r).dependsOf == n.dependsOf
  {
    StateKeepsEdges(n, n.state.(supertype := r.node));
    StateKeepsEdges(n, n.state.(parent := r.node, referenceType := r.referenceType));
  }

  lemma StateKeepsEdges(n: FetchingNode, t: NodeState)
    ensures n.(state := t).dependsOf == n.dependsOf
  {
  }

  lemma ExtendedKeepsEdges(n: FetchingNode, r: ReferenceDescription)
    ensures Extended(n, r).dependsOf == n.dependsOf
  {
    StateKeepsEdges(n, n.state.(typeDefinition := r.node));
    StateKeepsEdges(n, n.state.(references := n.state.references + [r]));
  }

  lemma InverseAwaits(v: Validator, p: Progress, id: NodeId, r: ReferenceDescription)
    requires id in p.nodes
    ensures var q := WithInverse(v, p, id, r); Further(p, q) && Awaits(v, p.asked, q, id, r.node)
  {
    hide Validated, Awaits, Further, Inverted;
    var n := Inverted(p.nodes[id], r);
    InvertedKeepsEdges(p.nodes[id], r);
    var a := p.(nodes := p.nodes[id := n]);
    WrittenIsFurther(p, id, n);
    ValidatedAwaits(v, a, id, r.node);
    FurtherTwice(p, a, Validated(v, a, id, r.node));
  }

  lemma NonHierarchicalAwaits(v: Validator, p: Progress, id: NodeId, r: ReferenceDescription)
    requires id in p.nodes
    ensures var q := WithNonHierarchical(v, p, id, r); Further(p, q) && Awaits(v, p.asked, q, id, r.node)
  {
    hide Validated, Awaits, Further, Extended;
    var n := Extended(p.nodes[id], r);
    ExtendedKeepsEdges(p.nodes[id], r);
    var a := p.(nodes := p.nodes[id := n]);
    WrittenIsFurther(p, id, n);
    ValidatedAwaits(v, a, id, r.node);
    FurtherTwice(p, a, Validated(v, a, id, r.node));
  }

  lemma DependsAwaits(v: Validator, since: nat, q: Progress, id: NodeId, from: NodeId)
    requires DependsOn(q.nodes, id, from)
    ensures Awaits(v, since, q, id, from)
  {
  }

  lemma SinceEarlier(v: Validator, p: Progress, a: Progress, q: Progress, id: NodeId, from: NodeId)
    requires Further(p, a) && Awaits(v, a.asked, q, id, from)
    ensures Awaits(v, p.asked, q, id, from)
  {
  }
}
