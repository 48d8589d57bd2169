/** The fetcher object: calls, responses and the completion handler that calls back into it. */
module NodeFetching {
  import opened NodeIds
  import opened Paths
  import opened FetchTypes
  import opened FetchingGraph
  import opened FetchingQueue
  import opened FetchFields
  import opened FetchProtocol
  import opened FetchRequests
  import opened FetchSteps
  import opened FetchMentions

  /** A call the completion handler makes while it runs. */
  datatype AnyCall = FetchCall(id: NodeId, status: FetchStatus, force: bool) | CancelCall(id: NodeId)

  type Call = c: AnyCall | !c.id.Null? && (c.FetchCall? ==> c.status.node) witness CancelCall(ROOT_FOLDER)

  /** How often the calls cancel each node. */
  function CancelsIn(calls: seq<Call>): multiset<NodeId> {
    if calls == [] then multiset{}
    else
      var last := calls[|calls| - 1];
      CancelsIn(calls[..|calls| - 1]) + if last.CancelCall? then multiset{last.id} else multiset{}
  }

  function ScriptCancels(script: seq<seq<Call>>): multiset<NodeId> {
    if script == [] then multiset{} else CancelsIn(script[0]) + ScriptCancels(script[1..])
  }

  /** Some call asks for inverse references. */
  predicate Inverting(calls: seq<Call>) {
    exists i :: 0 <= i < |calls| && calls[i].FetchCall? && calls[i].status.inverse
  }

  predicate ScriptInverts(script: seq<seq<Call>>) {
    exists i :: 0 <= i < |script| && Inverting(script[i])
  }

  lemma CancelsStep(calls: seq<Call>, i: nat)
    requires i < |calls|
    ensures CancelsIn(calls[..i + 1])
      == CancelsIn(calls[..i]) + if calls[i].CancelCall? then multiset{calls[i].id} else multiset{}
  {
    assert calls[..i + 1][..i] == calls[..i];
  }

  class NodeFetcher {
    const graph: FetchingNodeGraph
    const queue: FetchQueue
    /** The cache of the caller, which may know more each time it is asked. */
    const validator: Validator
    var asked: nat
    var runningRequestCount: nat
    var nextRequestId: nat
    var nextPendingSequence: nat
    var processingResponse: bool
    var draining: bool

    /** What the services owe, and what they answered. */
    ghost var exchange: Exchange
    /** The browse being answered, or 0. */
    ghost var answering: nat
    /** What the completion handler will do in its next invocations; afterwards it does nothing. */
    var script: seq<seq<Call>>
    /** What the completion handler was given. */
    var reports: seq<FetchCompletedResult>

    /** How often each node entered the graph, was reported, was cancelled. */
    ghost var added: multiset<NodeId>
    ghost var reported: multiset<NodeId>
    ghost var cancelled: multiset<NodeId>
    /** Which nodes lost one they waited for to a cancellation. */
    ghost var losses: Losses
    /** Some call asked for inverse references. */
    ghost var inverseAsked: bool

    ghost predicate Valid(idle: set<NodeId>)
      reads `runningRequestCount, `nextRequestId, `exchange, `answering, `added, `reported, `cancelled, graph, queue
    {
      && graph.Valid()
      && queue.Valid(graph.nodes)
      && Sound(graph.nodes, idle, exchange, nextRequestId)
      && CountsOk(runningRequestCount, exchange, nextRequestId, answering)
      && Balanced(added, reported, cancelled, graph.nodes.Keys)
    }

    constructor (validator: Validator, script: seq<seq<Call>>)
      ensures Whole() && NoStall() && !draining
      ensures graph.nodes == map[] && this.script == script && this.validator == validator
      ensures fresh(graph) && fresh(queue)
    {
      this.validator, asked := validator, 0;
      graph := new FetchingNodeGraph();
      queue := new FetchQueue();
      runningRequestCount, nextRequestId, nextPendingSequence := 0, 1, 0;
      processingResponse, draining := false, false;
      exchange, answering := Exchange(map[], map[], map[]), 0;
      this.script, reports := script, [];
      added, reported, cancelled, losses, inverseAsked := multiset{}, multiset{}, multiset{}, {}, false;
      NothingToMention(validator, {});
    }

    method AddNode(id: NodeId, ghost idle: set<NodeId>)
      requires Valid(idle) && !id.Null?
      modifies graph`nodes, this`added
      ensures Valid(idle + {id})
      ensures graph.nodes == Added(old(graph.nodes), id)
      ensures id in graph.nodes && old(graph.nodes.Keys) <= graph.nodes.Keys
      ensures added == old(added) + if id in old(graph.nodes) then multiset{} else multiset{id}
    {
      AddedIsSound(graph.nodes, idle, exchange, nextRequestId, id);
      if id !in graph.nodes {
        added := added + multiset{id};
      }
      graph.AddNode(id);
      SamePending(graph.nodes, old(graph.nodes));
    }

    method Enqueue(id: NodeId, n: FetchingNode)
      requires queue.Valid(graph.nodes) && id in graph.nodes && n.pending == graph.nodes[id].pending
      modifies graph`nodes, queue
      ensures queue.Valid(graph.nodes) && graph.nodes == SetPending(old(graph.nodes)[id := n], id, true)
    {
      hide QueueOk;
      TouchKeepsQueue(multiset(queue.queue), queue.nextSequence, graph.nodes, id, n);
      graph.nodes := graph.nodes[id := n];
      queue.Push(graph, id);
    }

    /** `FetchNode` up to and including the queue; false if an earlier start covers the request. */
    method Schedule(id: NodeId, sequence: nat, status: FetchStatus, force: bool, ghost idle: set<NodeId>)
      returns (scheduled: bool)
      requires Valid(idle + {id}) && id in graph.nodes && status.node
      modifies graph`nodes, queue
      ensures Valid(idle)
      ensures graph.nodes == old(graph.nodes)[id := Rescheduled(old(graph.nodes)[id], sequence, status, force)]
      ensures !scheduled ==> unchanged(graph) && unchanged(queue)
    {
      hide Sound, GraphOk, QueueOk, CountsOk, Balanced, Rescheduled, FetchStatus.Includes, FetchStatus.Union;
      ghost var was := graph.nodes;
      RescheduledIsSound(was, graph.fetchCacheIteration, idle, exchange, nextRequestId, id, sequence, status, force);
      var n := graph.nodes[id];
      if !n.fetchStarted.IsEmpty() {
        if n.fetchStarted.Includes(status) && !force {
          RescheduledKept(was, id, sequence, status);
          return false;
        }
        n := n.(fetchStarted := NOTHING, requestId := 0, attributesFetched := false, referencesFetched := false,
                status := Good, state := n.state.(references := []));
      }
      assert n == if was[id].fetchStarted.IsEmpty() then was[id] else Cancelled(was[id]);
      assert n.pending == was[id].pending;
      n := n.(force := n.force || force, pendingStatus := n.pendingStatus.Union(status), pendingSequence := sequence);
      Enqueue(id, n);
      ScheduledIsRescheduled(was, id, n, sequence, status, force);
      assert graph.nodes.Keys == was.Keys;
      return true;
    }

    // -------------------------------------------------------------- calls

    /** The books of what was reported are those of the reports the handler was given. */
    ghost predicate Told()
      reads `reported, `reports
    {
      reported == ReportedIn(reports)
    }

    /** Every node waits for whatever its state mentions, unless that is done with. */
    ghost predicate Mentioned()
      reads `asked, `reported, `cancelled, `losses, graph`nodes
    {
      MentionsOk(validator, Now(), reported + cancelled, losses) && LossesOk(losses, cancelled)
    }

    /** Only after a call that asks for them are inverse references fetched. */
    ghost predicate Plain()
      reads `inverseAsked, `exchange, graph`nodes
    {
      !inverseAsked ==> Uninverted(graph.nodes, exchange)
    }

    /** Inverse references were asked for, or the handler has yet to ask for them. */
    ghost predicate Invertible()
      reads `inverseAsked, `script
    {
      inverseAsked || ScriptInverts(script)
    }

    /** What was cancelled, and what the handler has yet to cancel. */
    ghost function Cancellable(): multiset<NodeId>
      reads `cancelled, `script
    {
      cancelled + ScriptCancels(script)
    }

    /** Between two steps: whole, with nothing left to release. */
    ghost predicate Whole()
      reads this, graph, queue
    {
      Valid({}) && Told() && Mentioned() && Plain() && answering == 0 && !processingResponse && Settled(graph.nodes)
    }

    /** No queued node waits while the window has room. */
    predicate NoStall()
      reads this, queue
    {
      queue.queue == [] || WindowFull()
    }

    /** Too few slots are free for another batch. */
    predicate WindowFull()
      reads `runningRequestCount
    {
      MAX_PARALLEL_REQUEST_COUNT < runningRequestCount + PRIMITIVE_REQUEST_COUNT
    }

    /** What a call leaves to its caller: the guards as they were, reports, answers and cancellations
        only added, of the requests out only `read` and `browse` answered, and no request revived that
        was stale for a node. */
    twostate predicate Returns(read: nat, browse: nat)
      reads this, graph
    {
      && processingResponse == old(processingResponse) && draining == old(draining)
      && |script| <= old(|script|)
      && old(reports) <= reports
      && old(cancelled) <= cancelled && old(added) <= added
      && LostByCancel(old(cancelled), old(losses), cancelled, losses)
      && old(nextRequestId) <= nextRequestId
      && (forall r :: r in old(exchange.answers) ==>
           r in exchange.answers && exchange.answers[r] == old(exchange.answers)[r])
      && Asks(old(exchange), exchange, old(nextRequestId), read, browse)
      && StaleStays(old(graph.nodes), graph.nodes, old(nextRequestId))
    }

    /** Nodes that waited may have been sent; nothing else happened. */
    twostate predicate OnlySent()
      reads this, graph
    {
      && unchanged(`script) && unchanged(`reports) && unchanged(`cancelled) && unchanged(`added) && unchanged(`asked)
      && unchanged(`nextPendingSequence) && unchanged(`losses) && unchanged(`inverseAsked)
      && Underway(old(graph.nodes), graph.nodes, old(nextRequestId))
    }

    method Fetch(id: NodeId, status: FetchStatus, force: bool)
      requires !id.Null? && status.node && Whole()
      modifies this, graph, queue
      ensures Whole() && Returns(0, 0)
      ensures if draining then runningRequestCount == old(runningRequestCount) else old(NoStall()) ==> NoStall()
      ensures unchanged(`script) && unchanged(`reports) && unchanged(`cancelled) && unchanged(`asked)
      ensures added == old(added) + if id in old(graph.nodes) then multiset{} else multiset{id}
      ensures nextPendingSequence == old(nextPendingSequence) + 1
      ensures inverseAsked == (old(inverseAsked) || status.inverse)
      ensures Cancellable() == old(Cancellable()) && (Invertible() ==> old(Invertible()) || status.inverse)
      ensures var was := Added(old(graph.nodes), id);
        && var now := was[id := Rescheduled(was[id], old(nextPendingSequence), status, force)];
        && Underway(now, graph.nodes, old(nextRequestId))
        && (old(draining) || old(WindowFull()) ==> graph.nodes == now)
      ensures id in graph.nodes && Covers(graph.nodes[id], status)
      ensures id !in old(graph.nodes) || force || !old(graph.nodes)[id].fetchStarted.Includes(status) ==>
        Superseded(graph.nodes, id, old(nextRequestId))
      decreases |script|, if draining then 0 else 1, 3
    {
      hide Valid, Settled, Rescheduled, StaleStays, Superseded, Underway, Asks, Covers, FetchStatus.Includes;
      hide Mentioned, Plain, Told, ScriptInverts, ScriptCancels;
      ghost var was, next := graph.nodes, nextRequestId;
      PendingIsUnstarted(id);
      Enter(id, status.inverse);
      assert {} + {id} == {id};
      AddedStale(was, id, next);
      ghost var mid := graph.nodes;
      nextPendingSequence := nextPendingSequence + 1;
      FetchNode(id, nextPendingSequence - 1, status, force, {});
      StaleStaysTwice(was, mid, graph.nodes, next, next);
      FetchedIsCovered(was, graph.nodes, id, nextPendingSequence - 1, status, force, next);
    }

    /** The node is in the graph, and all is whole but for its being scheduled. */
    method Enter(id: NodeId, ghost inverse: bool)
      requires !id.Null? && Whole()
      modifies graph`nodes, this`added, this`inverseAsked
      ensures Valid({id}) && Settled(graph.nodes) && Told() && Mentioned() && Plain()
      ensures graph.nodes == Added(old(graph.nodes), id) && id in graph.nodes
      ensures added == old(added) + if id in old(graph.nodes) then multiset{} else multiset{id}
      ensures inverseAsked == (old(inverseAsked) || inverse)
    {
      hide Valid, Settled, MentionsOk, LossesOk, Uninverted, Told, Added;
      AddedMentions(validator, Now(), reported + cancelled, losses, id);
      AddedStaysSettled(graph.nodes, id);
      AddedIsPlain(id);
      assert {} + {id} == {id};
      AddNode(id, {});
      inverseAsked := inverseAsked || inverse;
    }

    lemma PendingIsUnstarted(id: NodeId)
      requires Valid({})
      ensures Added(graph.nodes, id)[id].pending ==> Added(graph.nodes, id)[id].fetchStarted.IsEmpty()
    {
    }

    method FetchNode(id: NodeId, sequence: nat, status: FetchStatus, force: bool, ghost idle: set<NodeId>)
      requires Valid(idle + {id}) && id in graph.nodes && status.node
      requires !processingResponse ==> idle == {} && answering == 0 && Settled(graph.nodes) && Told() && Mentioned()
      requires !processingResponse ==> Plain() && (status.inverse ==> inverseAsked)
      modifies this, graph, queue
      ensures old(processingResponse) ==>
        && unchanged(this) && Valid(idle)
        && graph.nodes == old(graph.nodes)[id := Rescheduled(old(graph.nodes)[id], sequence, status, force)]
      ensures !old(processingResponse) ==>
        && Whole() && Returns(0, 0)
        && if draining then runningRequestCount == old(runningRequestCount) else old(NoStall()) ==> NoStall()
      ensures unchanged(`script) && unchanged(`reports) && unchanged(`cancelled) && unchanged(`asked)
      ensures unchanged(`nextPendingSequence) && unchanged(`added) && unchanged(`inverseAsked)
      ensures var now := old(graph.nodes)[id := Rescheduled(old(graph.nodes)[id], sequence, status, force)];
        && Underway(now, graph.nodes, old(nextRequestId))
        && (old(draining) || old(WindowFull()) ==> graph.nodes == now)
      decreases |script|, if draining then 0 else 1, 2
    {
      hide StaleStays, Underway, Asks, Sound, GraphOk, QueueOk, CountsOk, Balanced, Settled, Rescheduled;
      hide MentionsOk, LossesOk, Uninverted;
      ghost var was, next, x := graph.nodes, nextRequestId, exchange;
      AsksSelf(x, next);
      if !processingResponse {
        RescheduledMentions(validator, Now(), reported + cancelled, losses, id, sequence, status, force);
        if !inverseAsked {
          RescheduledUninverted(was, x, id, sequence, status, force);
        }
      }
      var scheduled := Schedule(id, sequence, status, force, idle);
      ghost var now := graph.nodes;
      RescheduledStale(was, id, sequence, status, force, next);
      UnderwaySelf(now, next);
      if !processingResponse {
        RescheduledStaysSettled(was, idle + {id}, exchange, nextRequestId, id, sequence, status, force);
      }
      if !scheduled {
        return;
      }
      FetchPendingNodes();
      UnderwayStale(now, graph.nodes, next);
      StaleStaysTwice(was, now, graph.nodes, next, next);
    }

    method FetchPendingNodes()
      requires !processingResponse && !draining ==> Whole()
      modifies this, graph, queue
      ensures old(processingResponse) || old(draining) ==> unchanged(this) && unchanged(graph) && unchanged(queue)
      ensures !old(processingResponse) && !old(draining) ==> Whole() && Returns(0, 0) && NoStall()
      ensures OnlySent()
      ensures old(NoStall()) ==> unchanged(graph) && unchanged(queue)
      decreases |script|, if draining then 0 else 1, 1
    {
      hide StaleStays, Underway, Asks, Sound, GraphOk, QueueOk, CountsOk, Balanced, Settled, Mentioned, Plain;
      ghost var was, next, x := graph.nodes, nextRequestId, exchange;
      UnderwaySelf(was, next);
      AsksSelf(x, next);
      if processingResponse {
        return;
      }
      if draining {
        return;
      }
      draining := true;
      while queue.queue != [] && runningRequestCount + PRIMITIVE_REQUEST_COUNT <= MAX_PARALLEL_REQUEST_COUNT
        invariant Whole() && draining && OnlySent()
        invariant old(NoStall()) ==> unchanged(graph) && unchanged(queue) && unchanged(`runningRequestCount)
        invariant old(nextRequestId) <= nextRequestId && Asks(x, exchange, next, 0, 0)
        invariant forall r :: r in old(exchange.answers) ==>
          r in exchange.answers && exchange.answers[r] == old(exchange.answers)[r]
        decreases MAX_PARALLEL_REQUEST_COUNT - runningRequestCount
      {
        ghost var before, request, asks := graph.nodes, nextRequestId, exchange;
        var batch := TakeBatch();
        SendBatch(batch);
        SentUnderway(before, Elements(batch), request);
        UnderwayTwice(before, SentAll(PoppedAll(before, Elements(batch)), Elements(batch), request), graph.nodes,
                      request, request);
        UnderwayTwice(was, before, graph.nodes, next, request);
        AsksTwice(x, asks, exchange, next, request, 0, 0);
      }
      draining := false;
      UnderwayStale(was, graph.nodes, next);
    }

    /** Valid, but for the nodes just taken from the queue. */
    ghost predicate Taken(batch: set<NodeId>)
      reads this, graph, queue
    {
      && graph.Valid()
      && queue.Valid(graph.nodes)
      && BatchSound(graph.nodes, batch, exchange, nextRequestId)
      && CountsOk(runningRequestCount, exchange, nextRequestId, answering)
      && Balanced(added, reported, cancelled, graph.nodes.Keys)
      && answering == 0 && !processingResponse && Told() && Mentioned() && Plain()
      && Settled(graph.nodes)
    }

    method TakeOne(ghost batch: set<NodeId>) returns (id: NodeId)
      requires Taken(batch) && queue.queue != []
      modifies graph`nodes, queue`queue
      ensures Taken(batch + {id}) && |queue.queue| == |old(queue.queue)| - 1
      ensures id == old(queue.queue[0].node)
      ensures id in old(graph.nodes) && old(graph.nodes)[id].pending
      ensures graph.nodes == old(graph.nodes)[id := Popped(old(graph.nodes)[id])]
    {
      hide BatchSound, GraphOk, CountsOk, Settled, Balanced, MentionsOk, LossesOk, SameWords, Uninverted;
      id := queue.Top();
      ghost var was, before := graph.nodes, Now();
      queue.Pop(graph);
      PoppedIsSound(was, graph.fetchCacheIteration, batch, exchange, nextRequestId, id);
      PoppedStaysSettled(was, id);
      // Check(IsEmpty(node.fetch_started)) and Check(!IsEmpty(node.pending_status))
      assert graph.nodes[id].fetchStarted.IsEmpty() && !graph.nodes[id].pendingStatus.IsEmpty();
      PoppedKeepsQueue(multiset(queue.queue), queue.nextSequence, was, id);
      graph.nodes := graph.nodes[id := graph.nodes[id].(fetchStarted := graph.nodes[id].pendingStatus)];
      assert graph.nodes.Keys == was.Keys;
      if !inverseAsked {
        PoppedUninverted(was, exchange, id);
      }
      PoppedSameWords(was, id);
      SameWordsMention(validator, before, graph.nodes, reported + cancelled, losses);
    }

    /** The inner loop of `FetchPendingNodes`. */
    method TakeBatch() returns (batch: seq<NodeId>)
      requires Whole() && queue.queue != []
      modifies graph`nodes, queue`queue
      ensures Taken(Elements(batch)) && Distinct(batch)
      ensures |batch|
        == if |old(queue.queue)| < MAX_REQUEST_NODE_COUNT then |old(queue.queue)| else MAX_REQUEST_NODE_COUNT
      ensures |queue.queue| == |old(queue.queue)| - |batch|
      ensures forall id :: id in Elements(batch) ==> id in old(graph.nodes) && old(graph.nodes)[id].pending
      ensures graph.nodes == PoppedAll(old(graph.nodes), Elements(batch))
    {
      hide Taken, Whole, PoppedAll, Popped;
      ghost var was := graph.nodes;
      batch := [];
      assert Elements(batch) == {};
      WholeIsTaken();
      PoppedNone(was);
      while queue.queue != [] && |batch| < MAX_REQUEST_NODE_COUNT
        invariant Taken(Elements(batch)) && Distinct(batch)
        invariant |batch| <= MAX_REQUEST_NODE_COUNT && |queue.queue| == |old(queue.queue)| - |batch|
        invariant forall id :: id in Elements(batch) ==> id in was && was[id].pending
        invariant graph.nodes == PoppedAll(was, Elements(batch))
        decreases |queue.queue|
      {
        ghost var mid := graph.nodes;
        var id := TakeOne(Elements(batch));
        PoppedStep(was, Elements(batch), id);
        PoppedIsNotPending(was, batch, id);
        assert Elements(batch + [id]) == Elements(batch) + {id};
        batch := batch + [id];
      }
    }

    lemma PoppedIsNotPending(nodes: Nodes, batch: seq<NodeId>, id: NodeId)
      requires Distinct(batch) && id in nodes && PoppedAll(nodes, Elements(batch))[id].pending
      ensures Distinct(batch + [id])
    {
    }

    lemma WholeIsTaken()
      requires Whole()
      ensures Taken({})
    {
      SoundIsBatchSound(graph.nodes, exchange, nextRequestId);
    }

    method StampRequest(batch: seq<NodeId>, request: nat)
      requires forall id :: id in batch ==> id in graph.nodes
      modifies graph`nodes
      ensures graph.nodes == Stamped(old(graph.nodes), Elements(batch), request)
      ensures graph.nodes.Keys == old(graph.nodes.Keys)
    {
      hide Stamped;
      NoneStamped(graph.nodes, request);
      assert Elements(batch[..0]) == {};
      for i := 0 to |batch|
        invariant graph.nodes == Stamped(old(graph.nodes), Elements(batch[..i]), request)
        invariant graph.nodes.Keys == old(graph.nodes.Keys)
      {
        StampedStep(old(graph.nodes), Elements(batch[..i]), batch[i], request);
        graph.nodes := graph.nodes[batch[i] := graph.nodes[batch[i]].(requestId := request)];
        ElementsStep(batch, i);
      }
      assert batch[..|batch|] == batch;
    }

    method CollectReads(batch: seq<NodeId>) returns (readIds: seq<ReadValueId>)
      requires forall id :: id in batch ==> id in graph.nodes
      modifies graph`nodes
      ensures graph.nodes == AttributesAsked(old(graph.nodes), Elements(batch))
      ensures readIds == ReadsFor(old(graph.nodes), batch)
      ensures ReadsWanted(old(graph.nodes), batch, readIds) && (Distinct(batch) ==> Distinct(readIds))
      ensures graph.nodes.Keys == old(graph.nodes.Keys)
    {
      ghost var was := graph.nodes;
      hide FetchAttributes, AttributesAsked, ReadsWanted, Distinct;
      ReadsForWanted(was, batch);
      readIds := [];
      assert graph.nodes == AttributesAsked(was, {}) by { AttributesAskedNone(was); }
      for i := 0 to |batch|
        invariant graph.nodes == AttributesAsked(was, Elements(batch[..i]))
        invariant readIds == ReadsFor(was, batch[..i])
      {
        AttributesAskedStep(was, Elements(batch[..i]), batch[i]);
        var n := graph.nodes[batch[i]];
        var count := |readIds|;
        readIds := readIds + FetchAttributes(batch[i], n);
        graph.nodes := graph.nodes[batch[i] := n.(attributesFetched := count == |readIds|)];
        ElementsStep(batch, i);
        assert batch[..i + 1][..i] == batch[..i];
      }
      assert batch[..|batch|] == batch;
    }

    method CollectBrowses(batch: seq<NodeId>) returns (descriptions: seq<BrowseDescription>)
      requires forall id :: id in batch ==> id in graph.nodes
      modifies graph`nodes
      ensures graph.nodes == ReferencesAsked(old(graph.nodes), Elements(batch))
      ensures descriptions == BrowsesFor(old(graph.nodes), batch)
      ensures BrowsesWanted(old(graph.nodes), batch, descriptions) && (Distinct(batch) ==> Distinct(descriptions))
      ensures graph.nodes.Keys == old(graph.nodes.Keys)
    {
      ghost var was := graph.nodes;
      hide FetchReferences, ReferencesAsked, BrowsesWanted, Distinct;
      BrowsesForWanted(was, batch);
      descriptions := [];
      assert graph.nodes == ReferencesAsked(was, {}) by { ReferencesAskedNone(was); }
      for i := 0 to |batch|
        invariant graph.nodes == ReferencesAsked(was, Elements(batch[..i]))
        invariant descriptions == BrowsesFor(was, batch[..i])
      {
        ReferencesAskedStep(was, Elements(batch[..i]), batch[i]);
        var n := graph.nodes[batch[i]];
        var count := |descriptions|;
        descriptions := descriptions + FetchReferences(batch[i], n);
        graph.nodes := graph.nodes[batch[i] := n.(referencesFetched := count == |descriptions|)];
        ElementsStep(batch, i);
        assert batch[..i + 1][..i] == batch[..i];
      }
      assert batch[..|batch|] == batch;
    }

    /** `FetchPendingNodes(nodes)` up to the two requests it issues. */
    method IssueRequests(batch: seq<NodeId>) returns (request: nat, descriptions: seq<BrowseDescription>)
      requires Taken(Elements(batch))
      requires runningRequestCount + PRIMITIVE_REQUEST_COUNT <= MAX_PARALLEL_REQUEST_COUNT
      modifies this`nextRequestId, this`runningRequestCount, this`exchange, graph`nodes
      ensures Whole()
      ensures runningRequestCount == old(runningRequestCount) + PRIMITIVE_REQUEST_COUNT
      ensures nextRequestId == request + 1 == old(nextRequestId) + 1
      ensures var stamped := Stamped(old(graph.nodes), Elements(batch), request);
        var asked := AttributesAsked(stamped, Elements(batch));
        && graph.nodes == ReferencesAsked(asked, Elements(batch))
        && descriptions == BrowsesFor(asked, batch)
        && exchange == old(exchange).(toRead := old(exchange.toRead)[request := ReadsFor(stamped, batch)],
                                      toBrowse := old(exchange.toBrowse)[request := descriptions])
      ensures RequestWanted(old(graph.nodes), batch, exchange, request)
    {
      hide BatchSound, Sound, GraphOk, QueueOk, CountsOk, Settled, Balanced;
      hide Told, ReadsFor, BrowsesFor, AttributesAsked, ReferencesAsked, Stamped, SentAll, MentionsOk, LossesOk;
      hide SameWords, Uninverted, ReadsWanted, BrowsesWanted, Distinct, RequestWanted;
      ghost var was, x, before := graph.nodes, exchange, Now();
      request := nextRequestId;
      SentIs(was, Elements(batch), request);
      SentIsWhole(was, graph.fetchCacheIteration, multiset(queue.queue), queue.nextSequence, runningRequestCount,
                  batch, exchange, request);
      nextRequestId := nextRequestId + 1;
      runningRequestCount := runningRequestCount + PRIMITIVE_REQUEST_COUNT;
      StampRequest(batch, request);
      var readIds := CollectReads(batch);
      descriptions := CollectBrowses(batch);
      exchange := exchange.(toRead := exchange.toRead[request := readIds],
                            toBrowse := exchange.toBrowse[request := descriptions]);
      AllWanted(was, batch, exchange, request);
      assert graph.nodes.Keys == was.Keys;
      if !inverseAsked {
        SentUninverted(was, batch, x, request, exchange);
      }
      SentSameWords(was, Elements(batch), request);
      SameWordsMention(validator, before, graph.nodes, reported + cancelled, losses);
    }

    /** `FetchPendingNodes(nodes)`: a batch with nothing to browse gets its empty answer at once, which
        completes no node. */
    method SendBatch(batch: seq<NodeId>)
      requires Taken(Elements(batch)) && draining
      requires runningRequestCount + PRIMITIVE_REQUEST_COUNT <= MAX_PARALLEL_REQUEST_COUNT
      modifies this, graph, queue
      ensures Whole() && draining && runningRequestCount > old(runningRequestCount)
      ensures unchanged(`script) && unchanged(`reports) && unchanged(`cancelled) && unchanged(`asked)
      ensures unchanged(`nextPendingSequence) && unchanged(`added) && unchanged(`losses)
      ensures unchanged(`inverseAsked)
      ensures old(nextRequestId) <= nextRequestId
      ensures forall r :: r in old(exchange.answers) ==>
        r in exchange.answers && exchange.answers[r] == old(exchange.answers)[r]
      ensures Asks(old(exchange), exchange, old(nextRequestId), 0, 0)
      ensures Underway(SentAll(old(graph.nodes), Elements(batch), old(nextRequestId)), graph.nodes, old(nextRequestId))
      decreases |script|, if draining then 0 else 1, 13
    {
      hide Valid, Settled, Taken, Asks, StaleStays, Underway, SentAll, CompleteNodes, ReportsExactly, Told;
      hide Cancellable, EffectiveBrowse, WithBrowses, Restricted, Entered, Mentioned, Plain, ScriptInverts;
      hide RequestWanted, AllLastWords;
      ghost var x, next := exchange, nextRequestId;
      ghost var sent := SentAll(graph.nodes, Elements(batch), next);
      var request, descriptions := IssueRequests(batch);
      SentIs(old(graph.nodes), Elements(batch), next);
      UnderwaySelf(sent, next);
      AsksIssued(x, next, exchange.toRead[request], descriptions);
      if descriptions == [] {
        NoneComplete(graph.nodes);
        ghost var issued := exchange;
        ghost var told, gone, entered := reports, cancelled, added;
        NothingBrowsed(validator, Now(), request);
        OnBrowseResult(request, Good, descriptions, []);
        NoneEntered(entered, added, graph.nodes.Keys, graph.nodes.Keys);
        assert reports == told && cancelled == gone + multiset{} == gone;
        AsksAnswered(x, issued, exchange, next);
        UnderwayEarlier(sent, graph.nodes, next, next + 1);
      }
    }

    method Release() returns (result: FetchCompletedResult)
      requires Valid({})
      modifies graph, this`reported
      ensures Valid({}) && Settled(graph.nodes)
      ensures ReportsExactly(result, old(graph.nodes), CompleteNodes(old(graph.nodes)))
      ensures FromLastRequests(result, old(graph.nodes), exchange.answers)
      ensures SameButCache(graph.nodes, Restricted(old(graph.nodes), CompleteNodes(old(graph.nodes))))
      ensures forall id :: id in CompleteNodes(old(graph.nodes)) ==> !old(graph.nodes)[id].fetchStarted.IsEmpty()
      ensures reported == old(reported) + multiset(CompleteNodes(old(graph.nodes)))
    {
      hide Sound, GraphOk, QueueOk, CountsOk, Settled, ReportsExactly, CompleteNodes, Balanced, FromLastRequests;
      hide SameButCache;
      ghost var was := graph.nodes;
      ghost var iteration := graph.fetchCacheIteration;
      // Check(!IsEmpty(node.fetch_started))
      ReleasedWasStarted(was, exchange, nextRequestId);
      result := graph.GetFetchedNodes();
      ReleasedIsSound(was, graph.nodes, iteration, multiset(queue.queue), queue.nextSequence, exchange, nextRequestId);
      ReportedReferences(result, was, exchange, nextRequestId);
      LedgerAfterRelease(added, reported, cancelled, was.Keys, graph.nodes.Keys, CompleteNodes(was));
      reported := reported + multiset(CompleteNodes(was));
    }

    /** The first new report names the complete nodes of `after`, exactly, if there are any. */
    twostate predicate ReportedFrom(after: Nodes)
      reads this
    {
      var done := CompleteNodes(after);
      done != {} ==>
        && |old(reports)| < |reports|
        && ReportsExactly(reports[|old(reports)|], after, done)
    }

    /** Unless the handler calls back, the complete nodes of `after` have left and been reported, and the
        others are there, but for sending. */
    twostate predicate Settles(after: Progress, dropped: multiset<NodeId>)
      reads this, graph
    {
      var done := CompleteNodes(after.nodes);
      && ReportedFrom(after.nodes)
      && (done == {} || old(script) == [] ==>
           && script == old(script) && asked == after.asked && cancelled == old(cancelled) + dropped
           && nextPendingSequence == old(nextPendingSequence) && inverseAsked == old(inverseAsked)
           && Entered(old(added), added, old(graph.nodes.Keys), after.nodes.Keys)
           && |reports| == |old(reports)| + (if done == {} then 0 else 1)
           && Underway(Restricted(after.nodes, done), graph.nodes, old(nextRequestId)))
    }

    /** Releases the complete nodes and puts the report together, if there are any. */
    method Report() returns (any: bool)
      requires Valid({}) && Told() && Mentioned() && Plain() && answering == 0 && !processingResponse
      modifies graph, this`reported, this`reports
      ensures Whole() && any == (CompleteNodes(old(graph.nodes)) != {})
      ensures if !any then reports == old(reports)
        else
          && |reports| == |old(reports)| + 1 && old(reports) <= reports
          && ReportsExactly(reports[|old(reports)|], old(graph.nodes), CompleteNodes(old(graph.nodes)))
          && FromLastRequests(reports[|old(reports)|], old(graph.nodes), exchange.answers)
          && ReportClosed(validator, asked, reports[|old(reports)|], old(reported + cancelled), losses)
      ensures StaleStays(old(graph.nodes), graph.nodes, nextRequestId)
      ensures Underway(Restricted(old(graph.nodes), CompleteNodes(old(graph.nodes))), graph.nodes, nextRequestId)
    {
      hide Valid, Settled, ReportsExactly, CompleteNodes, FromLastRequests, StaleStays, Underway, SameButCache;
      hide IdsIn, ReportedIn, Restricted, MentionsOk, LossesOk, ReportClosed, EdgesOk, SameWords, Uninverted;
      ghost var was, before, gone, next := graph.nodes, Now(), reported + cancelled, nextRequestId;
      ghost var done := CompleteNodes(was);
      EdgesOfValid();
      ReleasedMentions(validator, before, reported, cancelled, losses);
      var result := Release();
      ReportIsClosed(validator, before, result, gone, losses);
      RestrictedPlain(was, done);
      CacheSameWords(graph.nodes, Restricted(was, done));
      SameWordsMention(validator, before.(nodes := Restricted(was, done)), graph.nodes, reported + cancelled, losses);
      ReportIsEmpty(result, was, done);
      RestrictedStale(was, done, next);
      SameButCacheStale(graph.nodes, Restricted(was, done), next);
      StaleStaysTwice(was, Restricted(was, done), graph.nodes, next, next);
      SameButCacheUnderway(Restricted(was, done), graph.nodes, next);
      if result.nodes == [] && result.errors == [] {
        return false;
      }
      ExactReportIds(result, was, done);
      ReportedMore(reports, result);
      reports := reports + [result];
      return true;
    }

    lemma AddedIsPlain(id: NodeId)
      requires Plain()
      ensures !inverseAsked ==> Uninverted(Added(graph.nodes, id), exchange)
    {
      hide Uninverted, Added;
      if !inverseAsked {
        AddedUninverted(graph.nodes, exchange, id);
      }
    }

    lemma RestrictedIsPlain(gone: set<NodeId>)
      requires Plain()
      ensures !inverseAsked ==> Uninverted(Restricted(graph.nodes, gone), exchange)
    {
      hide Uninverted, Restricted;
      if !inverseAsked {
        RestrictedUninverted(graph.nodes, exchange, gone);
      }
    }

    lemma RestrictedPlain(was: Nodes, gone: set<NodeId>)
      requires !inverseAsked ==> Uninverted(was, exchange)
      requires SameButCache(graph.nodes, Restricted(was, gone))
      ensures Plain()
    {
      hide Uninverted, Restricted, SameButCache;
      if !inverseAsked {
        RestrictedUninverted(was, exchange, gone);
        CacheUninverted(graph.nodes, Restricted(was, gone), exchange);
      }
    }

    lemma EdgesOfValid()
      requires Valid({})
      ensures EdgesOk(graph.nodes)
    {
    }

    method NotifyFetchedNodes()
      requires Valid({}) && Told() && Mentioned() && Plain() && answering == 0 && !processingResponse
      modifies this, graph, queue
      ensures Whole() && Returns(0, 0)
      ensures draining ==> runningRequestCount == old(runningRequestCount)
      ensures var done := CompleteNodes(old(graph.nodes));
        if done == {} then reports == old(reports)
        else
          && |old(reports)| < |reports|
          && ReportsExactly(reports[|old(reports)|], old(graph.nodes), done)
          && FromLastRequests(reports[|old(reports)|], old(graph.nodes), old(exchange.answers))
          && ReportClosed(validator, old(asked), reports[|old(reports)|], old(reported + cancelled), old(losses))
      ensures Settles(old(Now()), multiset{}) && Cancellable() <= old(Cancellable())
      ensures Invertible() ==> old(Invertible())
      ensures CompleteNodes(old(graph.nodes)) == {} || old(script) == [] ==> nextRequestId == old(nextRequestId)
      decreases |script|, if draining then 0 else 1, 1
    {
      hide Whole, ReportsExactly, CompleteNodes, FromLastRequests, StaleStays, Asks, Underway, Restricted;
      hide Cancellable, Entered, Mentioned, ReportClosed, Plain, ScriptInverts;
      ghost var was, next := graph.nodes, nextRequestId;
      NoneEntered(added, added, was.Keys, was.Keys);
      AsksSelf(exchange, next);
      var any := Report();
      ghost var left := graph.nodes;
      if any {
        CallHandler();
        StaleStaysTwice(was, left, graph.nodes, next, next);
      }
    }

    /** The next invocation of the completion handler. */
    method CallHandler()
      requires Whole()
      modifies this, graph, queue
      ensures Whole() && Returns(0, 0)
      ensures draining ==> runningRequestCount == old(runningRequestCount)
      ensures old(script) == [] ==> unchanged(this) && unchanged(graph) && unchanged(queue)
      ensures Cancellable() <= old(Cancellable()) && (Invertible() ==> old(Invertible()))
      decreases |script|, if draining then 0 else 1, 0
    {
      hide Valid, Settled, Told, StaleStays, Asks, CancelsIn, Mentioned, Plain, Inverting;
      StaleSelf(graph.nodes, nextRequestId);
      AsksSelf(exchange, nextRequestId);
      if script != [] {
        var calls := script[0];
        script := script[1..];
        RunHandler(calls);
      }
    }

    /** The completion handler calling back. */
    method RunHandler(calls: seq<Call>)
      requires Whole()
      modifies this, graph, queue
      ensures Whole() && Returns(0, 0)
      ensures Cancellable() <= old(Cancellable()) + CancelsIn(calls)
      ensures Invertible() ==> old(Invertible()) || Inverting(calls)
      ensures draining ==> runningRequestCount == old(runningRequestCount)
      decreases |script|, if draining then 0 else 1, 13
    {
      hide Valid, Settled, Told, StaleStays, Asks, Underway, Superseded, Rescheduled, CompleteNodes;
      hide CancelsIn, Cancellable, Mentioned, LostByCancel, Plain, Invertible;
      ghost var was, next, x, c, l := graph.nodes, nextRequestId, exchange, cancelled, losses;
      NothingLost(c, l);
      StaleSelf(was, next);
      AsksSelf(x, next);
      for i := 0 to |calls|
        invariant Whole() && Returns(0, 0)
        invariant draining ==> runningRequestCount == old(runningRequestCount)
        invariant Cancellable() <= old(Cancellable()) + CancelsIn(calls[..i])
        invariant Invertible() ==> old(Invertible()) || Inverting(calls)
      {
        ghost var mid, later, asks, c', l' := graph.nodes, nextRequestId, exchange, cancelled, losses;
        match calls[i] {
          case FetchCall(id, status, force) => Fetch(id, status, force);
          case CancelCall(id) => Cancel(id);
        }
        StaleStaysTwice(was, mid, graph.nodes, next, later);
        AsksTwice(x, asks, exchange, next, later, 0, 0);
        LostTwice(c, l, c', l', cancelled, losses);
        CancelsStep(calls, i);
      }
      assert calls[..|calls|] == calls;
    }

    /** What every step ends with: the notification, and the drain. */
    method Conclude()
      requires Valid({}) && Told() && Mentioned() && Plain() && answering == 0 && !processingResponse
      modifies this, graph, queue
      ensures Whole() && Returns(0, 0)
      ensures if draining then runningRequestCount == old(runningRequestCount) else NoStall()
      ensures Settles(old(Now()), multiset{}) && Cancellable() <= old(Cancellable())
      ensures Invertible() ==> old(Invertible())
      decreases |script|, if draining then 0 else 1, 2
    {
      hide Valid, Settled, CompleteNodes, ReportsExactly, StaleStays, Asks, Underway, Told, Restricted, Cancellable;
      hide Entered, Mentioned, ReportClosed, Plain, ScriptInverts;
      ghost var was, next, x := graph.nodes, nextRequestId, exchange;
      NotifyFetchedNodes();
      ghost var mid, later, asks := graph.nodes, nextRequestId, exchange;
      FetchPendingNodes();
      FinishStep(was, mid, graph.nodes, Restricted(was, CompleteNodes(was)), next, later);
      AsksTwice(x, asks, exchange, next, later, 0, 0);
    }

    method Cancel(id: NodeId)
      requires !id.Null? && Whole()
      modifies this, graph, queue
      ensures Whole() && Returns(0, 0)
      ensures if draining then runningRequestCount == old(runningRequestCount) else old(NoStall()) ==> NoStall()
      ensures id !in old(graph.nodes) ==> unchanged(this) && unchanged(graph) && unchanged(queue)
      ensures Cancellable() <= old(Cancellable()) + multiset{id} && (Invertible() ==> old(Invertible()))
      ensures id in old(graph.nodes) ==>
        && Superseded(graph.nodes, id, old(nextRequestId))
        && old(cancelled) + multiset{id} <= cancelled
        && Settles(Progress(Restricted(old(graph.nodes), {id}), old(asked)), multiset{id})
      decreases |script|, if draining then 0 else 1, 8
    {
      hide Valid, Settled, CompleteNodes, ReportsExactly, StaleStays, Asks, Underway, Superseded, Told, Restricted;
      hide Cancellable, Entered, Mentioned, LostByCancel, LostWith, Plain, ScriptInverts;
      ghost var was, next, x := graph.nodes, nextRequestId, exchange;
      ghost var c, l := cancelled, losses;
      StaleSelf(was, next);
      AsksSelf(x, next);
      NothingLost(c, l);
      if id !in graph.nodes {
        return;
      }
      Remove(id);
      ghost var c', l' := cancelled, losses;
      ghost var left := graph.nodes;
      RestrictedStale(was, {id}, next);
      ghost var entered := added;
      Conclude();
      NoneEntered(entered, added, left.Keys, left.Keys);
      RestrictedKeys(was, {id});
      NoneEntered(entered, added, was.Keys, left.Keys);
      LostTwice(c, l, c', l', cancelled, losses);
      StaleStaysTwice(was, left, graph.nodes, next, next);
      SupersededStays(left, graph.nodes, id, next);
    }

    /** Takes a node out of the queue and the graph. */
    method Remove(id: NodeId)
      requires Valid({}) && Mentioned() && Plain() && id in graph.nodes
      modifies this`cancelled, this`losses, graph`nodes, queue`queue
      ensures Valid({}) && Mentioned() && Plain() && graph.nodes == Restricted(old(graph.nodes), {id})
      ensures losses == old(losses) + LostWith(old(graph.nodes), id)
      ensures LostByCancel(old(cancelled), old(losses), cancelled, losses)
      ensures cancelled == old(cancelled) + multiset{id} && Cancellable() == old(Cancellable()) + multiset{id}
    {
      hide Sound, CountsOk, QueueOk, GraphOk, MentionsOk, LossesOk, LostWith, LostByCancel, Uninverted;
      hide Balanced, Restricted;
      ghost var was := graph.nodes;
      CancelledMentions(validator, Now(), reported, cancelled, losses, id);
      MoreLosses(was, losses, cancelled, id);
      RestrictedKeys(was, {id});
      LedgerAfterCancel(added, reported, cancelled, was.Keys, id);
      RestrictedIsPlain({id});
      queue.Erase(graph, id);
      RemovedIsSound(was, graph.fetchCacheIteration, multiset(queue.queue), queue.nextSequence, exchange,
                     nextRequestId, id);
      graph.RemoveNode(id);
      losses := losses + LostWith(was, id);
      cancelled := cancelled + multiset{id};
    }

    // -------------------------------------------------------------- responses

    /** While a response is applied only nodes, queue and books change. */
    twostate predicate Applying()
      reads this
    {
      && processingResponse && old(processingResponse)
      && unchanged(`draining) && unchanged(`runningRequestCount) && unchanged(`nextRequestId)
      && unchanged(`nextPendingSequence) && unchanged(`answering) && unchanged(`script) && unchanged(`reports)
      && unchanged(`reported) && unchanged(`cancelled) && unchanged(`losses) && unchanged(`inverseAsked)
    }

    method Update(id: NodeId, n: FetchingNode, ghost idle: set<NodeId>)
      requires Valid(idle) && id in graph.nodes
      requires SameFetch(graph.nodes[id], n) && n.state.references == graph.nodes[id].state.references
      modifies graph`nodes
      ensures Valid(idle) && graph.nodes == old(graph.nodes)[id := n]
      ensures Undisturbed(old(graph.nodes), graph.nodes)
    {
      hide Sound, GraphOk, QueueOk, CountsOk, SameFetch;
      TouchedIsSound(graph.nodes, graph.fetchCacheIteration, multiset(queue.queue), queue.nextSequence, idle, exchange,
                     nextRequestId, id, n);
      graph.nodes := graph.nodes[id := n];
    }

    method Link(node: NodeId, from: NodeId, ghost idle: set<NodeId>)
      requires Valid(idle) && node in graph.nodes && from in graph.nodes && node != from
      modifies graph`nodes
      ensures Valid(idle) && graph.nodes == Linked(old(graph.nodes), node, from)
      ensures graph.nodes.Keys == old(graph.nodes.Keys)
      ensures Undisturbed(old(graph.nodes), graph.nodes)
      ensures forall a, b ::
        DependsOn(graph.nodes, a, b) <==> DependsOn(old(graph.nodes), a, b) || (a == node && b == from)
    {
      hide Sound, GraphOk, QueueOk, CountsOk, Undisturbed;
      LinkedIsSound(graph.nodes, idle, exchange, nextRequestId, node, from);
      LinkedKeepsQueue(multiset(queue.queue), queue.nextSequence, graph.nodes, node, from);
      graph.AddDependency(node, from);
    }

    function Now(): Progress
      reads this`asked, graph`nodes
    {
      Progress(graph.nodes, asked)
    }

    method NodeValidator(id: NodeId) returns (known: bool)
      modifies this`asked
      ensures known == validator(old(asked), id) && asked == old(asked) + 1
    {
      known := validator(asked, id);
      asked := asked + 1;
    }

    method Depend(id: NodeId, from: NodeId, ghost idle: set<NodeId>)
      requires Valid(idle) && id in graph.nodes && !from.Null? && id != from
      modifies graph`nodes, this`added
      ensures Valid(idle + {from}) && graph.nodes == DependentUnscheduled(old(graph.nodes), id, from)
    {
      hide Valid, Undisturbed, Added, Linked, SameFetch;
      AddNode(from, idle);
      OnlyForceDiffers(graph.nodes[from], graph.nodes[from].force || graph.nodes[id].force);
      Update(from, graph.nodes[from].(force := graph.nodes[from].force || graph.nodes[id].force), idle + {from});
      Link(id, from, idle + {from});
    }

    method ValidateDependency(id: NodeId, from: NodeId, ghost idle: set<NodeId>)
      requires processingResponse && Valid(idle) && id in graph.nodes
      modifies this, graph, queue
      ensures Valid(idle) && Applying() && exchange == old(exchange)
      ensures Now() == Validated(validator, old(Now()), id, from)
      ensures SameContents(old(graph.nodes), graph.nodes)
      decreases |script|, if draining then 0 else 1, 3
    {
      hide Valid, Undisturbed, SameContents, Rescheduled, Sound, DependentUnscheduled, Whole, NoStall;
      SameContentsOfSelf(graph.nodes);
      if from.Null? {
        return;
      }
      if id == from {
        return;
      }
      var known := NodeValidator(from);
      if known {
        return;
      }
      DependentIsUndisturbed(graph.nodes, idle, exchange, nextRequestId, id, from) by { SoundOfValid(idle); }
      Depend(id, from, idle);
      FetchNode(from, graph.nodes[from].pendingSequence, NODE_ONLY, false, idle);
    }

    lemma SoundOfValid(idle: set<NodeId>)
      requires Valid(idle)
      ensures Sound(graph.nodes, idle, exchange, nextRequestId)
    {
    }

    /** Logs a delivery and writes the node it went to. */
    method Deliver(id: NodeId, n: FetchingNode, ghost request: nat, ghost d: Delivery)
      requires Valid({}) && request in exchange.answers && d.description.node == id
      requires IsCurrent(graph.nodes, id, request) && SameFetch(graph.nodes[id], n)
      requires n.state.references == Collected(graph.nodes[id].state.references, id, d)
      modifies graph`nodes, this`exchange
      ensures Valid({}) && graph.nodes == old(graph.nodes)[id := n]
      ensures exchange == Logged(old(exchange), request, [d])
      ensures Undisturbed(old(graph.nodes), graph.nodes)
    {
      hide Sound, GraphOk, QueueOk, CountsOk, SameFetch, Collected;
      DeliveredIsWhole(graph.nodes, graph.fetchCacheIteration, multiset(queue.queue), queue.nextSequence, exchange,
                       nextRequestId, runningRequestCount, answering, request, id, d, n);
      graph.nodes := graph.nodes[id := n];
      exchange := Logged(exchange, request, [d]);
    }

    /** An inverse reference: the parent or the supertype. */
    method AddInverseReference(id: NodeId, reference: ReferenceDescription)
      requires processingResponse && Valid({}) && id in graph.nodes
      modifies this, graph, queue
      ensures Valid({}) && Applying() && exchange == old(exchange)
      ensures Now() == WithInverse(validator, old(Now()), id, reference)
      ensures Undisturbed(old(graph.nodes), graph.nodes)
      ensures id in graph.nodes
      ensures Places(reference, old(graph.nodes)[id].state, graph.nodes[id].state)
      decreases |script|, if draining then 0 else 1, 4
    {
      hide Valid, Undisturbed, SameContents, Places;
      ghost var was := graph.nodes;
      InvertedPlaces(graph.nodes[id], reference);
      Update(id, Inverted(graph.nodes[id], reference), {});
      ghost var mid := graph.nodes;
      ValidateDependency(id, reference.node, {});
      KeptAfter(was, mid, graph.nodes);
      ContentStays(mid, graph.nodes, id);
    }

    lemma ContentStays(was: Nodes, now: Nodes, id: NodeId)
      requires SameContents(was, now) && id in was
      ensures id in now && now[id].state == was[id].state
    {
    }

    /** The child a forward aggregating reference names, before it is linked and scheduled. */
    method AdoptChild(id: NodeId, reference: ReferenceDescription)
      requires processingResponse && Valid({}) && id in graph.nodes && !reference.node.Null?
      modifies this, graph, queue
      ensures Valid({reference.node}) && Applying() && exchange == old(exchange)
      ensures Now() == WithChildAdopted(validator, old(Now()), id, reference)
      ensures Undisturbed(old(graph.nodes), graph.nodes) && reference.node in graph.nodes && id in graph.nodes
      decreases |script|, if draining then 0 else 1, 4
    {
      hide Valid, Undisturbed, SameContents, Adopted, SameFetch;
      var child := reference.node;
      assert {} + {child} == {child};
      ghost var was := graph.nodes;
      AddNode(child, {});
      AddedIsUndisturbed(was, child);
      AdoptedIsSameFetch(graph.nodes[child], id, graph.nodes[id], reference);
      ghost var a := graph.nodes;
      Update(child, Adopted(graph.nodes[child], id, graph.nodes[id], reference), {child});
      ghost var b := graph.nodes;
      UndisturbedTwice(was, a, b);
      if reference.referenceType == HAS_PROPERTY {
        ValidateDependency(id, PROPERTY_TYPE, {child});
        KeptAfter(was, b, graph.nodes);
      }
    }

    /** A forward aggregating reference: the child is fetched too, and the two wait for each other. */
    method AddChild(id: NodeId, reference: ReferenceDescription)
      requires processingResponse && Valid({}) && id in graph.nodes && !reference.node.Null? && reference.node != id
      modifies this, graph, queue
      ensures Valid({}) && Applying() && exchange == old(exchange)
      ensures Now() == WithChild(validator, old(Now()), id, reference)
      ensures Undisturbed(old(graph.nodes), graph.nodes)
      ensures DependsOn(graph.nodes, id, reference.node) && DependsOn(graph.nodes, reference.node, id)
      decreases |script|, if draining then 0 else 1, 5
    {
      hide Valid, Undisturbed, Rescheduled, Linked, DependsOn;
      var child := reference.node;
      assert {} + {child} == {child};
      ghost var was := graph.nodes;
      AdoptChild(id, reference);
      ghost var a := graph.nodes;
      Link(child, id, {child});
      ghost var b := graph.nodes;
      UndisturbedTwice(was, a, b);
      Link(id, child, {child});
      UndisturbedTwice(was, b, graph.nodes);
      ghost var c := graph.nodes;
      RescheduledIsUndisturbed(c, {child}, exchange, nextRequestId, child, c[id].pendingSequence) by {
        SoundOfValid({child});
      }
      FetchNode(child, graph.nodes[id].pendingSequence, NODE_ONLY, false, {});
      UndisturbedTwice(was, c, graph.nodes);
    }

    /** Logs a delivery that adds nothing to the node it went to. */
    ghost method Log(id: NodeId, request: nat, d: Delivery)
      requires Valid({}) && request in exchange.answers && d.description.node == id
      requires IsCurrent(graph.nodes, id, request) && !IsNonHierarchical(d, id, d.reference)
      modifies `exchange
      ensures Valid({}) && exchange == Logged(old(exchange), request, [d])
    {
      hide Sound, GraphOk, QueueOk, CountsOk, Balanced;
      DeliveredIsWhole(graph.nodes, graph.fetchCacheIteration, multiset(queue.queue), queue.nextSequence, exchange,
                       nextRequestId, runningRequestCount, answering, request, id, d, graph.nodes[id]);
      assert graph.nodes == graph.nodes[id := graph.nodes[id]];
      exchange := Logged(exchange, request, [d]);
    }

    /** A forward non-hierarchical reference: the type definition, or one more in the list. */
    method AddOtherReference(id: NodeId, ghost request: nat, description: BrowseDescription,
                             reference: ReferenceDescription)
      requires processingResponse && Valid({}) && request in exchange.answers
      requires IsCurrent(graph.nodes, id, request) && description.node == id
      requires description.direction.Forward? && description.referenceType != AGGREGATES
      requires !reference.referenceType.Null? && !reference.node.Null? && reference.forward
      modifies this, graph, queue
      ensures Valid({}) && Applying() && Undisturbed(old(graph.nodes), graph.nodes)
      ensures Now() == WithNonHierarchical(validator, old(Now()), id, reference)
      ensures exchange == Logged(old(exchange), request, [Delivery(description, reference)])
      decreases |script|, if draining then 0 else 1, 5
    {
      hide Valid, Undisturbed, SameContents, Extended, SameFetch, Collected, Validated;
      ghost var was, d := graph.nodes, Delivery(description, reference);
      ExtendedIsCollected(graph.nodes[id], id, d);
      Deliver(id, Extended(graph.nodes[id], reference), request, d);
      ghost var late := graph.nodes;
      ValidateDependency(id, reference.node, {});
      KeptAfter(was, late, graph.nodes);
    }

    method AddFetchedReference(id: NodeId, ghost request: nat, description: BrowseDescription,
                               reference: ReferenceDescription)
      requires processingResponse && Valid({}) && request in exchange.answers
      requires IsCurrent(graph.nodes, id, request) && description.node == id
      requires IsAsked(description) && !TripsCheck(description, reference)
      modifies this, graph, queue
      ensures Valid({}) && Applying() && Undisturbed(old(graph.nodes), graph.nodes)
      ensures Now() == WithReference(validator, old(Now()), description, reference)
      ensures exchange == Logged(old(exchange), request, [Delivery(description, reference)])
      decreases |script|, if draining then 0 else 1, 6
    {
      hide Valid, Undisturbed, SameContents, DependsOn, SameFetch, Validated, WithChild, WithInverse, Places;
      hide WithNonHierarchical, IsCurrent;
      ghost var d := Delivery(description, reference);
      ghost var was := graph.nodes;
      CurrentIsThere(was, id, request);
      if reference.referenceType.Null? || reference.node.Null? {
        FailedIsSameFetch(graph.nodes[id], Bad);
        Update(id, graph.nodes[id].(status := Bad), {});
        CurrentStays(was, graph.nodes, id, request);
        Log(id, request, d);
        return;
      }
      ValidateDependency(id, reference.referenceType, {});
      SameContentsIsUndisturbed(was, graph.nodes);
      CurrentStays(was, graph.nodes, id, request);
      ghost var mid := graph.nodes;
      CurrentIsThere(mid, id, request);
      if description.direction.Inverse? {
        // Check: the browse is for hierarchical references
        assert description.referenceType == HIERARCHICAL_REFERENCES;
        if !reference.forward {
          AddInverseReference(id, reference);
          UndisturbedTwice(was, mid, graph.nodes);
          CurrentStays(was, graph.nodes, id, request);
        }
        Log(id, request, d);
      } else if description.referenceType == AGGREGATES {
        if reference.forward && reference.referenceType != HAS_SUBTYPE {
          AddChild(id, reference);
          UndisturbedTwice(was, mid, graph.nodes);
          CurrentStays(was, graph.nodes, id, request);
        }
        Log(id, request, d);
      } else {
        // Check: the browse is for non-hierarchical references
        assert description.referenceType == NON_HIERARCHICAL_REFERENCES;
        if !reference.forward {
          Log(id, request, d);
          return;
        }
        AddOtherReference(id, request, description, reference);
        UndisturbedTwice(was, mid, graph.nodes);
      }
    }

    method ApplyBrowseResult(request: nat, description: BrowseDescription, result: BrowseResult)
      requires processingResponse && Valid({}) && request in exchange.answers
      requires IsAsked(description)
      requires result.status.Good? ==> NoneTrips(description, result.references)
      modifies this, graph, queue
      ensures Valid({}) && Applying()
      ensures exchange == Logged(old(exchange), request,
        if result.status.Good? then DeliveriesOf(description, result.references) else [])
      ensures Now() == WithBrowse(validator, old(Now()), request, description, result)
      ensures IsCurrent(graph.nodes, description.node, request) ==> graph.nodes[description.node].referencesFetched
      ensures !IsCurrent(old(graph.nodes), description.node, request) ==> unchanged(graph) && unchanged(queue)
      decreases |script|, if draining then 0 else 1, 7
    {
      hide Valid, Undisturbed, TripsCheck, WithReference;
      var id := description.node;
      ghost var deliveries := if result.status.Good? then DeliveriesOf(description, result.references) else [];
      if id !in graph.nodes {
        LogStale(request, description, result);
        return;
      }
      if graph.nodes[id].fetchStarted.IsEmpty() || graph.nodes[id].requestId != request {
        LogStale(request, description, result);
        return;
      }
      Mark(id, graph.nodes[id].(referencesFetched := true), request);
      if !result.status.Good? {
        LoggedNothing(exchange, request);
        ghost var was := graph.nodes;
        FailedIsSameFetch(graph.nodes[id], result.status);
        Update(id, graph.nodes[id].(status := result.status), {});
        CurrentStays(was, graph.nodes, id, request);
        return;
      }
      ghost var x := exchange;
      ghost var marked := Now();
      LoggedNothing(exchange, request);
      assert result.references[..0] == [];
      for j := 0 to |result.references|
        invariant Valid({}) && Applying()
        invariant Now() == WithReferences(validator, marked, description, result.references[..j])
        invariant IsCurrent(graph.nodes, id, request) && graph.nodes[id].referencesFetched
        invariant request in exchange.answers && exchange == Logged(x, request, deliveries[..j])
      {
        ghost var was := graph.nodes;
        AddFetchedReference(id, request, description, result.references[j]);
        CurrentStays(was, graph.nodes, id, request);
        LoggedOneMore(x, request, deliveries, j);
        WithReferencesStep(validator, marked, description, result.references, j);
      }
      assert result.references[..|result.references|] == result.references;
      assert deliveries[..|result.references|] == deliveries;
    }

    ghost method LogStale(request: nat, description: BrowseDescription, result: BrowseResult)
      requires Valid({}) && request in exchange.answers && !IsCurrent(graph.nodes, description.node, request)
      modifies `exchange
      ensures Valid({})
      ensures exchange == Logged(old(exchange), request,
        if result.status.Good? then DeliveriesOf(description, result.references) else [])
    {
      LoggedNothing(exchange, request);
      if result.status.Good? {
        StaleIsSound(graph.nodes, {}, exchange, nextRequestId, request, description.node, description,
                     result.references);
        exchange := Logged(exchange, request, DeliveriesOf(description, result.references));
      }
    }

    /** Records that a part of the response reached the node. */
    method Mark(id: NodeId, n: FetchingNode, ghost request: nat)
      requires Valid({}) && IsCurrent(graph.nodes, id, request)
      requires n == graph.nodes[id].(attributesFetched := true) || n == graph.nodes[id].(referencesFetched := true)
      modifies graph`nodes
      ensures Valid({}) && graph.nodes == old(graph.nodes)[id := n] && IsCurrent(graph.nodes, id, request)
    {
      hide Sound, GraphOk, QueueOk, CountsOk, Balanced;
      MarkedIsSound(graph.nodes, graph.fetchCacheIteration, multiset(queue.queue), queue.nextSequence, exchange,
                    nextRequestId, id, request, n);
      graph.nodes := graph.nodes[id := n];
      assert graph.nodes.Keys == old(graph.nodes.Keys);
    }

    method OnBrowseResult(request: nat, status: Status, descriptions: seq<BrowseDescription>,
                          results: seq<BrowseResult>)
      requires Whole() && request in exchange.toBrowse && exchange.toBrowse[request] == descriptions
      requires PassesChecks(descriptions, EffectiveBrowse(status, |descriptions|, results))
      modifies this, graph, queue
      ensures Whole() && Returns(0, request)
      ensures if draining then runningRequestCount == old(runningRequestCount) - 1 else NoStall()
      ensures request in exchange.answers &&
        exchange.answers[request] == Deliveries(descriptions, EffectiveBrowse(status, |descriptions|, results))
      ensures request < old(nextRequestId) && request !in exchange.toBrowse
      ensures Cancellable() <= old(Cancellable()) && (Invertible() ==> old(Invertible()))
      ensures Settles(WithBrowses(validator, old(Now()), request, descriptions,
                                  EffectiveBrowse(status, |descriptions|, results)), multiset{})
      ensures AllLastWords(old(graph.nodes), request, exchange.answers[request],
                           WithBrowses(validator, old(Now()), request, descriptions,
                                       EffectiveBrowse(status, |descriptions|, results)).nodes)
      decreases |script|, if draining then 0 else 1, 12
    {
      hide WithBrowses, CompleteNodes, ReportsExactly, Valid, Settled, PassesChecks, EffectiveBrowse, Deliveries;
      hide StaleStays, Asks, Underway, Told, Restricted, Cancellable, Entered, Mentioned;
      hide Plain, ScriptInverts, AllLastWords, BrowseFailed;
      ghost var was, next, x, entered := graph.nodes, nextRequestId, exchange, added;
      ApplyBrowse(request, status, descriptions, results);
      EnteredMore(entered, added, was.Keys, graph.nodes.Keys);
      ghost var left, answered := graph.nodes, exchange;
      ghost var mid := added;
      Conclude();
      NoneEntered(mid, added, left.Keys, left.Keys);
      StaleStaysTwice(was, left, graph.nodes, next, next);
      AsksTwice(x, answered, exchange, next, next, 0, request);
      AsksDone(x, exchange, next, 0, request);
    }

    /** `OnBrowseResult` up to the notification. */
    method ApplyBrowse(request: nat, status: Status, descriptions: seq<BrowseDescription>, results: seq<BrowseResult>)
      requires Whole() && request in exchange.toBrowse && exchange.toBrowse[request] == descriptions
      requires PassesChecks(descriptions, EffectiveBrowse(status, |descriptions|, results))
      modifies this, graph, queue
      ensures Valid({}) && answering == 0 && !processingResponse
      ensures draining == old(draining) && script == old(script) && reports == old(reports)
      ensures nextRequestId == old(nextRequestId) && runningRequestCount == old(runningRequestCount) - 1
      ensures Now() == WithBrowses(validator, old(Now()), request, descriptions,
                                   EffectiveBrowse(status, |descriptions|, results))
      ensures unchanged(`reported) && unchanged(`cancelled) && unchanged(`losses) && unchanged(`nextPendingSequence)
      ensures Mentioned() && Plain() && unchanged(`inverseAsked)
      ensures Entered(old(added), added, old(graph.nodes.Keys), graph.nodes.Keys)
      ensures StaleStays(old(graph.nodes), graph.nodes, nextRequestId)
      ensures Asks(old(exchange), exchange, nextRequestId, 0, request) && 0 < request < nextRequestId
      ensures request !in old(exchange.answers)
      ensures exchange.answers ==
        old(exchange.answers)[request := Deliveries(descriptions, EffectiveBrowse(status, |descriptions|, results))]
      ensures AllLastWords(old(graph.nodes), request, exchange.answers[request], graph.nodes)
      ensures !status.Good? || |results| != |descriptions| ==>
        graph.nodes == BrowseFailed(old(graph.nodes), request, descriptions, if status.Good? then Bad else status)
      decreases |script|, if draining then 0 else 1, 11
    {
      hide Valid, PassesChecks, Settled, StaleStays, WithBrowses, EffectiveBrowse, Deliveries, Entered;
      hide MentionsOk, LossesOk, Plain, NoMoreInverse, AllLastWords, BrowseFailed, StartsNode;
      SoundOfValid({});
      SoundStarts(graph.nodes, {}, exchange, nextRequestId);
      WordsOfBrowses(validator, Now(), request, descriptions, EffectiveBrowse(status, |descriptions|, results));
      if !status.Good? || |results| != |descriptions| {
        FailedBrowse(validator, Now(), request, status, descriptions, results);
      }
      ghost var x, effective := exchange, EffectiveBrowse(status, |descriptions|, results);
      BrowsesStale(validator, Now(), request, descriptions, effective, nextRequestId);
      BrowsesMentions(validator, Now(), reported + cancelled, losses, request, descriptions, effective);
      OutstandingIsIssued(request);
      AnswerBrowse(request, descriptions, EffectiveBrowse(status, |descriptions|, results));
      AsksAllBut(x, exchange, nextRequestId, request);
      StaysPlain();
      EnteredOnly();
    }

    /** The answer is logged and applied, and the request is done. */
    method AnswerBrowse(request: nat, descriptions: seq<BrowseDescription>, results: seq<BrowseResult>)
      requires Valid({}) && answering == 0 && !processingResponse
      requires request in exchange.toBrowse && exchange.toBrowse[request] == descriptions
      requires |results| == |descriptions| && PassesChecks(descriptions, results)
      modifies this, graph, queue
      ensures Valid({}) && answering == 0 && !processingResponse
      ensures unchanged(`draining) && unchanged(`script) && unchanged(`reports) && unchanged(`nextRequestId)
      ensures unchanged(`reported) && unchanged(`cancelled) && unchanged(`losses) && unchanged(`inverseAsked)
      ensures unchanged(`nextPendingSequence) && runningRequestCount == old(runningRequestCount) - 1
      ensures Now() == WithBrowses(validator, old(Now()), request, descriptions, results)
      ensures request !in old(exchange.answers)
      ensures exchange == old(exchange).(toBrowse := old(exchange.toBrowse) - {request},
                                         answers := old(exchange.answers)[request := Deliveries(descriptions, results)])
      decreases |script|, if draining then 0 else 1, 10
    {
      hide Valid, PassesChecks, WithBrowses, Deliveries;
      BeginAnswer(request);
      processingResponse := true;
      ApplyBrowseResults(request, descriptions, results);
      processingResponse := false;
      EndBrowse(request);
    }

    twostate lemma StaysPlain()
      requires old(Plain()) && unchanged(`inverseAsked) && NoMoreInverse(old(graph.nodes), graph.nodes)
      requires forall r :: r in exchange.toBrowse ==>
        r in old(exchange).toBrowse && exchange.toBrowse[r] == old(exchange).toBrowse[r]
      ensures Plain()
    {
      hide Uninverted, NoMoreInverse;
      if !inverseAsked {
        StaysUninverted(old(graph.nodes), old(exchange), graph.nodes, exchange);
      }
    }

    twostate lemma EnteredOnly()
      requires old(Valid({})) && Valid({}) && unchanged(`reported) && unchanged(`cancelled)
      requires old(graph.nodes).Keys <= graph.nodes.Keys
      ensures Entered(old(added), added, old(graph.nodes.Keys), graph.nodes.Keys)
    {
      hide Sound, GraphOk, QueueOk, CountsOk, Balanced, Entered;
      EnteredExactly(old(added), added, reported, cancelled, old(graph.nodes.Keys), graph.nodes.Keys);
    }

    lemma OutstandingIsIssued(request: nat)
      requires Valid({}) && (request in exchange.toRead || request in exchange.toBrowse)
      ensures 0 < request < nextRequestId
    {
    }

    ghost method BeginAnswer(request: nat)
      requires Valid({}) && answering == 0 && request in exchange.toBrowse
      modifies `answering, `exchange
      ensures Valid({}) && answering == request && request !in old(exchange.answers)
      ensures exchange == old(exchange).(answers := old(exchange.answers)[request := []])
    {
      hide Sound, GraphOk, QueueOk, CountsOk, Balanced;
      StartAnswer(graph.nodes, exchange, nextRequestId, runningRequestCount, request);
      answering := request;
      exchange := exchange.(answers := exchange.answers[request := []]);
    }

    method EndBrowse(ghost request: nat)
      requires Valid({}) && answering == request && request in exchange.toBrowse && exchange.toBrowse[request] == []
      modifies `answering, `exchange, `runningRequestCount
      ensures Valid({}) && answering == 0 && exchange == old(exchange).(toBrowse := old(exchange.toBrowse) - {request})
      ensures runningRequestCount == old(runningRequestCount) - 1
    {
      hide Sound, GraphOk, QueueOk, CountsOk, Balanced;
      FinishBrowse(graph.nodes, exchange, nextRequestId, runningRequestCount, request);
      runningRequestCount := runningRequestCount - 1;
      exchange := exchange.(toBrowse := exchange.toBrowse - {request});
      answering := 0;
    }

    method EndRead(ghost request: nat)
      requires Valid({}) && answering == 0 && request in exchange.toRead && exchange.toRead[request] == []
      modifies `exchange, `runningRequestCount
      ensures Valid({}) && exchange == old(exchange).(toRead := old(exchange.toRead) - {request})
      ensures runningRequestCount == old(runningRequestCount) - 1
    {
      hide Sound, GraphOk, QueueOk, CountsOk, Balanced;
      FinishRead(graph.nodes, exchange, nextRequestId, runningRequestCount, request);
      runningRequestCount := runningRequestCount - 1;
      exchange := exchange.(toRead := exchange.toRead - {request});
    }

    /** The loop of `OnBrowseResult`. */
    method ApplyBrowseResults(request: nat, descriptions: seq<BrowseDescription>, results: seq<BrowseResult>)
      requires processingResponse && Valid({}) && answering == request
      requires request in exchange.toBrowse && exchange.toBrowse[request] == descriptions
      requires request in exchange.answers && exchange.answers[request] == []
      requires |results| == |descriptions| && PassesChecks(descriptions, results)
      modifies this, graph, queue
      ensures Valid({}) && Applying()
      ensures request in exchange.toBrowse && exchange.toBrowse[request] == []
      ensures exchange == old(exchange).(toBrowse := old(exchange.toBrowse)[request := []],
                                         answers := old(exchange.answers)[request := Deliveries(descriptions, results)])
      ensures Now() == WithBrowses(validator, old(Now()), request, descriptions, results)
      decreases |script|, if draining then 0 else 1, 9
    {
      hide Valid, PassesChecks;
      ghost var before, start := exchange, Now();
      PassesChecksOf(descriptions, results, 0);
      for i := 0 to |descriptions|
        invariant Valid({}) && Applying()
        invariant PassesChecks(descriptions[..i], results[..i])
        invariant Now() == WithBrowses(validator, start, request, descriptions[..i], results[..i])
        invariant exchange == before.(toBrowse := before.toBrowse[request := descriptions[i..]],
                                      answers := before.answers[request := Deliveries(descriptions[..i], results[..i])])
      {
        PassesCheck(descriptions, results, i);
        ApplyNextBrowse(request, descriptions[i], results[i]);
        DeliveriesStep(descriptions, results, i);
        PassesChecksOf(descriptions, results, i + 1);
        WithBrowsesStep(validator, start, request, descriptions, results, i);
      }
      assert descriptions[..|descriptions|] == descriptions && results[..|descriptions|] == results;
    }

    /** Applies the next result of the Browse being answered. */
    method ApplyNextBrowse(request: nat, description: BrowseDescription, result: BrowseResult)
      requires processingResponse && Valid({}) && answering == request && request in exchange.answers
      requires request in exchange.toBrowse && exchange.toBrowse[request] != []
      requires exchange.toBrowse[request][0] == description
      requires result.status.Good? ==> NoneTrips(description, result.references)
      modifies this, graph, queue
      ensures Valid({}) && Applying()
      ensures Now() == WithBrowse(validator, old(Now()), request, description, result)
      ensures exchange == WithToBrowse(
        Logged(old(exchange), request,
               if result.status.Good? then DeliveriesOf(description, result.references) else []),
        request, old(exchange).toBrowse[request][1..])
      decreases |script|, if draining then 0 else 1, 8
    {
      hide Sound, GraphOk, QueueOk, CountsOk, TripsCheck, Balanced, Deliveries;
      NextIsAsked(exchange, nextRequestId, runningRequestCount, answering, request);
      ApplyBrowseResult(request, description, result);
      NextBrowse(graph.nodes, exchange, nextRequestId, runningRequestCount, request);
      exchange := WithToBrowse(exchange, request, exchange.toBrowse[request][1..]);
    }

    method OnReadResult(request: nat, status: Status, readIds: seq<ReadValueId>, results: seq<DataValue>)
      requires Whole() && request in exchange.toRead && exchange.toRead[request] == readIds
      modifies this, graph, queue
      ensures Whole() && Returns(request, 0)
      ensures if draining then runningRequestCount == old(runningRequestCount) - 1 else NoStall()
      ensures request < old(nextRequestId) && request !in exchange.toRead
      ensures Cancellable() <= old(Cancellable()) && (Invertible() ==> old(Invertible()))
      ensures Settles(WithReads(validator, old(Now()), request, readIds,
                                EffectiveRead(status, |readIds|, results)), multiset{})
      ensures AllLastValues(old(graph.nodes), request, readIds, EffectiveRead(status, |readIds|, results),
                            WithReads(validator, old(Now()), request, readIds,
                                      EffectiveRead(status, |readIds|, results)).nodes)
      decreases |script|, if draining then 0 else 1, 11
    {
      hide WithReads, CompleteNodes, ReportsExactly, Valid, Settled, EffectiveRead;
      hide StaleStays, Asks, Underway, Told, Restricted, Cancellable, Entered, Mentioned;
      hide Plain, ScriptInverts, AllLastValues, ReadFailed;
      ghost var was, next, x, entered := graph.nodes, nextRequestId, exchange, added;
      ApplyRead(request, status, readIds, results);
      EnteredMore(entered, added, was.Keys, graph.nodes.Keys);
      ghost var left, answered := graph.nodes, exchange;
      ghost var mid := added;
      Conclude();
      NoneEntered(mid, added, left.Keys, left.Keys);
      StaleStaysTwice(was, left, graph.nodes, next, next);
      AsksTwice(x, answered, exchange, next, next, request, 0);
      AsksDone(x, exchange, next, request, 0);
    }

    /** `OnReadResult` up to the notification. */
    method ApplyRead(request: nat, status: Status, readIds: seq<ReadValueId>, results: seq<DataValue>)
      requires Whole() && request in exchange.toRead && exchange.toRead[request] == readIds
      modifies this, graph, queue
      ensures Valid({}) && answering == 0 && !processingResponse
      ensures draining == old(draining) && script == old(script) && reports == old(reports)
      ensures nextRequestId == old(nextRequestId) && runningRequestCount == old(runningRequestCount) - 1
      ensures unchanged(`reported) && unchanged(`cancelled) && unchanged(`losses) && unchanged(`nextPendingSequence)
      ensures Mentioned() && Plain() && unchanged(`inverseAsked)
      ensures Entered(old(added), added, old(graph.nodes.Keys), graph.nodes.Keys)
      ensures StaleStays(old(graph.nodes), graph.nodes, nextRequestId)
      ensures Asks(old(exchange), exchange, nextRequestId, request, 0) && 0 < request < nextRequestId
      ensures Now() == WithReads(validator, old(Now()), request, readIds, EffectiveRead(status, |readIds|, results))
      ensures exchange == old(exchange).(toRead := old(exchange.toRead) - {request})
      ensures AllLastValues(old(graph.nodes), request, readIds, EffectiveRead(status, |readIds|, results), graph.nodes)
      ensures !status.Good? || |results| != |readIds| ==>
        graph.nodes == ReadFailed(old(graph.nodes), request, readIds, if status.Good? then Bad else status)
      decreases |script|, if draining then 0 else 1, 10
    {
      hide Valid, Settled, StaleStays, WithReads, EffectiveRead, Entered, MentionsOk, LossesOk;
      hide Plain, NoMoreInverse, AllLastValues, ReadFailed, StartsNode;
      SoundOfValid({});
      SoundStarts(graph.nodes, {}, exchange, nextRequestId);
      ValuesOfReads(validator, Now(), request, readIds, EffectiveRead(status, |readIds|, results));
      if !status.Good? || |results| != |readIds| {
        FailedRead(validator, Now(), request, status, readIds, results);
      }
      ghost var effective := EffectiveRead(status, |readIds|, results);
      ReadsStale(validator, Now(), request, readIds, effective, nextRequestId);
      ReadsMentions(validator, Now(), reported + cancelled, losses, request, readIds, effective);
      OutstandingIsIssued(request);
      AnswerRead(request, readIds, EffectiveRead(status, |readIds|, results));
      StaysPlain();
      EnteredOnly();
    }

    /** The values are applied, and the request is done. */
    method AnswerRead(request: nat, readIds: seq<ReadValueId>, results: seq<DataValue>)
      requires Valid({}) && answering == 0 && !processingResponse
      requires request in exchange.toRead && exchange.toRead[request] == readIds && |results| == |readIds|
      modifies this, graph, queue
      ensures Valid({}) && answering == 0 && !processingResponse
      ensures unchanged(`draining) && unchanged(`script) && unchanged(`reports) && unchanged(`nextRequestId)
      ensures unchanged(`reported) && unchanged(`cancelled) && unchanged(`losses) && unchanged(`inverseAsked)
      ensures unchanged(`nextPendingSequence) && runningRequestCount == old(runningRequestCount) - 1
      ensures Now() == WithReads(validator, old(Now()), request, readIds, results)
      ensures exchange == old(exchange).(toRead := old(exchange.toRead) - {request})
      decreases |script|, if draining then 0 else 1, 9, 1
    {
      hide Valid, WithReads;
      processingResponse := true;
      ApplyReadResults(request, readIds, results);
      processingResponse := false;
      EndRead(request);
    }

    /** The loop of `OnReadResult`. */
    method ApplyReadResults(request: nat, readIds: seq<ReadValueId>, results: seq<DataValue>)
      requires processingResponse && Valid({}) && answering == 0 && |results| == |readIds|
      requires request in exchange.toRead && exchange.toRead[request] == readIds
      modifies this, graph, queue
      ensures Now() == WithReads(validator, old(Now()), request, readIds, results)
      ensures Valid({}) && Applying() && exchange == WithToRead(old(exchange), request, [])
      decreases |script|, if draining then 0 else 1, 9
    {
      hide Valid;
      ghost var x, start := exchange, Now();
      assert WithToRead(x, request, readIds) == x;
      for i := 0 to |readIds|
        invariant Valid({}) && Applying()
        invariant exchange == WithToRead(x, request, readIds[i..])
        invariant Now() == WithReads(validator, start, request, readIds[..i], results[..i])
      {
        ApplyNextRead(request, readIds[i], results[i]);
        WithReadsStep(validator, start, request, readIds, results, i);
      }
      assert readIds[..|readIds|] == readIds && results[..|readIds|] == results;
    }

    /** Applies the next value of the Read being answered. */
    method ApplyNextRead(request: nat, readId: ReadValueId, result: DataValue)
      requires processingResponse && Valid({}) && answering == 0
      requires request in exchange.toRead && exchange.toRead[request] != [] && exchange.toRead[request][0] == readId
      modifies this, graph, queue
      ensures Valid({}) && Applying()
      ensures Now() == WithRead(validator, old(Now()), request, readId, result)
      ensures exchange == WithToRead(old(exchange), request, old(exchange.toRead)[request][1..])
      decreases |script|, if draining then 0 else 1, 8
    {
      hide Sound, GraphOk, QueueOk, CountsOk, Balanced;
      ApplyReadResult(request, readId, result);
      NextRead(graph.nodes, exchange, nextRequestId, runningRequestCount, request);
      exchange := WithToRead(exchange, request, exchange.toRead[request][1..]);
    }

    method ApplyReadResult(request: nat, readId: ReadValueId, result: DataValue)
      requires processingResponse && Valid({})
      modifies this, graph, queue
      ensures Valid({}) && Applying() && exchange == old(exchange)
      ensures Now() == WithRead(validator, old(Now()), request, readId, result)
      ensures IsCurrent(graph.nodes, readId.node, request) ==> graph.nodes[readId.node].attributesFetched
      ensures !IsCurrent(old(graph.nodes), readId.node, request) ==> unchanged(graph) && unchanged(queue)
      decreases |script|, if draining then 0 else 1, 7
    {
      hide Valid, Undisturbed, SameContents, SetFetchedAttribute, SameFetch, WithRead, Validated;
      WithReadAfterMark(validator, Now(), request, readId, result);
      var id := readId.node;
      if id !in graph.nodes {
        return;
      }
      if graph.nodes[id].fetchStarted.IsEmpty() || graph.nodes[id].requestId != request {
        return;
      }
      Mark(id, graph.nodes[id].(attributesFetched := true), request);
      ghost var marked := graph.nodes;
      if !result.status.Good? {
        if readId.attribute.BrowseName? {
          FailedIsSameFetch(graph.nodes[id], result.status);
          Update(id, graph.nodes[id].(status := result.status), {});
          CurrentStays(marked, graph.nodes, id, request);
        }
        return;
      }
      SetAttributeIsSameFetch(graph.nodes[id], readId.attribute, result.value);
      var decoding := SetFetchedAttribute(graph.nodes[id], readId.attribute, result.value);
      Update(id, decoding.node, {});
      ghost var updated := graph.nodes;
      ValidateDependency(id, decoding.dependency, {});
      KeptAfter(marked, updated, graph.nodes);
      CurrentStays(marked, graph.nodes, id, request);
    }

    /** When every request is answered and no call is in progress, nothing is left, and every node that
        ever entered was reported to the handler or cancelled, once for each time it entered. */
    lemma NothingIsLost()
      requires Whole() && NoStall() && exchange.toRead == map[] && exchange.toBrowse == map[]
      ensures graph.nodes == map[] && queue.queue == [] && runningRequestCount == 0
      ensures forall id :: added[id] == ReportedIn(reports)[id] + cancelled[id]
    {
      hide Settled, Sound, CountsOk, GraphOk, QueueOk, ReportedIn;
      NoneQueued(queue.queue, queue.nextSequence, graph.nodes);
      AllAnswered(graph.nodes, runningRequestCount, exchange, nextRequestId);
    }

    /** As long as no call asked for inverse references, the answers that trip a check are those, and only
        those, that name a node as its own child. */
    lemma OnlyItselfTrips(request: nat, results: seq<BrowseResult>)
      requires Whole() && !inverseAsked && request in exchange.toBrowse && |results| == |exchange.toBrowse[request]|
      ensures PassesChecks(exchange.toBrowse[request], results)
        <==> NoneNamesItself(exchange.toBrowse[request], results)
    {
      hide Valid, Told, Mentioned, Settled, Uninverted;
      PassesIff(graph.nodes, exchange, request, results);
    }

    /** From any whole state to any later one: a node that was in the graph is in it still, or has been
        named in a report or cancelled since. */
    twostate lemma StaysOrLeaves(id: NodeId)
      requires old(Whole()) && Whole() && old(added) <= added && id in old(graph.nodes)
      ensures id in graph.nodes
        || ReportedIn(reports)[id] + cancelled[id] > ReportedIn(old(reports))[id] + old(cancelled)[id]
    {
      hide Settled, Sound, CountsOk, GraphOk, QueueOk, ReportedIn;
      LeftIsAccounted(old(added), old(reported), old(cancelled), old(graph.nodes.Keys),
                      added, reported, cancelled, graph.nodes.Keys, id);
    }
  }
}
