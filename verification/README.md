# Verification of the SCADA node services

Dafny models of the stateful cores of the repository, with proofs of what they promise. Each module
follows one source component: objects are classes whose fields the methods update, loops stay loops,
and each method is proved against a specification function or against the property itself.

* **Node fetching.** `FetchTypes`, `FetchingGraph` (FetchingNodeGraph.dfy), `FetchingQueue`
  (FetchQueue.dfy), `FetchProtocol`, `FetchRequests`, `FetchFields`, `FetchSteps`, `FetchMentions` and
  `NodeFetching` (NodeFetcher.dfy) model the asynchronous fetch engine: calls, Read and Browse responses,
  the mutable and possibly cyclic dependency graph, the binary heap of waiting nodes, the request window and
  cancellation by request id. `NodeFetcher` is the object; its completion handler really calls back into it
  while it runs. What the handler does at its successive invocations is a parameter (`script`), so every
  finite behaviour of a handler is covered; what the caller's cache answers is a parameter too
  (`validator`). The invariant `Whole` holds between any two steps: it contains the check that the source
  has disabled, the books that say that no node is lost, and that a node waits for every node its state
  mentions unless the caller has that one. What a batch asks for and what an answer makes of each field of a
  node are stated apart from the functions that build them. `Paths` holds reachability, shared with the sort
  and the address space.
* **Hierarchical sort.** `HierarchicalSort` models the recursive walk over node states, on arbitrary
  cyclic input.
* **Address space.** `ReferenceGraph` has the references by id and what deleting a subtree does to
  them; `AddressSpaces` has `Node` objects with two reference lists and cached type pointers, and the
  space that owns them.
* **Time series.** `TimedData` has the bounds and the in-place splice, `Aggregation` the streaming
  aggregation of time-ordered chunks over aligned intervals.
* **Event store.** `EventSets` has the ordered sets of event pointers as search trees whose elements
  change their rank in place, `EventStore` (EventStorage.dfy) the store, its index by source node and
  its observers, for every layout that a set may have.
* **Small machines and printers.** `EventAcks`, `NodeModels` (the callback queue of a node model),
  `NestedNodeIds` and `ScadaStrings`.

Some promises turn out to hold only under a condition that the code does not state. Each is given with
the exact condition:

* The key of a node that is already queued is overwritten in place, which keeps the heap order exactly
  when the entry still ranks not before its parent and not after its children
  (`FetchingQueue.RekeyKeepsHeapIff`). A repeated request breaks it unless the node is a leaf
  (`RefetchKeepsHeapIff`, `RefetchBreaksHeap`). A waiting child that a parent names takes the parent's
  sequence: an earlier one breaks the heap exactly where it ranks before the entry above
  (`ChildRekeyKeepsHeapIff`, `ChildRekeyBreaksHeap`), a later one, as for a child queued as a mere
  dependency, where it ranks after one below (`LaterChildKeepsHeapIff`, `LaterChildBreaksHeap`). The
  engine therefore does not promise to fetch in order of request; every other promise is proved without
  heap order.
* The check on inverse browse results can fire exactly for a node fetched with inverse
  non-hierarchical references (`FetchProtocol.InverseCheckTripsOnlyByFlag`). As long as no call asks for
  these, the only answers that trip a check are those that name a node as its own child
  (`NodeFetching.NodeFetcher.OnlyItselfTrips`). Responses are assumed to trip none
  (`FetchProtocol.PassesChecks`).
* A reported state mentions only nodes that are reported by then, cancelled or known to the caller
  (`FetchMentions.ReportIsClosed`), but for what a child has from its parent alone, the type of the
  reference to it and its type definition, when one that it waited for was cancelled
  (`FetchMentions.CancelledParentForgets`).
* How an upward stream of samples is cut into chunks does not matter exactly when no chunk holds a
  sample on the end of the interval of an earlier one (`Aggregation.ChunksDoNotMatter`,
  `Aggregation.ChunkMatters`). A stream passes the check on the count of samples exactly while each
  sample is in range of origin and width (`Aggregation.LeadingCheck`).
* Under an unknown aggregate a chunk that begins in the interval of the last one throws
  (`Aggregation.AggregateState.Process`, `Aggregation.UnknownAggregateThrows`).
* The list of all nodes of an address space names the root twice exactly when the root has a
  reference (`AddressSpaces.AddressSpaceImpl.GetAllNodes`, `AddressSpaces.RootListedTwice`).
* Clearing an address space leaves the ownership of its nodes in place, so that a node added later
  under an id that was owned before is destroyed at once (`AddressSpaces.AddressSpaceImpl.AddNode`,
  `AddressSpaces.AddressSpaceImpl.Clear`, `AddressSpaces.OwnedAgain`).
* On a cycle of hierarchical references the deletion of a node ends within no number of steps
  (`ReferenceGraph.CycleNeverEnds`, `ReferenceGraph.TwoNodesNeverEnd`).
* An event that is stored already is written over in place. That keeps the index by node exactly when its
  source stays (`EventStore.AddedIndexed`), although the comment at the update tolerates a change, and the
  order of the node's set exactly when its new time still ranks between those of its neighbours
  (`EventStore.AddedSorted`, `EventStore.BetweenNeighbours`).
* The check in the removal holds, for every layout of the set, exactly when nothing is searched or the
  source is that of the id and the new time still ranks where the event stands (`EventStore.FindableWhen`).
  It fails for an event acknowledged under another node with a set (`EventStore.MovedEventAborts`), for one
  whose time moved past others (`EventStore.LateAcknowledgementAborts`), and in every layout for one moved
  before its predecessor (`EventStore.EarlyAcknowledgementAborts`). It also fails for one that did not change
  at all, after another was replaced (`EventStore.ReplacedEventHidesNext`). A batch that changes neither
  source nor time of any id goes through (`EventStore.SteadyBatch`).
* An event replaced under another source and acknowledged there leaves a pointer to freed memory in the
  first set, and the next event of that node runs into it (`EventStore.MovedEventDangles`).
* Clearing the event store reports an empty set only to nodes with observers of their own
  (`EventStore.EventStorage.Clear`, `EventStore.StaleAfterClear`).
* Nested ids and printed ids are read back exactly under the conditions in
  `NestedNodeIds.TakesApart` and `ScadaStrings.ReadsBack`; `NestedNodeIds.NumberLikeParent`,
  `NestedNodeIds.SeparatorInName` and `ScadaStrings.NumberLikeText` come back as other ids.

## Model

| member | source | states |
|---|---|---|
| `FetchingGraph.FetchingNodeGraph.GetFetchedNodes` | node_service/fetching_node_graph.cpp:51-114 | for every graph, with cycles, and every order of the map: removes and reports exactly the nodes whose whole closure of dependencies at entry is fetched, each once, with its state or its error; the rest keeps its edges among itself and all its fields but the memo |
| `FetchingGraph.FetchingNodeGraph.IsFetchedRecursively` | node_service/fetching_node_graph.cpp:55-77 | the recursion ends; a positive answer has marked a set closed under dependencies of fetched nodes, a negative one means that some dependency is not fetched, although nodes in progress count as fetched |
| `FetchingGraph.FetchingNodeGraph.Query` | node_service/fetching_node_graph.cpp:87-94 | a walk in a fresh iteration answers exactly whether the closure is fetched, whatever older memos say |
| `FetchingGraph.ExploredIsComplete` | node_service/fetching_node_graph.cpp:62-76 | what a positive walk has visited is complete: the optimistic memo on cycles is right |
| `FetchingGraph.RestrictedComplete` | node_service/fetching_node_graph.cpp:87-109 | erasing complete nodes in the middle of the loop changes for no other node whether it is complete |
| `FetchingGraph.ReleaseOne` | node_service/fetching_node_graph.cpp:96-108 | one release keeps the books of the loop: what is gone, what is reported, what is left to decide |
| `FetchingGraph.ReportOneMore` | node_service/fetching_node_graph.cpp:98-103 | a released node enters the report once, as a state when its status is good and as an error otherwise |
| `FetchingGraph.FetchingNodeGraph.ClearDependsOf` | node_service/fetching_node.cpp:20-24 | erases the node from the dependents of all it depends on, and nothing else |
| `FetchingGraph.FetchingNodeGraph.ClearDependentNodes` | node_service/fetching_node.cpp:14-18 | erases the node from the dependencies of all its dependents, and nothing else |
| `FetchingGraph.WithoutBothIsRestricted` | node_service/fetching_node_graph.cpp:42-46 | clearing both sides and erasing the entry is removing the node with every edge that touches it |
| `FetchingGraph.RestrictedKeepsEdges` | node_service/fetching_node_graph.cpp:35-49 | after a removal the two edge lists are still exact converses, free of duplicates and loops, and confined to live nodes |
| `FetchingGraph.LinkedKeepsEdges` | node_service/fetching_node_graph.cpp:116-121 | a new dependency keeps the edge lists exact converses and adds that one edge only |
| `FetchingGraph.FetchingNodeGraph.AddNode` | node_service/fetching_node_graph.cpp:24-33 | a known node stays as it is, a new one is default-constructed without edges |
| `FetchingGraph.FetchingNodeGraph.RemoveNode` | node_service/fetching_node_graph.cpp:35-49 | an unknown id changes nothing; otherwise the node and all edges at it are gone and all else stays |
| `FetchingGraph.FetchingNodeGraph.AddDependency` | node_service/fetching_node_graph.cpp:116-121 | both sides of the edge are recorded once; a node may not depend on itself |
| `FetchingQueue.FrontIsLeast` | node_service/fetch_queue.h:20-30 | in a heap the front entry has the least pending sequence, and of equal ones the least insertion sequence |
| `FetchingQueue.PushHeap` | node_service/fetch_queue.cpp:21-22 | restores the heap after an append, permuting the entries |
| `FetchingQueue.MakeHeap` | node_service/fetch_queue.cpp:51 | makes a heap of entries in any order |
| `FetchingQueue.PopHeap` | node_service/fetch_queue.cpp:31-32 | removes the front entry and restores the heap |
| `FetchingQueue.EraseHeap` | node_service/fetch_queue.cpp:44-51 | removes any entry and leaves a heap, whatever order there was |
| `FetchingQueue.FetchQueue.Push` | node_service/fetch_queue.cpp:7-23 | queues a node that is not pending once, sets its flag, and keeps the entries equal to the pending nodes; neither check fires |
| `FetchingQueue.FetchQueue.Pop` | node_service/fetch_queue.cpp:25-33 | takes out the front entry and clears its flag; in a heap nothing left ranks before it, by pending sequence and then by insertion |
| `FetchingQueue.FetchQueue.Erase` | node_service/fetch_queue.cpp:35-54 | afterwards the node is neither queued nor pending and all others are as before; neither check fires |
| `FetchingQueue.FetchQueue.Find` | node_service/fetch_queue.cpp:56-68 | finds the entry of a node exactly when it is queued |
| `FetchingQueue.FetchQueue.Count` | node_service/fetch_queue.cpp:70-75 | the pending flag tells whether the node is in the queue |
| `FetchingQueue.RekeyKeepsHeapIff` | node_service/node_fetcher_impl.cpp:170-173 | overwriting the key of a queued node with any other keeps the heap if and only if the entry ranks not before its parent and not after its children |
| `FetchingQueue.RefetchKeepsHeapIff` | node_service/node_fetcher_impl.cpp:138-173 | a repeated request, whose key is beyond all others, keeps the heap if and only if the node is a leaf of it |
| `FetchingQueue.ChildRekeyKeepsHeapIff` | node_service/node_fetcher_impl.cpp:712 | a waiting child that takes a key from its parent that is not after its own keeps the heap if and only if it ranks not before the entry above it |
| `FetchingQueue.LaterChildKeepsHeapIff` | node_service/node_fetcher_impl.cpp:712 | a waiting child that takes a key from its parent that is not before its own keeps the heap if and only if it ranks not after the entries below it |
| `FetchingQueue.RefetchBreaksHeap` | node_service/node_fetcher_impl.cpp:138-173 | two waiting nodes, the first of which is requested again |
| `FetchingQueue.ChildRekeyBreaksHeap` | node_service/node_fetcher_impl.cpp:712 | a waiting leaf named by a node of an earlier sequence |
| `FetchingQueue.LaterChildBreaksHeap` | node_service/node_fetcher_impl.cpp:712 | a waiting dependency of key 0 named as a child by a node of a late sequence |
| `FetchProtocol.RescheduledCovers` | node_service/node_fetcher_impl.cpp:143-173 | a requested node ends up waiting for at least what was asked, with its progress dropped, or stays in a started fetch that covers it; a forced request always waits anew |
| `FetchProtocol.RescheduledAnew` | node_service/node_fetcher_impl.cpp:149-173 | what waits anew waits at the new sequence for all it waited for and what is asked, with references, status, request and progress of a fetch given up dropped; all else it says stays |
| `FetchTypes.StatusBits` | node_service/node_fetch_status.h:18-41 | joining statuses is the bitwise or of the flags, covering is the bitwise and, and no two statuses have the same flags |
| `FetchFields.DependentJoins` | node_service/node_fetcher_impl.cpp:778-785 | a dependency waits to be fetched at the sequence it has, and is forced if the node that needs it is; no other node's force or sequence changes |
| `FetchFields.ChildJoins` | node_service/node_fetcher_impl.cpp:691-712 | a child waits at the sequence of its parent, and is forced if the parent is |
| `FetchProtocol.RescheduledOk` | node_service/node_fetcher_impl.cpp:149-173 | scheduling establishes the disabled invariant for the node and fetches nothing |
| `FetchProtocol.RescheduledIsSound` | node_service/node_fetcher_impl.cpp:143-173 | scheduling keeps edges, invariants and the agreement of references with the last request |
| `FetchProtocol.InverseCheckTripsOnlyByFlag` | node_service/node_fetcher_impl.cpp:62-93 | a browse whose answer can trip the check on inverse references is built if and only if inverse non-hierarchical references were requested |
| `FetchSteps.PassesIff` | node_service/node_fetcher_impl.cpp:628-745 | for the browses of nodes fetched without inverse references, a response passes all checks if and only if it names no node as its own child |
| `NodeFetching.NodeFetcher.OnlyItselfTrips` | node_service/node_fetcher_impl.cpp:628-745 | over every run in which no call asked for inverse references: no answer to any request out trips the check on inverse references, and the other check trips if and only if a node is named as its own child |
| `FetchProtocol.ReadsAskAll` | node_service/node_fetcher_impl.cpp:260-266 | the Read of a batch asks for attributes of each node of it |
| `FetchProtocol.BrowsesAskAll` | node_service/node_fetcher_impl.cpp:284-290 | each node of a batch is browsed, or has its references marked fetched because there is nothing to browse |
| `FetchRequests.AttributesWanted` | node_service/node_fetcher_impl.cpp:40-60 | of a node are read the browse name, the display name and the data type, the class unless it is an instance property, the value if and only if it is a property, each once |
| `FetchRequests.ReferencesWanted` | node_service/node_fetcher_impl.cpp:62-93 | of a node are browsed its children if and only if it is no property, what it refers to unless it is an instance property, what refers to it if and only if asked for, its parent if and only if it is not the root and has neither parent nor reference type; each once |
| `FetchRequests.ReadsForWanted` | node_service/node_fetcher_impl.cpp:260-266 | the Read of a batch has exactly the attributes wanted of its nodes, each once |
| `FetchRequests.BrowsesForWanted` | node_service/node_fetcher_impl.cpp:284-290 | the Browse of a batch has exactly the browses wanted of its nodes, each once |
| `FetchProtocol.SentIsWhole` | node_service/node_fetcher_impl.cpp:241-290 | stamping a batch and asking for it turns taken nodes into nodes with an outstanding request, and the count stays within the window |
| `FetchProtocol.StaleIsSound` | node_service/node_fetcher_impl.cpp:602-613 | logging a response for a node that is gone, waiting again or stamped with another request keeps the references of every node those of its last request |
| `FetchSteps.StaleForGood` | node_service/node_fetcher_impl.cpp:461-470 | over any run of steps, each of which revives no request, a request once stale for a node is stale for it for ever |
| `FetchSteps.BrowsesStale` | node_service/node_fetcher_impl.cpp:539-600 | a whole Browse response, with all the nodes it adds, links and schedules, makes no stale request current for any node |
| `FetchSteps.ReadsStale` | node_service/node_fetcher_impl.cpp:379-441 | a whole Read response makes no stale request current for any node |
| `FetchSteps.StaleBrowseIgnored` | node_service/node_fetcher_impl.cpp:602-613 | anywhere in a Browse response, the result for a node for which the request is stale is passed over, whatever the results before it did |
| `FetchSteps.StaleReadIgnored` | node_service/node_fetcher_impl.cpp:461-470 | anywhere in a Read response, the value for a node for which the request is stale is passed over, whatever the values before it did |
| `FetchSteps.RescheduledSuperseded` | node_service/node_fetcher_impl.cpp:149-166 | asked for more than was started, or with force, a node gives up its request: no request issued so far is current for it |
| `FetchSteps.SentUnderway` | node_service/node_fetcher_impl.cpp:216-290 | taking a batch and sending it leaves every node as it was, or sent with a new request for all it waited for |
| `FetchSteps.UnderwayStale` | node_service/node_fetcher_impl.cpp:199-232 | sending revives no request |
| `FetchSteps.FetchedIsCovered` | node_service/node_fetcher_impl.cpp:129-176 | after a request, and after whatever was sent since, the node waits for or was started for at least what was asked |
| `FetchProtocol.CollectedIsSound` | node_service/node_fetcher_impl.cpp:736-741 | adding a delivered reference unless present keeps the references of a node exactly those that its last request delivered |
| `FetchFields.InvertedSays` | node_service/node_fetcher_impl.cpp:656-676 | an inverse reference is the supertype if its type says so, and else the parent with the type of the reference; no other field changes |
| `FetchFields.AdoptedSays` | node_service/node_fetcher_impl.cpp:691-703 | a child gets parent and reference type, and a property its class, its type definition and its marks; no other field changes |
| `FetchFields.ExtendedSays` | node_service/node_fetcher_impl.cpp:728-741 | a forward reference is the type definition if its type says so, and else is listed unless present; no other field changes |
| `FetchFields.ReferenceSays` | node_service/node_fetcher_impl.cpp:628-745 | for every delivered reference and every node: each field is what the reference says of the node, or is as it was; an improper reference fails the browsed node |
| `FetchFields.WordsOfBrowses` | node_service/node_fetcher_impl.cpp:539-600 | after a whole Browse response every node has the parent with the type of the reference, the supertype, the type definition and the property marks of the last logged delivery that says so and whose browse the request still concerned, and otherwise what it had |
| `FetchFields.CurrentThroughout` | node_service/node_fetcher_impl.cpp:611-615 | whether the request concerns a node stays the same while its response is applied |
| `FetchFields.DecodingReads` | node_service/node_fetcher_impl.cpp:484-537 | a decoded value is written to its own attribute, one of the wrong kind fails the node, and nothing else changes |
| `FetchFields.ValuesOfReads` | node_service/node_fetcher_impl.cpp:379-482 | after a whole Read response every node has of each attribute the last value that could be decoded and that it still waited for, the status of the last failure, and otherwise what it had |
| `FetchFields.BrowseFailsWhen` | node_service/node_fetcher_impl.cpp:549-556 | a Browse response counts as it is, or fails as a whole: by its status, or as bad when it has the wrong length |
| `FetchFields.FailedBrowse` | node_service/node_fetcher_impl.cpp:580-587 | a failed Browse response ends for exactly the nodes it asked about and still concerns, each with that error; no check trips |
| `FetchFields.FailedRead` | node_service/node_fetcher_impl.cpp:379-482 | a failed Read response ends for exactly the nodes it asked about and still concerns, with that error where it asked for the browse name |
| `FetchProtocol.DependentIsUndisturbed` | node_service/node_fetcher_impl.cpp:767-786 | a new dependency disturbs no node's own fetch, state or status |
| `FetchProtocol.ValidatedAwaits` | node_service/node_fetcher_impl.cpp:767-786 | after the validation a node depends on the other one, or the caller's cache knows it |
| `FetchProtocol.ReferenceAwaited` | node_service/node_fetcher_impl.cpp:628-745 | whatever reference type or target a fetched reference makes a node mention, the node depends on it unless the caller's cache knows it; no dependency is lost |
| `FetchProtocol.ChildAwaits` | node_service/node_fetcher_impl.cpp:693-712 | a child and its parent depend on each other, and the parent of a property waits for the property type |
| `FetchMentions.ReferenceMentions` | node_service/node_fetcher_impl.cpp:628-745 | with one more reference, every node still waits for each node that its state mentions, or that one is reported, cancelled or known |
| `FetchMentions.ChildMentions` | node_service/node_fetcher_impl.cpp:691-712 | adopting a child keeps that: the child waits for the type of the reference to it through its parent |
| `FetchMentions.BrowsesMentions` | node_service/node_fetcher_impl.cpp:539-600 | a whole Browse response keeps that for every node |
| `FetchMentions.ReadsMentions` | node_service/node_fetcher_impl.cpp:379-441 | a whole Read response keeps that for every node, data types included |
| `FetchMentions.ReleasedMentions` | node_service/node_fetcher_impl.cpp:312-315 | a release keeps that: what the released nodes waited for leaves with them |
| `FetchMentions.CancelledMentions` | node_service/node_fetcher_impl.cpp:178-197 | a cancellation keeps that, but for what the nodes that waited for the cancelled one have from their parents |
| `FetchMentions.ReportIsClosed` | node_service/node_fetcher_impl.cpp:312-377 | each node that a reported state mentions is in the same report, was reported or cancelled before, or is known to the caller; the type definition and the type of the reference from the parent only if the node lost none it waited for |
| `FetchMentions.CancelledParentForgets` | node_service/node_fetcher_impl.cpp:178-197 | a new child whose parent is cancelled waits for nothing and still mentions a reference type that is not fetched |
| `FetchProtocol.NextBrowse` | node_service/node_fetcher_impl.cpp:580-587 | after one browse result its node lacks no references that this request still owes |
| `FetchProtocol.NextRead` | node_service/node_fetcher_impl.cpp:379-440 | after one read result its node lacks no attributes that this request still owes |
| `FetchProtocol.FinishBrowse` | node_service/node_fetcher_impl.cpp:590-591 | the running count is positive when a Browse is answered and counts the unanswered requests afterwards |
| `FetchProtocol.FinishRead` | node_service/node_fetcher_impl.cpp:438-441 | the running count is positive when a Read is answered and counts the unanswered requests afterwards |
| `FetchProtocol.ReleasedIsSound` | node_service/node_fetcher_impl.cpp:312-313 | releasing the complete nodes keeps all invariants; no released node is queued or pointed to, and afterwards none is complete |
| `FetchProtocol.ReportedReferences` | node_service/node_fetcher_impl.cpp:736-741 | every forward non-hierarchical reference that is reported came with the node's last request, and every one that came is reported |
| `FetchProtocol.RemovedIsSound` | node_service/node_fetcher_impl.cpp:188-190 | cancelling a node keeps all invariants of the others |
| `FetchProtocol.LedgerAfterRelease` | node_service/node_fetcher_impl.cpp:312-376 | a release moves exactly the released nodes, once each, from the live side of the books to the reported side |
| `FetchProtocol.EnteredExactly` | node_service/fetching_node_graph.cpp:24-33 | where nothing is reported or cancelled, the books grow by exactly the nodes that are new in the graph |
| `FetchProtocol.LeftIsAccounted` | node_service/node_fetcher_impl.cpp:178-376 | where entries are only added, a node that is gone was reported or cancelled meanwhile |
| `FetchSteps.ExactReportIds` | node_service/node_fetcher_impl.cpp:312-377 | an exact report names each released node once, as a state or as an error and never as both: the ids in the reports are the nodes that were released |
| `FetchSteps.ReleasedWasStarted` | node_service/fetching_node_graph.cpp:96 | a complete node was started, so the check at its release holds |
| `FetchProtocol.AllAnswered` | node_service/node_fetcher_impl.cpp:199-310 | with no request outstanding and no stall, graph and running count are empty |
| `NodeFetching.NodeFetcher.Fetch` | node_service/node_fetcher_impl.cpp:129-141 | from any whole state: afterwards the node is in the graph and waits or was started for at least what was asked, and when it was asked for more than was started, or with force, none of the earlier requests concerns it; it is scheduled at the next sequence, every node is as scheduled or sent since, nothing is reported, cancelled or called back, and outside a drain nothing stalls; it enters the books exactly if it was not there |
| `NodeFetching.NodeFetcher.Enter` | node_service/node_fetcher_impl.cpp:129-137 | the node is in the graph, booked as entered exactly if it was not there, and all invariants but its own scheduling hold |
| `NodeFetching.NodeFetcher.FetchNode` | node_service/node_fetcher_impl.cpp:143-176 | schedules exactly the node that is asked for and then drains: every node is as it was or sent, no stale request is revived; while a response is applied it only queues |
| `NodeFetching.NodeFetcher.Cancel` | node_service/node_fetcher_impl.cpp:178-197 | an unknown id changes nothing; otherwise the node and its edges go, no earlier request concerns the id any more, the cancellation is booked, and no other than those the handler asks for, what becomes complete by it is released and reported exactly, and what is left is as it was or sent; only a cancellation takes from a node one that it waits for |
| `NodeFetching.NodeFetcher.Conclude` | node_service/node_fetcher_impl.cpp:192-194 | what ends every step: exactly the complete nodes leave and are reported, outside a drain nothing stalls, and unless the handler calls back the others are as they were or sent |
| `NodeFetching.NodeFetcher.FetchPendingNodes` | node_service/node_fetcher_impl.cpp:199-232 | the drain ends with an empty queue or fewer than two free slots, never over the window; no node enters or leaves, each is as it was or sent with a new request, no request out is answered, nothing is reported; it does nothing while a drain or a response is in progress |
| `NodeFetching.NodeFetcher.TakeBatch` | node_service/node_fetcher_impl.cpp:216-226 | takes a hundred nodes or all there are, which all waited, and starts exactly these for what they waited for; no taken node was started or wanted nothing, so neither check fires; no node is taken twice |
| `NodeFetching.NodeFetcher.TakeOne` | node_service/node_fetcher_impl.cpp:219-225 | the node at the front is taken and started with all it waited for |
| `NodeFetching.NodeFetcher.CollectReads` | node_service/node_fetcher_impl.cpp:260-266 | builds the Read of the whole batch; attributes count as fetched only where nothing is asked; it reads exactly what is wanted of each node, once |
| `NodeFetching.NodeFetcher.CollectBrowses` | node_service/node_fetcher_impl.cpp:284-290 | builds the Browse of the whole batch; references count as fetched only where nothing is asked; it browses exactly what is wanted of each node, once |
| `NodeFetching.NodeFetcher.IssueRequests` | node_service/node_fetcher_impl.cpp:241-310 | a fresh request id stamped on the batch; the Read and the Browse sent have, for each node of it, exactly the attributes and the browses that its property marks, its flag and its unknown parent call for, each once; two more running requests within the window, and a whole state |
| `NodeFetching.NodeFetcher.SendBatch` | node_service/node_fetcher_impl.cpp:241-310 | a batch with nothing to browse is answered at once inside the drain, which completes no node and calls no handler, and still takes a slot of the window; every node is as sent |
| `NodeFetching.NodeFetcher.Release` | node_service/node_fetcher_impl.cpp:312-315 | releases exactly the complete nodes, all of which were started, reported with the references of their last requests, and leaves none that could be released |
| `NodeFetching.NodeFetcher.NotifyFetchedNodes` | node_service/node_fetcher_impl.cpp:312-377 | the handler gets exactly the complete nodes, or is not called when there are none; whatever it calls, the state is whole afterwards, reports are only added and no stale request is revived; if it calls nothing, the others are untouched; the report is closed under what it mentions |
| `NodeFetching.NodeFetcher.Report` | node_service/node_fetcher_impl.cpp:312-377 | the complete nodes leave, and the books of what was reported are those of the reports the handler was given; each reported state mentions only nodes that are reported by then, cancelled or known |
| `NodeFetching.NodeFetcher.RunHandler` | node_service/node_fetcher_impl.cpp:376 | any sequence of calls by the handler ends in a whole state; it answers no request, revives none, and cancels no more often than its calls ask; a node leaves only by a report or a cancellation, which the books show, and mentions are lost only by cancellations |
| `NodeFetching.NodeFetcher.ValidateDependency` | node_service/node_fetcher_impl.cpp:767-786 | a null id, the node itself and a known id change nothing; any other is added, depended on and scheduled, with `force` passed on |
| `NodeFetching.NodeFetcher.AddChild` | node_service/node_fetcher_impl.cpp:691-712 | the child gets parent, reference type and property marks, the two depend on each other, and the child waits at the parent's sequence |
| `NodeFetching.NodeFetcher.AddInverseReference` | node_service/node_fetcher_impl.cpp:642-678 | the supertype, or parent and reference type, are overwritten and the named node is depended on; for a subtype reference the supertype is the named node and parent and reference type stay, for any other the parent is the named node with that reference type and the supertype stays |
| `NodeFetching.NodeFetcher.AddOtherReference` | node_service/node_fetcher_impl.cpp:714-744 | a forward non-hierarchical reference is written as specified and logged as delivered, its target is depended on, and no other node's fetch is disturbed |
| `NodeFetching.NodeFetcher.AddFetchedReference` | node_service/node_fetcher_impl.cpp:628-745 | does with one reference exactly what the specification says for each of its kinds, logs it as delivered, disturbs no other node's fetch; the two checks on the browse hold |
| `NodeFetching.NodeFetcher.ApplyBrowseResult` | node_service/node_fetcher_impl.cpp:602-626 | a stale result changes neither graph nor queue; a current one marks the references fetched and applies all of them, or the failure |
| `NodeFetching.NodeFetcher.ApplyBrowseResults` | node_service/node_fetcher_impl.cpp:576-588 | all results are applied in order and logged, and the request owes nothing |
| `NodeFetching.NodeFetcher.ApplyBrowse` | node_service/node_fetcher_impl.cpp:539-591 | a failed response or one of the wrong length fails each browse; one slot is freed and exactly this request is answered; nodes and log are exactly what the results say, and no stale request is revived; a failed one ends exactly the current nodes it asked about, with its error |
| `NodeFetching.NodeFetcher.AnswerBrowse` | node_service/node_fetcher_impl.cpp:576-591 | the results are applied and logged as the answer to this request, which frees one slot and leaves the books as they were |
| `NodeFetching.NodeFetcher.OnBrowseResult` | node_service/node_fetcher_impl.cpp:539-600 | from any whole state to a whole one without stall; the request is consumed and no other is; the first new report has exactly the nodes that the response completed, and unless the handler calls back the others are what the response made of them, or sent since; answers given stay as given, and no stale request is revived; of every node parent, reference type, supertype, type definition and property marks are those of the last word of the logged deliveries |
| `NodeFetching.NodeFetcher.ApplyReadResult` | node_service/node_fetcher_impl.cpp:458-482 | a stale value changes neither graph nor queue; a current one marks the attributes fetched and is decoded, and a failure counts for the browse name only |
| `NodeFetching.NodeFetcher.ApplyRead` | node_service/node_fetcher_impl.cpp:379-441 | a failed response or one of the wrong length fails each value; one slot is freed and exactly this request is answered; the nodes are exactly what the values say, and no stale request is revived; a failed one ends exactly the current nodes it asked about |
| `NodeFetching.NodeFetcher.AnswerRead` | node_service/node_fetcher_impl.cpp:379-441 | the values are applied in order and the request is done, which frees one slot and leaves the books as they were |
| `NodeFetching.NodeFetcher.OnReadResult` | node_service/node_fetcher_impl.cpp:379-456 | from any whole state, also inside a drain, to a whole one without stall; the request is consumed and no other is; the first new report has exactly the nodes that the response completed, and unless the handler calls back the others are what the response made of them, or sent since; no stale request is revived; of every node each attribute and the status are those of the last word of the values |
| `NodeFetching.NodeFetcher.NothingIsLost` | node_service/node_fetcher_impl.cpp:199-310 | once every request is answered, graph, queue and running count are empty, and every node is named in the reports given to the handler or was cancelled, in all as often as it entered |
| `NodeFetching.NodeFetcher.StaysOrLeaves` | node_service/node_fetcher_impl.cpp:129-456 | from any whole state to any later one: a node of the graph is in it still, or was named in a report or cancelled since |
| `FetchProtocol.SetAttributeIsSameFetch` | node_service/node_fetcher_impl.cpp:484-537 | decoding an attribute changes state and status only, and never the references |
| `HierarchicalSort.SortVisitor.VisitIndex` | common/node_state_util.cpp:91-102 | the recursion ends on any graph; what was open stays open, what is finished only grows, and the order stays good |
| `HierarchicalSort.SortVisitor.Traverse` | common/node_state_util.cpp:72-78 | the order is a permutation in which every edge leads back, or its end depends on its start in turn |
| `HierarchicalSort.SortVisitor.Collect` | common/node_state_util.cpp:80-89 | the states are moved into that order |
| `HierarchicalSort.NeighborsAreNamed` | common/node_state_util.cpp:31-58 | the walk goes from a state exactly to the first nodes with the ids it names: supertype, reference type, parent, type definition and data type, none of them null, and the reference types that a supertype and a type definition are set by |
| `HierarchicalSort.EdgesAreNamed` | common/node_state_util.cpp:20-63 | the edges are exactly the pairs in which one state names the id of the other, told by records and ids alone |
| `HierarchicalSort.SortNodesHierarchically` | common/node_state_util.cpp:67-116 | the result is a permutation of the input in which every node that a state names comes first unless it leads back, and input in which it does already stays as it is |
| `HierarchicalSort.DependencyComesFirst` | common/node_state_util.cpp:91-102 | on arbitrary cyclic input: for an edge from one node to another that cannot reach it back, the other comes first |
| `HierarchicalSort.AcyclicSortIsDownward` | common/node_state_util.cpp:67-116 | on acyclic input with distinct ids the result is a topological order, so sorting again changes nothing |
| `HierarchicalSort.ArrangeMultiset` | common/node_state_util.cpp:80-89 | arranging by a permutation keeps every state as often as it was |
| `HierarchicalSort.FinishOrdered` | common/node_state_util.cpp:98-101 | emitting a node after its neighbours keeps the order good, with the open nodes as witnesses of cycles |
| `AddressSpaces.Node.AddReference` | address_space/node.cpp:30-43 | appends to the list of the direction and caches the type definition or, in a type, the supertype |
| `AddressSpaces.Node.DeleteReference` | address_space/node.cpp:45-58 | erases the last such reference of the direction and clears the cache it fed |
| `AddressSpaces.EraseFromBack` | address_space/node.cpp:53-57 | the search from the back erases the last occurrence |
| `AddressSpaces.AddAllowed` | address_space/node.cpp:30-43 | the checks do not fire for a reference that is new and gives a node no second type definition or supertype |
| `AddressSpaces.StoredAfterAdd` | address_space/type_definition.cpp:14-25 | after an addition both lists and both caches of every node agree with the references |
| `AddressSpaces.StoredAfterDelete` | address_space/type_definition.cpp:27-36 | a stored reference passes the checks of its deletion, and afterwards lists and caches of every node agree with the references |
| `AddressSpaces.AddressSpaceImpl.AddNode` | address_space/address_space_impl.cpp:274-277 | the node joins without references; an owned node under an id that is still owned is destroyed, which leaves the space invalid, and that cannot be while the space owns nothing it does not hold |
| `AddressSpaces.AddressSpaceImpl.AddReference` | address_space/address_space_impl.cpp:279-286 | one reference more, stored forward in the source and inverse in the target, once; type definition and supertype stay unique |
| `AddressSpaces.AddressSpaceImpl.DeleteReference` | address_space/address_space_impl.cpp:288-295 | exactly that reference goes, on both sides, and no check fires |
| `AddressSpaces.AddressSpaceImpl.DeleteAllReferences` | address_space/address_space_util.cpp:319-328 | exactly the references at the node go; its lists are empty and its caches null, as the destructor checks |
| `AddressSpaces.AddressSpaceImpl.IsSubtypeOf` | address_space/node_utils.cpp:271-277 | the walk along cached supertypes ends on acyclic chains and finds exactly the types reachable by subtype references |
| `AddressSpaces.AddressSpaceImpl.GetChildren` | address_space/node_utils.h:170-172 | yields exactly the targets of the node's hierarchical forward references |
| `AddressSpaces.AddressSpaceImpl.DeleteNode` | address_space/address_space_impl.cpp:151-173 | ends; removes exactly the node, all below it and every reference touching them; leaves all else; reports each removed node once, children before parents; every removed node passes its destructor checks |
| `AddressSpaces.AddressSpaceImpl.DeleteAlone` | address_space/address_space_impl.cpp:166-172 | the node goes with its references, its ownership and one report |
| `AddressSpaces.AddressSpaceImpl.Clear` | address_space/address_space_impl.cpp:53-57 | in any order of the map: nothing is left, every node passes its destructor checks, and the ownership stays |
| `AddressSpaces.OwnedAgain` | address_space/address_space_impl.cpp:53-57 | an owned node, a clearing and another owned node under the same id: the second one does not live |
| `AddressSpaces.AddressSpaceImpl.DeletableWithoutTypesBelow` | address_space/address_space_impl.cpp:151-173 | a subtree without cycles and without reference types can be deleted |
| `AddressSpaces.AddressSpaceImpl.GetAllNodes` | address_space/address_space_util.cpp:330-355 | lists exactly the nodes connected to the root, each once, and the root a second time if and only if it has a reference |
| `AddressSpaces.RootListedTwice` | address_space/address_space_util.cpp:330-355 | a root with one child is listed twice |
| `AddressSpaces.AddressSpaceImpl.RootSeenAgain` | address_space/address_space_util.cpp:336-352 | the root is queued again if and only if it has a neighbour |
| `ReferenceGraph.SubtypeStays` | address_space/node_utils.cpp:271-277 | a supertype chain that avoids what is deleted answers the same before and after |
| `ReferenceGraph.ChildrenStay` | address_space/address_space_impl.cpp:158-164 | what is left keeps its children, less those deleted |
| `ReferenceGraph.ChildDeletable` | address_space/address_space_impl.cpp:158-164 | in the middle of deleting a node any child left can be deleted, and its subtree is strictly smaller |
| `ReferenceGraph.ChildDeleted` | address_space/address_space_impl.cpp:158-164 | deleting a child removes whole subtrees only, and never the parent |
| `ReferenceGraph.NoChildLeft` | address_space/address_space_impl.cpp:158-166 | with no child left, all below the node is gone |
| `ReferenceGraph.ReportedJoin` | address_space/address_space_impl.cpp:163-168 | the reports of successive subtrees join into one without repetition, children before parents |
| `ReferenceGraph.CycleKeepsChildren` | address_space/address_space_impl.cpp:158-166 | while a cycle of hierarchical references stands, each node on it has a child on it, whatever was deleted elsewhere |
| `ReferenceGraph.CycleIsSpared` | address_space/address_space_impl.cpp:151-173 | whatever deletion ends below a node on a cycle, in any order of children, it takes no node of the cycle |
| `ReferenceGraph.CycleNeverEnds` | address_space/address_space_impl.cpp:151-173 | the deletion of a node on a cycle of children ends within no number of steps, whichever child it takes each time |
| `ReferenceGraph.TwoNodesNeverEnd` | address_space/address_space_impl.cpp:151-173 | two nodes that are each other's children |
| `TimedData.LowerBound` | common/timed_data_util.h:45-51 | splits sorted values into those below the time and the rest |
| `TimedData.UpperBound` | common/timed_data_util.h:61-67 | splits sorted values into those up to the time and the rest |
| `TimedData.ReverseUpperBound` | common/timed_data_util.h:91-99 | splits descending values into those down to the time and the rest |
| `TimedData.Series.Overwrite` | common/timed_data_util.h:150-152 | copies in place and leaves the values around |
| `TimedData.Series.ReplaceSubrange` | common/timed_data_util.h:135-163 | on both the insert and the erase path: the values strictly below the first update, the updates, the values strictly above the last, sorted |
| `TimedData.SplicedHolds` | common/timed_data_util.h:135-163 | a value is in the result if and only if it is an update or an old value outside the range of the updates |
| `TimedData.SplicedTwice` | common/timed_data_util.h:135-163 | applying the same updates again changes nothing |
| `TimedData.InsertPositionFound` | common/timed_data_util.h:107-126 | a position is found if and only if no value lies in the range |
| `TimedData.InsertIsSplice` | timed_data/timed_data_buffer.h:418-424 | inserting the batch at the position found gives what the splice gives |
| `TimedData.Series.ReplaceRange` | timed_data/timed_data_buffer.h:387-432 | for any batch: values without a time dropped, the others sorted and of each time the first kept, the result is the splice of that, strictly ordered, with or without either short cut |
| `TimedData.SanitizedHolds` | timed_data/timed_data_buffer.h:389-407 | a value of a raw batch is used if and only if it has a time and is the first of the batch with it |
| `TimedData.OrderedIsSanitized` | timed_data/timed_data_buffer.h:396-399 | a batch in order that does not begin without a time is used as it is |
| `Aggregation.GetAggregateInterval` | common/aggregation.cpp:181-193 | for any width the interval has that width; for a positive one it ends after the time, and it begins not after it if and only if the time is not before the origin or the width is zero |
| `Aggregation.NegativeWidth` | common/aggregation.cpp:181-193 | a negative width aligns as its absolute value does |
| `Aggregation.IntervalsRise` | common/aggregation.cpp:181-193 | for any width, intervals that differ begin one after the other |
| `Aggregation.OnTheGrid` | common/aggregation.cpp:190-192 | from the origin on, an interval begins a whole number of widths after the origin |
| `Aggregation.SameIntervalLater` | common/aggregation.cpp:181-193 | a later time has the same interval if and only if it is before its end, and intervals never go back |
| `Aggregation.BackInto` | common/aggregation.cpp:181-193 | from the origin on, an earlier time has the same interval if and only if it is not before its start |
| `Aggregation.LeadingCheck` | common/aggregation.cpp:201-203 | the check on the count fails if and only if a downward stream goes below the origin, or an upward one of negative width comes nearer to it than the width |
| `Aggregation.LeadingFits` | common/aggregation.cpp:197-203 | the samples taken together lie in one interval if and only if none of them is on its end |
| `Aggregation.CalculateTotal` | common/aggregation.cpp:38-47 | the sum of the values that convert to a number |
| `Aggregation.Aggregator.Run` | common/aggregation.cpp:49-152 | after any number of calls the value tells of all samples given so far: their sum, the number that times their count is the sum, their count, or, if they came in order, the sample of the least or the greatest time |
| `Aggregation.SumOfJoin` | common/aggregation.cpp:82-108 | totals add up over parts |
| `Aggregation.SumOfOne` | common/aggregation.cpp:38-47 | one sample counts as the number its value converts to, if any |
| `Aggregation.SummaryTells` | common/aggregation.cpp:49-108 | for an ordered group in either direction: the start is the sample of the least time, the end that of the greatest; the count is the number of samples, the average times the count is the total, the total the sum of the numbers |
| `Aggregation.AggregateState.Advance` | common/aggregation.cpp:205-218 | a change of interval closes the value and starts a new aggregator; otherwise the samples join; an unknown aggregate produces nothing |
| `Aggregation.AggregateState.Process` | common/aggregation.cpp:195-221 | the groups are those of the specification for the chunk, and for a stream those of all chunks so far; it throws, and changes nothing, if and only if the aggregate is unknown and the chunk begins in the interval of the last one |
| `Aggregation.UnknownAggregateThrows` | common/aggregation.cpp:195-221 | two chunks of one interval under an unknown aggregate |
| `Aggregation.AggregateState.Finish` | common/aggregation.cpp:223-226 | there is one value for each group, which tells of its samples what the aggregate is to tell; for a stream the groups hold all samples, and for clean chunks each group is all samples of its interval |
| `Aggregation.AbsorbFits` | common/aggregation.cpp:195-221 | all samples of a chunk land in the group of their interval if and only if the chunk is clean |
| `Aggregation.AbsorbIsAligned` | common/aggregation.cpp:195-221 | processing a clean chunk continues the grouping sample by sample |
| `Aggregation.ChunksDoNotMatter` | common/aggregation.cpp:195-221 | processing in chunks equals grouping the whole stream by aligned interval if and only if all chunks are clean, which downward they always are |
| `Aggregation.ChunkMatters` | common/aggregation.cpp:201-202 | two samples, the second on the end of the first one's interval, give different groups in one chunk and in two |
| `Aggregation.EachSampleOnce` | common/aggregation.cpp:195-221 | clean or not, every sample goes to one group, in the order of the stream |
| `Aggregation.OrderedGroups` | common/aggregation.cpp:205-218 | the intervals of the outputs follow one another strictly |
| `Aggregation.GroupsAreIntervals` | common/aggregation.cpp:195-226 | for clean chunks there is one output for each interval met, over exactly the samples of the stream that lie in it |
| `EventAcks.EventAckQueue.PostAckPendingEvents` | events/event_ack_queue.cpp:23-34 | a task is scheduled if and only if ids wait and there is room; the check does not fire where this is called |
| `EventAcks.EventAckQueue.TakeBatch` | events/event_ack_queue.cpp:40-48 | the oldest ids move over in order until none waits or five run |
| `EventAcks.EventAckQueue.AckPendingEvents` | events/event_ack_queue.cpp:36-64 | the calls sent and the ids waiting are the accepted ids in order; neither check fires, also for a task that was on its way at a reset |
| `EventAcks.EventAckQueue.Ack` | events/event_ack_queue.cpp:66-74 | an id is accepted unless it waits or runs already, and a task is on its way if there is room |
| `EventAcks.EventAckQueue.OnAcked` | events/event_ack_queue.cpp:16-21 | only the confirmation of a running id counts; it frees one slot and schedules what waits |
| `EventAcks.EventAckQueue.Reset` | events/event_ack_queue.h:47-50 | nothing waits or runs, and a scheduled task stays scheduled without breaking the invariant |
| `EventAcks.EventAckQueue.Accounts` | events/event_ack_queue.cpp:36-74 | since the last reset every accepted id waits, runs or was confirmed, as often as it was accepted; if any waits, five run or a task is on its way |
| `EventSets.FoundIff` | events/event_set.h:7-18 | the search finds an element in every layout of the set if and only if the element ranks above all that stand before it and below all after it |
| `EventSets.PivotByNeighbours` | events/event_set.h:7-18 | where the others are in order, that is so if and only if it ranks between its neighbours |
| `EventSets.NotBeforePredecessor` | events/event_set.h:7-18 | no layout lets the search find an element that ranks before its predecessor |
| `EventSets.InsertHolds` | events/event_set.h:7-18 | an insertion adds the pointer and keeps all others, in whatever order they are |
| `EventSets.InsertKeepsOrder` | events/event_set.h:7-18 | in a set in order the new pointer joins at its place |
| `EventStore.LastWordCounts` | events/event_storage.cpp:93-114 | an event is stored if and only if the last update of its id since the clearing is not an acknowledgement, and it is that update |
| `EventStore.AddedIndexed` | events/event_storage.cpp:14-35 | in an index storing an event always goes through, and it keeps the index if and only if the event's id keeps its source |
| `EventStore.AddedSorted` | events/event_storage.cpp:14-35 | storing an event keeps every set in order if and only if the id is new or, with the new time, ranks where it stands |
| `EventStore.RemovedIndexed` | events/event_storage.cpp:37-70 | a removal that goes through keeps the index if and only if the event names the source of its id, or that id has none |
| `EventStore.RemovedSorted` | events/event_storage.cpp:37-70 | a removal under the event's own source keeps every set in order, whatever its new time |
| `EventStore.RemovalGoesOn` | events/event_storage.cpp:47-53 | for the layout at hand the check in the removal holds if and only if nothing is searched, or the source is that of the id and the search by the new time ends at the event |
| `EventStore.FindableWhen` | events/event_storage.cpp:43-53 | the check holds for every layout of the set if and only if nothing is searched, or the source is that of the id and the new time still ranks where the event stands |
| `EventStore.BetweenNeighbours` | events/event_set.h:7-18 | in a set in order an event ranks where it stands if and only if its new time ranks between its two neighbours |
| `EventStore.EarlyAcknowledgementAborts` | events/event_storage.cpp:43-53 | an acknowledgement with a time before that of the event's predecessor fails the check in every layout |
| `EventStore.PlacedGoesOn` | events/event_storage.cpp:93-114 | an event that keeps its source and its place goes through, and the sets stay an index in order |
| `EventStore.RunStored` | events/event_storage.cpp:93-114 | as far as a batch goes through, the store is the last word on each id, whatever order the sets are in |
| `EventStore.BatchIndexed` | events/event_storage.cpp:93-114 | where a batch goes through, the sets are an index after each event if and only if each event keeps to the source of its id, or acknowledges one that is filed nowhere |
| `EventStore.SteadyBatch` | events/event_storage.cpp:93-114 | a batch whose events change neither the source nor the time of their ids goes through in every layout and leaves the sets an index in order |
| `EventStore.FreedKeeps` | events/event_storage.cpp:94-108 | freeing the removed events after the batch leaves no set of an index with a pointer to them |
| `EventStore.NoticedWhen` | events/event_storage.cpp:100-114 | the observers are told of an id if and only if the batch has an event of it that is not acknowledged, or acknowledges it while it is stored |
| `EventStore.LateAcknowledgementAborts` | events/event_storage.cpp:43-53 | three events of one node, the first acknowledged with a time after the others: the check fails |
| `EventStore.ReplacedEventHidesNext` | events/event_storage.cpp:18-53 | three events of one node, the second replaced with a time after the third: acknowledging the third, which did not change, fails the check |
| `EventStore.MovedEventAborts` | events/event_storage.cpp:47-53 | an acknowledgement that names another node with a set fails the check in every layout |
| `EventStore.MovedEventDangles` | events/event_storage.cpp:18-65 | an event replaced under another source and acknowledged there: the set of the first source keeps a pointer to freed memory, which the next event of that node meets |
| `EventStore.EventStorage.Add` | events/event_storage.cpp:14-35 | the store is what the specification makes of the event, the alert is on exactly if something is stored, and every changed set was reported; it fails to go through exactly if the way into the set meets freed memory |
| `EventStore.EventStorage.Remove` | events/event_storage.cpp:37-70 | an id that is not stored changes nothing; otherwise the event is searched by its new time in the set of the source it names, and leaves it and the store, or the check fails exactly as specified; every changed set was reported, and an entry nobody uses goes |
| `EventStore.EventStorage.Update` | events/event_storage.cpp:93-123 | for any batch: it stops at the first event whose step does not go through, if any; the observers are told exactly of the events not acknowledged and of the acknowledgements of stored ones, in order; if it ends the store is the fold of the log, the removed events are freed, the alert means that something is stored, every changed set was reported, and last reports stay true |
| `EventStore.EventStorage.Clear` | events/event_storage.cpp:72-91 | from any state, index or not: nothing is stored; entries with observers stay empty; a report of a set stays true if and only if the set was empty or its node is observed |
| `EventStore.StaleAfterClear` | events/event_storage.cpp:77-78 | one event of a node that nobody observes: after a clearing the last report of its set is out of date |
| `EventStore.EventStorage.AddNodeObserver` | events/event_storage.h:32-34 | an observer joins the entry of its node and changes no set |
| `EventStore.EventStorage.GetNodeEvents` | events/event_storage.h:20-24 | the set of a node is in order of time and holds exactly the stored events of that source |
| `EventStore.EventStorage.UpdateAlerting` | events/event_storage.cpp:133-145 | the alert is on if and only if an event is stored |
| `NodeModels.BaseNodeModel.StartFetch` | node_service/base_node_model.cpp:20-41 | a callback is accepted once; where the status is there and nothing is locked or notifying, it has been called on return; a request not covered hands the status joined with all that was asked before to the hook, which runs; a covered one hands over none |
| `NodeModels.BaseNodeModel.OnFetchRequested` | node_service/base_node_model.cpp:36-39 | what is requested covers everyone who waits and is the next status handed over, and code outside runs |
| `NodeModels.BaseNodeModel.SetFetchStatus` | node_service/base_node_model.cpp:77-90 | a changed status is notified at once, or by whoever holds the lock or notifies, and an unchanged one changes nothing; a change is told to the hook, which runs |
| `NodeModels.BaseNodeModel.NotifyCallbacks` | node_service/base_node_model.cpp:92-126 | ends under any re-entrant calls; nested or locked it does nothing; otherwise everyone whose status was there has been called, and nobody is left waiting for a status that is there; when nothing calls back, exactly those are called, in the order of the queue; no hook is called but by code outside |
| `NodeModels.BaseNodeModel.Collect` | node_service/base_node_model.cpp:105-115 | takes out exactly the callbacks whose status is there, in order |
| `NodeModels.BaseNodeModel.Fire` | node_service/base_node_model.cpp:123-124 | the next callback is called with no other callback of the model on the stack |
| `NodeModels.BaseNodeModel.Unlock` | node_service/base_node_model.cpp:14-18 | the last lock to go notifies |
| `NodeModels.BaseNodeModel.RunCalls` | node_service/base_node_model.cpp:92-126 | any nesting of locks, requests and status changes ends with the guards as they were and every call made still counted |
| `NodeModels.BaseNodeModel.CalledOnce` | node_service/base_node_model.cpp:105-124 | no callback is called twice, and none that was called still waits |
| `NestedNodeIds.NestedRoundTrip` | model/node_id_util.cpp:48-134 | for every parent, name and namespace: taking apart inverts putting together if and only if the name has no separator, the parent has no colon within one namespace or a namespace named by its number across two, and the parent is no numeral in text |
| `NestedNodeIds.NumberLikeParent` | model/node_id_util.cpp:60-85 | a parent whose text is a number comes back as a numeric id |
| `NestedNodeIds.SeparatorInName` | model/node_id_util.cpp:48-91 | a separator in the name comes back in the parent |
| `NestedNodeIds.ParentRoundTrip` | model/node_id_util.cpp:60-85 | the part before the last separator gives the parent back under that condition and no other |
| `NestedNodeIds.IsNestedNodeId` | model/node_id_util.cpp:48-91 | only text ids are nested; the parent is shorter and the name is not empty |
| `NestedNodeIds.GetRootNestedNodeId` | model/node_id_util.cpp:93-107 | the loop ends and finds the root of the chain |
| `NestedNodeIds.ChainLeadsBack` | model/node_id_util.cpp:93-134 | any chain of nestings that can be taken apart leads back to its root and its first name |
| `NestedNodeIds.PlainChain` | model/node_id_util.cpp:93-134 | within one namespace, a root and names without separators are enough |
| `NestedNodeIds.DecimalRoundTrip` | model/node_id_util.cpp:127-128 | a printed number is parsed back |
| `ScadaStrings.ScadaStringRoundTrip` | model/node_id_util.cpp:152-218 | reading inverts printing if and only if the id is predefined, or its namespace name has no dot and is found again and its text is no bare numeral |
| `ScadaStrings.UnnamedReadsBack` | model/node_id_util.cpp:157-218 | ids of a namespace without a name are read back, unless the text is a bare numeral |
| `ScadaStrings.NamedReadsBack` | model/node_id_util.cpp:157-218 | so are those of a namespace found by its name, when that has no dot |
| `ScadaStrings.NumberLikeText` | model/node_id_util.cpp:152-218 | an id whose text is a number comes back as a numeric id |
| `ScadaStrings.PredefinedFound` | model/node_id_util.cpp:24-42 | the predefined strings are told apart |

## Left out

- NodeFetching: Read and Browse are answered by separate steps, each request once; an answer inside the call is modelled for a batch with nothing to browse; a Read answered inside a drain is modelled once its batch is sent (`NodeFetching.NodeFetcher.OnReadResult`), not between its Read and its Browse. Executors, coroutines, logging and tracing are not modelled.
- NodeFetching: request ids and sequences are unbounded, so their wrap-around at 32 bits is not modelled.
- FetchingGraph: the map owns its nodes by value, so a pointer between nodes is modelled as the key of its target; a node state is copied into the report where the source moves it.
- NodeFetching.NodeFetcher.NotifyFetchedNodes: the consistency diagnostics, which walk along the supertypes of the reported types and only log, are not modelled, nor that the walk ends.
- NodeFetching.NodeFetcher.OnBrowseResult: responses that would trip a check (a node as its own child, or an answer to the inverse non-hierarchical browse) are excluded by `PassesChecks`.
- FetchProtocol: attribute values are told apart only as far as the decoding branches.
- FetchingQueue: the standard library leaves the layout of its heaps open; the model has one.
- HierarchicalSort: the fields that no edge comes from are carried along and not looked at.
- AddressSpaces: change signals except the report of deletions, the parent address space, attributes and properties are not modelled; all nodes are local.
- AddressSpaces.AddressSpaceImpl.DeleteNode: a cycle of hierarchical references, or a deleted type that a reference still uses, is excluded by `Deletable`.
- AddressSpaces.AddressSpaceImpl.AddReference: that the nodes are in the space and the reference is allowed is required, as the source checks.
- TimedData.Series.ReplaceRange: trimming and change notification are not modelled; a null time is a parameter that no time is below.
- Aggregation: exact arithmetic over reals and unbounded times; the Minimum and the Maximum are not modelled; samples and produced values are never null.
- Aggregation.AggregateState.Process: samples that would trip the check on the count (`Aggregation.LeadingCheck`) are excluded.
- EventStore: the layout of a set and the addresses of its events, which the language leaves open, are parameters, so that any layout may come up each time a set changes; an insertion into a set that is out of order descends by comparison and always joins, where a library may also take the event for one that is there. Observers are told sets and ids only.
- EventStore.EventStorage.Update: after a step that does not go through nothing is promised, as the source aborts or reads freed memory there.
- NodeModels: the status code, and empty callbacks, are not modelled; code called from outside does finitely many things.
- NestedNodeIds: the generated tables of namespace names are parameters; opaque ids and the null checks on parents are not modelled; parsing a number reads decimal digits within 32 bits.
