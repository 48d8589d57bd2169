/** What the services' answers make of the nodes, field by field. */
module FetchFields {
  import opened NodeIds
  import opened FetchTypes
  import opened FetchingGraph
  import opened FetchProtocol

  // ---------------------------------------------------------------- what a node is

  /** A node that is not there is as it will be when it is added. */
  function Self(nodes: Nodes, x: NodeId): FetchingNode {
    if x in nodes then nodes[x] else NEW_NODE
  }

  /** All that is known of the node, apart from its place in graph and queue. */
  predicate SameSelf(a: FetchingNode, b: FetchingNode) {
    && b.state == a.state && b.status == a.status && b.isProperty == a.isProperty && b.isDeclaration == a.isDeclaration
    && SameRequest(a, b) && b.attributesFetched == a.attributesFetched && b.referencesFetched == a.referencesFetched
  }

  predicate SameRequest(a: FetchingNode, b: FetchingNode) {
    b.fetchStarted == a.fetchStarted && b.requestId == a.requestId
  }

  ghost predicate SameSelves(was: Nodes, now: Nodes) {
    was.Keys <= now.Keys && forall x :: SameSelf(Self(was, x), Self(now, x))
  }

  /** Whatever is being fetched, the node itself is. */
  ghost predicate StartsNode(nodes: Nodes) {
    forall x :: Self(nodes, x).fetchStarted.IsEmpty() || Self(nodes, x).fetchStarted.node
  }

  lemma SoundStarts(nodes: Nodes, idle: set<NodeId>, x: Exchange, nextRequestId: nat)
    requires Sound(nodes, idle, x, nextRequestId)
    ensures StartsNode(nodes)
  {
    forall y ensures Self(nodes, y).fetchStarted.IsEmpty() || Self(nodes, y).fetchStarted.node {
      assert y in nodes ==> NodeOk(y, nodes[y], x, nextRequestId) || Idle(nodes[y]);
    }
  }

  lemma SameTwice(a: Nodes, b: Nodes, c: Nodes)
    requires SameSelves(a, b) && SameSelves(b, c)
    ensures SameSelves(a, c)
  {
  }

  lemma StartsStill(was: Nodes, now: Nodes)
    requires StartsNode(was) && forall x :: SameRequest(Self(was, x), Self(now, x))
    ensures StartsNode(now)
  {
    forall x ensures Self(now, x).fetchStarted.IsEmpty() || Self(now, x).fetchStarted.node {
      assert SameRequest(Self(was, x), Self(now, x));
    }
  }

  lemma WrittenSame(nodes: Nodes, id: NodeId, n: FetchingNode)
    requires id in nodes && SameSelf(nodes[id], n)
    ensures SameSelves(nodes, nodes[id := n])
  {
  }

  lemma AddedSame(nodes: Nodes, id: NodeId)
    ensures SameSelves(nodes, Added(nodes, id))
  {
  }

  lemma LinkedSame(nodes: Nodes, node: NodeId, from: NodeId)
    requires node in nodes && from in nodes && node != from
    ensures SameSelves(nodes, Linked(nodes, node, from))
  {
  }

  lemma RescheduledSame(n: FetchingNode, sequence: nat)
    requires n.fetchStarted.IsEmpty() || n.fetchStarted.node
    ensures SameSelf(n, Rescheduled(n, sequence, NODE_ONLY, false))
  {
  }

  lemma DependentSame(nodes: Nodes, id: NodeId, from: NodeId)
    requires id in nodes && id != from && StartsNode(nodes)
    ensures SameSelves(nodes, Dependent(nodes, id, from))
  {
    hide Added, Linked, Rescheduled, SameSelf, SameRequest, StartsNode, SameSelves;
    var a := Added(nodes, from);
    AddedSame(nodes, from);
    AddedHas(nodes, from, id);
    var b := a[from := a[from].(force := a[from].force || a[id].force)];
    ForceSame(a, from, a[from].force || a[id].force);
    SameTwice(nodes, a, b);
    var c := Linked(b, id, from);
    LinkedHas(b, id, from);
    LinkedSame(b, id, from);
    SameTwice(nodes, b, c);
    StartsAfter(nodes, c, from);
    RescheduledSame(c[from], c[from].pendingSequence);
    WrittenSame(c, from, Rescheduled(c[from], c[from].pendingSequence, NODE_ONLY, false));
    SameTwice(nodes, c, c[from := Rescheduled(c[from], c[from].pendingSequence, NODE_ONLY, false)]);
  }

  lemma AddedHas(nodes: Nodes, id: NodeId, other: NodeId)
    requires other in nodes
    ensures id in Added(nodes, id) && other in Added(nodes, id)
  {
  }

  lemma LinkedHas(nodes: Nodes, node: NodeId, from: NodeId)
    requires node in nodes && from in nodes && node != from
    ensures Linked(nodes, node, from).Keys == nodes.Keys
  {
  }

  lemma ForceSame(nodes: Nodes, id: NodeId, force: bool)
    requires id in nodes
    ensures SameSelves(nodes, nodes[id := nodes[id].(force := force)])
  {
  }

  lemma StartsAfter(was: Nodes, now: Nodes, x: NodeId)
    requires StartsNode(was) && SameSelves(was, now)
    ensures StartsNode(now) && (Self(now, x).fetchStarted.IsEmpty() || Self(now, x).fetchStarted.node)
  {
    forall y ensures SameRequest(Self(was, y), Self(now, y)) {
      assert SameSelf(Self(was, y), Self(now, y));
    }
    StartsStill(was, now);
  }

  lemma ValidatedSame(v: Validator, p: Progress, id: NodeId, from: NodeId)
    requires id in p.nodes && StartsNode(p.nodes)
    ensures SameSelves(p.nodes, Validated(v, p, id, from).nodes) && StartsNode(Validated(v, p, id, from).nodes)
  {
    hide Dependent, StartsNode;
    if !from.Null? && id != from && !v(p.asked, from) {
      DependentSame(p.nodes, id, from);
      StartsAfter(p.nodes, Dependent(p.nodes, id, from), id);
    }
  }

  // ---------------------------------------------------------------- how a node is drawn in

  /** The node waits to be fetched, at the sequence, or is being fetched already. */
  predicate Awaited(n: FetchingNode, sequence: nat) {
    !n.fetchStarted.IsEmpty() || (n.pending && n.pendingStatus.node && n.pendingSequence == sequence)
  }

  /** A dependency waits at the sequence it has, the least one if it is new, and is forced if the node is. */
  lemma DependentJoins(nodes: Nodes, id: NodeId, from: NodeId)
    requires id in nodes && id != from && StartsNode(nodes)
    ensures var now := Dependent(nodes, id, from);
      && from in now && Awaited(now[from], Self(nodes, from).pendingSequence)
      && now[from].pendingSequence == Self(nodes, from).pendingSequence
      && now[from].force == (Self(nodes, from).force || nodes[id].force)
      && OthersKeepTurn(nodes, now, from)
  {
    hide Added, Linked, Rescheduled, StartsNode, OthersKeepTurn, Awaited;
    var a := Added(nodes, from);
    AddedIs(nodes, from, id);
    AddedKeepsTurns(nodes, from);
    var n := a[from].(force := a[from].force || a[id].force);
    WrittenKeepsTurns(a, from, n);
    KeepsTwice(nodes, a, a[from := n], from);
    var c := Linked(a[from := n], id, from);
    LinkedTurns(a[from := n], id, from);
    KeepsTwice(nodes, a[from := n], c, from);
    StartsAt(nodes, from);
    RescheduledTurn(c[from]);
    var m := Rescheduled(c[from], c[from].pendingSequence, NODE_ONLY, false);
    WrittenKeepsTurns(c, from, m);
    KeepsTwice(nodes, c, c[from := m], from);
  }

  /** The node's force and place in the queue. */
  predicate SameTurn(a: FetchingNode, b: FetchingNode) {
    b.force == a.force && b.pendingSequence == a.pendingSequence
  }

  /** At most one node joins, and no other's force or sequence changes. */
  ghost predicate OthersKeepTurn(was: Nodes, now: Nodes, but: NodeId) {
    now.Keys == was.Keys + {but} && forall x :: x in was && x != but ==> SameTurn(was[x], now[x])
  }

  lemma KeepsTwice(a: Nodes, b: Nodes, c: Nodes, but: NodeId)
    requires OthersKeepTurn(a, b, but) && OthersKeepTurn(b, c, but)
    ensures OthersKeepTurn(a, c, but)
  {
  }

  lemma WrittenKeepsTurns(nodes: Nodes, id: NodeId, n: FetchingNode)
    requires id in nodes
    ensures OthersKeepTurn(nodes, nodes[id := n], id)
  {
  }

  lemma AddedKeepsTurns(nodes: Nodes, id: NodeId)
    ensures OthersKeepTurn(nodes, Added(nodes, id), id)
  {
  }

  lemma StartsAt(nodes: Nodes, x: NodeId)
    requires StartsNode(nodes)
    ensures Self(nodes, x).fetchStarted.IsEmpty() || Self(nodes, x).fetchStarted.node
  {
  }

  lemma LinkedTurns(nodes: Nodes, node: NodeId, from: NodeId)
    requires node in nodes && from in nodes && node != from
    ensures var c := Linked(nodes, node, from);
      OthersKeepTurn(nodes, c, from) && from in c && node in c
      && SameTurn(nodes[from], c[from]) && c[from].fetchStarted == nodes[from].fetchStarted
  {
  }

  lemma RescheduledTurn(n: FetchingNode)
    requires n.fetchStarted.IsEmpty() || n.fetchStarted.node
    ensures var r := Rescheduled(n, n.pendingSequence, NODE_ONLY, false);
      SameTurn(n, r) && Awaited(r, n.pendingSequence)
  {
  }

  lemma ValidatedJoins(v: Validator, p: Progress, id: NodeId, from: NodeId, x: NodeId)
    requires id in p.nodes && x in p.nodes && StartsNode(p.nodes)
    ensures var q := Validated(v, p, id, from).nodes;
      && id in q && x in q && q[id].pendingSequence == p.nodes[id].pendingSequence
      && q[x].pendingSequence == p.nodes[x].pendingSequence
      && (p.nodes[x].force || !p.nodes[id].force ==> q[x].force == p.nodes[x].force)
  {
    hide Dependent, StartsNode, Awaited;
    if !from.Null? && id != from && !v(p.asked, from) {
      DependentJoins(p.nodes, id, from);
      assert x != from ==> SameTurn(p.nodes[x], Dependent(p.nodes, id, from)[x]);
    }
  }

  /** A child waits at its parent's sequence, and is forced if the parent is. */
  lemma ChildJoins(v: Validator, p: Progress, id: NodeId, r: ReferenceDescription)
    requires id in p.nodes && r.node != id && StartsNode(p.nodes)
    ensures var q, n := WithChild(v, p, id, r).nodes, Self(p.nodes, r.node);
      && r.node in q && Awaited(q[r.node], p.nodes[id].pendingSequence)
      && q[r.node].force == (n.force || p.nodes[id].force)
  {
    hide Validated, StartsNode, Added;
    var c, m := r.node, Added(p.nodes, r.node);
    AddedIs(p.nodes, c, id);
    AddedSame(p.nodes, c);
    StartsAfter(p.nodes, m, c);
    var n := Adopted(m[c], id, m[id], r);
    AdoptedForce(m[c], id, m[id], r);
    AdoptedRequest(m[c], id, m[id], r);
    WrittenStarts(m, c, n);
    var b := p.(nodes := m[c := n]);
    var e := WithChildAdopted(v, p, id, r);
    SameSelvesOfSelf(b.nodes);
    ValidatedSame(v, b, id, PROPERTY_TYPE);
    ValidatedJoins(v, b, id, PROPERTY_TYPE, c);
    StartsAfter(b.nodes, e.nodes, c);
    ChildWaits(e.nodes, id, c);
  }

  lemma AddedIs(nodes: Nodes, id: NodeId, other: NodeId)
    requires other in nodes && other != id
    ensures id in Added(nodes, id) && Added(nodes, id)[id] == Self(nodes, id)
    ensures other in Added(nodes, id) && Added(nodes, id)[other] == nodes[other]
  {
  }

  lemma AdoptedForce(n: FetchingNode, parent: NodeId, b: FetchingNode, r: ReferenceDescription)
    ensures Adopted(n, parent, b, r).force == (n.force || b.force)
  {
    var c := n.(state := n.state.(referenceType := r.referenceType, parent := parent), force := n.force || b.force);
    assert c.force == (n.force || b.force);
    MarkedForce(c, c.state.(nodeClass := Variable, typeDefinition := PROPERTY_TYPE), IsTypeDefinition(b.state.nodeClass));
  }

  lemma MarkedForce(n: FetchingNode, s: NodeState, isDeclaration: bool)
    ensures n.(state := s, isProperty := true, isDeclaration := isDeclaration).force == n.force
  {
  }

  lemma ChildWaits(nodes: Nodes, id: NodeId, c: NodeId)
    requires id in nodes && c in nodes && id != c
    requires nodes[c].fetchStarted.IsEmpty() || nodes[c].fetchStarted.node
    ensures var b := Linked(Linked(nodes, c, id), id, c);
      var n := Rescheduled(b[c], b[id].pendingSequence, NODE_ONLY, false);
      Awaited(n, nodes[id].pendingSequence) && n.force == nodes[c].force
  {
  }

  // ---------------------------------------------------------------- what a reference says of whom

  predicate Proper(r: ReferenceDescription) {
    !r.referenceType.Null? && !r.node.Null?
  }

  /** An inverse reference to a parent. */
  predicate SaysParent(d: BrowseDescription, r: ReferenceDescription, x: NodeId) {
    Proper(r) && d.direction.Inverse? && !r.forward && r.referenceType != HAS_SUBTYPE && d.node == x
  }

  predicate SaysSupertype(d: BrowseDescription, r: ReferenceDescription, x: NodeId) {
    Proper(r) && d.direction.Inverse? && !r.forward && r.referenceType == HAS_SUBTYPE && d.node == x
  }

  /** A forward reference by which the node is a child of the one browsed. */
  predicate SaysChild(d: BrowseDescription, r: ReferenceDescription, x: NodeId) {
    && Proper(r) && d.direction.Forward? && d.referenceType == AGGREGATES && r.forward
    && r.referenceType != HAS_SUBTYPE && r.node == x
  }

  predicate SaysProperty(d: BrowseDescription, r: ReferenceDescription, x: NodeId) {
    SaysChild(d, r, x) && r.referenceType == HAS_PROPERTY
  }

  predicate SaysType(d: BrowseDescription, r: ReferenceDescription, x: NodeId) {
    && Proper(r) && d.direction.Forward? && d.referenceType != AGGREGATES && r.forward
    && r.referenceType == HAS_TYPE_DEFINITION && d.node == x
  }

  /** Any other reference of the node, which is listed once. */
  predicate SaysOther(d: BrowseDescription, r: ReferenceDescription, x: NodeId) {
    && Proper(r) && d.direction.Forward? && d.referenceType != AGGREGATES && r.forward
    && r.referenceType != HAS_TYPE_DEFINITION && d.node == x
  }

  /** What one reference found by a browse makes of the state of a node. */
  predicate SaysState(d: BrowseDescription, r: ReferenceDescription, x: NodeId, s: NodeState, t: NodeState) {
    && t.supertype == (if SaysSupertype(d, r, x) then r.node else s.supertype)
    && t.parent == (if SaysParent(d, r, x) then r.node else if SaysChild(d, r, x) then d.node else s.parent)
    && t.referenceType == (if SaysParent(d, r, x) || SaysChild(d, r, x) then r.referenceType else s.referenceType)
    && t.typeDefinition
       == (if SaysType(d, r, x) then r.node else if SaysProperty(d, r, x) then PROPERTY_TYPE else s.typeDefinition)
    && t.nodeClass == (if SaysProperty(d, r, x) then Variable else s.nodeClass)
    && t.references == (if SaysOther(d, r, x) && r !in s.references then s.references + [r] else s.references)
    && t.browseName == s.browseName && t.displayName == s.displayName && t.dataType == s.dataType
    && t.value == s.value
  }

  /** What it makes of the node; `browsed` is the class of the node browsed. */
  predicate Says(d: BrowseDescription, r: ReferenceDescription, browsed: NodeClass, x: NodeId, a: FetchingNode,
                 b: FetchingNode)
  {
    && SaysState(d, r, x, a.state, b.state)
    && b.isProperty == (a.isProperty || SaysProperty(d, r, x))
    && b.isDeclaration == (if SaysProperty(d, r, x) then IsTypeDefinition(browsed) else a.isDeclaration)
    && b.status == (if !Proper(r) && d.node == x then Bad else a.status)
    && SameRequest(a, b) && b.attributesFetched == a.attributesFetched && b.referencesFetched == a.referencesFetched
  }

  lemma SaysThrough(d: BrowseDescription, r: ReferenceDescription, browsed: NodeClass, x: NodeId, a: FetchingNode,
                    b: FetchingNode, a': FetchingNode, b': FetchingNode)
    requires SameSelf(a, a') && Says(d, r, browsed, x, a', b') && SameSelf(b', b)
    ensures Says(d, r, browsed, x, a, b)
  {
    hide SaysParent, SaysSupertype, SaysChild, SaysProperty, SaysType, SaysOther, Proper;
  }

  /** Of any node but the one named, and the one browsed, a reference says nothing. */
  lemma SaysNothing(d: BrowseDescription, r: ReferenceDescription, browsed: NodeClass, x: NodeId, n: FetchingNode)
    requires !SaysParent(d, r, x) && !SaysSupertype(d, r, x) && !SaysChild(d, r, x) && !SaysType(d, r, x)
    requires !SaysOther(d, r, x) && (Proper(r) || d.node != x)
    ensures Says(d, r, browsed, x, n, n)
  {
    hide SaysParent, SaysSupertype, SaysChild, SaysType, SaysOther, Proper;
  }

  /** One node written, between steps that leave all nodes as they are. */
  lemma OneWritten(d: BrowseDescription, r: ReferenceDescription, browsed: NodeClass, was: Nodes, mid: Nodes,
                   y: NodeId, n: FetchingNode, now: Nodes)
    requires SameSelves(was, mid) && y in mid && SameSelves(mid[y := n], now) && Says(d, r, browsed, y, mid[y], n)
    requires forall x :: x != y ==> Says(d, r, browsed, x, Self(mid, x), Self(mid, x))
    ensures AllSays(d, r, browsed, was, now)
  {
    hide Says, SameSelf;
    var written := mid[y := n];
    forall x ensures Says(d, r, browsed, x, Self(was, x), Self(now, x)) {
      assert SameSelf(Self(was, x), Self(mid, x)) && SameSelf(Self(written, x), Self(now, x));
      SaysThrough(d, r, browsed, x, Self(was, x), Self(now, x), Self(mid, x), Self(written, x));
    }
  }

  lemma NoneWritten(d: BrowseDescription, r: ReferenceDescription, browsed: NodeClass, was: Nodes, now: Nodes)
    requires SameSelves(was, now) && forall x :: Says(d, r, browsed, x, Self(was, x), Self(was, x))
    ensures AllSays(d, r, browsed, was, now)
  {
    hide Says, SameSelf;
    forall x ensures Says(d, r, browsed, x, Self(was, x), Self(now, x)) {
      assert SameSelf(Self(was, x), Self(now, x));
      SameOfSelf(Self(was, x));
      SaysThrough(d, r, browsed, x, Self(was, x), Self(now, x), Self(was, x), Self(was, x));
    }
  }

  lemma SameOfSelf(n: FetchingNode)
    ensures SameSelf(n, n)
  {
  }

  ghost predicate AllSays(d: BrowseDescription, r: ReferenceDescription, browsed: NodeClass, was: Nodes, now: Nodes) {
    was.Keys <= now.Keys && forall x :: Says(d, r, browsed, x, Self(was, x), Self(now, x))
  }

  lemma StateSays(d: BrowseDescription, r: ReferenceDescription, browsed: NodeClass, x: NodeId, n: FetchingNode,
                  t: NodeState)
    requires SaysState(d, r, x, n.state, t) && Proper(r) && !SaysProperty(d, r, x)
    ensures Says(d, r, browsed, x, n, n.(state := t))
  {
    hide SaysState, SaysProperty;
  }

  lemma InvertedSays(d: BrowseDescription, r: ReferenceDescription, browsed: NodeClass, n: FetchingNode)
    requires Proper(r) && d.direction.Inverse? && !r.forward
    ensures Says(d, r, browsed, d.node, n, Inverted(n, r))
  {
    hide Says;
    var s := n.state;
    if r.referenceType == HAS_SUBTYPE {
      StateSays(d, r, browsed, d.node, n, s.(supertype := r.node));
    } else {
      StateSays(d, r, browsed, d.node, n, s.(parent := r.node, referenceType := r.referenceType));
    }
  }

  lemma ExtendedSays(d: BrowseDescription, r: ReferenceDescription, browsed: NodeClass, n: FetchingNode)
    requires Proper(r) && d.direction.Forward? && d.referenceType != AGGREGATES && r.forward
    ensures Says(d, r, browsed, d.node, n, Extended(n, r))
  {
    hide Says;
    var s := n.state;
    if r.referenceType == HAS_TYPE_DEFINITION {
      StateSays(d, r, browsed, d.node, n, s.(typeDefinition := r.node));
    } else if r in s.references {
      StateSays(d, r, browsed, d.node, n, s);
      assert n.(state := s) == n;
    } else {
      StateSays(d, r, browsed, d.node, n, s.(references := s.references + [r]));
    }
  }

  lemma AdoptedSays(d: BrowseDescription, r: ReferenceDescription, parent: FetchingNode, n: FetchingNode)
    requires SaysChild(d, r, r.node)
    ensures Says(d, r, parent.state.nodeClass, r.node, n, Adopted(n, d.node, parent, r))
  {
    if r.referenceType == HAS_PROPERTY {
      PropertyState(d, r, n.state);
    }
  }

  lemma PropertyState(d: BrowseDescription, r: ReferenceDescription, s: NodeState)
    requires SaysProperty(d, r, r.node)
    ensures SaysState(d, r, r.node, s, s.(referenceType := r.referenceType, parent := d.node)
                                        .(nodeClass := Variable, typeDefinition := PROPERTY_TYPE))
  {
  }

  lemma FailedSays(d: BrowseDescription, r: ReferenceDescription, browsed: NodeClass, n: FetchingNode)
    requires !Proper(r)
    ensures Says(d, r, browsed, d.node, n, n.(status := Bad))
  {
  }

  lemma NoneFailed(d: BrowseDescription, r: ReferenceDescription, browsed: NodeClass, nodes: Nodes)
    requires d.node in nodes && !Proper(r)
    ensures AllSays(d, r, browsed, nodes, nodes[d.node := nodes[d.node].(status := Bad)])
  {
    hide Says, SameSelf;
    FailedSays(d, r, browsed, nodes[d.node]);
    SameSelvesOfSelf(nodes);
    forall x | x != d.node ensures Says(d, r, browsed, x, Self(nodes, x), Self(nodes, x)) {
      SaysNothing(d, r, browsed, x, Self(nodes, x));
    }
    var n := nodes[d.node].(status := Bad);
    SameSelvesOfSelf(nodes[d.node := n]);
    OneWritten(d, r, browsed, nodes, nodes, d.node, n, nodes[d.node := n]);
  }

  lemma SameSelvesOfSelf(nodes: Nodes)
    ensures SameSelves(nodes, nodes)
  {
  }

  /** Whatever one reference says of a node, and nothing else, is what `AddFetchedReference` makes of it. */
  lemma ReferenceSays(v: Validator, p: Progress, d: BrowseDescription, r: ReferenceDescription)
    requires d.node in p.nodes && !TripsCheck(d, r) && StartsNode(p.nodes)
    ensures AllSays(d, r, p.nodes[d.node].state.nodeClass, p.nodes, WithReference(v, p, d, r).nodes)
  {
    hide Says, AllSays, StartsNode, SameSelves, Validated, WithChild, WithInverse, WithNonHierarchical;
    var id, browsed := d.node, p.nodes[d.node].state.nodeClass;
    if !Proper(r) {
      NoneFailed(d, r, browsed, p.nodes);
    } else {
      var a := Validated(v, p, id, r.referenceType);
      ValidatedSame(v, p, id, r.referenceType);
      ClassStays(p.nodes, a.nodes, id);
      if d.direction.Inverse? && !r.forward {
        InverseSays(v, p.nodes, a, d, r, browsed);
      } else if d.direction.Forward? && d.referenceType == AGGREGATES && r.forward && r.referenceType != HAS_SUBTYPE {
        ChildSays(v, p.nodes, a, d, r);
      } else if d.direction.Forward? && d.referenceType != AGGREGATES && r.forward {
        OtherSays(v, p.nodes, a, d, r, browsed);
      } else {
        forall x ensures Says(d, r, browsed, x, Self(p.nodes, x), Self(p.nodes, x)) {
          SaysNothing(d, r, browsed, x, Self(p.nodes, x));
        }
        NoneWritten(d, r, browsed, p.nodes, a.nodes);
      }
    }
  }

  lemma ClassStays(was: Nodes, now: Nodes, id: NodeId)
    requires SameSelves(was, now) && id in was
    ensures id in now && now[id].state.nodeClass == was[id].state.nodeClass
  {
    assert SameSelf(Self(was, id), Self(now, id));
  }

  lemma InverseSays(v: Validator, was: Nodes, a: Progress, d: BrowseDescription, r: ReferenceDescription,
                    browsed: NodeClass)
    requires d.node in a.nodes && Proper(r) && d.direction.Inverse? && !r.forward
    requires SameSelves(was, a.nodes) && StartsNode(a.nodes)
    ensures AllSays(d, r, browsed, was, WithInverse(v, a, d.node, r).nodes)
  {
    hide Says, AllSays, StartsNode, SameSelves, Validated, Inverted;
    var n := Inverted(a.nodes[d.node], r);
    InvertedSays(d, r, browsed, a.nodes[d.node]);
    InvertedRequest(a.nodes[d.node], r);
    OthersNothing(d, r, browsed, a.nodes, d.node);
    WrittenStarts(a.nodes, d.node, n);
    ValidatedSame(v, a.(nodes := a.nodes[d.node := n]), d.node, r.node);
    OneWritten(d, r, browsed, was, a.nodes, d.node, n, WithInverse(v, a, d.node, r).nodes);
  }

  lemma OtherSays(v: Validator, was: Nodes, a: Progress, d: BrowseDescription, r: ReferenceDescription,
                  browsed: NodeClass)
    requires d.node in a.nodes && Proper(r) && d.direction.Forward? && d.referenceType != AGGREGATES && r.forward
    requires SameSelves(was, a.nodes) && StartsNode(a.nodes)
    ensures AllSays(d, r, browsed, was, WithNonHierarchical(v, a, d.node, r).nodes)
  {
    hide Says, AllSays, StartsNode, SameSelves, Validated, Extended;
    var n := Extended(a.nodes[d.node], r);
    ExtendedSays(d, r, browsed, a.nodes[d.node]);
    ExtendedRequest(a.nodes[d.node], r);
    OthersNothing(d, r, browsed, a.nodes, d.node);
    WrittenStarts(a.nodes, d.node, n);
    ValidatedSame(v, a.(nodes := a.nodes[d.node := n]), d.node, r.node);
    OneWritten(d, r, browsed, was, a.nodes, d.node, n, WithNonHierarchical(v, a, d.node, r).nodes);
  }

  lemma InvertedRequest(n: FetchingNode, r: ReferenceDescription)
    ensures SameRequest(n, Inverted(n, r))
  {
  }

  lemma ExtendedRequest(n: FetchingNode, r: ReferenceDescription)
    ensures SameRequest(n, Extended(n, r))
  {
  }

  lemma AdoptedRequest(n: FetchingNode, parent: NodeId, b: FetchingNode, r: ReferenceDescription)
    ensures SameRequest(n, Adopted(n, parent, b, r))
  {
  }

  /** An inverse reference is to the supertype, or else to the parent. */
  predicate Places(r: ReferenceDescription, s: NodeState, t: NodeState) {
    if r.referenceType == HAS_SUBTYPE
    then t.supertype == r.node && t.parent == s.parent && t.referenceType == s.referenceType
    else t.supertype == s.supertype && t.parent == r.node && t.referenceType == r.referenceType
  }

  lemma InvertedPlaces(n: FetchingNode, r: ReferenceDescription)
    ensures Places(r, n.state, Inverted(n, r).state)
  {
    StateSet(n, n.state.(supertype := r.node));
    StateSet(n, n.state.(parent := r.node, referenceType := r.referenceType));
  }

  lemma StateSet(n: FetchingNode, t: NodeState)
    ensures n.(state := t).state == t
  {
  }

  lemma WrittenStarts(nodes: Nodes, id: NodeId, n: FetchingNode)
    requires StartsNode(nodes) && id in nodes && SameRequest(nodes[id], n)
    ensures StartsNode(nodes[id := n])
  {
    StartsStill(nodes, nodes[id := n]);
  }

  lemma OthersNothing(d: BrowseDescription, r: ReferenceDescription, browsed: NodeClass, nodes: Nodes, y: NodeId)
    requires Proper(r) && y == if d.direction.Forward? && d.referenceType == AGGREGATES then r.node else d.node
    ensures forall x :: x != y ==> Says(d, r, browsed, x, Self(nodes, x), Self(nodes, x))
  {
    hide Says;
    forall x | x != y ensures Says(d, r, browsed, x, Self(nodes, x), Self(nodes, x)) {
      SaysNothing(d, r, browsed, x, Self(nodes, x));
    }
  }

  lemma ChildSays(v: Validator, was: Nodes, a: Progress, d: BrowseDescription, r: ReferenceDescription)
    requires d.node in a.nodes && SaysChild(d, r, r.node) && r.node != d.node
    requires SameSelves(was, a.nodes) && StartsNode(a.nodes)
    ensures AllSays(d, r, a.nodes[d.node].state.nodeClass, was, WithChild(v, a, d.node, r).nodes)
  {
    hide Says, AllSays, StartsNode, SameSelves, Validated, Adopted, Added, Linked, Rescheduled, SameSelf;
    var id, browsed := d.node, a.nodes[d.node].state.nodeClass;
    var m := Added(a.nodes, r.node);
    AddedHas(a.nodes, r.node, id);
    AddedSame(a.nodes, r.node);
    ClassStays(a.nodes, m, id);
    SameTwice(was, a.nodes, m);
    StartsAfter(a.nodes, m, id);
    var n := Adopted(m[r.node], id, m[id], r);
    AdoptedSays(d, r, m[id], m[r.node]);
    AdoptedRequest(m[r.node], id, m[id], r);
    OthersNothing(d, r, browsed, m, r.node);
    WrittenStarts(m, r.node, n);
    ChildEnds(v, a, d, r, n);
    OneWritten(d, r, browsed, was, m, r.node, n, WithChild(v, a, id, r).nodes);
  }

  lemma ChildEnds(v: Validator, a: Progress, d: BrowseDescription, r: ReferenceDescription, n: FetchingNode)
    requires d.node in a.nodes && r.node != d.node && d.node in Added(a.nodes, r.node) && r.node in Added(a.nodes, r.node)
    requires n == Adopted(Added(a.nodes, r.node)[r.node], d.node, Added(a.nodes, r.node)[d.node], r)
    requires StartsNode(Added(a.nodes, r.node)[r.node := n])
    ensures SameSelves(Added(a.nodes, r.node)[r.node := n], WithChild(v, a, d.node, r).nodes)
  {
    hide StartsNode, SameSelves, Validated, Adopted, Added, Linked, Rescheduled, SameSelf;
    var id, c := d.node, r.node;
    var b := a.(nodes := Added(a.nodes, c)[c := n]);
    SameSelvesOfSelf(b.nodes);
    ValidatedSame(v, b, id, PROPERTY_TYPE);
    var e := WithChildAdopted(v, a, id, r);
    LinkedHas(e.nodes, c, id);
    LinkedSame(e.nodes, c, id);
    var f := Linked(e.nodes, c, id);
    SameTwice(b.nodes, e.nodes, f);
    LinkedHas(f, id, c);
    LinkedSame(f, id, c);
    var g := Linked(f, id, c);
    SameTwice(b.nodes, f, g);
    StartsAfter(b.nodes, g, c);
    RescheduledSame(g[c], g[id].pendingSequence);
    var h := Rescheduled(g[c], g[id].pendingSequence, NODE_ONLY, false);
    WrittenSame(g, c, h);
    SameTwice(b.nodes, g, g[c := h]);
  }

  // ---------------------------------------------------------------- what a Browse response says

  datatype Field = Parent | Supertype | TypeDefinition | Property

  /** The delivery says something of that field of the node. */
  predicate Tells(f: Field, t: Delivery, x: NodeId) {
    match f
    case Parent => SaysParent(t.description, t.reference, x) || SaysChild(t.description, t.reference, x)
    case Supertype => SaysSupertype(t.description, t.reference, x)
    case TypeDefinition => SaysType(t.description, t.reference, x) || SaysProperty(t.description, t.reference, x)
    case Property => SaysProperty(t.description, t.reference, x)
  }

  /** It does, and the request still concerned the node browsed when the response came. */
  predicate Counts(f: Field, was: Nodes, request: nat, t: Delivery, x: NodeId) {
    IsCurrent(was, t.description.node, request) && Tells(f, t, x)
  }

  /** The place of the last delivery that counts, or -1. */
  function LastSaid(f: Field, was: Nodes, request: nat, log: seq<Delivery>, x: NodeId): (k: int)
    ensures -1 <= k < |log| && (k >= 0 ==> Counts(f, was, request, log[k], x))
    ensures forall j :: k < j < |log| ==> !Counts(f, was, request, log[j], x)
  {
    if log == [] then -1
    else if Counts(f, was, request, log[|log| - 1], x) then |log| - 1
    else LastSaid(f, was, request, log[..|log| - 1], x)
  }

  function ParentSaid(t: Delivery): NodeId {
    if t.description.direction.Inverse? then t.reference.node else t.description.node
  }

  function TypeSaid(t: Delivery): NodeId {
    if t.reference.referenceType == HAS_TYPE_DEFINITION then t.reference.node else PROPERTY_TYPE
  }

  /** The last word of the log on each field of the node holds, and what the log does not speak of stays. */
  predicate LastWords(was: Nodes, request: nat, log: seq<Delivery>, x: NodeId, b: FetchingNode) {
    var a := Self(was, x);
    var parent, supertype := LastSaid(Parent, was, request, log, x), LastSaid(Supertype, was, request, log, x);
    var typed, property := LastSaid(TypeDefinition, was, request, log, x), LastSaid(Property, was, request, log, x);
    && b.state.parent == (if parent < 0 then a.state.parent else ParentSaid(log[parent]))
    && b.state.referenceType == (if parent < 0 then a.state.referenceType else log[parent].reference.referenceType)
    && b.state.supertype == (if supertype < 0 then a.state.supertype else log[supertype].reference.node)
    && b.state.typeDefinition == (if typed < 0 then a.state.typeDefinition else TypeSaid(log[typed]))
    && b.state.nodeClass == (if property < 0 then a.state.nodeClass else Variable)
    && b.isProperty == (a.isProperty || property >= 0)
    && b.state.browseName == a.state.browseName && b.state.displayName == a.state.displayName
    && b.state.dataType == a.state.dataType && b.state.value == a.state.value
    && SameRequest(a, b)
  }

  ghost predicate AllLastWords(was: Nodes, request: nat, log: seq<Delivery>, now: Nodes) {
    was.Keys <= now.Keys && forall x :: LastWords(was, request, log, x, Self(now, x))
  }

  lemma LastSaidMore(f: Field, was: Nodes, request: nat, log: seq<Delivery>, t: Delivery, x: NodeId)
    ensures LastSaid(f, was, request, log + [t], x)
      == if Counts(f, was, request, t, x) then |log| else LastSaid(f, was, request, log, x)
  {
    assert (log + [t])[..|log|] == log;
  }

  lemma OneMoreWord(was: Nodes, request: nat, log: seq<Delivery>, t: Delivery, browsed: NodeClass, x: NodeId,
                    a: FetchingNode, b: FetchingNode)
    requires LastWords(was, request, log, x, a) && IsCurrent(was, t.description.node, request)
    requires Says(t.description, t.reference, browsed, x, a, b)
    ensures LastWords(was, request, log + [t], x, b)
  {
    hide SaysParent, SaysSupertype, SaysChild, SaysType, SaysOther, Proper, LastSaid, IsCurrent;
    LastSaidMore(Parent, was, request, log, t, x);
    LastSaidMore(Supertype, was, request, log, t, x);
    LastSaidMore(TypeDefinition, was, request, log, t, x);
    LastSaidMore(Property, was, request, log, t, x);
    WhatIsSaid(t, x);
  }

  lemma WhatIsSaid(t: Delivery, x: NodeId)
    ensures SaysParent(t.description, t.reference, x) ==> ParentSaid(t) == t.reference.node
    ensures SaysChild(t.description, t.reference, x) ==>
      ParentSaid(t) == t.description.node && !SaysParent(t.description, t.reference, x)
    ensures SaysType(t.description, t.reference, x) ==> TypeSaid(t) == t.reference.node
    ensures SaysProperty(t.description, t.reference, x) ==>
      TypeSaid(t) == PROPERTY_TYPE && !SaysType(t.description, t.reference, x)
  {
  }

  lemma UnheardWord(was: Nodes, request: nat, log: seq<Delivery>, t: Delivery, x: NodeId, a: FetchingNode)
    requires LastWords(was, request, log, x, a) && !IsCurrent(was, t.description.node, request)
    ensures LastWords(was, request, log + [t], x, a)
  {
    hide Tells, LastSaid, IsCurrent;
    LastSaidMore(Parent, was, request, log, t, x);
    LastSaidMore(Supertype, was, request, log, t, x);
    LastSaidMore(TypeDefinition, was, request, log, t, x);
    LastSaidMore(Property, was, request, log, t, x);
  }

  lemma NothingSaid(nodes: Nodes, request: nat)
    ensures AllLastWords(nodes, request, [], nodes)
  {
  }

  /** Whether a request concerns a node does not change while its response is applied. */
  lemma CurrentThroughout(was: Nodes, request: nat, log: seq<Delivery>, now: Nodes, id: NodeId)
    requires AllLastWords(was, request, log, now)
    ensures IsCurrent(now, id, request) <==> IsCurrent(was, id, request)
  {
    hide LastSaid;
    assert LastWords(was, request, log, id, Self(now, id));
  }

  lemma WordsStart(was: Nodes, request: nat, log: seq<Delivery>, now: Nodes)
    requires AllLastWords(was, request, log, now) && StartsNode(was)
    ensures StartsNode(now)
  {
    hide LastSaid;
    forall x ensures SameRequest(Self(was, x), Self(now, x)) {
      assert LastWords(was, request, log, x, Self(now, x));
    }
    StartsStill(was, now);
  }

  lemma WordsOfReference(v: Validator, was: Nodes, p: Progress, request: nat, log: seq<Delivery>, d: BrowseDescription,
                         r: ReferenceDescription)
    requires AllLastWords(was, request, log, p.nodes) && StartsNode(was)
    requires IsCurrent(was, d.node, request) && d.node in p.nodes && !TripsCheck(d, r)
    ensures AllLastWords(was, request, log + [Delivery(d, r)], WithReference(v, p, d, r).nodes)
  {
    hide LastWords, Says, WithReference, IsCurrent, StartsNode, TripsCheck;
    WordsStart(was, request, log, p.nodes);
    ReferenceSays(v, p, d, r);
    var now, browsed := WithReference(v, p, d, r).nodes, p.nodes[d.node].state.nodeClass;
    forall x ensures LastWords(was, request, log + [Delivery(d, r)], x, Self(now, x)) {
      OneMoreWord(was, request, log, Delivery(d, r), browsed, x, Self(p.nodes, x), Self(now, x));
    }
  }

  lemma {:induction false} WordsOfReferences(v: Validator, was: Nodes, p: Progress, request: nat, log: seq<Delivery>,
                                             d: BrowseDescription, references: seq<ReferenceDescription>)
    requires AllLastWords(was, request, log, p.nodes) && StartsNode(was)
    requires IsCurrent(was, d.node, request) && d.node in p.nodes && NoneTrips(d, references)
    ensures AllLastWords(was, request, log + DeliveriesOf(d, references), WithReferences(v, p, d, references).nodes)
  {
    hide AllLastWords, WithReference, IsCurrent, StartsNode, TripsCheck;
    if references == [] {
      assert log + DeliveriesOf(d, references) == log;
    } else {
      var init, last := references[..|references| - 1], references[|references| - 1];
      WordsOfReferences(v, was, p, request, log, d, init);
      WordsOfReference(v, was, WithReferences(v, p, d, init), request, log + DeliveriesOf(d, init), d, last);
      assert log + DeliveriesOf(d, references) == log + DeliveriesOf(d, init) + [Delivery(d, last)];
    }
  }

  lemma {:induction false} UnheardWords(was: Nodes, request: nat, log: seq<Delivery>, d: BrowseDescription,
                                        references: seq<ReferenceDescription>, now: Nodes)
    requires AllLastWords(was, request, log, now) && !IsCurrent(was, d.node, request)
    ensures AllLastWords(was, request, log + DeliveriesOf(d, references), now)
  {
    hide LastWords, IsCurrent;
    if references == [] {
      assert log + DeliveriesOf(d, references) == log;
    } else {
      var init, last := references[..|references| - 1], references[|references| - 1];
      UnheardWords(was, request, log, d, init, now);
      var longer := log + DeliveriesOf(d, init);
      assert log + DeliveriesOf(d, references) == longer + [Delivery(d, last)];
      forall x ensures LastWords(was, request, longer + [Delivery(d, last)], x, Self(now, x)) {
        UnheardWord(was, request, longer, Delivery(d, last), x, Self(now, x));
      }
    }
  }

  lemma MarkedWords(was: Nodes, request: nat, log: seq<Delivery>, now: Nodes, id: NodeId, n: FetchingNode)
    requires AllLastWords(was, request, log, now) && id in now
    requires n.state == now[id].state && n.isProperty == now[id].isProperty && SameRequest(now[id], n)
    ensures AllLastWords(was, request, log, now[id := n])
  {
    hide LastWords;
    var later := now[id := n];
    forall x ensures LastWords(was, request, log, x, Self(later, x)) {
      assert LastWords(was, request, log, x, Self(now, x));
      WordsKept(was, request, log, x, Self(now, x), Self(later, x));
    }
  }

  lemma WordsKept(was: Nodes, request: nat, log: seq<Delivery>, x: NodeId, a: FetchingNode, b: FetchingNode)
    requires LastWords(was, request, log, x, a)
    requires b.state == a.state && b.isProperty == a.isProperty && SameRequest(a, b)
    ensures LastWords(was, request, log, x, b)
  {
    hide LastSaid;
  }

  lemma MarkedRequest(n: FetchingNode, status: Status)
    ensures var m := n.(referencesFetched := true);
      && m.state == n.state && m.isProperty == n.isProperty && SameRequest(n, m)
      && m.(status := status).state == n.state && m.(status := status).isProperty == n.isProperty
      && SameRequest(n, m.(status := status))
  {
  }

  lemma WordsOfBrowse(v: Validator, was: Nodes, p: Progress, request: nat, log: seq<Delivery>, d: BrowseDescription,
                      result: BrowseResult)
    requires AllLastWords(was, request, log, p.nodes) && StartsNode(was)
    requires result.status.Good? ==> NoneTrips(d, result.references)
    ensures AllLastWords(was, request,
                         log + if result.status.Good? then DeliveriesOf(d, result.references) else [],
                         WithBrowse(v, p, request, d, result).nodes)
  {
    hide AllLastWords, WithReferences, IsCurrent, StartsNode, NoneTrips, DeliveriesOf;
    CurrentThroughout(was, request, log, p.nodes, d.node);
    assert log + [] == log;
    if !IsCurrent(p.nodes, d.node, request) {
      UnheardWords(was, request, log, d, result.references, p.nodes);
    } else {
      assert d.node in p.nodes by { CurrentIsThere(p.nodes, d.node, request); }
      var marked := p.nodes[d.node].(referencesFetched := true);
      MarkedRequest(p.nodes[d.node], result.status);
      if result.status.Good? {
        MarkedWords(was, request, log, p.nodes, d.node, marked);
        WordsOfReferences(v, was, p.(nodes := p.nodes[d.node := marked]), request, log, d, result.references);
      } else {
        MarkedWords(was, request, log, p.nodes, d.node, marked.(status := result.status));
      }
    }
  }

  lemma CurrentIsThere(nodes: Nodes, id: NodeId, request: nat)
    requires IsCurrent(nodes, id, request)
    ensures id in nodes
  {
  }

  /** After a whole Browse response each node has the parent, the supertype, the type definition and the
      property marks that the last delivery said which concerned a request in force, and otherwise those
      it had. */
  lemma {:induction false} WordsOfBrowses(v: Validator, p: Progress, request: nat, ds: seq<BrowseDescription>,
                                          results: seq<BrowseResult>)
    requires StartsNode(p.nodes) && |ds| == |results| && PassesChecks(ds, results)
    ensures AllLastWords(p.nodes, request, Deliveries(ds, results), WithBrowses(v, p, request, ds, results).nodes)
  {
    hide AllLastWords, WithBrowse, StartsNode;
    if ds == [] {
      NothingSaid(p.nodes, request);
    } else {
      var last := |ds| - 1;
      WordsOfBrowses(v, p, request, ds[..last], results[..last]);
      WordsOfBrowse(v, p.nodes, WithBrowses(v, p, request, ds[..last], results[..last]), request,
                    Deliveries(ds[..last], results[..last]), ds[last], results[last]);
    }
  }

  // ---------------------------------------------------------------- what a Read response says

  /** The value is of the kind the attribute takes. */
  predicate Decodable(attribute: AttributeId, value: Variant) {
    match attribute
    case NodeClassAttribute => value.ClassValue?
    case BrowseName => value.NameValue? && value.name != ""
    case DisplayName => value.TextValue?
    case DataTypeAttribute => value.IdValue? && !value.id.Null?
    case ValueAttribute => true
  }

  /** What an answer can be to a node: news of an attribute, or a failure. Of values that cannot be read only
      the browse name is a failure; one of the wrong kind always is. */
  datatype News = Of(attribute: AttributeId) | Failure

  predicate Brings(news: News, a: ReadValueId, result: DataValue) {
    match news
    case Of(attribute) => a.attribute == attribute && result.status.Good? && Decodable(attribute, result.value)
    case Failure =>
      if result.status.Good? then !Decodable(a.attribute, result.value) else a.attribute.BrowseName?
  }

  predicate Arrives(news: News, was: Nodes, request: nat, a: ReadValueId, result: DataValue, x: NodeId) {
    a.node == x && IsCurrent(was, x, request) && Brings(news, a, result)
  }

  /** The place of the last answer that brings the news to the node, or -1. */
  function LastNews(news: News, was: Nodes, request: nat, asks: seq<ReadValueId>, results: seq<DataValue>, x: NodeId)
    : (k: int)
    requires |asks| == |results|
    ensures -1 <= k < |asks| && (k >= 0 ==> Arrives(news, was, request, asks[k], results[k], x))
    ensures forall j :: k < j < |asks| ==> !Arrives(news, was, request, asks[j], results[j], x)
  {
    if asks == [] then -1
    else
      var last := |asks| - 1;
      if Arrives(news, was, request, asks[last], results[last], x) then last
      else LastNews(news, was, request, asks[..last], results[..last], x)
  }

  /** Each attribute is that of the last value for it, the status that of the last failure, and the rest of the
      node is as it was. */
  predicate LastValues(was: Nodes, request: nat, asks: seq<ReadValueId>, results: seq<DataValue>, x: NodeId,
                       b: FetchingNode)
    requires |asks| == |results|
  {
    var a := Self(was, x);
    var s, t := a.state, b.state;
    var nodeClass := LastNews(Of(NodeClassAttribute), was, request, asks, results, x);
    var name := LastNews(Of(BrowseName), was, request, asks, results, x);
    var text := LastNews(Of(DisplayName), was, request, asks, results, x);
    var kind := LastNews(Of(DataTypeAttribute), was, request, asks, results, x);
    var value := LastNews(Of(ValueAttribute), was, request, asks, results, x);
    var failure := LastNews(Failure, was, request, asks, results, x);
    && t.nodeClass == (if nodeClass < 0 then s.nodeClass else results[nodeClass].value.nodeClass)
    && t.browseName == (if name < 0 then s.browseName else results[name].value.name)
    && t.displayName == (if text < 0 then s.displayName else results[text].value.text)
    && t.dataType == (if kind < 0 then s.dataType else results[kind].value.id)
    && t.value == (if value < 0 then s.value else Some(results[value].value))
    && b.status == (if failure < 0 then a.status
                    else if results[failure].status.Good? then BadWrongTypeId else results[failure].status)
    && t.parent == s.parent && t.referenceType == s.referenceType && t.supertype == s.supertype
    && t.typeDefinition == s.typeDefinition && t.references == s.references
    && b.isProperty == a.isProperty && b.isDeclaration == a.isDeclaration && SameRequest(a, b)
  }

  ghost predicate AllLastValues(was: Nodes, request: nat, asks: seq<ReadValueId>, results: seq<DataValue>, now: Nodes)
    requires |asks| == |results|
  {
    was.Keys <= now.Keys && forall x :: LastValues(was, request, asks, results, x, Self(now, x))
  }

  lemma LastNewsMore(news: News, was: Nodes, request: nat, asks: seq<ReadValueId>, results: seq<DataValue>, x: NodeId)
    requires |asks| == |results| && asks != []
    ensures var n := |asks| - 1;
      LastNews(news, was, request, asks, results, x)
        == if Arrives(news, was, request, asks[n], results[n], x) then n
           else LastNews(news, was, request, asks[..n], results[..n], x)
  {
  }

  /** What one answer makes of a node, if it reaches it. */
  predicate Reads(a: ReadValueId, result: DataValue, m: FetchingNode, n: FetchingNode) {
    var s, t := m.state, n.state;
    && t.nodeClass == (if Brings(Of(NodeClassAttribute), a, result) then result.value.nodeClass else s.nodeClass)
    && t.browseName == (if Brings(Of(BrowseName), a, result) then result.value.name else s.browseName)
    && t.displayName == (if Brings(Of(DisplayName), a, result) then result.value.text else s.displayName)
    && t.dataType == (if Brings(Of(DataTypeAttribute), a, result) then result.value.id else s.dataType)
    && t.value == (if Brings(Of(ValueAttribute), a, result) then Some(result.value) else s.value)
    && n.status == (if !Brings(Failure, a, result) then m.status
                    else if result.status.Good? then BadWrongTypeId else result.status)
    && t.parent == s.parent && t.referenceType == s.referenceType && t.supertype == s.supertype
    && t.typeDefinition == s.typeDefinition && t.references == s.references
    && n.isProperty == m.isProperty && n.isDeclaration == m.isDeclaration && SameRequest(m, n)
  }

  lemma OneMoreValue(was: Nodes, request: nat, asks: seq<ReadValueId>, results: seq<DataValue>, x: NodeId,
                     m: FetchingNode, n: FetchingNode)
    requires |asks| == |results| && asks != []
    requires var k := |asks| - 1;
      && LastValues(was, request, asks[..k], results[..k], x, m)
      && (if asks[k].node == x && IsCurrent(was, x, request) then Reads(asks[k], results[k], m, n) else SameSelf(m, n))
    ensures LastValues(was, request, asks, results, x, n)
  {
    hide LastNews, IsCurrent, Brings;
    LastNewsMore(Of(NodeClassAttribute), was, request, asks, results, x);
    LastNewsMore(Of(BrowseName), was, request, asks, results, x);
    LastNewsMore(Of(DisplayName), was, request, asks, results, x);
    LastNewsMore(Of(DataTypeAttribute), was, request, asks, results, x);
    LastNewsMore(Of(ValueAttribute), was, request, asks, results, x);
    LastNewsMore(Failure, was, request, asks, results, x);
  }

  lemma StateReads(a: ReadValueId, result: DataValue, m: FetchingNode, t: NodeState)
    requires result.status.Good? && Decodable(a.attribute, result.value)
    requires t == match a.attribute
                  case NodeClassAttribute => m.state.(nodeClass := result.value.nodeClass)
                  case BrowseName => m.state.(browseName := result.value.name)
                  case DisplayName => m.state.(displayName := result.value.text)
                  case DataTypeAttribute => m.state.(dataType := result.value.id)
                  case ValueAttribute => m.state.(value := Some(result.value))
    ensures Reads(a, result, m, m.(state := t))
  {
  }

  lemma FailureReads(a: ReadValueId, result: DataValue, m: FetchingNode)
    requires Brings(Failure, a, result)
    ensures Reads(a, result, m, m.(status := if result.status.Good? then BadWrongTypeId else result.status))
  {
  }

  lemma NothingReads(a: ReadValueId, result: DataValue, m: FetchingNode)
    requires !result.status.Good? && !a.attribute.BrowseName?
    ensures Reads(a, result, m, m)
  {
  }

  lemma DecodingReads(a: ReadValueId, result: DataValue, m: FetchingNode)
    requires result.status.Good?
    ensures Reads(a, result, m, SetFetchedAttribute(m, a.attribute, result.value).node)
  {
    hide Reads;
    var s, value := m.state, result.value;
    if !Decodable(a.attribute, value) {
      FailureReads(a, result, m);
    } else {
      match a.attribute
      case NodeClassAttribute => StateReads(a, result, m, s.(nodeClass := value.nodeClass));
      case BrowseName => StateReads(a, result, m, s.(browseName := value.name));
      case DisplayName => StateReads(a, result, m, s.(displayName := value.text));
      case DataTypeAttribute => StateReads(a, result, m, s.(dataType := value.id));
      case ValueAttribute => StateReads(a, result, m, s.(value := Some(value)));
    }
  }

  lemma MarkedReads(a: ReadValueId, result: DataValue, m: FetchingNode, n: FetchingNode)
    requires Reads(a, result, m.(attributesFetched := true), n)
    ensures Reads(a, result, m, n)
  {
    hide Brings;
  }

  /** One answer reads into its node, and leaves all others. */
  lemma ReadReads(v: Validator, p: Progress, request: nat, a: ReadValueId, result: DataValue, x: NodeId)
    requires StartsNode(p.nodes)
    ensures p.nodes.Keys <= WithRead(v, p, request, a, result).nodes.Keys
    ensures var m, n := Self(p.nodes, x), Self(WithRead(v, p, request, a, result).nodes, x);
      if a.node == x && IsCurrent(p.nodes, x, request) then Reads(a, result, m, n)
      else SameSelf(m, n)
  {
    hide Reads, SetFetchedAttribute, Validated, StartsNode, SameSelf;
    SameOfSelf(Self(p.nodes, x));
    if IsCurrent(p.nodes, a.node, request) {
      var marked := p.nodes[a.node].(attributesFetched := true);
      if result.status.Good? {
        DecodingReads(a, result, marked);
        var decoding := SetFetchedAttribute(marked, a.attribute, result.value);
        ValueReads(v, p, a, result, decoding, x);
      } else if a.attribute.BrowseName? {
        FailureReads(a, result, marked);
        MarkedReads(a, result, p.nodes[a.node], marked.(status := result.status));
      } else {
        NothingReads(a, result, marked);
        MarkedReads(a, result, p.nodes[a.node], marked);
      }
    }
  }

  lemma ValueReads(v: Validator, p: Progress, a: ReadValueId, result: DataValue, decoding: Decoding, x: NodeId)
    requires a.node in p.nodes && StartsNode(p.nodes)
    requires Reads(a, result, p.nodes[a.node].(attributesFetched := true), decoding.node)
    ensures var m := Self(p.nodes, x);
      var n := Self(Validated(v, p.(nodes := p.nodes[a.node := decoding.node]), a.node, decoding.dependency).nodes, x);
      if a.node == x then Reads(a, result, m, n) else SameSelf(m, n)
  {
    hide Reads, Validated, StartsNode, SameSelf;
    var mid := p.(nodes := p.nodes[a.node := decoding.node]);
    MarkedReads(a, result, p.nodes[a.node], decoding.node);
    ReadsRequest(a, result, p.nodes[a.node], decoding.node);
    WrittenStarts(p.nodes, a.node, decoding.node);
    ValidatedSame(v, mid, a.node, decoding.dependency);
    var n := Self(Validated(v, mid, a.node, decoding.dependency).nodes, x);
    assert SameSelf(Self(mid.nodes, x), n);
    if a.node == x {
      ReadsThrough(a, result, p.nodes[x], decoding.node, n);
    }
  }

  lemma ReadsRequest(a: ReadValueId, result: DataValue, m: FetchingNode, n: FetchingNode)
    requires Reads(a, result, m, n)
    ensures SameRequest(m, n)
  {
    hide Brings;
  }

  lemma ReadsThrough(a: ReadValueId, result: DataValue, m: FetchingNode, n: FetchingNode, n': FetchingNode)
    requires Reads(a, result, m, n) && SameSelf(n, n')
    ensures Reads(a, result, m, n')
  {
    hide Brings;
  }

  lemma CurrentForValues(was: Nodes, request: nat, asks: seq<ReadValueId>, results: seq<DataValue>, now: Nodes)
    requires |asks| == |results| && AllLastValues(was, request, asks, results, now) && StartsNode(was)
    ensures StartsNode(now) && forall x :: IsCurrent(now, x, request) <==> IsCurrent(was, x, request)
  {
    hide LastNews, LastValues;
    forall x ensures SameRequest(Self(was, x), Self(now, x)) {
      assert LastValues(was, request, asks, results, x, Self(now, x));
      ValuesRequest(was, request, asks, results, x, Self(now, x));
    }
    StartsStill(was, now);
    forall x ensures IsCurrent(now, x, request) <==> IsCurrent(was, x, request) {
      assert SameRequest(Self(was, x), Self(now, x));
    }
  }

  lemma ValuesRequest(was: Nodes, request: nat, asks: seq<ReadValueId>, results: seq<DataValue>, x: NodeId,
                      b: FetchingNode)
    requires |asks| == |results| && LastValues(was, request, asks, results, x, b)
    ensures SameRequest(Self(was, x), b)
  {
    hide LastNews;
  }

  lemma NothingAnswered(nodes: Nodes, request: nat)
    ensures AllLastValues(nodes, request, [], [], nodes)
  {
  }

  /** After a whole Read response each node has, of each attribute, the last value that could be decoded and
      arrived while the request concerned it, and the status of the last failure; the rest stays. */
  lemma {:induction false} ValuesOfReads(v: Validator, p: Progress, request: nat, asks: seq<ReadValueId>,
                                         results: seq<DataValue>)
    requires StartsNode(p.nodes) && |asks| == |results|
    ensures AllLastValues(p.nodes, request, asks, results, WithReads(v, p, request, asks, results).nodes)
  {
    hide LastValues, WithRead, StartsNode, Reads, SameSelf, IsCurrent;
    if asks == [] {
      NothingAnswered(p.nodes, request);
    } else {
      var k := |asks| - 1;
      ValuesOfReads(v, p, request, asks[..k], results[..k]);
      var q := WithReads(v, p, request, asks[..k], results[..k]);
      CurrentForValues(p.nodes, request, asks[..k], results[..k], q.nodes);
      var now := WithRead(v, q, request, asks[k], results[k]).nodes;
      forall x ensures LastValues(p.nodes, request, asks, results, x, Self(now, x)) {
        ReadReads(v, q, request, asks[k], results[k], x);
        OneMoreValue(p.nodes, request, asks, results, x, Self(q.nodes, x), Self(now, x));
      }
    }
  }

  // ---------------------------------------------------------------- what a failed response says

  /** A response counts as it is, or it fails as a whole: by its status, or because it is of the wrong
      length. */
  lemma BrowseFailsWhen(status: Status, count: nat, results: seq<BrowseResult>)
    ensures var r := EffectiveBrowse(status, count, results);
      if status.Good? && |results| == count then r == results
      else forall i :: 0 <= i < count ==> r[i].status == (if status.Good? then Bad else status) && !r[i].status.Good?
  {
  }

  lemma ReadFailsWhen(status: Status, count: nat, results: seq<DataValue>)
    ensures var r := EffectiveRead(status, count, results);
      if status.Good? && |results| == count then r == results
      else forall i :: 0 <= i < count ==> r[i].status == (if status.Good? then Bad else status) && !r[i].status.Good?
  {
  }

  function Unbrowsed(n: FetchingNode, status: Status): FetchingNode {
    n.(referencesFetched := true, status := status)
  }

  function Unread(n: FetchingNode, named: bool, status: Status): FetchingNode {
    n.(attributesFetched := true, status := if named then status else n.status)
  }

  lemma FailedAgain(n: FetchingNode, named: bool, also: bool, status: Status)
    ensures Unbrowsed(Unbrowsed(n, status), status) == Unbrowsed(n, status)
    ensures Unread(Unread(n, named, status), also, status) == Unread(n, named || also, status)
    ensures SameRequest(n, Unbrowsed(n, status)) && SameRequest(n, Unread(n, named, status))
  {
  }

  /** What a failure makes of the nodes asked about: those still concerned are done, with an error. */
  function BrowseFailed(nodes: Nodes, request: nat, ds: seq<BrowseDescription>, status: Status): Nodes {
    map x | x in nodes ::
      if IsCurrent(nodes, x, request) && AsksReferences(ds, x)
      then Unbrowsed(nodes[x], status) else nodes[x]
  }

  predicate AsksName(asks: seq<ReadValueId>, id: NodeId) {
    exists i :: 0 <= i < |asks| && asks[i] == ReadValueId(id, BrowseName)
  }

  function ReadFailed(nodes: Nodes, request: nat, asks: seq<ReadValueId>, status: Status): Nodes {
    map x | x in nodes ::
      if !IsCurrent(nodes, x, request) || !AsksAttributes(asks, x) then nodes[x]
      else Unread(nodes[x], AsksName(asks, x), status)
  }

  lemma AsksMore(ds: seq<BrowseDescription>, x: NodeId)
    requires ds != []
    ensures AsksReferences(ds, x) <==> AsksReferences(ds[..|ds| - 1], x) || ds[|ds| - 1].node == x
  {
    var init := ds[..|ds| - 1];
    if AsksReferences(init, x) {
      var i :| 0 <= i < |init| && init[i].node == x;
      assert ds[i].node == x;
    }
    if i :| 0 <= i < |ds| && ds[i].node == x && i < |init| {
      assert init[i].node == x;
    }
  }

  lemma AsksMoreReads(asks: seq<ReadValueId>, x: NodeId)
    requires asks != []
    ensures AsksAttributes(asks, x) <==> AsksAttributes(asks[..|asks| - 1], x) || asks[|asks| - 1].node == x
    ensures AsksName(asks, x) <==> AsksName(asks[..|asks| - 1], x) || asks[|asks| - 1] == ReadValueId(x, BrowseName)
  {
    var init := asks[..|asks| - 1];
    assert forall i :: 0 <= i < |init| ==> init[i] == asks[i];
    if AsksAttributes(init, x) {
      var i :| 0 <= i < |init| && init[i].node == x;
      assert asks[i].node == x;
    }
    if i :| 0 <= i < |asks| && asks[i].node == x && i < |init| {
      assert init[i].node == x;
    }
  }

  lemma OneBrowseFailed(v: Validator, p: Progress, request: nat, ds: seq<BrowseDescription>, result: BrowseResult)
    requires ds != [] && !result.status.Good?
    ensures WithBrowse(v, p.(nodes := BrowseFailed(p.nodes, request, ds[..|ds| - 1], result.status)), request,
                       ds[|ds| - 1], result)
      == p.(nodes := BrowseFailed(p.nodes, request, ds, result.status))
  {
    hide AsksReferences, Unbrowsed, WithReferences, NoneTrips;
    var init, id, status := ds[..|ds| - 1], ds[|ds| - 1].node, result.status;
    var mid := BrowseFailed(p.nodes, request, init, status);
    var now := BrowseFailed(p.nodes, request, ds, status);
    forall x | x in p.nodes
      ensures SameRequest(p.nodes[x], mid[x])
      ensures now[x] == if x == id && IsCurrent(p.nodes, x, request) then Unbrowsed(mid[x], status) else mid[x]
    {
      AsksMore(ds, x);
      FailedAgain(p.nodes[x], false, false, status);
    }
    BrowseMarked(mid, id, status);
    if IsCurrent(mid, id, request) {
      assert now == mid[id := Unbrowsed(mid[id], status)];
    } else {
      assert now == mid;
    }
  }

  lemma BrowseMarked(nodes: Nodes, id: NodeId, status: Status)
    ensures id in nodes ==> nodes[id].(referencesFetched := true).(status := status) == Unbrowsed(nodes[id], status)
  {
  }

  lemma NoneAsked(nodes: Nodes, request: nat, status: Status)
    ensures BrowseFailed(nodes, request, [], status) == nodes && ReadFailed(nodes, request, [], status) == nodes
  {
  }

  lemma {:induction false} FailedBrowses(v: Validator, p: Progress, request: nat, ds: seq<BrowseDescription>,
                                         results: seq<BrowseResult>, status: Status)
    requires |ds| == |results| && !status.Good? && forall i :: 0 <= i < |ds| ==> results[i].status == status
    ensures PassesChecks(ds, results)
    ensures WithBrowses(v, p, request, ds, results) == p.(nodes := BrowseFailed(p.nodes, request, ds, status))
  {
    hide BrowseFailed, WithBrowse;
    if ds == [] {
      NoneAsked(p.nodes, request, status);
    } else {
      var last := |ds| - 1;
      FailedBrowses(v, p, request, ds[..last], results[..last], status);
      OneBrowseFailed(v, p, request, ds, results[last]);
    }
  }

  lemma OneReadFailed(v: Validator, p: Progress, request: nat, asks: seq<ReadValueId>, result: DataValue)
    requires asks != [] && !result.status.Good?
    ensures WithRead(v, p.(nodes := ReadFailed(p.nodes, request, asks[..|asks| - 1], result.status)), request,
                     asks[|asks| - 1], result)
      == p.(nodes := ReadFailed(p.nodes, request, asks, result.status))
  {
    hide AsksAttributes, AsksName, Unread;
    var init, a, status := asks[..|asks| - 1], asks[|asks| - 1], result.status;
    var named := a.attribute.BrowseName?;
    var mid := ReadFailed(p.nodes, request, init, status);
    var now := ReadFailed(p.nodes, request, asks, status);
    forall x | x in p.nodes
      ensures SameRequest(p.nodes[x], mid[x])
      ensures now[x] == if x == a.node && IsCurrent(p.nodes, x, request) then Unread(mid[x], named, status) else mid[x]
    {
      AsksMoreReads(asks, x);
      NameIsAsked(init, x);
      FailedAgain(p.nodes[x], AsksName(init, x), named, status);
    }
    ReadMarked(mid, a.node, named, status);
    if IsCurrent(mid, a.node, request) {
      assert now == mid[a.node := Unread(mid[a.node], named, status)];
    } else {
      assert now == mid;
    }
  }

  lemma ReadMarked(nodes: Nodes, id: NodeId, named: bool, status: Status)
    ensures id in nodes ==>
      var marked := nodes[id].(attributesFetched := true);
      (if named then marked.(status := status) else marked) == Unread(nodes[id], named, status)
  {
  }

  lemma NameIsAsked(asks: seq<ReadValueId>, x: NodeId)
    ensures AsksName(asks, x) ==> AsksAttributes(asks, x)
  {
  }

  lemma {:induction false} FailedReads(v: Validator, p: Progress, request: nat, asks: seq<ReadValueId>,
                                       results: seq<DataValue>, status: Status)
    requires |asks| == |results| && !status.Good? && forall i :: 0 <= i < |asks| ==> results[i].status == status
    ensures WithReads(v, p, request, asks, results) == p.(nodes := ReadFailed(p.nodes, request, asks, status))
  {
    hide ReadFailed, WithRead;
    if asks == [] {
      NoneAsked(p.nodes, request, status);
    } else {
      var last := |asks| - 1;
      FailedReads(v, p, request, asks[..last], results[..last], status);
      OneReadFailed(v, p, request, asks, results[last]);
    }
  }

  /** A failed Browse ends, with its error, for exactly the nodes that it asked about and still concerns. */
  lemma FailedBrowse(v: Validator, p: Progress, request: nat, status: Status, ds: seq<BrowseDescription>,
                     results: seq<BrowseResult>)
    requires !status.Good? || |results| != |ds|
    ensures PassesChecks(ds, EffectiveBrowse(status, |ds|, results))
    ensures WithBrowses(v, p, request, ds, EffectiveBrowse(status, |ds|, results))
      == p.(nodes := BrowseFailed(p.nodes, request, ds, if status.Good? then Bad else status))
  {
    hide EffectiveBrowse, WithBrowses, BrowseFailed, PassesChecks;
    BrowseFailsWhen(status, |ds|, results);
    FailedBrowses(v, p, request, ds, EffectiveBrowse(status, |ds|, results), if status.Good? then Bad else status);
  }

  lemma FailedRead(v: Validator, p: Progress, request: nat, status: Status, asks: seq<ReadValueId>,
                   results: seq<DataValue>)
    requires !status.Good? || |results| != |asks|
    ensures WithReads(v, p, request, asks, EffectiveRead(status, |asks|, results))
      == p.(nodes := ReadFailed(p.nodes, request, asks, if status.Good? then Bad else status))
  {
    hide EffectiveRead, WithReads, ReadFailed;
    ReadFailsWhen(status, |asks|, results);
    FailedReads(v, p, request, asks, EffectiveRead(status, |asks|, results), if status.Good? then Bad else status);
  }
}
