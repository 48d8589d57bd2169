/** What the graph is for: a node is not reported before whatever its state mentions. */
module FetchMentions {
  import opened NodeIds
  import opened Paths
  import opened FetchTypes
  import opened FetchingGraph
  import opened FetchingQueue
  import opened FetchProtocol
  import opened FetchSteps

  // ---------------------------------------------------------------- what a state mentions

  /** What the node's own responses made it mention. */
  predicate Own(s: NodeState, m: NodeId) {
    || m == s.parent || m == s.supertype || m == s.dataType
    || exists i :: 0 <= i < |s.references| && (m == s.references[i].referenceType || m == s.references[i].node)
  }

  /** What it may have from the response of its parent, who is the one to wait for it. */
  predicate Lent(s: NodeState, m: NodeId) {
    m == s.referenceType || m == s.typeDefinition
  }

  /** The caller said that it knows the node. */
  ghost predicate Known(v: Validator, asked: nat, m: NodeId) {
    exists k :: 0 <= k < asked && v(k, m)
  }

  /** The node was reported or cancelled, or the caller knows it, or it is no other node. */
  ghost predicate Done(v: Validator, asked: nat, gone: multiset<NodeId>, x: NodeId, m: NodeId) {
    m.Null? || m == x || m in gone || Known(v, asked, m)
  }

  ghost predicate Waits(nodes: Nodes, x: NodeId, m: NodeId) {
    DependsOn(nodes, x, m) || exists p :: DependsOn(nodes, x, p) && DependsOn(nodes, p, m)
  }

  /** A node that waited for one that was cancelled, and that one. */
  type Losses = set<(NodeId, NodeId)>

  ghost predicate Bereft(losses: Losses, x: NodeId) {
    exists l :: l in losses && l.0 == x
  }

  ghost predicate OwnAwaited(v: Validator, q: Progress, gone: multiset<NodeId>, x: NodeId, m: NodeId) {
    Done(v, q.asked, gone, x, m) || DependsOn(q.nodes, x, m)
  }

  ghost predicate LentAwaited(v: Validator, q: Progress, gone: multiset<NodeId>, losses: Losses, x: NodeId, m: NodeId) {
    Done(v, q.asked, gone, x, m) || Waits(q.nodes, x, m) || Bereft(losses, x)
  }

  /** Whatever the state of a node mentions is done with, or the node waits for it. */
  ghost predicate MentionsOk(v: Validator, q: Progress, gone: multiset<NodeId>, losses: Losses) {
    && (forall x, m :: x in q.nodes && Own(q.nodes[x].state, m) ==> OwnAwaited(v, q, gone, x, m))
    && (forall x, m :: x in q.nodes && Lent(q.nodes[x].state, m) ==> LentAwaited(v, q, gone, losses, x, m))
  }

  // ---------------------------------------------------------------- steps that mention nothing new

  /** The state mentions what it did, but for references that are fetched again. */
  predicate Fewer(a: NodeState, b: NodeState) {
    && b.parent == a.parent && b.supertype == a.supertype && b.dataType == a.dataType
    && b.referenceType == a.referenceType && b.typeDefinition == a.typeDefinition
    && (b.references == a.references || b.references == [])
  }

  /** No node mentions more; a new one mentions nothing. */
  ghost predicate NoneMentionMore(was: Nodes, now: Nodes) {
    forall x :: x in now ==> Fewer(if x in was then was[x].state else EMPTY_STATE, now[x].state)
  }

  lemma FewerMentions(a: NodeState, b: NodeState, m: NodeId)
    requires Fewer(a, b)
    ensures (Own(b, m) ==> Own(a, m)) && (Lent(b, m) ==> Lent(a, m))
  {
  }

  lemma NothingMentioned(m: NodeId)
    ensures (Own(EMPTY_STATE, m) ==> m.Null?) && (Lent(EMPTY_STATE, m) ==> m.Null?)
  {
  }

  lemma AwaitedFurther(v: Validator, p: Progress, q: Progress, gone: multiset<NodeId>, losses: Losses, x: NodeId,
                       m: NodeId)
    requires Further(p, q)
    ensures OwnAwaited(v, p, gone, x, m) ==> OwnAwaited(v, q, gone, x, m)
    ensures LentAwaited(v, p, gone, losses, x, m) ==> LentAwaited(v, q, gone, losses, x, m)
  {
    if Known(v, p.asked, m) {
      var k :| 0 <= k < p.asked && v(k, m);
      assert Known(v, q.asked, m);
    }
    if y :| DependsOn(p.nodes, x, y) && DependsOn(p.nodes, y, m) {
      assert DependsOn(q.nodes, x, y) && DependsOn(q.nodes, y, m);
    }
  }

  /** One node may mention more, if it waits for that. */
  ghost predicate Justified(v: Validator, p: Progress, q: Progress, gone: multiset<NodeId>, losses: Losses, x: NodeId) {
    && x in q.nodes
    && (forall m :: Own(q.nodes[x].state, m) ==>
         (x in p.nodes && Own(p.nodes[x].state, m)) || OwnAwaited(v, q, gone, x, m))
    && (forall m :: Lent(q.nodes[x].state, m) ==>
         (x in p.nodes && Lent(p.nodes[x].state, m)) || LentAwaited(v, q, gone, losses, x, m))
  }

  lemma MentionsStep(v: Validator, p: Progress, q: Progress, gone: multiset<NodeId>, losses: Losses)
    requires MentionsOk(v, p, gone, losses) && Further(p, q)
    requires forall x :: x in q.nodes ==> Justified(v, p, q, gone, losses, x)
    ensures MentionsOk(v, q, gone, losses)
  {
    hide Own, Lent, OwnAwaited, LentAwaited, Further;
    forall x, m | x in q.nodes && Own(q.nodes[x].state, m) ensures OwnAwaited(v, q, gone, x, m) {
      assert Justified(v, p, q, gone, losses, x);
      AwaitedFurther(v, p, q, gone, losses, x, m);
    }
    forall x, m | x in q.nodes && Lent(q.nodes[x].state, m) ensures LentAwaited(v, q, gone, losses, x, m) {
      assert Justified(v, p, q, gone, losses, x);
      AwaitedFurther(v, p, q, gone, losses, x, m);
    }
  }

  lemma FewerJustified(v: Validator, p: Progress, q: Progress, gone: multiset<NodeId>, losses: Losses, x: NodeId)
    requires x in q.nodes
    requires Fewer(if x in p.nodes then p.nodes[x].state else EMPTY_STATE, q.nodes[x].state)
    ensures Justified(v, p, q, gone, losses, x)
  {
    hide Own, Lent, Fewer;
    var was := if x in p.nodes then p.nodes[x].state else EMPTY_STATE;
    forall m ensures Own(q.nodes[x].state, m) ==> Own(was, m) && (x !in p.nodes ==> m.Null?) {
      FewerMentions(was, q.nodes[x].state, m);
      NothingMentioned(m);
    }
    forall m ensures Lent(q.nodes[x].state, m) ==> Lent(was, m) && (x !in p.nodes ==> m.Null?) {
      FewerMentions(was, q.nodes[x].state, m);
      NothingMentioned(m);
    }
  }

  lemma NoMoreMentions(v: Validator, p: Progress, q: Progress, gone: multiset<NodeId>, losses: Losses)
    requires MentionsOk(v, p, gone, losses) && Further(p, q) && NoneMentionMore(p.nodes, q.nodes)
    ensures MentionsOk(v, q, gone, losses)
  {
    hide MentionsOk, Further, Fewer, Justified;
    forall x | x in q.nodes ensures Justified(v, p, q, gone, losses, x) {
      FewerJustified(v, p, q, gone, losses, x);
    }
    MentionsStep(v, p, q, gone, losses);
  }

  lemma NoneMoreTwice(a: Nodes, b: Nodes, c: Nodes)
    requires NoneMentionMore(a, b) && NoneMentionMore(b, c) && a.Keys <= b.Keys
    ensures NoneMentionMore(a, c)
  {
  }

  lemma AddedNoMore(nodes: Nodes, id: NodeId)
    ensures NoneMentionMore(nodes, Added(nodes, id))
  {
  }

  lemma RescheduledNoMore(nodes: Nodes, id: NodeId, sequence: nat, status: FetchStatus, force: bool)
    requires id in nodes
    ensures NoneMentionMore(nodes, nodes[id := Rescheduled(nodes[id], sequence, status, force)])
  {
  }

  lemma WrittenNoMore(nodes: Nodes, id: NodeId, n: FetchingNode)
    requires id in nodes && Fewer(nodes[id].state, n.state)
    ensures NoneMentionMore(nodes, nodes[id := n])
  {
  }

  lemma LinkedNoMore(nodes: Nodes, node: NodeId, from: NodeId)
    requires node in nodes && from in nodes && node != from
    ensures NoneMentionMore(nodes, Linked(nodes, node, from))
  {
  }

  // ---------------------------------------------------------------- a response mentions only what is awaited

  lemma DependentNoMore(nodes: Nodes, id: NodeId, from: NodeId)
    requires id in nodes && id != from
    ensures NoneMentionMore(nodes, Dependent(nodes, id, from)) && nodes.Keys <= Dependent(nodes, id, from).Keys
    ensures Dependent(nodes, id, from)[id].state == nodes[id].state
  {
    hide NoneMentionMore, Rescheduled, Linked, Added;
    var a := Added(nodes, from);
    AddedHas(nodes, from);
    AddedNoMore(nodes, from);
    AddedKeeps(nodes, from, id);
    var b := a[from := a[from].(force := a[from].force || a[id].force)];
    WrittenNoMore(a, from, b[from]);
    NoneMoreTwice(nodes, a, b);
    LinkedNoMore(b, id, from);
    LinkedKeeps(b, id, from);
    var c := Linked(b, id, from);
    NoneMoreTwice(nodes, b, c);
    RescheduledNoMore(c, from, c[from].pendingSequence, NODE_ONLY, false);
    NoneMoreTwice(nodes, c, Dependent(nodes, id, from));
  }

  lemma AddedKeeps(nodes: Nodes, from: NodeId, id: NodeId)
    requires id in nodes
    ensures Added(nodes, from)[id] == nodes[id]
  {
  }

  lemma LinkedKeeps(nodes: Nodes, node: NodeId, from: NodeId)
    requires node in nodes && from in nodes && node != from
    ensures Linked(nodes, node, from).Keys == nodes.Keys
    ensures Linked(nodes, node, from)[node].state == nodes[node].state
    ensures Linked(nodes, node, from)[from].state == nodes[from].state
  {
  }

  lemma ValidatedNoMore(v: Validator, p: Progress, id: NodeId, from: NodeId)
    requires id in p.nodes
    ensures NoneMentionMore(p.nodes, Validated(v, p, id, from).nodes)
    ensures Validated(v, p, id, from).nodes[id].state == p.nodes[id].state
  {
    if !from.Null? && id != from {
      DependentNoMore(p.nodes, id, from);
    }
  }

  lemma AwaitsIsOwn(v: Validator, since: nat, q: Progress, gone: multiset<NodeId>, id: NodeId, from: NodeId)
    requires Awaits(v, since, q, id, from)
    ensures OwnAwaited(v, q, gone, id, from)
  {
  }

  /** The node is written to, mentioning `from`, which is validated next, and `t`, which it waits for. */
  lemma RecordMentions(v: Validator, p: Progress, gone: multiset<NodeId>, losses: Losses, id: NodeId, n: FetchingNode,
                       from: NodeId, t: NodeId)
    requires MentionsOk(v, p, gone, losses) && id in p.nodes && OwnAwaited(v, p, gone, id, t)
    requires n.dependsOf == p.nodes[id].dependsOf
    requires forall m :: Own(n.state, m) ==> Own(p.nodes[id].state, m) || m == from || m == t
    requires forall m :: Lent(n.state, m) ==> Lent(p.nodes[id].state, m) || m == from || m == t
    ensures var q := Validated(v, p.(nodes := p.nodes[id := n]), id, from); MentionsOk(v, q, gone, losses)
  {
    hide MentionsOk, Own, Lent, Further, Validated, Fewer, Awaits, OwnAwaited;
    var a := p.(nodes := p.nodes[id := n]);
    var q := Validated(v, a, id, from);
    WrittenIsFurther(p, id, n);
    ValidatedAwaits(v, a, id, from);
    FurtherTwice(p, a, q);
    ValidatedNoMore(v, a, id, from);
    AwaitsIsOwn(v, a.asked, q, gone, id, from);
    AwaitedFurther(v, p, q, gone, losses, id, t);
    OwnIsLent(v, q, gone, losses, id);
    forall x | x in q.nodes ensures Justified(v, p, q, gone, losses, x) {
      if x != id {
        FewerJustified(v, p, q, gone, losses, x);
      }
    }
    MentionsStep(v, p, q, gone, losses);
  }

  lemma OwnIsLent(v: Validator, q: Progress, gone: multiset<NodeId>, losses: Losses, x: NodeId)
    ensures forall m :: OwnAwaited(v, q, gone, x, m) ==> LentAwaited(v, q, gone, losses, x, m)
  {
  }

  lemma InvertedMentions(n: FetchingNode, r: ReferenceDescription, m: NodeId)
    ensures Own(Inverted(n, r).state, m) ==> Own(n.state, m) || m == r.node || m == r.referenceType
    ensures Lent(Inverted(n, r).state, m) ==> Lent(n.state, m) || m == r.node || m == r.referenceType
  {
    InvertedState(n, r);
    StateMentions(n.state, Inverted(n, r).state, r, m);
  }

  lemma InvertedState(n: FetchingNode, r: ReferenceDescription)
    ensures var s := n.state;
      Inverted(n, r).state == s.(supertype := r.node)
      || Inverted(n, r).state == s.(parent := r.node, referenceType := r.referenceType)
  {
  }

  lemma ExtendedMentions(n: FetchingNode, r: ReferenceDescription, m: NodeId)
    ensures Own(Extended(n, r).state, m) ==> Own(n.state, m) || m == r.node || m == r.referenceType
    ensures Lent(Extended(n, r).state, m) ==> Lent(n.state, m) || m == r.node || m == r.referenceType
  {
    ExtendedState(n, r);
    StateMentions(n.state, Extended(n, r).state, r, m);
  }

  lemma ExtendedState(n: FetchingNode, r: ReferenceDescription)
    ensures var s := n.state;
      Extended(n, r).state == s || Extended(n, r).state == s.(typeDefinition := r.node)
      || Extended(n, r).state == s.(references := s.references + [r])
  {
  }

  lemma StateMentions(s: NodeState, t: NodeState, r: ReferenceDescription, m: NodeId)
    requires t == s || t == s.(supertype := r.node) || t == s.(parent := r.node, referenceType := r.referenceType)
      || t == s.(typeDefinition := r.node) || t == s.(references := s.references + [r])
    ensures Own(t, m) ==> Own(s, m) || m == r.node || m == r.referenceType
    ensures Lent(t, m) ==> Lent(s, m) || m == r.node || m == r.referenceType
  {
    var was, now := s.references, t.references;
    if i :| 0 <= i < |now| && (m == now[i].referenceType || m == now[i].node) {
      assert i < |was| ==> now[i] == was[i];
    }
  }

  lemma DecodedMentions(n: FetchingNode, attribute: AttributeId, value: Variant, m: NodeId)
    ensures var decoding := SetFetchedAttribute(n, attribute, value);
      && (Own(decoding.node.state, m) ==> Own(n.state, m) || m == decoding.dependency)
      && (Lent(decoding.node.state, m) ==> Lent(n.state, m))
      && decoding.node.dependsOf == n.dependsOf
  {
    hide SetFetchedAttribute;
    DecodedState(n, attribute, value);
  }

  /** Decoding writes neither the ids a state mentions, but for the data type, nor the edges. */
  predicate Decodes(n: FetchingNode, decoding: Decoding) {
    var s, t := n.state, decoding.node.state;
    && t.parent == s.parent && t.supertype == s.supertype && t.references == s.references
    && t.referenceType == s.referenceType && t.typeDefinition == s.typeDefinition
    && (t.dataType == s.dataType || t.dataType == decoding.dependency)
    && decoding.node.dependsOf == n.dependsOf
  }

  lemma DecodedState(n: FetchingNode, attribute: AttributeId, value: Variant)
    ensures Decodes(n, SetFetchedAttribute(n, attribute, value))
  {
    hide Decodes;
    var s := n.state;
    Undecoded(n, BadWrongTypeId);
    match attribute
    case NodeClassAttribute => if value.ClassValue? { Written(n, s.(nodeClass := value.nodeClass), Null); }
    case BrowseName => if value.NameValue? { Written(n, s.(browseName := value.name), Null); }
    case DisplayName => if value.TextValue? { Written(n, s.(displayName := value.text), Null); }
    case DataTypeAttribute => if value.IdValue? { Written(n, s.(dataType := value.id), value.id); }
    case ValueAttribute => Written(n, s.(value := Some(value)), Null);
  }

  lemma Undecoded(n: FetchingNode, status: Status)
    ensures Decodes(n, Decoding(n.(status := status), Null))
  {
  }

  lemma Written(n: FetchingNode, t: NodeState, dependency: NodeId)
    requires t.parent == n.state.parent && t.supertype == n.state.supertype && t.references == n.state.references
    requires t.referenceType == n.state.referenceType && t.typeDefinition == n.state.typeDefinition
    requires t.dataType == n.state.dataType || t.dataType == dependency
    ensures Decodes(n, Decoding(n.(state := t), dependency))
  {
  }

  /** The child alone mentions more: its parent, the reference type, and for a property its type. */
  lemma ChildStates(v: Validator, p: Progress, id: NodeId, r: ReferenceDescription)
    requires id in p.nodes && r.node != id
    ensures var q := WithChild(v, p, id, r);
      && (forall x :: x in q.nodes && x != r.node ==>
           Fewer(if x in p.nodes then p.nodes[x].state else EMPTY_STATE, q.nodes[x].state))
      && r.node in q.nodes
      && Lends(if r.node in p.nodes then p.nodes[r.node].state else EMPTY_STATE, q.nodes[r.node].state, id, r)
  {
    hide Fewer, Rescheduled, Linked, Validated, NoneMentionMore, Lends;
    var added := Added(p.nodes, r.node);
    AddedNoMore(p.nodes, r.node);
    AddedHas(p.nodes, r.node);
    var n := Adopted(added[r.node], id, added[id], r);
    var b := p.(nodes := added[r.node := n]);
    var a := WithChildAdopted(v, p, id, r);
    ValidatedNoMore(v, b, id, PROPERTY_TYPE);
    NoneMoreSelf(b.nodes);
    assert NoneMentionMore(b.nodes, a.nodes);
    LinkedNoMore(a.nodes, r.node, id);
    LinkedKeeps(a.nodes, r.node, id);
    var c := Linked(a.nodes, r.node, id);
    LinkedNoMore(c, id, r.node);
    LinkedKeeps(c, id, r.node);
    var d := Linked(c, id, r.node);
    RescheduledNoMore(d, r.node, d[id].pendingSequence, NODE_ONLY, false);
    var q := WithChild(v, p, id, r);
    NoneMoreTwice(b.nodes, a.nodes, c);
    NoneMoreTwice(b.nodes, c, d);
    NoneMoreTwice(b.nodes, d, q.nodes);
    AdoptedLends(added[r.node], id, added[id], r);
    ChildStatesEnd(p.nodes, added, b.nodes, q.nodes, id, r, n);
  }

  /** What a parent makes its child mention, and what becomes of that when the child is fetched again. */
  predicate Lends(a: NodeState, b: NodeState, parent: NodeId, r: ReferenceDescription) {
    && b.parent == parent && b.referenceType == r.referenceType
    && b.supertype == a.supertype && b.dataType == a.dataType
    && (b.typeDefinition == if r.referenceType == HAS_PROPERTY then PROPERTY_TYPE else a.typeDefinition)
    && (b.references == a.references || b.references == [])
  }

  lemma NoneMoreSelf(nodes: Nodes)
    ensures NoneMentionMore(nodes, nodes)
  {
  }

  lemma AdoptedLends(child: FetchingNode, parent: NodeId, n: FetchingNode, r: ReferenceDescription)
    ensures Lends(child.state, Adopted(child, parent, n, r).state, parent, r)
    ensures Adopted(child, parent, n, r).dependsOf == child.dependsOf
    ensures Adopted(child, parent, n, r).state.referenceType == r.referenceType
  {
    hide Lends;
    var s := child.state.(referenceType := r.referenceType, parent := parent);
    AdoptedState(child, s, child.force || n.force);
    StateLends(child.state, parent, r);
  }

  lemma AdoptedState(child: FetchingNode, s: NodeState, force: bool)
    ensures var c := child.(state := s, force := force); c.state == s && c.dependsOf == child.dependsOf
  {
  }

  lemma StateLends(a: NodeState, parent: NodeId, r: ReferenceDescription)
    ensures var s := a.(referenceType := r.referenceType, parent := parent);
      if r.referenceType == HAS_PROPERTY
      then Lends(a, s.(nodeClass := Variable, typeDefinition := PROPERTY_TYPE), parent, r)
      else Lends(a, s, parent, r)
  {
  }

  lemma ChildStatesEnd(was: Nodes, added: Nodes, written: Nodes, now: Nodes, id: NodeId, r: ReferenceDescription,
                       n: FetchingNode)
    requires added == Added(was, r.node) && written == added[r.node := n] && NoneMentionMore(written, now)
    requires written.Keys <= now.Keys && Lends(added[r.node].state, n.state, id, r)
    ensures forall x :: x in now && x != r.node ==>
      Fewer(if x in was then was[x].state else EMPTY_STATE, now[x].state)
    ensures r.node in now && Lends(if r.node in was then was[r.node].state else EMPTY_STATE, now[r.node].state, id, r)
  {
  }

  lemma LendsMentions(a: NodeState, b: NodeState, parent: NodeId, r: ReferenceDescription, m: NodeId)
    requires Lends(a, b, parent, r)
    ensures Own(b, m) ==> Own(a, m) || m == parent
    ensures Lent(b, m) ==> Lent(a, m) || m == r.referenceType || (r.referenceType == HAS_PROPERTY && m == PROPERTY_TYPE)
  {
  }

  lemma ChildMentions(v: Validator, p: Progress, gone: multiset<NodeId>, losses: Losses, id: NodeId,
                      r: ReferenceDescription)
    requires MentionsOk(v, p, gone, losses) && id in p.nodes && r.node != id
    requires OwnAwaited(v, p, gone, id, r.referenceType)
    ensures MentionsOk(v, WithChild(v, p, id, r), gone, losses)
  {
    hide MentionsOk, Own, Lent, Further, WithChild, Fewer, Lends, Awaits, Justified;
    var q, c := WithChild(v, p, id, r), r.node;
    ChildStates(v, p, id, r);
    ChildAwaits(v, p, id, r);
    AwaitedFurther(v, p, q, gone, losses, id, r.referenceType);
    ThroughParent(v, q, gone, losses, c, id, r.referenceType);
    if r.referenceType == HAS_PROPERTY {
      AwaitsIsOwn(v, p.asked, q, gone, id, PROPERTY_TYPE);
      ThroughParent(v, q, gone, losses, c, id, PROPERTY_TYPE);
    }
    forall x | x in q.nodes ensures Justified(v, p, q, gone, losses, x) {
      if x != c {
        FewerJustified(v, p, q, gone, losses, x);
      } else {
        ChildJustified(v, p, q, gone, losses, id, r);
      }
    }
    MentionsStep(v, p, q, gone, losses);
  }

  lemma ThroughParent(v: Validator, q: Progress, gone: multiset<NodeId>, losses: Losses, c: NodeId, id: NodeId,
                      m: NodeId)
    requires DependsOn(q.nodes, c, id) && OwnAwaited(v, q, gone, id, m)
    ensures LentAwaited(v, q, gone, losses, c, m)
  {
  }

  lemma ChildJustified(v: Validator, p: Progress, q: Progress, gone: multiset<NodeId>, losses: Losses, id: NodeId,
                       r: ReferenceDescription)
    requires r.node in q.nodes && DependsOn(q.nodes, r.node, id)
    requires Lends(if r.node in p.nodes then p.nodes[r.node].state else EMPTY_STATE, q.nodes[r.node].state, id, r)
    requires LentAwaited(v, q, gone, losses, r.node, r.referenceType)
    requires r.referenceType == HAS_PROPERTY ==> LentAwaited(v, q, gone, losses, r.node, PROPERTY_TYPE)
    ensures Justified(v, p, q, gone, losses, r.node)
  {
    hide Own, Lent, Lends, Waits;
    var c := r.node;
    var was := if c in p.nodes then p.nodes[c].state else EMPTY_STATE;
    forall m | Own(q.nodes[c].state, m)
      ensures (c in p.nodes && Own(p.nodes[c].state, m)) || OwnAwaited(v, q, gone, c, m)
    {
      LendsMentions(was, q.nodes[c].state, id, r, m);
      NothingMentioned(m);
    }
    forall m | Lent(q.nodes[c].state, m)
      ensures (c in p.nodes && Lent(p.nodes[c].state, m)) || LentAwaited(v, q, gone, losses, c, m)
    {
      LendsMentions(was, q.nodes[c].state, id, r, m);
      NothingMentioned(m);
    }
  }

  lemma ReferenceMentions(v: Validator, p: Progress, gone: multiset<NodeId>, losses: Losses, d: BrowseDescription,
                          r: ReferenceDescription)
    requires MentionsOk(v, p, gone, losses) && d.node in p.nodes && !TripsCheck(d, r)
    ensures MentionsOk(v, WithReference(v, p, d, r), gone, losses)
  {
    hide MentionsOk, Own, Lent, Further, Validated, WithChild, Inverted, Extended, OwnAwaited, NoneMentionMore, Awaits;
    var id := d.node;
    if r.referenceType.Null? || r.node.Null? {
      FailedNoMore(p, id, Bad);
      NoMoreMentions(v, p, WithReference(v, p, d, r), gone, losses);
    } else {
      var a := Validated(v, p, id, r.referenceType);
      ValidatedAwaits(v, p, id, r.referenceType);
      ValidatedNoMore(v, p, id, r.referenceType);
      NoMoreMentions(v, p, a, gone, losses);
      AwaitsIsOwn(v, p.asked, a, gone, id, r.referenceType);
      if d.direction.Inverse? {
        InvertedKeepsEdges(a.nodes[id], r);
        forall m { InvertedMentions(a.nodes[id], r, m); }
        RecordMentions(v, a, gone, losses, id, Inverted(a.nodes[id], r), r.node, r.referenceType);
      } else if d.referenceType == AGGREGATES {
        if r.forward && r.referenceType != HAS_SUBTYPE {
          ChildMentions(v, a, gone, losses, id, r);
        }
      } else {
        ExtendedKeepsEdges(a.nodes[id], r);
        forall m { ExtendedMentions(a.nodes[id], r, m); }
        RecordMentions(v, a, gone, losses, id, Extended(a.nodes[id], r), r.node, r.referenceType);
      }
    }
  }

  lemma FailedNoMore(p: Progress, id: NodeId, status: Status)
    requires id in p.nodes
    ensures var q := p.(nodes := p.nodes[id := p.nodes[id].(status := status)]);
      Further(p, q) && NoneMentionMore(p.nodes, q.nodes)
  {
  }

  lemma {:induction false} ReferencesMentions(v: Validator, p: Progress, gone: multiset<NodeId>, losses: Losses,
                                              d: BrowseDescription, references: seq<ReferenceDescription>)
    requires MentionsOk(v, p, gone, losses) && d.node in p.nodes && NoneTrips(d, references)
    ensures MentionsOk(v, WithReferences(v, p, d, references), gone, losses)
  {
    hide MentionsOk, WithReference, TripsCheck;
    if references != [] {
      var last := |references| - 1;
      ReferencesMentions(v, p, gone, losses, d, references[..last]);
      ReferenceMentions(v, WithReferences(v, p, d, references[..last]), gone, losses, d, references[last]);
    }
  }

  lemma MarkedNoMore(p: Progress, id: NodeId, n: FetchingNode)
    requires id in p.nodes && n.state == p.nodes[id].state && n.dependsOf == p.nodes[id].dependsOf
    ensures var q := p.(nodes := p.nodes[id := n]); Further(p, q) && NoneMentionMore(p.nodes, q.nodes)
  {
  }

  lemma BrowseMentions(v: Validator, p: Progress, gone: multiset<NodeId>, losses: Losses, request: nat,
                       d: BrowseDescription, result: BrowseResult)
    requires MentionsOk(v, p, gone, losses) && (result.status.Good? ==> NoneTrips(d, result.references))
    ensures MentionsOk(v, WithBrowse(v, p, request, d, result), gone, losses)
  {
    hide MentionsOk, WithReferences, NoneTrips, Further, NoneMentionMore;
    if IsCurrent(p.nodes, d.node, request) {
      var marked := p.nodes[d.node].(referencesFetched := true);
      var q := p.(nodes := p.nodes[d.node := marked]);
      MarkedNoMore(p, d.node, marked);
      NoMoreMentions(v, p, q, gone, losses);
      if result.status.Good? {
        ReferencesMentions(v, q, gone, losses, d, result.references);
      } else {
        MarkedNoMore(p, d.node, marked.(status := result.status));
        NoMoreMentions(v, p, WithBrowse(v, p, request, d, result), gone, losses);
      }
    }
  }

  /** A Browse response keeps that every mention is awaited or done with. */
  lemma {:induction false} BrowsesMentions(v: Validator, p: Progress, gone: multiset<NodeId>, losses: Losses,
                                           request: nat, ds: seq<BrowseDescription>, results: seq<BrowseResult>)
    requires MentionsOk(v, p, gone, losses) && |ds| == |results| && PassesChecks(ds, results)
    ensures MentionsOk(v, WithBrowses(v, p, request, ds, results), gone, losses)
  {
    hide MentionsOk, WithBrowse;
    if ds != [] {
      var last := |ds| - 1;
      BrowsesMentions(v, p, gone, losses, request, ds[..last], results[..last]);
      var q := WithBrowses(v, p, request, ds[..last], results[..last]);
      BrowseMentions(v, q, gone, losses, request, ds[last], results[last]);
    }
  }

  lemma ReadMentions(v: Validator, p: Progress, gone: multiset<NodeId>, losses: Losses, request: nat, a: ReadValueId,
                     result: DataValue)
    requires MentionsOk(v, p, gone, losses)
    ensures MentionsOk(v, WithRead(v, p, request, a, result), gone, losses)
  {
    hide MentionsOk, Validated, SetFetchedAttribute, Own, Lent, Further, NoneMentionMore;
    if IsCurrent(p.nodes, a.node, request) {
      var marked := p.nodes[a.node].(attributesFetched := true);
      MarkedNoMore(p, a.node, marked);
      MarkedNoMore(p, a.node, marked.(status := result.status));
      if result.status.Good? {
        var decoding := SetFetchedAttribute(marked, a.attribute, result.value);
        forall m { DecodedMentions(marked, a.attribute, result.value, m); }
        NullIsDone(v, p, gone, a.node);
        DecodedMentions(marked, a.attribute, result.value, Null);
        RecordMentions(v, p, gone, losses, a.node, decoding.node, decoding.dependency, Null);
      } else {
        NoMoreMentions(v, p, WithRead(v, p, request, a, result), gone, losses);
      }
    }
  }

  lemma NullIsDone(v: Validator, p: Progress, gone: multiset<NodeId>, x: NodeId)
    ensures OwnAwaited(v, p, gone, x, Null)
  {
  }

  /** A Read response keeps it too. */
  lemma {:induction false} ReadsMentions(v: Validator, p: Progress, gone: multiset<NodeId>, losses: Losses,
                                         request: nat, asks: seq<ReadValueId>, results: seq<DataValue>)
    requires MentionsOk(v, p, gone, losses) && |asks| == |results|
    ensures MentionsOk(v, WithReads(v, p, request, asks, results), gone, losses)
  {
    hide MentionsOk, WithRead;
    if asks != [] {
      var last := |asks| - 1;
      ReadsMentions(v, p, gone, losses, request, asks[..last], results[..last]);
      ReadMentions(v, WithReads(v, p, request, asks[..last], results[..last]), gone, losses, request, asks[last],
                   results[last]);
    }
  }

  // ---------------------------------------------------------------- nodes that leave

  lemma RestrictedDepends(nodes: Nodes, leave: set<NodeId>, a: NodeId, b: NodeId)
    ensures DependsOn(Restricted(nodes, leave), a, b) <==> DependsOn(nodes, a, b) && a !in leave && b !in leave
  {
  }

  /** What leaves is done with; one that waited through a node that leaves has that node's dependencies
      done with too, or has lost it to a cancellation. */
  lemma MentionsLess(v: Validator, q: Progress, leave: set<NodeId>, gone: multiset<NodeId>, losses: Losses,
                     gone': multiset<NodeId>, losses': Losses)
    requires MentionsOk(v, q, gone, losses) && gone <= gone' && losses <= losses'
    requires forall x :: x in leave ==> x in gone'
    requires forall x, p, m :: p in leave && DependsOn(q.nodes, x, p) && DependsOn(q.nodes, p, m) && x !in leave ==>
      m in leave || Bereft(losses', x)
    ensures MentionsOk(v, q.(nodes := Restricted(q.nodes, leave)), gone', losses')
  {
    hide Own, Lent, Restricted;
    var r := q.(nodes := Restricted(q.nodes, leave));
    RestrictedStates(q.nodes, leave);
    forall x, m | x in r.nodes && Own(r.nodes[x].state, m) ensures OwnAwaited(v, r, gone', x, m) {
      assert OwnAwaited(v, q, gone, x, m);
      DoneStays(v, q.asked, gone, gone', x, m);
      RestrictedDepends(q.nodes, leave, x, m);
    }
    forall x, m | x in r.nodes && Lent(r.nodes[x].state, m) ensures LentAwaited(v, r, gone', losses', x, m) {
      assert LentAwaited(v, q, gone, losses, x, m);
      DoneStays(v, q.asked, gone, gone', x, m);
      if Waits(q.nodes, x, m) {
        WaitsLess(q.nodes, leave, x, m);
      }
      BereftStays(losses, losses', x);
    }
  }

  lemma DoneStays(v: Validator, asked: nat, gone: multiset<NodeId>, gone': multiset<NodeId>, x: NodeId, m: NodeId)
    requires gone <= gone'
    ensures Done(v, asked, gone, x, m) ==> Done(v, asked, gone', x, m)
  {
    assert m in gone ==> gone[m] <= gone'[m];
  }

  lemma BereftStays(losses: Losses, losses': Losses, x: NodeId)
    requires losses <= losses'
    ensures Bereft(losses, x) ==> Bereft(losses', x)
  {
  }

  lemma WaitsLess(nodes: Nodes, leave: set<NodeId>, x: NodeId, m: NodeId)
    requires Waits(nodes, x, m) && x !in leave
    ensures Waits(Restricted(nodes, leave), x, m) || m in leave
      || exists p :: p in leave && DependsOn(nodes, x, p) && DependsOn(nodes, p, m)
  {
    RestrictedDepends(nodes, leave, x, m);
    if p :| DependsOn(nodes, x, p) && DependsOn(nodes, p, m) {
      RestrictedDepends(nodes, leave, x, p);
      RestrictedDepends(nodes, leave, p, m);
    }
  }

  lemma RestrictedStates(nodes: Nodes, leave: set<NodeId>)
    ensures forall x :: x in Restricted(nodes, leave) ==>
      x in nodes && x !in leave && Restricted(nodes, leave)[x].state == nodes[x].state
  {
  }

  lemma CompleteClosed(nodes: Nodes, p: NodeId, m: NodeId)
    requires EdgesOk(nodes) && p in CompleteNodes(nodes) && DependsOn(nodes, p, m)
    ensures m in CompleteNodes(nodes)
  {
    DependencyIsKept(nodes, p, m);
    forall b | Reaches(Dependencies(nodes), m, b) ensures nodes[b].Fetched() {
      ReachesStep(Dependencies(nodes), p, m, b);
    }
  }

  lemma DependencyIsKept(nodes: Nodes, p: NodeId, m: NodeId)
    requires EdgesOk(nodes) && DependsOn(nodes, p, m)
    ensures m in nodes && m in Dependencies(nodes)[p]
  {
  }

  /** A release keeps that every mention is awaited or done with. */
  lemma ReleasedMentions(v: Validator, q: Progress, reported: multiset<NodeId>, cancelled: multiset<NodeId>,
                         losses: Losses)
    requires MentionsOk(v, q, reported + cancelled, losses) && EdgesOk(q.nodes)
    ensures MentionsOk(v, q.(nodes := Restricted(q.nodes, CompleteNodes(q.nodes))),
                       (reported + multiset(CompleteNodes(q.nodes))) + cancelled, losses)
  {
    hide MentionsOk, EdgesOk, Complete, DependsOn;
    var done, gone := CompleteNodes(q.nodes), reported + cancelled;
    assert gone + multiset(done) == (reported + multiset(done)) + cancelled;
    forall x, p, m | p in done && DependsOn(q.nodes, x, p) && DependsOn(q.nodes, p, m) && x !in done ensures m in done {
      CompleteClosed(q.nodes, p, m);
    }
    MentionsLess(v, q, done, gone, losses, gone + multiset(done), losses);
  }

  /** The nodes that lose one they wait for. */
  function LostWith(nodes: Nodes, id: NodeId): Losses {
    set x | x in nodes && DependsOn(nodes, x, id) :: (x, id)
  }

  /** So does a cancellation, for all but the nodes that waited for the one cancelled. */
  lemma CancelledMentions(v: Validator, q: Progress, reported: multiset<NodeId>, cancelled: multiset<NodeId>,
                          losses: Losses, id: NodeId)
    requires MentionsOk(v, q, reported + cancelled, losses)
    ensures MentionsOk(v, q.(nodes := Restricted(q.nodes, {id})), reported + (cancelled + multiset{id}),
                       losses + LostWith(q.nodes, id))
  {
    hide MentionsOk;
    var gone := reported + cancelled;
    assert gone + multiset{id} == reported + (cancelled + multiset{id});
    forall x | DependsOn(q.nodes, x, id) ensures Bereft(losses + LostWith(q.nodes, id), x) {
      assert (x, id) in losses + LostWith(q.nodes, id);
    }
    MentionsLess(v, q, {id}, gone, losses, gone + multiset{id}, losses + LostWith(q.nodes, id));
  }

  // ---------------------------------------------------------------- calls keep it

  lemma NothingToMention(v: Validator, losses: Losses)
    ensures MentionsOk(v, Progress(map[], 0), multiset{}, losses)
  {
  }

  lemma AddedMentions(v: Validator, p: Progress, gone: multiset<NodeId>, losses: Losses, id: NodeId)
    requires MentionsOk(v, p, gone, losses)
    ensures MentionsOk(v, p.(nodes := Added(p.nodes, id)), gone, losses)
  {
    hide MentionsOk, Further, NoneMentionMore;
    AddedIsFurther(p, id);
    AddedNoMore(p.nodes, id);
    NoMoreMentions(v, p, p.(nodes := Added(p.nodes, id)), gone, losses);
  }

  lemma RescheduledMentions(v: Validator, p: Progress, gone: multiset<NodeId>, losses: Losses, id: NodeId,
                            sequence: nat, status: FetchStatus, force: bool)
    requires MentionsOk(v, p, gone, losses) && id in p.nodes
    ensures MentionsOk(v, p.(nodes := p.nodes[id := Rescheduled(p.nodes[id], sequence, status, force)]), gone, losses)
  {
    hide MentionsOk, Further, NoneMentionMore, Rescheduled;
    var n := Rescheduled(p.nodes[id], sequence, status, force);
    RescheduledDependsOf(p.nodes[id], sequence, status, force);
    WrittenIsFurther(p, id, n);
    RescheduledNoMore(p.nodes, id, sequence, status, force);
    NoMoreMentions(v, p, p.(nodes := p.nodes[id := n]), gone, losses);
  }

  lemma RescheduledDependsOf(n: FetchingNode, sequence: nat, status: FetchStatus, force: bool)
    ensures Rescheduled(n, sequence, status, force).dependsOf == n.dependsOf
  {
  }

  /** No node says or waits for anything else. */
  ghost predicate SameWords(was: Nodes, now: Nodes) {
    && was.Keys == now.Keys
    && forall x :: x in was ==> now[x].state == was[x].state && now[x].dependsOf == was[x].dependsOf
  }

  lemma SameWordsMention(v: Validator, p: Progress, now: Nodes, gone: multiset<NodeId>, losses: Losses)
    requires MentionsOk(v, p, gone, losses) && SameWords(p.nodes, now)
    ensures MentionsOk(v, p.(nodes := now), gone, losses)
  {
    hide MentionsOk;
    NoMoreMentions(v, p, p.(nodes := now), gone, losses);
  }

  lemma PoppedSameWords(nodes: Nodes, id: NodeId)
    requires id in nodes
    ensures SameWords(nodes, nodes[id := Popped(nodes[id])])
  {
  }

  lemma SentSameWords(nodes: Nodes, batch: set<NodeId>, request: nat)
    ensures SameWords(nodes, SentAll(nodes, batch, request))
  {
    hide FetchAttributes, FetchReferences;
  }

  lemma CacheSameWords(now: Nodes, was: Nodes)
    requires SameButCache(now, was)
    ensures SameWords(was, now)
  {
  }

  /** Nothing is lost but by a cancellation. */
  ghost predicate LostByCancel(cancelled: multiset<NodeId>, losses: Losses,
                               cancelled': multiset<NodeId>, losses': Losses)
  {
    losses <= losses' && (cancelled' == cancelled ==> losses' == losses)
  }

  lemma NothingLost(c: multiset<NodeId>, l: Losses)
    ensures LostByCancel(c, l, c, l)
  {
  }

  lemma LostTwice(c: multiset<NodeId>, l: Losses, c': multiset<NodeId>, l': Losses, c'': multiset<NodeId>, l'': Losses)
    requires LostByCancel(c, l, c', l') && LostByCancel(c', l', c'', l'') && c <= c' <= c''
    ensures LostByCancel(c, l, c'', l'')
  {
  }

  /** Every loss is by a node that was cancelled. */
  ghost predicate LossesOk(losses: Losses, cancelled: multiset<NodeId>) {
    forall l :: l in losses ==> l.1 in cancelled
  }

  lemma MoreLosses(nodes: Nodes, losses: Losses, cancelled: multiset<NodeId>, id: NodeId)
    requires LossesOk(losses, cancelled)
    ensures LossesOk(losses + LostWith(nodes, id), cancelled + multiset{id})
    ensures LostByCancel(cancelled, losses, cancelled + multiset{id}, losses + LostWith(nodes, id))
  {
    assert (cancelled + multiset{id})[id] == cancelled[id] + 1;
  }

  // ---------------------------------------------------------------- what a report mentions

  /** Whatever a reported state mentions is known to the caller or reported or cancelled before, or is
      reported along; what a child has from its parent, unless it waited for a node that was cancelled. */
  ghost predicate ReportClosed(v: Validator, asked: nat, result: FetchCompletedResult, gone: multiset<NodeId>,
                               losses: Losses)
  {
    forall i, m :: 0 <= i < |result.nodes| ==>
      var n := result.nodes[i];
      && (Own(n.state, m) ==> Done(v, asked, gone, n.id, m) || m in result.Ids())
      && (Lent(n.state, m) ==> Done(v, asked, gone, n.id, m) || m in result.Ids() || Bereft(losses, n.id))
  }

  lemma ReportIsClosed(v: Validator, q: Progress, result: FetchCompletedResult, gone: multiset<NodeId>, losses: Losses)
    requires MentionsOk(v, q, gone, losses) && EdgesOk(q.nodes)
    requires ReportsExactly(result, q.nodes, CompleteNodes(q.nodes))
    ensures ReportClosed(v, q.asked, result, gone, losses)
  {
    hide Own, Lent, EdgesOk, Complete, DependsOn, CompleteNodes;
    forall i, m | 0 <= i < |result.nodes|
      ensures var n := result.nodes[i];
        && (Own(n.state, m) ==> Done(v, q.asked, gone, n.id, m) || m in result.Ids())
        && (Lent(n.state, m) ==> Done(v, q.asked, gone, n.id, m) || m in result.Ids() || Bereft(losses, n.id))
    {
      var x := result.nodes[i].id;
      assert x in result.Ids();
      if DependsOn(q.nodes, x, m) {
        CompleteClosed(q.nodes, x, m);
      }
      if p :| DependsOn(q.nodes, x, p) && DependsOn(q.nodes, p, m) {
        CompleteClosed(q.nodes, x, p);
        CompleteClosed(q.nodes, p, m);
      }
      assert Own(q.nodes[x].state, m) ==> OwnAwaited(v, q, gone, x, m);
      assert Lent(q.nodes[x].state, m) ==> LentAwaited(v, q, gone, losses, x, m);
    }
  }

  /** A child that is new waits for its parent alone: with the parent cancelled it waits for nothing, and
      is reported without the type of the reference to it as soon as it is fetched. */
  lemma CancelledParentForgets(v: Validator, p: Progress, d: BrowseDescription, r: ReferenceDescription)
    requires d.node in p.nodes && d.direction.Forward? && d.referenceType == AGGREGATES && r.forward
    requires r.node !in p.nodes && r.referenceType !in p.nodes && r.node != r.referenceType
    requires !r.node.Null? && !r.referenceType.Null? && !v(p.asked, r.referenceType)
    requires r.referenceType !in {HAS_SUBTYPE, HAS_PROPERTY}
    ensures !TripsCheck(d, r)
    ensures var now := Restricted(WithReference(v, p, d, r).nodes, {d.node});
      && r.node in now && now[r.node].dependsOf == [] && Lent(now[r.node].state, r.referenceType)
      && r.referenceType in now && !now[r.referenceType].Fetched()
  {
    hide Rescheduled, Adopted, Dependent;
    var id, c, t := d.node, r.node, r.referenceType;
    var a := Validated(v, p, id, t).nodes;
    NewDependent(p.nodes, id, t);
    assert id in a && t in a && c !in a && !a[t].Fetched();
    var b := a[c := NEW_NODE];
    var n := Adopted(b[c], id, b[id], r);
    AdoptedLends(b[c], id, b[id], r);
    var e := Linked(b[c := n], c, id);
    assert e[c].dependsOf == [id] by { assert Insert([], id) == [id]; }
    var f := Linked(e, id, c);
    RescheduledKeepsEdges(f[c], f[id].pendingSequence);
    RescheduledNoMore(f, c, f[id].pendingSequence, NODE_ONLY, false);
    assert Without([id], {id}) == [];
  }

  lemma NewDependent(nodes: Nodes, id: NodeId, from: NodeId)
    requires id in nodes && from !in nodes
    ensures var now := Dependent(nodes, id, from); now.Keys == nodes.Keys + {from} && !now[from].Fetched()
  {
  }
}
