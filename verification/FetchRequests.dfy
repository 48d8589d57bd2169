/** What a batch asks the services for, node by node. */
module FetchRequests {
  import opened NodeIds
  import opened Paths
  import opened FetchTypes
  import opened FetchProtocol

  /** Names and data type are read of every node, the class of all but instance properties, the value of
      properties only. */
  predicate ReadWanted(n: FetchingNode, a: ReadValueId) {
    match a.attribute
    case BrowseName | DisplayName | DataTypeAttribute => true
    case NodeClassAttribute => !n.isProperty || n.isDeclaration
    case ValueAttribute => n.isProperty
  }

  /** Children are browsed of all but properties, what a node refers to of all but instance properties, what
      refers to it only on request, and its parent where that is unknown. */
  predicate BrowseWanted(n: FetchingNode, d: BrowseDescription) {
    || (d.direction.Forward? && d.referenceType == AGGREGATES && !n.isProperty)
    || (d.direction.Forward? && d.referenceType == NON_HIERARCHICAL_REFERENCES && (!n.isProperty || n.isDeclaration))
    || (d.direction.Inverse? && d.referenceType == NON_HIERARCHICAL_REFERENCES && n.fetchStarted.inverse)
    || (d.direction.Inverse? && d.referenceType == HIERARCHICAL_REFERENCES
        && d.node != ROOT_FOLDER && n.state.parent.Null? && n.state.referenceType.Null?)
  }

  /** The Read asks for what is wanted of the nodes of the batch, and for nothing else. */
  ghost predicate ReadsWanted(nodes: Nodes, batch: seq<NodeId>, asks: seq<ReadValueId>)
    requires forall id :: id in batch ==> id in nodes
  {
    forall a :: a in asks <==> a.node in batch && ReadWanted(nodes[a.node], a)
  }

  ghost predicate BrowsesWanted(nodes: Nodes, batch: seq<NodeId>, ds: seq<BrowseDescription>)
    requires forall id :: id in batch ==> id in nodes
  {
    forall d :: d in ds <==> d.node in batch && BrowseWanted(nodes[d.node], d)
  }

  lemma AttributesWanted(id: NodeId, n: FetchingNode, a: ReadValueId)
    ensures a in FetchAttributes(id, n) <==> a.node == id && ReadWanted(n, a)
    ensures Distinct(FetchAttributes(id, n))
  {
    var names := [ReadValueId(id, BrowseName), ReadValueId(id, DisplayName)];
    assert names[0] in FetchAttributes(id, n) && names[1] in FetchAttributes(id, n);
    assert a.attribute.BrowseName? || a.attribute.DisplayName? || a.attribute.NodeClassAttribute?
      || a.attribute.DataTypeAttribute? || a.attribute.ValueAttribute?;
  }

  lemma ReferencesWanted(id: NodeId, n: FetchingNode, d: BrowseDescription)
    ensures d in FetchReferences(id, n) <==> d.node == id && BrowseWanted(n, d)
    ensures Distinct(FetchReferences(id, n))
  {
  }

  lemma DistinctJoin<T>(a: seq<T>, b: seq<T>)
    requires Distinct(a) && Distinct(b) && forall x :: x in b ==> x !in a
    ensures Distinct(a + b)
  {
    var s := a + b;
    forall i, j | 0 <= i < j < |s| ensures s[i] != s[j] {
      assert j >= |a| ==> s[j] in b;
      assert i < |a| ==> s[i] in a;
    }
  }

  /** Each wanted attribute is read once. */
  lemma {:induction false} ReadsForWanted(nodes: Nodes, batch: seq<NodeId>)
    requires forall id :: id in batch ==> id in nodes
    ensures ReadsWanted(nodes, batch, ReadsFor(nodes, batch))
    ensures Distinct(batch) ==> Distinct(ReadsFor(nodes, batch))
  {
    hide FetchAttributes, ReadWanted;
    if batch != [] {
      var init, last := batch[..|batch| - 1], batch[|batch| - 1];
      ReadsForWanted(nodes, init);
      forall a ensures a in FetchAttributes(last, nodes[last]) <==> a.node == last && ReadWanted(nodes[last], a) {
        AttributesWanted(last, nodes[last], a);
      }
      assert batch == init + [last];
      if Distinct(batch) {
        AttributesWanted(last, nodes[last], ReadValueId(last, BrowseName));
        DistinctJoin(ReadsFor(nodes, init), FetchAttributes(last, nodes[last]));
      }
    }
  }

  /** Each wanted browse is made once. */
  lemma {:induction false} BrowsesForWanted(nodes: Nodes, batch: seq<NodeId>)
    requires forall id :: id in batch ==> id in nodes
    ensures BrowsesWanted(nodes, batch, BrowsesFor(nodes, batch))
    ensures Distinct(batch) ==> Distinct(BrowsesFor(nodes, batch))
  {
    hide FetchReferences, BrowseWanted;
    if batch != [] {
      var init, last := batch[..|batch| - 1], batch[|batch| - 1];
      BrowsesForWanted(nodes, init);
      forall d ensures d in FetchReferences(last, nodes[last]) <==> d.node == last && BrowseWanted(nodes[last], d) {
        ReferencesWanted(last, nodes[last], d);
      }
      assert batch == init + [last];
      if Distinct(batch) {
        ReferencesWanted(last, nodes[last], BrowseDescription(last, Forward, AGGREGATES));
        DistinctJoin(BrowsesFor(nodes, init), FetchReferences(last, nodes[last]));
      }
    }
  }

  /** The two requests for a batch ask for all that is wanted of its nodes, once, and for nothing else. */
  ghost predicate RequestWanted(nodes: Nodes, batch: seq<NodeId>, x: Exchange, request: nat) {
    && (forall id :: id in batch ==> id in nodes)
    && request in x.toRead && request in x.toBrowse
    && ReadsWanted(nodes, batch, x.toRead[request]) && BrowsesWanted(nodes, batch, x.toBrowse[request])
    && (Distinct(batch) ==> Distinct(x.toRead[request]) && Distinct(x.toBrowse[request]))
  }

  /** Stamping and marking change nothing that the requests depend on. */
  lemma AllWanted(nodes: Nodes, batch: seq<NodeId>, x: Exchange, request: nat)
    requires forall id :: id in batch ==> id in nodes
    requires request in x.toRead && request in x.toBrowse
    requires var stamped := Stamped(nodes, Elements(batch), request);
      && x.toRead[request] == ReadsFor(stamped, batch)
      && x.toBrowse[request] == BrowsesFor(AttributesAsked(stamped, Elements(batch)), batch)
    ensures RequestWanted(nodes, batch, x, request)
  {
    hide FetchAttributes, FetchReferences, ReadsFor, BrowsesFor, Distinct;
    var stamped := Stamped(nodes, Elements(batch), request);
    var asked := AttributesAsked(stamped, Elements(batch));
    ReadsForWanted(stamped, batch);
    BrowsesForWanted(asked, batch);
    forall a: ReadValueId | a.node in batch ensures ReadWanted(stamped[a.node], a) <==> ReadWanted(nodes[a.node], a) {}
    forall d: BrowseDescription | d.node in batch
      ensures BrowseWanted(asked[d.node], d) <==> BrowseWanted(nodes[d.node], d) {}
  }
}
