/** Nodes with doubly stored references and cached type pointers, and the space that holds them. */
module AddressSpaces {
  import opened NodeIds
  import opened Paths
  import opened FetchTypes
  import opened ReferenceGraph

  datatype Reference = Reference(kind: Node, node: Node)

  /** What erasing the last occurrence leaves. */
  function EraseLast(s: seq<Reference>, x: Reference): seq<Reference> {
    if s == [] then []
    else if s[|s| - 1] == x then s[..|s| - 1]
    else EraseLast(s[..|s| - 1], x) + [s[|s| - 1]]
  }

  lemma {:induction false} EraseLastOfDistinct(s: seq<Reference>, x: Reference)
    requires Distinct(s)
    ensures Distinct(EraseLast(s, x)) && |EraseLast(s, x)| <= |s|
    ensures forall i :: 0 <= i < |EraseLast(s, x)| ==> EraseLast(s, x)[i] in s && EraseLast(s, x)[i] != x
    ensures forall i :: 0 <= i < |s| && s[i] != x ==> s[i] in EraseLast(s, x)
  {
    if s != [] {
      var init, last := s[..|s| - 1], s[|s| - 1];
      assert s == init + [last];
      assert last !in init;
      EraseLastOfDistinct(init, x);
    }
  }

  lemma EraseLastAt(s: seq<Reference>, x: Reference, i: nat)
    requires i < |s| && s[i] == x && x !in s[i + 1..]
    ensures EraseLast(s, x) == s[..i] + s[i + 1..]
    decreases |s|
  {
    var init, last := s[..|s| - 1], s[|s| - 1];
    if i < |s| - 1 {
      assert last == s[i + 1..][|s| - i - 2];
      assert init[i + 1..] == s[i + 1..][..|s| - i - 2];
      EraseLastAt(init, x, i);
      assert init[..i] == s[..i];
      assert s[i + 1..] == init[i + 1..] + [last];
    }
  }

  method EraseFromBack(refs: seq<Reference>, ref: Reference) returns (left: seq<Reference>)
    requires ref in refs
    ensures left == EraseLast(refs, ref)
  {
    var i := |refs|;
    while refs[i - 1] != ref
      invariant 0 < i <= |refs| && ref !in refs[i..] && ref in refs[..i]
      decreases i
    {
      i := i - 1;
    }
    EraseLastAt(refs, ref, i - 1);
    left := refs[..i - 1] + refs[i..];
  }

  /** `Node` and, for a type definition, `TypeDefinition`. */
  class Node {
    const id: NodeId
    const nodeClass: NodeClass
    var forwardReferences: seq<Reference>
    var inverseReferences: seq<Reference>
    var typeDefinition: Node?
    var supertype: Node?

    constructor (id: NodeId, nodeClass: NodeClass)
      ensures this.id == id && this.nodeClass == nodeClass && Unlinked()
    {
      this.id, this.nodeClass := id, nodeClass;
      forwardReferences, inverseReferences := [], [];
      typeDefinition, supertype := null, null;
    }

    /** What the destructor checks, and no cached pointer left. */
    predicate Unlinked()
      reads this
    {
      forwardReferences == [] && inverseReferences == [] && typeDefinition == null && supertype == null
    }

    predicate SetsType(kind: Node, forward: bool) {
      forward && kind.id == HAS_TYPE_DEFINITION
    }

    predicate SetsSupertype(kind: Node, forward: bool) {
      !forward && kind.id == HAS_SUBTYPE && IsTypeDefinition(nodeClass)
    }

    method AddReference(kind: Node, forward: bool, node: Node)
      requires Reference(kind, node) !in (if forward then forwardReferences else inverseReferences)
      requires SetsType(kind, forward) ==> typeDefinition == null && IsTypeDefinition(node.nodeClass)
      requires SetsSupertype(kind, forward) ==> supertype == null && IsTypeDefinition(node.nodeClass)
      modifies this
      ensures forwardReferences == old(forwardReferences) + (if forward then [Reference(kind, node)] else [])
      ensures inverseReferences == old(inverseReferences) + (if forward then [] else [Reference(kind, node)])
      ensures typeDefinition == (if SetsType(kind, forward) then node else old(typeDefinition))
      ensures supertype == (if SetsSupertype(kind, forward) then node else old(supertype))
    {
      if forward {
        forwardReferences := forwardReferences + [Reference(kind, node)];
      } else {
        inverseReferences := inverseReferences + [Reference(kind, node)];
      }
      if SetsType(kind, forward) {
        typeDefinition := node;
      }
      if SetsSupertype(kind, forward) {
        supertype := node;
      }
    }

    method DeleteReference(kind: Node, forward: bool, node: Node)
      requires Reference(kind, node) in (if forward then forwardReferences else inverseReferences)
      requires SetsType(kind, forward) ==> typeDefinition == node
      requires SetsSupertype(kind, forward) ==> supertype == node
      modifies this
      ensures forwardReferences ==
        if forward then EraseLast(old(forwardReferences), Reference(kind, node)) else old(forwardReferences)
      ensures inverseReferences ==
        if forward then old(inverseReferences) else EraseLast(old(inverseReferences), Reference(kind, node))
      ensures typeDefinition == if SetsType(kind, forward) then null else old(typeDefinition)
      ensures supertype == if SetsSupertype(kind, forward) then null else old(supertype)
    {
      if SetsSupertype(kind, forward) {
        supertype := null;
      }
      if SetsType(kind, forward) {
        typeDefinition := null;
      }
      if forward {
        forwardReferences := EraseFromBack(forwardReferences, Reference(kind, node));
      } else {
        inverseReferences := EraseFromBack(inverseReferences, Reference(kind, node));
      }
    }
  }

  // ---------------------------------------------------------------- lists and caches of one node

  ghost predicate KeyedById(nodes: map<NodeId, Node>) {
    forall k :: k in nodes ==> nodes[k].id == k && k != Null
  }

  lemma OthersOnly(nodes: map<NodeId, Node>, gone: set<NodeId>)
    requires KeyedById(nodes)
    ensures forall d :: d in gone && d in nodes ==> nodes[d] !in (nodes - gone).Values
  {
  }

  predicate Knows(nodes: map<NodeId, Node>, n: Node) {
    n.id in nodes && nodes[n.id] == n
  }

  /** The reference of type `kind` between the node and `other`, in the given direction. */
  function Directed(n: Node, forward: bool, kind: NodeId, other: NodeId): Ref {
    if forward then Ref(kind, n.id, other) else Ref(kind, other, n.id)
  }

  /** A node's list of one direction holds the references of that direction, each once. */
  ghost predicate ListOk(nodes: map<NodeId, Node>, refs: set<Ref>, n: Node, forward: bool, list: seq<Reference>) {
    && Distinct(list)
    && (forall r :: r in list ==>
         Knows(nodes, r.kind) && Knows(nodes, r.node) && Directed(n, forward, r.kind.id, r.node.id) in refs)
    && (forall k, o :: Directed(n, forward, k, o) in refs && k in nodes && o in nodes ==>
         Reference(nodes[k], nodes[o]) in list)
  }

  /** The cached type definition is the only target of a `HasTypeDefinition` reference. */
  ghost predicate TypeOk(nodes: map<NodeId, Node>, refs: set<Ref>, n: Node, cached: Node?) {
    && (cached != null ==> Knows(nodes, cached) && Ref(HAS_TYPE_DEFINITION, n.id, cached.id) in refs)
    && (forall t :: Ref(HAS_TYPE_DEFINITION, n.id, t) in refs ==> cached != null && cached.id == t)
  }

  /** The cached supertype of a type definition is the only source of a `HasSubtype` reference. */
  ghost predicate SupertypeOk(nodes: map<NodeId, Node>, refs: set<Ref>, n: Node, cached: Node?) {
    && (cached != null ==>
         && IsTypeDefinition(n.nodeClass) && Knows(nodes, cached) && IsTypeDefinition(cached.nodeClass)
         && Ref(HAS_SUBTYPE, cached.id, n.id) in refs)
    && (forall s :: Ref(HAS_SUBTYPE, s, n.id) in refs && IsTypeDefinition(n.nodeClass) ==>
         cached != null && cached.id == s)
  }

  lemma ListAdded(nodes: map<NodeId, Node>, refs: set<Ref>, n: Node, forward: bool, list: seq<Reference>,
                  kind: Node, other: Node)
    requires ListOk(nodes, refs, n, forward, list) && Knows(nodes, kind) && Knows(nodes, other)
    requires Directed(n, forward, kind.id, other.id) !in refs
    ensures Reference(kind, other) !in list
    ensures ListOk(nodes, refs + {Directed(n, forward, kind.id, other.id)}, n, forward, list + [Reference(kind, other)])
  {
  }

  lemma ListDeleted(nodes: map<NodeId, Node>, refs: set<Ref>, n: Node, forward: bool, list: seq<Reference>,
                    kind: Node, other: Node)
    requires ListOk(nodes, refs, n, forward, list) && Knows(nodes, kind) && Knows(nodes, other)
    requires KeyedById(nodes) && Directed(n, forward, kind.id, other.id) in refs
    ensures Reference(kind, other) in list
    ensures ListOk(nodes, refs - {Directed(n, forward, kind.id, other.id)}, n, forward,
                   EraseLast(list, Reference(kind, other)))
  {
    var erased, left := Reference(kind, other), EraseLast(list, Reference(kind, other));
    EraseLastOfDistinct(list, erased);
    forall r | r in left
      ensures Knows(nodes, r.kind) && Knows(nodes, r.node)
      ensures Directed(n, forward, r.kind.id, r.node.id) in refs - {Directed(n, forward, kind.id, other.id)}
    {
      assert r in list && r != erased;
    }
    var rest := refs - {Directed(n, forward, kind.id, other.id)};
    forall k, o | Directed(n, forward, k, o) in rest && k in nodes && o in nodes
      ensures Reference(nodes[k], nodes[o]) in left
    {
      var i :| 0 <= i < |list| && list[i] == Reference(nodes[k], nodes[o]);
      assert list[i] != erased;
    }
  }

  lemma FirstListed(nodes: map<NodeId, Node>, refs: set<Ref>, n: Node, forward: bool, list: seq<Reference>)
    requires ListOk(nodes, refs, n, forward, list) && list != []
    ensures Directed(n, forward, list[0].kind.id, list[0].node.id) in refs
  {
    assert list[0] in list;
  }

  lemma NothingListed(nodes: map<NodeId, Node>, refs: set<Ref>, n: Node, forward: bool, list: seq<Reference>)
    requires ListOk(nodes, refs, n, forward, list)
    requires forall k, o :: Directed(n, forward, k, o) !in refs
    ensures list == []
  {
    if list != [] {
      FirstListed(nodes, refs, n, forward, list);
    }
  }

  lemma ListKept(nodes: map<NodeId, Node>, refs: set<Ref>, refs': set<Ref>, n: Node, forward: bool,
                 list: seq<Reference>)
    requires ListOk(nodes, refs, n, forward, list)
    requires forall k, o :: Directed(n, forward, k, o) in refs <==> Directed(n, forward, k, o) in refs'
    ensures ListOk(nodes, refs', n, forward, list)
  {
  }

  /** All that is stored in a node agrees with the references. */
  ghost predicate StoredOk(nodes: map<NodeId, Node>, refs: set<Ref>, n: Node, forwards: seq<Reference>,
                           inverses: seq<Reference>, typeDefinition: Node?, supertype: Node?) {
    && ListOk(nodes, refs, n, true, forwards)
    && ListOk(nodes, refs, n, false, inverses)
    && TypeOk(nodes, refs, n, typeDefinition)
    && SupertypeOk(nodes, refs, n, supertype)
  }

  lemma StoredAfterAdd(nodes: map<NodeId, Node>, refs: set<Ref>, n: Node, forwards: seq<Reference>,
                       inverses: seq<Reference>, typeDefinition: Node?, supertype: Node?,
                       kind: Node, source: Node, target: Node)
    requires StoredOk(nodes, refs, n, forwards, inverses, typeDefinition, supertype)
    requires Knows(nodes, kind) && Knows(nodes, source) && Knows(nodes, target) && Knows(nodes, n)
    requires Ref(kind.id, source.id, target.id) !in refs
    requires n == source && n.SetsType(kind, true) ==> typeDefinition == null
    requires n == target && n.SetsSupertype(kind, false) ==> supertype == null && IsTypeDefinition(source.nodeClass)
    ensures StoredOk(nodes, refs + {Ref(kind.id, source.id, target.id)}, n,
                     forwards + (if n == source then [Reference(kind, target)] else []),
                     inverses + (if n == target then [Reference(kind, source)] else []),
                     if n == source && n.SetsType(kind, true) then target else typeDefinition,
                     if n == target && n.SetsSupertype(kind, false) then source else supertype)
  {
    hide ListOk;
    var more := refs + {Ref(kind.id, source.id, target.id)};
    if n == source {
      ListAdded(nodes, refs, n, true, forwards, kind, target);
    } else {
      ListKept(nodes, refs, more, n, true, forwards);
      assert forwards + [] == forwards;
    }
    if n == target {
      ListAdded(nodes, refs, n, false, inverses, kind, source);
    } else {
      ListKept(nodes, refs, more, n, false, inverses);
      assert inverses + [] == inverses;
    }
  }

  /** The checks in the nodes do not fire for a reference that is new and keeps both caches unique. */
  lemma AddAllowed(nodes: map<NodeId, Node>, refs: set<Ref>, n: Node, forwards: seq<Reference>,
                   inverses: seq<Reference>, typeDefinition: Node?, supertype: Node?,
                   kind: Node, source: Node, target: Node)
    requires StoredOk(nodes, refs, n, forwards, inverses, typeDefinition, supertype)
    requires Ref(kind.id, source.id, target.id) !in refs
    requires kind.id == HAS_TYPE_DEFINITION ==> forall t :: Ref(HAS_TYPE_DEFINITION, source.id, t) !in refs
    requires kind.id == HAS_SUBTYPE && IsTypeDefinition(target.nodeClass) ==>
      forall s :: Ref(HAS_SUBTYPE, s, target.id) !in refs
    ensures n == source ==> Reference(kind, target) !in forwards && (n.SetsType(kind, true) ==> typeDefinition == null)
    ensures n == target ==> Reference(kind, source) !in inverses && (n.SetsSupertype(kind, false) ==> supertype == null)
  {
  }

  lemma NothingStored(nodes: map<NodeId, Node>, refs: set<Ref>, n: Node)
    requires forall r :: r in refs ==> r.source != n.id && r.target != n.id
    ensures StoredOk(nodes, refs, n, [], [], null, null)
  {
  }

  lemma StoredAfterDelete(nodes: map<NodeId, Node>, refs: set<Ref>, n: Node, forwards: seq<Reference>,
                          inverses: seq<Reference>, typeDefinition: Node?, supertype: Node?,
                          kind: Node, source: Node, target: Node)
    requires StoredOk(nodes, refs, n, forwards, inverses, typeDefinition, supertype)
    requires Knows(nodes, kind) && Knows(nodes, source) && Knows(nodes, target) && Knows(nodes, n)
    requires KeyedById(nodes) && Ref(kind.id, source.id, target.id) in refs
    ensures n == source ==> Reference(kind, target) in forwards && (n.SetsType(kind, true) ==> typeDefinition == target)
    ensures n == target ==> Reference(kind, source) in inverses
    ensures n == target && n.SetsSupertype(kind, false) ==> supertype == source
    ensures StoredOk(nodes, refs - {Ref(kind.id, source.id, target.id)}, n,
                     if n == source then EraseLast(forwards, Reference(kind, target)) else forwards,
                     if n == target then EraseLast(inverses, Reference(kind, source)) else inverses,
                     if n == source && n.SetsType(kind, true) then null else typeDefinition,
                     if n == target && n.SetsSupertype(kind, false) then null else supertype)
  {
    hide ListOk;
    var fewer := refs - {Ref(kind.id, source.id, target.id)};
    if n == source {
      ListDeleted(nodes, refs, n, true, forwards, kind, target);
    } else {
      ListKept(nodes, refs, fewer, n, true, forwards);
    }
    if n == target {
      ListDeleted(nodes, refs, n, false, inverses, kind, source);
    } else {
      ListKept(nodes, refs, fewer, n, false, inverses);
    }
  }

  /** The references stay, and the nodes they connect. */
  lemma StoredInMore(nodes: map<NodeId, Node>, nodes': map<NodeId, Node>, refs: set<Ref>, n: Node,
                     forwards: seq<Reference>, inverses: seq<Reference>, typeDefinition: Node?, supertype: Node?)
    requires StoredOk(nodes, refs, n, forwards, inverses, typeDefinition, supertype)
    requires forall r :: r in refs ==>
      {r.kind, r.source, r.target} <= nodes.Keys && {r.kind, r.source, r.target} <= nodes'.Keys
    requires forall k :: k in nodes && k in nodes' ==> nodes[k] == nodes'[k]
    ensures StoredOk(nodes', refs, n, forwards, inverses, typeDefinition, supertype)
  {
    forall forward, list | list in {forwards, inverses} && ListOk(nodes, refs, n, forward, list)
      ensures ListOk(nodes', refs, n, forward, list)
    {
      forall r | r in list ensures Knows(nodes', r.kind) && Knows(nodes', r.node) {
        assert Directed(n, forward, r.kind.id, r.node.id) in refs;
      }
    }
  }

  function Targets(list: seq<Reference>): set<Node> {
    set r | r in list :: r.node
  }

  /** The loop over one list of references of the node at the front of the queue. */
  method SeeAll(list: seq<Reference>, waiting: seq<Node>, known: set<Node>) returns (queue: seq<Node>, seen: set<Node>)
    ensures seen == known + Targets(list)
    ensures multiset(queue) == multiset(waiting) + multiset(seen - known)
  {
    queue, seen := waiting, known;
    for i := 0 to |list|
      invariant seen == known + Targets(list[..i])
      invariant multiset(queue) == multiset(waiting) + multiset(seen - known)
    {
      TargetsStep(list, i);
      if list[i].node !in seen {
        assert seen + {list[i].node} - known == (seen - known) + {list[i].node};
        seen := seen + {list[i].node};
        queue := queue + [list[i].node];
      }
    }
    assert list[..|list|] == list;
  }

  lemma TargetsStep(list: seq<Reference>, i: nat)
    requires i < |list|
    ensures Targets(list[..i + 1]) == Targets(list[..i]) + {list[i].node}
  {
    assert list[..i + 1] == list[..i] + [list[i]];
  }

  /** Each node that was seen is listed or waits, and the root once more. */
  ghost predicate Accounted(root: Node, result: seq<Node>, queue: seq<Node>, seen: set<Node>) {
    multiset(result) + multiset(queue) == multiset{root} + multiset(seen)
  }

  lemma AccountedStart(root: Node)
    ensures Accounted(root, [], [root], {})
  {
  }

  lemma FrontSeen(root: Node, result: seq<Node>, queue: seq<Node>, seen: set<Node>)
    requires Accounted(root, result, queue, seen) && queue != []
    ensures queue[0] in seen + {root}
  {
    assert queue[0] in multiset(result) + multiset(queue);
  }

  lemma MoveOver(listed: multiset<Node>, front: multiset<Node>, rest: multiset<Node>, more: multiset<Node>,
                 root: multiset<Node>, seen: multiset<Node>)
    requires listed + (front + rest) == root + seen
    ensures (listed + front) + (rest + more) == root + (seen + more)
  {
    assert (listed + front) + (rest + more) == (listed + (front + rest)) + more;
    assert (root + seen) + more == root + (seen + more);
  }

  lemma AccountedNext(root: Node, result: seq<Node>, queue: seq<Node>, seen: set<Node>,
                      queue': seq<Node>, seen': set<Node>)
    requires Accounted(root, result, queue, seen) && queue != [] && seen <= seen'
    requires multiset(queue') == multiset(queue[1..]) + multiset(seen' - seen)
    ensures Accounted(root, result + [queue[0]], queue', seen')
    ensures seen' == seen ==> |queue'| < |queue|
  {
    assert queue == [queue[0]] + queue[1..];
    assert multiset(seen') == multiset(seen) + multiset(seen' - seen);
    assert multiset(queue) == multiset{queue[0]} + multiset(queue[1..]);
    MoveOver(multiset(result), multiset{queue[0]}, multiset(queue[1..]), multiset(seen' - seen), multiset{root},
             multiset(seen));
    assert multiset(result + [queue[0]]) == multiset(result) + multiset{queue[0]};
    if seen' == seen {
      assert multiset(queue') == multiset(queue[1..]);
      assert |multiset(queue')| == |queue'|;
    }
  }

  class AddressSpaceImpl {
    var nodeMap: map<NodeId, Node>
    /** The ids of the nodes this space owns. */
    var staticNodes: set<NodeId>
    /** What subscribers to deletions have been told. */
    var deletions: seq<NodeId>
    ghost var refs: set<Ref>
    /** Ids under which the map holds a node that was destroyed. */
    ghost var dangling: set<NodeId>

    // -------------------------------------------------------------- the invariant

    ghost function View(): Space
      reads this`nodeMap, this`refs
    {
      Space(nodeMap.Keys, refs)
    }

    predicate Has(n: Node)
      reads this`nodeMap
    {
      n.id in nodeMap && nodeMap[n.id] == n
    }

    ghost predicate NodeOk(n: Node)
      reads this`nodeMap, this`refs, n
    {
      StoredOk(nodeMap, refs, n, n.forwardReferences, n.inverseReferences, n.typeDefinition, n.supertype)
    }

    ghost predicate Valid()
      reads this`nodeMap, this`refs, this`dangling, nodeMap.Values
    {
      && dangling == {}
      && Closed(View())
      && KeyedById(nodeMap)
      && (forall r :: r in refs ==> r.kind in nodeMap && nodeMap[r.kind].nodeClass.ReferenceType?)
      && (forall k :: k in nodeMap ==> NodeOk(nodeMap[k]))
    }

    constructor ()
      ensures Valid() && View() == Space({}, {}) && deletions == [] && staticNodes == {}
    {
      nodeMap, staticNodes, deletions, refs, dangling := map[], {}, [], {}, {};
    }

    // -------------------------------------------------------------- adding

    /** No node is owned under an id that is not in use. */
    ghost predicate Owning()
      reads this`nodeMap, this`staticNodes
    {
      staticNodes <= nodeMap.Keys
    }

    /** An owned node under an id that is still owned is not taken in by `emplace`, and is destroyed
        on return, which leaves the space invalid; that cannot be unless the space was cleared before. */
    method AddNode(node: Node, owned: bool) returns (lives: bool)
      requires Valid() && node.Unlinked()
      requires node.id != Null && node.id !in nodeMap
      modifies this`nodeMap, this`staticNodes, this`dangling
      ensures nodeMap == old(nodeMap)[node.id := node]
      ensures staticNodes == old(staticNodes) + (if owned then {node.id} else {})
      ensures lives == !(owned && node.id in old(staticNodes))
      ensures Valid() <==> lives
      ensures dangling == if lives then {} else {node.id}
      ensures old(Owning()) ==> lives && Owning()
    {
      hide StoredOk;
      ghost var was := nodeMap;
      nodeMap := nodeMap[node.id := node];
      lives := true;
      if owned {
        lives := node.id !in staticNodes;
        staticNodes := staticNodes + {node.id};
        dangling := if lives then {} else {node.id};
      }
      forall k | k in nodeMap ensures NodeOk(nodeMap[k]) {
        if k == node.id {
          NothingStored(nodeMap, refs, node);
        } else {
          var n := was[k];
          StoredInMore(was, nodeMap, refs, n, n.forwardReferences, n.inverseReferences, n.typeDefinition, n.supertype);
        }
      }
    }

    method AddReference(kind: Node, source: Node, target: Node)
      requires Valid() && Has(kind) && Has(source) && Has(target) && kind.nodeClass.ReferenceType?
      requires Ref(kind.id, source.id, target.id) !in refs
      requires kind.id == HAS_TYPE_DEFINITION ==>
        IsTypeDefinition(target.nodeClass) && forall t :: Ref(HAS_TYPE_DEFINITION, source.id, t) !in refs
      requires kind.id == HAS_SUBTYPE && IsTypeDefinition(target.nodeClass) ==>
        IsTypeDefinition(source.nodeClass) && forall s :: Ref(HAS_SUBTYPE, s, target.id) !in refs
      modifies this`refs, source, target
      ensures Valid() && refs == old(refs) + {Ref(kind.id, source.id, target.id)}
    {
      hide StoredOk;
      assert NodeOk(nodeMap[source.id]) && NodeOk(nodeMap[target.id]);
      AddAllowed(nodeMap, refs, source, source.forwardReferences, source.inverseReferences,
                 source.typeDefinition, source.supertype, kind, source, target);
      AddAllowed(nodeMap, refs, target, target.forwardReferences, target.inverseReferences,
                 target.typeDefinition, target.supertype, kind, source, target);
      source.AddReference(kind, true, target);
      target.AddReference(kind, false, source);
      refs := refs + {Ref(kind.id, source.id, target.id)};
      forall k | k in nodeMap ensures NodeOk(nodeMap[k]) {
        var n := nodeMap[k];
        StoredAfterAdd(nodeMap, old(refs), n, old(n.forwardReferences), old(n.inverseReferences),
                       old(n.typeDefinition), old(n.supertype), kind, source, target);
        assert forall s: seq<Reference> :: s + [] == s;
      }
    }

    method DeleteReference(kind: Node, source: Node, target: Node)
      requires Valid() && Has(kind) && Has(source) && Has(target)
      requires Ref(kind.id, source.id, target.id) in refs
      modifies this`refs, source, target
      ensures Valid() && refs == old(refs) - {Ref(kind.id, source.id, target.id)}
    {
      hide StoredOk, EraseLast;
      assert NodeOk(nodeMap[source.id]) && NodeOk(nodeMap[target.id]);
      ghost var before := refs;
      label start:
      StoredAfterDelete(nodeMap, refs, source, source.forwardReferences, source.inverseReferences,
                        source.typeDefinition, source.supertype, kind, source, target);
      StoredAfterDelete(nodeMap, refs, target, target.forwardReferences, target.inverseReferences,
                        target.typeDefinition, target.supertype, kind, source, target);
      source.DeleteReference(kind, true, target);
      target.DeleteReference(kind, false, source);
      refs := refs - {Ref(kind.id, source.id, target.id)};
      forall k | k in nodeMap ensures NodeOk(nodeMap[k]) {
        var n := nodeMap[k];
        StoredAfterDelete(nodeMap, before, n, old(n.forwardReferences), old(n.inverseReferences),
                          old(n.typeDefinition), old(n.supertype), kind, source, target);
      }
    }

    lemma Listed(n: Node, forward: bool, r: Reference)
      requires Valid() && Has(n) && r in (if forward then n.forwardReferences else n.inverseReferences)
      ensures Has(r.kind) && Has(r.node) && Directed(n, forward, r.kind.id, r.node.id) in refs
    {
      assert NodeOk(nodeMap[n.id]);
    }

    lemma NothingDirected(n: Node, forward: bool)
      requires Valid() && Has(n) && (if forward then n.forwardReferences else n.inverseReferences) == []
      ensures forall r :: r in refs ==> (if forward then r.source else r.target) != n.id
    {
      assert NodeOk(nodeMap[n.id]);
      forall r | r in refs ensures (if forward then r.source else r.target) != n.id {
        assert r == Directed(n, forward, r.kind, if forward then r.target else r.source)
            || (if forward then r.source else r.target) != n.id;
      }
    }

    lemma UntouchedIsUnlinked(n: Node)
      requires Valid() && Has(n) && forall r :: r in refs ==> !Touches(r, {n.id})
      ensures n.Unlinked()
    {
      assert NodeOk(nodeMap[n.id]);
      NothingListed(nodeMap, refs, n, true, n.forwardReferences);
      NothingListed(nodeMap, refs, n, false, n.inverseReferences);
    }

    /** `DeleteAllReferences` */
    method DeleteAllReferences(node: Node)
      requires Valid() && Has(node)
      modifies this`refs, nodeMap.Values
      ensures Valid() && node.Unlinked()
      ensures refs == Remaining(old(View()), {node.id}).refs
    {
      hide StoredOk;
      while node.inverseReferences != []
        invariant Valid() && refs <= old(refs)
        invariant forall r :: r in old(refs) && !Touches(r, {node.id}) ==> r in refs
        decreases refs
      {
        var ref := node.inverseReferences[|node.inverseReferences| - 1];
        Listed(node, false, ref);
        DeleteReference(ref.kind, ref.node, node);
      }
      NothingDirected(node, false);
      while node.forwardReferences != []
        invariant Valid() && refs <= old(refs)
        invariant forall r :: r in old(refs) && !Touches(r, {node.id}) ==> r in refs
        invariant forall r :: r in refs ==> r.target != node.id
        decreases refs
      {
        var ref := node.forwardReferences[|node.forwardReferences| - 1];
        Listed(node, true, ref);
        DeleteReference(ref.kind, node, ref.node);
      }
      NothingDirected(node, true);
      UntouchedIsUnlinked(node);
    }

    // -------------------------------------------------------------- types and children

    lemma OnlySupertype(n: Node)
      requires Valid() && Has(n) && IsTypeDefinition(n.nodeClass)
      ensures Supertypes(View())[n.id] == if n.supertype == null then {} else {n.supertype.id}
      ensures n.supertype != null ==> Has(n.supertype) && IsTypeDefinition(n.supertype.nodeClass)
    {
      assert NodeOk(nodeMap[n.id]);
    }

    method IsSubtypeOf(kind: Node, supertypeId: NodeId) returns (found: bool)
      requires Valid() && Has(kind) && IsTypeDefinition(kind.nodeClass)
      requires NoCyclesFrom(Supertypes(View()), kind.id)
      ensures found == IsSubtype(View(), kind.id, supertypeId)
    {
      hide Valid, Supertypes, NoCyclesFrom, Left;
      ghost var up := Supertypes(View());
      ghost var seen: set<NodeId> := {};
      var at: Node? := kind;
      StartsAt(kind);
      while at != null
        invariant at != null ==> Has(at) && IsTypeDefinition(at.nodeClass) && at.id !in seen && at.id in up
        invariant at != null ==> Reaches(up, kind.id, at.id) && Left(up, seen, at.id)
        invariant Reaches(up, kind.id, supertypeId) <==> at != null && Reaches(up, at.id, supertypeId)
        decreases nodeMap.Keys - seen
      {
        if at.id == supertypeId {
          return true;
        }
        OnlySupertype(at);
        if Reaches(up, at.id, supertypeId) {
          ReachesFirst(up, at.id, supertypeId);
        }
        if at.supertype != null {
          StartsAt(at.supertype);
          if Reaches(up, at.supertype.id, supertypeId) {
            ReachesStep(up, at.id, at.supertype.id, supertypeId);
          }
          ReachesEnd(up, kind.id, at.id, at.supertype.id);
          LeftFurther(up, seen, at.id, at.supertype.id);
          LeftForGood(up, kind.id, seen + {at.id}, at.supertype.id);
        }
        seen := seen + {at.id};
        at := at.supertype;
      }
      return false;
    }

    lemma StartsAt(n: Node)
      requires Has(n)
      ensures n.id in Supertypes(View()) && Reaches(Supertypes(View()), n.id, n.id)
      ensures Left(Supertypes(View()), {}, n.id)
    {
      ReachesSelf(Supertypes(View()), n.id);
    }

    /** `GetChildren` */
    method GetChildren(node: Node) returns (children: seq<Node>)
      requires Valid() && Has(node) && TypesEnd(View())
      ensures forall i :: 0 <= i < |children| ==> Has(children[i]) && children[i].id in Children(View())[node.id]
      ensures forall b :: b in Children(View())[node.id] ==> nodeMap[b] in children
    {
      hide Valid, IsSubtype;
      children := [];
      var all := node.forwardReferences;
      for k := 0 to |all|
        invariant forall i :: 0 <= i < |children| ==> Has(children[i]) && children[i].id in Children(View())[node.id]
        invariant forall i :: 0 <= i < k && IsSubtype(View(), all[i].kind.id, HIERARCHICAL_REFERENCES) ==>
          all[i].node in children
      {
        KindOf(node, all[k]);
        var hierarchical := IsSubtypeOf(all[k].kind, HIERARCHICAL_REFERENCES);
        if hierarchical {
          children := children + [all[k].node];
        }
      }
      ChildrenListed(node, children);
    }

    lemma KindOf(n: Node, r: Reference)
      requires Valid() && Has(n) && r in n.forwardReferences && TypesEnd(View())
      ensures Has(r.kind) && Has(r.node) && Ref(r.kind.id, n.id, r.node.id) in refs
      ensures IsTypeDefinition(r.kind.nodeClass) && NoCyclesFrom(Supertypes(View()), r.kind.id)
    {
      Listed(n, true, r);
      assert Ref(r.kind.id, n.id, r.node.id) in View().refs;
      assert NoCyclesFrom(Supertypes(View()), Ref(r.kind.id, n.id, r.node.id).kind);
    }

    /** A child is the target of one of the node's forward references. */
    lemma ChildrenListed(n: Node, children: seq<Node>)
      requires Valid() && Has(n)
      requires var all := n.forwardReferences; forall i ::
        0 <= i < |all| && IsSubtype(View(), all[i].kind.id, HIERARCHICAL_REFERENCES) ==> all[i].node in children
      ensures forall b :: b in Children(View())[n.id] ==> nodeMap[b] in children
    {
      hide IsSubtype;
      assert NodeOk(nodeMap[n.id]);
      forall b | b in Children(View())[n.id] ensures nodeMap[b] in children {
        var k :| Ref(k, n.id, b) in refs && IsSubtype(View(), k, HIERARCHICAL_REFERENCES);
        assert Directed(n, true, k, b) in refs;
        var i :| 0 <= i < |n.forwardReferences| && n.forwardReferences[i] == Reference(nodeMap[k], nodeMap[b]);
        assert nodeMap[k].id == k;
      }
    }

    // -------------------------------------------------------------- deleting a subtree

    ghost function Doomed(id: NodeId): set<NodeId>
      reads this`nodeMap, this`refs
    {
      if id in nodeMap then Descendants(View(), id) else {}
    }

    /** The node alone: its references, the report, the entry in the map and the ownership. */
    method DeleteAlone(node: Node)
      requires Valid() && Has(node)
      requires forall r :: r in Remaining(View(), {node.id}).refs ==> r.kind != node.id
      modifies this, nodeMap.Values
      ensures Valid() && View() == Remaining(old(View()), {node.id}) && node.Unlinked()
      ensures nodeMap == old(nodeMap) - {node.id} && staticNodes == old(staticNodes) - {node.id}
      ensures deletions == old(deletions) + [node.id]
    {
      hide StoredOk;
      DeleteAllReferences(node);
      deletions := deletions + [node.id];
      ghost var was := nodeMap;
      nodeMap := nodeMap - {node.id};
      staticNodes := staticNodes - {node.id};
      forall k | k in nodeMap ensures NodeOk(nodeMap[k]) {
        var n := was[k];
        StoredInMore(was, nodeMap, refs, n, n.forwardReferences, n.inverseReferences, n.typeDefinition, n.supertype);
      }
    }

    lemma KeyIs(id: NodeId)
      requires Valid() && id in nodeMap
      ensures nodeMap[id].id == id && Has(nodeMap[id]) && Closed(View()) && KeyedById(nodeMap)
    {
    }

    method DeleteNode(id: NodeId) returns (ghost removed: seq<NodeId>)
      requires Valid() && (id in nodeMap ==> Deletable(View(), id))
      modifies this, nodeMap.Values
      ensures Valid() && View() == Remaining(old(View()), old(Doomed(id)))
      ensures nodeMap == old(nodeMap) - old(Doomed(id)) && staticNodes == old(staticNodes) - old(Doomed(id))
      ensures deletions == old(deletions) + removed && Reported(old(View()), removed, old(Doomed(id)))
      ensures forall d :: d in old(Doomed(id)) ==> old(nodeMap)[d].Unlinked()
      decreases Doomed(id)
    {
      hide Valid, Deletable, Below, Descendants, Children, Reported, Remaining;
      removed := [];
      if id !in nodeMap {
        NothingReported(View());
        return;
      }
      ghost var s := View();
      ghost var gone: set<NodeId> := {};
      ghost var was := nodeMap;
      var node := nodeMap[id];
      StartsBelow(s, id);
      KeyIs(id);
      while true
        invariant Valid() && Closed(s) && Below(s, id, gone) && View() == Remaining(s, gone)
        invariant nodeMap == was - gone && staticNodes == old(staticNodes) - gone
        invariant deletions == old(deletions) + removed && Reported(s, removed, gone)
        invariant forall d :: d in gone ==> d in was && was[d].Unlinked()
        decreases nodeMap.Keys
      {
        BelowEnds(s, id, gone);
        var children := GetChildren(node);
        if children == [] {
          assert Children(View())[id] == {};
          break;
        }
        OthersOnly(was, gone);
        var child := children[0];
        ghost var also := DeletableChild(s, id, gone, child.id);
        ghost var more := DeleteNode(child.id);
        RemainingTwice(s, gone, also);
        ReportedJoin(s, removed, gone, more, also);
        removed := removed + more;
        gone := gone + also;
      }
      NoChildLeft(s, id, gone);
      OthersOnly(was, gone);
      RemainingTwice(s, gone, {id});
      KindsStay(s, id);
      DeleteAlone(node);
      ReportedEnd(s, removed, gone, id);
      removed := removed + [id];
    }

    /** The nodes that are owned stay owned. */
    method Clear()
      requires Valid()
      modifies this`nodeMap, this`refs, nodeMap.Values
      ensures Valid() && View() == Space({}, {})
      ensures forall k :: k in old(nodeMap) ==> old(nodeMap)[k].Unlinked()
    {
      hide StoredOk;
      var todo := nodeMap.Keys;
      while todo != {}
        invariant Valid() && nodeMap == old(nodeMap) && todo <= nodeMap.Keys
        invariant forall r :: r in refs ==> r.source in todo && r.target in todo
        decreases todo
      {
        var k :| k in todo;
        DeleteAllReferences(nodeMap[k]);
        todo := todo - {k};
      }
      forall k | k in nodeMap ensures nodeMap[k].Unlinked() {
        UntouchedIsUnlinked(nodeMap[k]);
      }
      nodeMap := map[];
    }

    /** A caller's view of what can be deleted: the references below the node form no cycle, and no
        reference type is among the nodes below. */
    lemma DeletableWithoutTypesBelow(id: NodeId)
      requires Valid() && TypesEnd(View()) && NoCyclesFrom(Children(View()), id)
      requires forall d :: d in Descendants(View(), id) ==> !nodeMap[d].nodeClass.ReferenceType?
      requires forall s, t :: Ref(HAS_SUBTYPE, s, t) in refs && nodeMap[t].nodeClass.ReferenceType? ==>
        nodeMap[s].nodeClass.ReferenceType?
      ensures Deletable(View(), id)
    {
      var kinds := set k | k in nodeMap && nodeMap[k].nodeClass.ReferenceType?;
      forall r, d | r in refs && d in Descendants(View(), id) ensures !IsSubtype(View(), r.kind, d) {
        if IsSubtype(View(), r.kind, d) {
          ClosedContainsReachable(Supertypes(View()), kinds, r.kind, d);
        }
      }
    }

    // -------------------------------------------------------------- listing all nodes

    ghost function Connected(): set<Node>
      reads this`nodeMap, this`refs
    {
      set n | n in nodeMap.Values && Reaches(Neighbours(View()), ROOT_FOLDER, n.id)
    }

    function Links(n: Node): set<Node>
      reads n`forwardReferences, n`inverseReferences
    {
      Targets(n.forwardReferences) + Targets(n.inverseReferences)
    }

    lemma LinksOf(n: Node)
      requires Valid() && Has(n)
      ensures n.id in Neighbours(View()) && Links(n) <= nodeMap.Values
      ensures forall m :: Has(m) ==> (m in Links(n) <==> m.id in Neighbours(View())[n.id])
    {
      assert NodeOk(nodeMap[n.id]);
      forall m | Has(m) ensures m in Links(n) <==> Linked(View(), n.id, m.id) {
        if Linked(View(), n.id, m.id) {
          var k :| Ref(k, n.id, m.id) in refs || Ref(k, m.id, n.id) in refs;
          assert Directed(n, true, k, m.id) in refs || Directed(n, false, k, m.id) in refs;
          assert Reference(nodeMap[k], m) in n.forwardReferences || Reference(nodeMap[k], m) in n.inverseReferences;
        }
      }
    }

    /** What has been seen was reached from the root, and refers to something. */
    ghost predicate Seen(seen: set<Node>)
      reads this`nodeMap, this`refs
    {
      forall n :: n in seen ==>
        Has(n) && Reaches(Neighbours(View()), ROOT_FOLDER, n.id) && Neighbours(View())[n.id] != {}
    }

    lemma SeenFurther(seen: set<Node>, node: Node)
      requires Valid() && Seen(seen) && Has(node) && Reaches(Neighbours(View()), ROOT_FOLDER, node.id)
      ensures Seen(seen + Links(node))
    {
      LinksOf(node);
      forall m | m in Links(node)
        ensures Has(m) && Reaches(Neighbours(View()), ROOT_FOLDER, m.id) && Neighbours(View())[m.id] != {}
      {
        KeyOf(m);
        NeighboursMutual(View(), node.id, m.id);
        ReachesEnd(Neighbours(View()), ROOT_FOLDER, node.id, m.id);
      }
    }

    lemma KeyOf(n: Node)
      requires Valid() && n in nodeMap.Values
      ensures Has(n)
    {
    }

    lemma SeenIsConnected(root: Node, seen: set<Node>)
      requires Valid() && Has(root) && root.id == ROOT_FOLDER && Seen(seen)
      requires forall n :: n in seen + {root} ==> Links(n) <= seen
      ensures seen + {root} == Connected()
    {
      hide Valid, Links, Neighbours;
      var all := seen + {root};
      var ids := set n | n in all :: n.id;
      forall a, b | a in ids && a in Neighbours(View()) && b in Neighbours(View())[a] ensures b in ids {
        var n :| n in all && n.id == a;
        LinkTo(n, b);
      }
      forall n | n in Connected() ensures n in all {
        KeyOf(n);
        ClosedContainsReachable(Neighbours(View()), ids, ROOT_FOLDER, n.id);
      }
      StartsSeen(root);
    }

    lemma LinkTo(n: Node, b: NodeId)
      requires Valid() && Has(n) && n.id in Neighbours(View()) && b in Neighbours(View())[n.id]
      ensures b in nodeMap && nodeMap[b] in Links(n) && nodeMap[b].id == b
    {
      LinksOf(n);
      KeyIs(b);
    }

    /** The root is seen again from any of its neighbours. */
    lemma RootSeenAgain(root: Node, seen: set<Node>)
      requires Valid() && Has(root) && root.id == ROOT_FOLDER && Seen(seen)
      requires forall n :: n in seen + {root} ==> Links(n) <= seen
      ensures ROOT_FOLDER in Neighbours(View())
      ensures root in seen <==> Neighbours(View())[ROOT_FOLDER] != {}
    {
      hide Valid, Links;
      LinksOf(root);
      if b :| b in Neighbours(View())[ROOT_FOLDER] {
        LinkTo(root, b);
        NeighboursMutual(View(), ROOT_FOLDER, b);
        LinkTo(nodeMap[b], ROOT_FOLDER);
      }
    }

    lemma StartsSeen(root: Node)
      requires Valid() && Has(root) && root.id == ROOT_FOLDER
      ensures Seen({}) && Reaches(Neighbours(View()), ROOT_FOLDER, ROOT_FOLDER)
    {
      ReachesSelf(Neighbours(View()), ROOT_FOLDER);
    }

    lemma SeenOrRoot(node: Node, root: Node, seen: set<Node>)
      requires Seen(seen) && Has(root) && root.id == ROOT_FOLDER && node in seen + {root}
      requires Reaches(Neighbours(View()), ROOT_FOLDER, ROOT_FOLDER)
      ensures Has(node) && Reaches(Neighbours(View()), ROOT_FOLDER, node.id)
    {
    }

    /** Each connected node is listed once, the root once more when it has a reference. */
    ghost predicate ListsConnected(root: Node, result: seq<Node>)
      requires root.id in nodeMap && root.id == ROOT_FOLDER
      reads this`nodeMap, this`refs
    {
      multiset(result) == multiset(Connected())
        + (if Neighbours(View())[ROOT_FOLDER] == {} then multiset{} else multiset{root})
    }

    lemma AllListed(root: Node, result: seq<Node>, seen: set<Node>)
      requires Valid() && Has(root) && root.id == ROOT_FOLDER && Seen(seen)
      requires Accounted(root, result, [], seen)
      requires forall n :: n in result ==> Links(n) <= seen
      ensures ListsConnected(root, result)
    {
      hide Valid, Links, Neighbours, Seen;
      assert multiset(result) == multiset{root} + multiset(seen);
      forall n | n in seen + {root} ensures Links(n) <= seen {
        assert n in multiset(result);
      }
      SeenIsConnected(root, seen);
      RootSeenAgain(root, seen);
      assert multiset(Connected()) == multiset(seen + {root});
      assert multiset(seen + {root}) == if root in seen then multiset(seen) else multiset(seen) + multiset{root};
    }

    method SeeLinks(node: Node, waiting: seq<Node>, known: set<Node>) returns (queue: seq<Node>, seen: set<Node>)
      ensures seen == known + Links(node)
      ensures multiset(queue) == multiset(waiting) + multiset(seen - known)
    {
      ghost var between: set<Node>;
      queue, seen := SeeAll(node.forwardReferences, waiting, known);
      between := seen;
      queue, seen := SeeAll(node.inverseReferences, queue, seen);
      assert seen - known == (between - known) + (seen - between);
    }

    method GetAllNodes() returns (result: seq<Node>)
      requires Valid()
      ensures ROOT_FOLDER !in nodeMap ==> result == []
      ensures ROOT_FOLDER in nodeMap ==>
        nodeMap[ROOT_FOLDER].id == ROOT_FOLDER && ListsConnected(nodeMap[ROOT_FOLDER], result)
    {
      hide Valid, Neighbours, Seen, ListsConnected, Links, Accounted;
      result := [];
      if ROOT_FOLDER !in nodeMap {
        return;
      }
      var root := nodeMap[ROOT_FOLDER];
      KeyIs(ROOT_FOLDER);
      StartsSeen(root);
      AccountedStart(root);
      var queue: seq<Node>, seen: set<Node> := [root], {};
      while queue != []
        invariant Accounted(root, result, queue, seen)
        invariant Seen(seen) && seen <= nodeMap.Values
        invariant forall n :: n in result ==> Links(n) <= seen
        decreases nodeMap.Values - seen, |queue|
      {
        var node := queue[0];
        FrontSeen(root, result, queue, seen);
        SeenOrRoot(node, root, seen);
        SeenFurther(seen, node);
        LinksOf(node);
        ghost var wasResult, wasQueue, wasSeen := result, queue, seen;
        result := result + [node];
        queue, seen := SeeLinks(node, queue[1..], seen);
        AccountedNext(root, wasResult, wasQueue, wasSeen, queue, seen);
      }
      AllListed(root, result, seen);
    }
  }

  /** Cleared, a space still counts the node as owned, and the next one under its id does not live. */
  method OwnedAgain(first: Node, second: Node) returns (lives: bool)
    requires first != second && first.id == second.id != Null && first.Unlinked() && second.Unlinked()
    modifies first
    ensures !lives
  {
    var space := new AddressSpaceImpl();
    lives := space.AddNode(first, true);
    assert lives;
    space.Clear();
    lives := space.AddNode(second, true);
  }

  /** A root with one child is listed twice. */
  method RootListedTwice(root: Node, child: Node, kind: Node) returns (result: seq<Node>)
    requires root.id == ROOT_FOLDER && child.id !in {Null, ROOT_FOLDER, AGGREGATES} && kind.id == AGGREGATES
    requires kind.nodeClass.ReferenceType? && root.Unlinked() && child.Unlinked() && kind.Unlinked()
    modifies root, child
    ensures multiset(result)[root] == 2
  {
    var space := new AddressSpaceImpl();
    var a := space.AddNode(root, false);
    var b := space.AddNode(child, false);
    var c := space.AddNode(kind, false);
    space.AddReference(kind, root, child);
    assert Linked(space.View(), ROOT_FOLDER, child.id) by {
      assert Ref(kind.id, ROOT_FOLDER, child.id) in space.refs;
    }
    result := space.GetAllNodes();
    assert space.nodeMap[ROOT_FOLDER] == root;
    RootConnected(space, root);
  }

  lemma RootConnected(space: AddressSpaceImpl, root: Node)
    requires ROOT_FOLDER in space.nodeMap && space.nodeMap[ROOT_FOLDER] == root && root.id == ROOT_FOLDER
    ensures root in space.Connected()
  {
    ReachesSelf(Neighbours(space.View()), ROOT_FOLDER);
  }
}
