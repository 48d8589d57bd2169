/** Sorting node states so that what a node refers to comes before it, on arbitrary cyclic input. */
module HierarchicalSort {
  import opened NodeIds
  import opened Paths
  import opened FetchTypes

  // ---------------------------------------------------------------- the graph of node states

  /** The first node with the id, as `try_emplace` keeps it. */
  function Find(nodes: seq<NodeRecord>, id: NodeId): (i: nat)
    ensures i <= |nodes| && (i < |nodes| ==> nodes[i].id == id)
    ensures forall k :: 0 <= k < i ==> nodes[k].id != id
  {
    if nodes == [] || nodes[0].id == id then 0 else 1 + Find(nodes[1..], id)
  }

  /** `VisitHelper` */
  function Target(nodes: seq<NodeRecord>, id: NodeId): (r: seq<nat>)
    ensures forall j :: j in r ==> j < |nodes|
  {
    if id.Null? || Find(nodes, id) == |nodes| then [] else [Find(nodes, id)]
  }

  /** `VisitNeighbors` */
  function Neighbors(nodes: seq<NodeRecord>, s: NodeState): (r: seq<nat>)
    ensures forall j :: j in r ==> j < |nodes|
  {
    (if s.supertype.Null? then [] else Target(nodes, HAS_SUBTYPE))
    + (if s.typeDefinition.Null? then [] else Target(nodes, HAS_TYPE_DEFINITION))
    + Target(nodes, s.supertype)
    + Target(nodes, s.referenceType)
    + Target(nodes, s.parent)
    + Target(nodes, s.typeDefinition)
    + Target(nodes, s.dataType)
  }

  function Edges(nodes: seq<NodeRecord>): (r: Relation<nat>)
    ensures forall i :: i in r <==> 0 <= i < |nodes|
    ensures forall i, j :: i in r && j in r[i] ==> j in r
  {
    map i | 0 <= i < |nodes| :: Elements(Neighbors(nodes, nodes[i].state))
  }

  // ---------------------------------------------------------------- what the edges are

  /** The state refers to the node with the id: by name, or by a kind of reference that it uses. */
  predicate Names(s: NodeState, id: NodeId) {
    && !id.Null?
    && (|| id == s.supertype || id == s.referenceType || id == s.parent || id == s.typeDefinition || id == s.dataType
        || (id == HAS_SUBTYPE && !s.supertype.Null?)
        || (id == HAS_TYPE_DEFINITION && !s.typeDefinition.Null?))
  }

  /** No earlier node has the same id. */
  predicate IsFirst(nodes: seq<NodeRecord>, j: nat)
    requires j < |nodes|
  {
    forall k :: 0 <= k < j ==> nodes[k].id != nodes[j].id
  }

  /** Who refers to whom, by ids alone. */
  function Named(nodes: seq<NodeRecord>): Relation<nat> {
    map i | 0 <= i < |nodes| ::
      set j | 0 <= j < |nodes| && IsFirst(nodes, j) && Names(nodes[i].state, nodes[j].id)
  }

  lemma TargetIsNamed(nodes: seq<NodeRecord>, id: NodeId, j: nat)
    ensures j in Target(nodes, id) <==> j < |nodes| && !id.Null? && nodes[j].id == id && IsFirst(nodes, j)
  {
  }

  /** The walk goes from a node exactly to those that its state names. */
  lemma NeighborsAreNamed(nodes: seq<NodeRecord>, s: NodeState, j: nat)
    ensures j in Neighbors(nodes, s) <==> j < |nodes| && IsFirst(nodes, j) && Names(s, nodes[j].id)
  {
    hide Target, IsFirst;
    forall id ensures j in Target(nodes, id) <==> j < |nodes| && !id.Null? && nodes[j].id == id && IsFirst(nodes, j) {
      TargetIsNamed(nodes, id, j);
    }
  }

  lemma EdgesAreNamed(nodes: seq<NodeRecord>)
    ensures Edges(nodes) == Named(nodes)
  {
    hide Neighbors, Names, IsFirst;
    forall i | 0 <= i < |nodes| ensures Edges(nodes)[i] == Named(nodes)[i] {
      forall j: nat ensures j in Neighbors(nodes, nodes[i].state)
        <==> j < |nodes| && IsFirst(nodes, j) && Names(nodes[i].state, nodes[j].id)
      {
        NeighborsAreNamed(nodes, nodes[i].state, j);
      }
      assert Edges(nodes)[i] == Elements(Neighbors(nodes, nodes[i].state));
      assert forall j: nat :: j in Edges(nodes)[i] <==> j in Neighbors(nodes, nodes[i].state);
    }
  }

  // ---------------------------------------------------------------- what a good order is

  /** Each edge leads back in the order, unless its end depends on its start in turn. */
  ghost predicate Ordered(edges: Relation<nat>, order: seq<nat>) {
    forall p, v :: 0 <= p < |order| && order[p] in edges && v in edges[order[p]] ==>
      v in order[..p] || Reaches(edges, v, order[p])
  }

  /** A permutation of the indexes. */
  ghost predicate Permutes(order: seq<nat>, n: nat) {
    && |order| == n && Distinct(order)
    && (forall p :: 0 <= p < n ==> order[p] < n)
    && (forall i :: 0 <= i < n ==> i in order)
  }

  function Arrange(nodes: seq<NodeRecord>, order: seq<nat>): (r: seq<NodeRecord>)
    requires forall p :: 0 <= p < |order| ==> order[p] < |nodes|
    ensures |r| == |order| && forall p :: 0 <= p < |r| ==> r[p] == nodes[order[p]]
  {
    seq(|order|, p requires 0 <= p < |order| => nodes[order[p]])
  }

  /** No two different nodes depend on each other. */
  ghost predicate Acyclic(edges: Relation<nat>) {
    forall u, v :: u in edges && v in edges && u != v && Reaches(edges, u, v) ==> !Reaches(edges, v, u)
  }

  /** Whatever node a state names is the node itself or an earlier one. */
  ghost predicate Downward(nodes: seq<NodeRecord>) {
    forall i, j :: 0 <= i < |nodes| && 0 <= j < |nodes| && IsFirst(nodes, j) && Names(nodes[i].state, nodes[j].id) ==>
      j <= i
  }

  /** Whatever node a state names comes first, unless it leads back to it. */
  ghost predicate NamedFirst(nodes: seq<NodeRecord>, order: seq<nat>) {
    forall i: nat, j: nat :: i < |nodes| && j < |nodes| && IsFirst(nodes, j) && Names(nodes[i].state, nodes[j].id) ==>
      Precedes(order, j, i) || Reaches(Named(nodes), j, i)
  }

  ghost predicate Precedes(order: seq<nat>, v: nat, u: nat) {
    exists p, q :: 0 <= p < q < |order| && order[p] == v && order[q] == u
  }

  // ---------------------------------------------------------------- the depth-first walk

  /** The order so far lists visited nodes only, without repetition, and is good. */
  ghost predicate Walking(edges: Relation<nat>, visited: seq<bool>, order: seq<nat>) {
    && Distinct(order)
    && (forall u :: u in order ==> u < |visited| && visited[u])
    && Ordered(edges, order)
  }

  ghost function Unvisited(visited: seq<bool>): set<nat> {
    set i | 0 <= i < |visited| && !visited[i]
  }

  ghost predicate Open(visited: seq<bool>, order: seq<nat>, g: nat)
    requires g < |visited|
  {
    visited[g] && g !in order
  }

  /** Visited and not finished: the frames of the recursion. */
  ghost predicate OpenReach(edges: Relation<nat>, visited: seq<bool>, order: seq<nat>, i: nat) {
    forall g :: 0 <= g < |visited| && Open(visited, order, g) ==> Reaches(edges, g, i)
  }

  lemma OpenReachNext(edges: Relation<nat>, visited: seq<bool>, order: seq<nat>, i: nat, j: nat)
    requires OpenReach(edges, visited, order, i)
    requires i in edges && j in edges[i] && j in edges
    ensures OpenReach(edges, visited, order, j)
  {
    forall g | 0 <= g < |visited| && Open(visited, order, g) ensures Reaches(edges, g, j) {
      ReachesEnd(edges, g, i, j);
    }
  }

  /** A node whose neighbours are all visited may be finished. */
  lemma FinishOrdered(edges: Relation<nat>, visited: seq<bool>, order: seq<nat>, i: nat)
    requires Walking(edges, visited, order) && OpenReach(edges, visited, order, i)
    requires i in edges && i < |visited| && visited[i] && i !in order
    requires forall j :: j in edges[i] ==> j < |visited| && visited[j]
    ensures Walking(edges, visited, order + [i])
  {
    var longer := order + [i];
    forall p, v | 0 <= p < |longer| && longer[p] in edges && v in edges[longer[p]]
      ensures v in longer[..p] || Reaches(edges, v, longer[p])
    {
      if p < |order| {
        assert longer[..p] == order[..p];
        assert longer[p] == order[p];
      } else {
        assert longer[..p] == order;
        assert v !in order ==> Open(visited, order, v);
      }
    }
  }

  /** From one state of the walk to a later one: more visited, more finished, and the open nodes
      are those that were open, and `also`. */
  ghost predicate Advanced(visited: seq<bool>, order: seq<nat>, visited': seq<bool>, order': seq<nat>, also: set<nat>) {
    && |visited| == |visited'| && order <= order'
    && (forall g :: 0 <= g < |visited| && visited[g] ==> visited'[g])
    && (forall g :: 0 <= g < |visited| ==>
         (Open(visited', order', g) <==> Open(visited, order, g) || g in also))
  }

  lemma OpenReachLater(edges: Relation<nat>, visited: seq<bool>, order: seq<nat>, visited': seq<bool>,
                       order': seq<nat>, i: nat)
    requires Advanced(visited, order, visited', order', {i}) && OpenReach(edges, visited, order, i) && i in edges
    ensures OpenReach(edges, visited', order', i)
  {
    ReachesSelf(edges, i);
  }

  lemma AdvancedTwice(v: seq<bool>, o: seq<nat>, v': seq<bool>, o': seq<nat>, v'': seq<bool>, o'': seq<nat>,
                      also: set<nat>)
    requires Advanced(v, o, v', o', also) && Advanced(v', o', v'', o'', {})
    ensures Advanced(v, o, v'', o'', also)
  {
  }

  ghost predicate AllVisited(visited: seq<bool>, s: seq<nat>) {
    forall j :: j in s ==> j < |visited| && visited[j]
  }

  lemma FewerUnvisited(v: seq<bool>, o: seq<nat>, v': seq<bool>, o': seq<nat>, i: nat)
    requires Advanced(v, o, v', o', {i}) && i < |v| && !v[i] && v'[i]
    ensures Unvisited(v') < Unvisited(v)
  {
    assert i in Unvisited(v);
  }

  class SortVisitor {
    const nodes: seq<NodeRecord>
    var visited: seq<bool>
    var sortedIndexes: seq<nat>

    ghost predicate Valid()
      reads this
    {
      |visited| == |nodes| && Walking(Edges(nodes), visited, sortedIndexes)
    }

    constructor (nodes: seq<NodeRecord>)
      ensures Valid() && this.nodes == nodes
      ensures sortedIndexes == [] && forall i :: 0 <= i < |visited| ==> !visited[i]
    {
      this.nodes := nodes;
      visited := seq(|nodes|, _ => false);
      sortedIndexes := [];
    }

    method VisitIndex(i: nat)
      requires Valid() && i < |nodes|
      requires OpenReach(Edges(nodes), visited, sortedIndexes, i)
      modifies this
      ensures Valid() && visited[i]
      ensures Advanced(old(visited), old(sortedIndexes), visited, sortedIndexes, {})
      ensures old(visited)[i] ==> visited == old(visited) && sortedIndexes == old(sortedIndexes)
      ensures !old(visited)[i] && (forall j :: j in Edges(nodes)[i] ==> j == i || old(visited)[j]) ==>
        visited == old(visited)[i := true] && sortedIndexes == old(sortedIndexes) + [i]
      decreases Unvisited(visited)
    {
      hide Edges, Ordered, Neighbors, OpenReach;
      if visited[i] {
        return;
      }
      ghost var edges := Edges(nodes);
      EdgesAt(nodes, i);
      ghost var marked := visited[i := true];
      ghost var order := sortedIndexes;
      ghost var direct := forall j :: j in edges[i] ==> j == i || visited[j];
      visited := visited[i := true];
      var targets := Neighbors(nodes, nodes[i].state);
      for k := 0 to |targets|
        invariant Valid() && Advanced(old(visited), order, visited, sortedIndexes, {i})
        invariant forall g :: 0 <= g < |nodes| && marked[g] ==> visited[g]
        invariant AllVisited(visited, targets[..k])
        invariant direct ==> visited == marked && sortedIndexes == order
      {
        ghost var v, o := visited, sortedIndexes;
        OpenReachLater(edges, old(visited), order, v, o, i);
        OpenReachNext(edges, v, o, i, targets[k]);
        FewerUnvisited(old(visited), order, v, o, i);
        VisitIndex(targets[k]);
        AdvancedTwice(old(visited), order, v, o, visited, sortedIndexes, {i});
        assert targets[..k + 1] == targets[..k] + [targets[k]];
      }
      assert targets[..|targets|] == targets;
      OpenReachLater(edges, old(visited), order, visited, sortedIndexes, i);
      assert Open(visited, sortedIndexes, i);
      FinishOrdered(edges, visited, sortedIndexes, i);
      sortedIndexes := sortedIndexes + [i];
    }

    method Traverse()
      requires Valid() && sortedIndexes == [] && forall i :: 0 <= i < |visited| ==> !visited[i]
      modifies this
      ensures Permutes(sortedIndexes, |nodes|) && Ordered(Edges(nodes), sortedIndexes)
      ensures Downward(nodes) ==> sortedIndexes == Identity(|nodes|)
    {
      hide Edges, Ordered, Neighbors, Downward, Identity;
      IdentityStep(0);
      for index := 0 to |nodes|
        invariant Valid() && forall g :: 0 <= g < |nodes| ==> !Open(visited, sortedIndexes, g)
        invariant forall g :: 0 <= g < index ==> visited[g]
        invariant Downward(nodes) ==>
          sortedIndexes == Identity(index) && forall g :: 0 <= g < |nodes| ==> (visited[g] <==> g < index)
      {
        IdentityStep(index);
        if Downward(nodes) {
          DownwardAt(nodes, index);
        }
        VisitIndex(index);
      }
      forall g | 0 <= g < |nodes| ensures g in sortedIndexes {
        assert !Open(visited, sortedIndexes, g);
      }
      PermutationLength(sortedIndexes, |nodes|);
    }

    method Collect() returns (sorted: seq<NodeRecord>)
      requires Permutes(sortedIndexes, |nodes|)
      ensures sorted == Arrange(nodes, sortedIndexes)
    {
      sorted := [];
      for index := 0 to |nodes|
        invariant sorted == Arrange(nodes, sortedIndexes)[..index]
      {
        sorted := sorted + [nodes[sortedIndexes[index]]];
      }
    }
  }

  /** `SortNodesHierarchically` */
  method SortNodesHierarchically(nodes: seq<NodeRecord>) returns (sorted: seq<NodeRecord>, ghost order: seq<nat>)
    ensures Permutes(order, |nodes|) && Ordered(Edges(nodes), order)
    ensures sorted == Arrange(nodes, order) && multiset(sorted) == multiset(nodes)
    ensures NamedFirst(nodes, order)
    ensures Downward(nodes) ==> sorted == nodes
  {
    hide Ordered, Edges, NamedFirst, Downward;
    ArrangeIdentity(nodes);
    if |nodes| < 2 {
      ShortIsOrdered(nodes);
      OrderedIsNamedFirst(nodes, Identity(|nodes|));
      return nodes, Identity(|nodes|);
    }
    var visitor := new SortVisitor(nodes);
    visitor.Traverse();
    sorted := visitor.Collect();
    order := visitor.sortedIndexes;
    ArrangeMultiset(nodes, order);
    OrderedIsNamedFirst(nodes, order);
  }

  // ---------------------------------------------------------------- what the order means

  /** The central promise: an edge that closes no cycle leads to an earlier node. */
  lemma DependencyComesFirst(edges: Relation<nat>, order: seq<nat>, n: nat, u: nat, v: nat)
    requires Permutes(order, n) && Ordered(edges, order)
    requires u < n && u in edges && v in edges[u] && !Reaches(edges, v, u)
    ensures Precedes(order, v, u)
  {
    assert u in order;
    var q :| 0 <= q < |order| && order[q] == u;
    assert v in order[..q];
    var p :| 0 <= p < q && order[..q][p] == v;
    assert order[p] == v;
  }

  lemma OrderedIsNamedFirst(nodes: seq<NodeRecord>, order: seq<nat>)
    requires Permutes(order, |nodes|) && Ordered(Edges(nodes), order)
    ensures NamedFirst(nodes, order)
  {
    hide Names, IsFirst, Ordered, Precedes, Permutes, Reaches, Named, Edges;
    forall i: nat, j: nat | i < |nodes| && j < |nodes| && IsFirst(nodes, j) && Names(nodes[i].state, nodes[j].id)
      ensures Precedes(order, j, i) || Reaches(Named(nodes), j, i)
    {
      NamedPrecedes(nodes, order, i, j);
    }
  }

  lemma NamedPrecedes(nodes: seq<NodeRecord>, order: seq<nat>, i: nat, j: nat)
    requires Permutes(order, |nodes|) && Ordered(Edges(nodes), order)
    requires i < |nodes| && j < |nodes| && IsFirst(nodes, j) && Names(nodes[i].state, nodes[j].id)
    ensures Precedes(order, j, i) || Reaches(Named(nodes), j, i)
  {
    hide Names, IsFirst, Ordered, Precedes, Permutes, Reaches, Named, Edges;
    EdgesAreNamed(nodes);
    NamedAt(nodes, i, j);
    if !Reaches(Named(nodes), j, i) {
      DependencyComesFirst(Named(nodes), order, |nodes|, i, j);
    }
  }

  lemma NamedAt(nodes: seq<NodeRecord>, i: nat, j: nat)
    requires i < |nodes| && j < |nodes| && IsFirst(nodes, j) && Names(nodes[i].state, nodes[j].id)
    ensures i in Named(nodes) && j in Named(nodes)[i]
  {
  }

  ghost predicate DistinctIds(nodes: seq<NodeRecord>) {
    forall i, k :: 0 <= i < k < |nodes| ==> nodes[i].id != nodes[k].id
  }

  /** On acyclic input the result is a topological order: sorting it again changes nothing. */
  lemma AcyclicSortIsDownward(nodes: seq<NodeRecord>, order: seq<nat>)
    requires DistinctIds(nodes) && Acyclic(Edges(nodes))
    requires Permutes(order, |nodes|) && Ordered(Edges(nodes), order)
    ensures Downward(Arrange(nodes, order))
  {
    hide Names, Reaches, Edges;
    var sorted, edges := Arrange(nodes, order), Edges(nodes);
    EdgesAreNamed(nodes);
    forall i, j | 0 <= i < |sorted| && 0 <= j < |sorted| && Names(sorted[i].state, sorted[j].id) ensures j <= i {
      var u, v := order[i], order[j];
      assert v in edges[u];
      if v in order[..i] {
        var p :| 0 <= p < i && order[..i][p] == v;
        assert order[p] == order[j];
      } else {
        assert Reaches(edges, v, u);
        ReachesSelf(edges, v);
        ReachesStep(edges, u, v, v);
        assert u == v;
      }
    }
  }

  // ---------------------------------------------------------------- permutations

  function Identity(n: nat): (r: seq<nat>) {
    seq(n, i => i)
  }

  lemma IdentityStep(n: nat)
    ensures Identity(n + 1) == Identity(n) + [n] && Identity(0) == []
  {
  }

  lemma DownwardAt(nodes: seq<NodeRecord>, i: nat)
    requires Downward(nodes) && i < |nodes|
    ensures forall j :: j in Edges(nodes)[i] ==> j <= i
  {
    EdgesAreNamed(nodes);
  }

  lemma ArrangeIdentity(nodes: seq<NodeRecord>)
    ensures Permutes(Identity(|nodes|), |nodes|) && Arrange(nodes, Identity(|nodes|)) == nodes
  {
    forall i | 0 <= i < |nodes| ensures i in Identity(|nodes|) {
      assert Identity(|nodes|)[i] == i;
    }
  }

  lemma ShortIsOrdered(nodes: seq<NodeRecord>)
    requires |nodes| < 2
    ensures Ordered(Edges(nodes), Identity(|nodes|))
  {
    hide Neighbors, Reaches;
    if |nodes| == 1 {
      ReachesSelf(Edges(nodes), 0);
      EdgesAt(nodes, 0);
      assert Identity(1) == [0];
    }
  }

  function Members(s: seq<nat>): (r: set<nat>)
    ensures forall i :: i in r <==> i in s
  {
    if s == [] then {} else {s[0]} + Members(s[1..])
  }

  function Below(n: nat): (r: set<nat>)
    ensures |r| == n && forall i :: i in r <==> 0 <= i < n
  {
    if n == 0 then {} else Below(n - 1) + {n - 1}
  }

  lemma {:induction false} DistinctLength(s: seq<nat>)
    requires Distinct(s)
    ensures |Members(s)| == |s|
  {
    if s != [] {
      DistinctLength(s[1..]);
      assert s[0] !in s[1..];
    }
  }

  lemma PermutationLength(order: seq<nat>, n: nat)
    requires Distinct(order) && (forall i :: i in order ==> i < n) && (forall i :: 0 <= i < n ==> i in order)
    ensures Permutes(order, n)
  {
    DistinctLength(order);
    SameMembers(order, n);
    forall p | 0 <= p < |order| ensures order[p] < n {
      assert order[p] in order;
    }
  }

  lemma SameMembers(order: seq<nat>, n: nat)
    requires (forall i :: i in order ==> i < n) && (forall i :: 0 <= i < n ==> i in order)
    ensures |Members(order)| == n
  {
    assert Members(order) == Below(n);
  }

  lemma WithoutLast(order: seq<nat>, last: nat, k: nat)
    requires Permutes(order, last + 1) && k < |order| && order[k] == last
    ensures Permutes(order[..k] + order[k + 1..], last)
  {
    var rest := order[..k] + order[k + 1..];
    forall p | 0 <= p < last ensures rest[p] < last {
      assert rest[p] == order[if p < k then p else p + 1];
    }
    forall i | 0 <= i < last ensures i in rest {
      assert i in order;
      var p :| 0 <= p < |order| && order[p] == i;
      assert i == rest[if p < k then p else p - 1];
    }
  }

  lemma ArrangeAround(nodes: seq<NodeRecord>, order: seq<nat>, k: nat)
    requires Permutes(order, |nodes|) && k < |order| && order[k] == |nodes| - 1
    requires Permutes(order[..k] + order[k + 1..], |nodes| - 1)
    ensures var rest := Arrange(nodes[..|nodes| - 1], order[..k] + order[k + 1..]);
      Arrange(nodes, order) == rest[..k] + [nodes[|nodes| - 1]] + rest[k..]
  {
  }

  lemma {:induction false} ArrangeMultiset(nodes: seq<NodeRecord>, order: seq<nat>)
    requires Permutes(order, |nodes|)
    ensures multiset(Arrange(nodes, order)) == multiset(nodes)
  {
    hide Arrange;
    if nodes != [] {
      var last := |nodes| - 1;
      var k := PositionOf(order, last);
      WithoutLast(order, last, k);
      ArrangeMultiset(nodes[..last], order[..k] + order[k + 1..]);
      ArrangeAround(nodes, order, k);
      InsertMultiset(Arrange(nodes[..last], order[..k] + order[k + 1..]), k, nodes[last]);
      assert nodes == nodes[..last] + [nodes[last]];
    } else {
      assert Arrange(nodes, order) == [] by { EmptyArrange(order); }
    }
  }

  lemma EmptyArrange(order: seq<nat>)
    requires Permutes(order, 0)
    ensures Arrange([], order) == []
  {
  }

  lemma PositionOf(order: seq<nat>, last: nat) returns (k: nat)
    requires Permutes(order, last + 1)
    ensures k < |order| && order[k] == last
  {
    assert last in order;
    k :| 0 <= k < |order| && order[k] == last;
  }

  lemma InsertMultiset(s: seq<NodeRecord>, k: nat, x: NodeRecord)
    requires k <= |s|
    ensures multiset(s[..k] + [x] + s[k..]) == multiset(s) + multiset{x}
  {
    assert s == s[..k] + s[k..];
  }

  lemma EdgesAt(nodes: seq<NodeRecord>, i: nat)
    requires i < |nodes|
    ensures i in Edges(nodes) && Edges(nodes)[i] == Elements(Neighbors(nodes, nodes[i].state))
    ensures forall j :: j in Edges(nodes)[i] ==> j < |nodes| && j in Edges(nodes)
  {
  }
}
