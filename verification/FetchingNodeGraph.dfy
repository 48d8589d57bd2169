/** The dependency graph of nodes being fetched: two-sided edges and the release of every node
    whose dependencies, followed transitively through any cycles, are all fetched. */
module FetchingGraph {
  import opened NodeIds
  import opened Paths
  import opened FetchTypes

  // ---------------------------------------------------------------- lists without duplicates

  function Without(s: seq<NodeId>, gone: set<NodeId>): (r: seq<NodeId>)
    ensures forall x :: x in r <==> x in s && x !in gone
  {
    if s == [] then []
    else if s[0] in gone then Without(s[1..], gone)
    else [s[0]] + Without(s[1..], gone)
  }

  /** `Erase`: drops the first occurrence only. */
  function Erase(s: seq<NodeId>, x: NodeId): seq<NodeId> {
    if s == [] then [] else if s[0] == x then s[1..] else [s[0]] + Erase(s[1..], x)
  }

  /** `Insert`: appends unless present. */
  function Insert(s: seq<NodeId>, x: NodeId): seq<NodeId> {
    if x in s then s else s + [x]
  }

  lemma WithoutAbsent(s: seq<NodeId>, gone: set<NodeId>)
    requires forall x :: x in s ==> x !in gone
    ensures Without(s, gone) == s
  {
    if s != [] {
      assert s[0] in s;
      WithoutAbsent(s[1..], gone);
    }
  }

  lemma {:induction false} WithoutDistinct(s: seq<NodeId>, gone: set<NodeId>)
    requires Distinct(s)
    ensures Distinct(Without(s, gone))
  {
    if s != [] {
      WithoutDistinct(s[1..], gone);
    }
  }

  lemma {:induction false} WithoutTwice(s: seq<NodeId>, a: set<NodeId>, b: set<NodeId>)
    ensures Without(Without(s, a), b) == Without(s, a + b)
  {
    if s != [] {
      WithoutTwice(s[1..], a, b);
      if s[0] !in a {
        assert Without(s, a)[1..] == Without(s[1..], a);
      }
    }
  }

  lemma {:induction false} EraseIsWithout(s: seq<NodeId>, x: NodeId)
    requires Distinct(s)
    ensures Erase(s, x) == Without(s, {x})
  {
    if s != [] {
      if s[0] == x {
        WithoutAbsent(s[1..], {x});
      } else {
        EraseIsWithout(s[1..], x);
      }
    }
  }

  // ---------------------------------------------------------------- edges and reachability

  /** `depends_of` and `dependent_nodes` are converse, irreflexive, free of duplicates and never
      name a node outside the graph. */
  ghost predicate EdgesOk(nodes: Nodes) {
    && (forall a, b :: DependsOn(nodes, a, b) ==> a != b && IsDependent(nodes, a, b))
    && (forall a, b :: IsDependent(nodes, a, b) ==> DependsOn(nodes, a, b))
    && (forall a :: a in nodes ==> Distinct(nodes[a].dependsOf) && Distinct(nodes[a].dependentNodes))
  }

  predicate DependsOn(nodes: Nodes, a: NodeId, b: NodeId) {
    a in nodes && b in nodes[a].dependsOf
  }

  predicate IsDependent(nodes: Nodes, a: NodeId, b: NodeId) {
    b in nodes && a in nodes[b].dependentNodes
  }

  function Dependencies(nodes: Nodes): Relation<NodeId> {
    map a | a in nodes :: Elements(nodes[a].dependsOf)
  }

  /** Every node of the transitive closure of `depends_of` from `a`, `a` included, is fetched. */
  ghost predicate Complete(nodes: Nodes, a: NodeId) {
    forall b :: Reaches(Dependencies(nodes), a, b) ==> nodes[b].Fetched()
  }

  ghost function CompleteNodes(nodes: Nodes): (s: set<NodeId>)
    ensures s <= nodes.Keys
  {
    set a | a in nodes && Complete(nodes, a)
  }

  // ---------------------------------------------------------------- removing nodes

  /** The graph without the nodes `gone`, and without any edge that touches one of them. */
  function Restricted(nodes: Nodes, gone: set<NodeId>): Nodes {
    map x | x in nodes && x !in gone ::
      nodes[x].(dependsOf := Without(nodes[x].dependsOf, gone),
                dependentNodes := Without(nodes[x].dependentNodes, gone))
  }

  function WithoutDependencies(nodes: Nodes, id: NodeId): Nodes {
    map x | x in nodes ::
      if x == id then nodes[x].(dependsOf := [])
      else nodes[x].(dependentNodes := Without(nodes[x].dependentNodes, {id}))
  }

  function WithoutDependents(nodes: Nodes, id: NodeId): Nodes {
    map x | x in nodes ::
      if x == id then nodes[x].(dependentNodes := [])
      else nodes[x].(dependsOf := Without(nodes[x].dependsOf, {id}))
  }

  /** `ClearDependsOf` half-way: `id` has been erased from the `dependentNodes` of `done`. */
  function DependentErased(nodes: Nodes, done: set<NodeId>, id: NodeId): Nodes {
    map x | x in nodes ::
      if x in done then nodes[x].(dependentNodes := Without(nodes[x].dependentNodes, {id})) else nodes[x]
  }

  function DependencyErased(nodes: Nodes, done: set<NodeId>, id: NodeId): Nodes {
    map x | x in nodes ::
      if x in done then nodes[x].(dependsOf := Without(nodes[x].dependsOf, {id})) else nodes[x]
  }

  lemma DependencyEnds(nodes: Nodes, id: NodeId, i: nat)
    requires EdgesOk(nodes) && id in nodes && i < |nodes[id].dependsOf|
    ensures var d := nodes[id].dependsOf[i];
      d in nodes && d != id && d !in nodes[id].dependsOf[..i] && Distinct(nodes[d].dependentNodes)
  {
    assert DependsOn(nodes, id, nodes[id].dependsOf[i]);
  }

  lemma DependentEnds(nodes: Nodes, id: NodeId, i: nat)
    requires EdgesOk(nodes) && id in nodes && i < |nodes[id].dependentNodes|
    ensures var d := nodes[id].dependentNodes[i];
      d in nodes && d != id && d !in nodes[id].dependentNodes[..i] && Distinct(nodes[d].dependsOf)
  {
    assert IsDependent(nodes, nodes[id].dependentNodes[i], id);
  }

  lemma DependentErasedAll(nodes: Nodes, id: NodeId)
    requires EdgesOk(nodes) && id in nodes
    ensures var r := DependentErased(nodes, Elements(nodes[id].dependsOf), id);
      r[id := r[id].(dependsOf := [])] == WithoutDependencies(nodes, id)
  {
    assert !DependsOn(nodes, id, id);
    forall x | x in nodes && x !in nodes[id].dependsOf
      ensures Without(nodes[x].dependentNodes, {id}) == nodes[x].dependentNodes
    {
      assert !DependsOn(nodes, id, x);
      assert !IsDependent(nodes, id, x);
      WithoutAbsent(nodes[x].dependentNodes, {id});
    }
  }

  lemma DependencyErasedAll(nodes: Nodes, id: NodeId)
    requires EdgesOk(nodes) && id in nodes
    ensures var r := DependencyErased(nodes, Elements(nodes[id].dependentNodes), id);
      r[id := r[id].(dependentNodes := [])] == WithoutDependents(nodes, id)
  {
    assert !IsDependent(nodes, id, id);
    forall x | x in nodes && x !in nodes[id].dependentNodes
      ensures Without(nodes[x].dependsOf, {id}) == nodes[x].dependsOf
    {
      assert !IsDependent(nodes, x, id);
      assert !DependsOn(nodes, x, id);
      WithoutAbsent(nodes[x].dependsOf, {id});
    }
  }

  lemma WithoutDependenciesKeepsEdges(nodes: Nodes, id: NodeId)
    requires EdgesOk(nodes) && id in nodes
    ensures EdgesOk(WithoutDependencies(nodes, id))
  {
    var r := WithoutDependencies(nodes, id);
    forall a, b ensures DependsOn(r, a, b) <==> DependsOn(nodes, a, b) && a != id {}
    forall a, b ensures IsDependent(r, a, b) <==> IsDependent(nodes, a, b) && a != id {
      assert !IsDependent(nodes, id, id);
    }
    forall x | x in r ensures Distinct(r[x].dependsOf) && Distinct(r[x].dependentNodes) {
      WithoutDistinct(nodes[x].dependentNodes, {id});
    }
  }

  lemma WithoutBothIsRestricted(nodes: Nodes, id: NodeId)
    requires EdgesOk(nodes) && id in nodes
    ensures EdgesOk(WithoutDependencies(nodes, id))
    ensures WithoutDependents(WithoutDependencies(nodes, id), id) - {id} == Restricted(nodes, {id})
  {
    WithoutDependenciesKeepsEdges(nodes, id);
  }

  /** Equal but for the memo fields of the collector. */
  ghost predicate SameButCache(a: Nodes, b: Nodes) {
    && a.Keys == b.Keys
    && forall x :: x in a ==>
         a[x] == b[x].(cacheIteration := a[x].cacheIteration, cacheState := a[x].cacheState)
  }

  lemma RestrictedKeepsEdges(nodes: Nodes, gone: set<NodeId>)
    requires EdgesOk(nodes)
    ensures EdgesOk(Restricted(nodes, gone))
  {
    var r := Restricted(nodes, gone);
    forall a, b ensures DependsOn(r, a, b) <==> DependsOn(nodes, a, b) && a !in gone && b !in gone {}
    forall a, b ensures IsDependent(r, a, b) <==> IsDependent(nodes, a, b) && a !in gone && b !in gone {}
    forall x | x in r ensures Distinct(r[x].dependsOf) && Distinct(r[x].dependentNodes) {
      WithoutDistinct(nodes[x].dependsOf, gone);
      WithoutDistinct(nodes[x].dependentNodes, gone);
    }
  }

  lemma RestrictedTwice(nodes: Nodes, a: set<NodeId>, b: set<NodeId>)
    ensures Restricted(Restricted(nodes, a), b) == Restricted(nodes, a + b)
  {
    hide Without;
    forall x | x in nodes && x !in a + b
      ensures Restricted(Restricted(nodes, a), b)[x] == Restricted(nodes, a + b)[x]
    {
      WithoutTwice(nodes[x].dependsOf, a, b);
      WithoutTwice(nodes[x].dependentNodes, a, b);
    }
  }

  lemma RestrictedNothing(nodes: Nodes)
    ensures Restricted(nodes, {}) == nodes
  {
    forall x | x in nodes ensures Restricted(nodes, {})[x] == nodes[x] {
      WithoutAbsent(nodes[x].dependsOf, {});
      WithoutAbsent(nodes[x].dependentNodes, {});
    }
  }

  lemma RestrictedSameButCache(a: Nodes, b: Nodes, gone: set<NodeId>)
    requires SameButCache(a, b)
    ensures SameButCache(Restricted(a, gone), Restricted(b, gone))
  {
  }

  /** Taking complete nodes away does not change which of the others are complete. */
  lemma RestrictedComplete(nodes: Nodes, gone: set<NodeId>, a: NodeId)
    requires EdgesOk(nodes) && a in nodes && a !in gone
    requires forall g :: g in gone ==> g in nodes && Complete(nodes, g)
    ensures Complete(Restricted(nodes, gone), a) <==> Complete(nodes, a)
  {
    var deps, left := Dependencies(nodes), Dependencies(Restricted(nodes, gone));
    if Complete(nodes, a) {
      forall b | Reaches(left, a, b) ensures b in left && nodes[b].Fetched() {
        RestrictedReaches(nodes, gone, a, b);
      }
    }
    if Complete(Restricted(nodes, gone), a) {
      forall b | Reaches(deps, a, b) ensures nodes[b].Fetched() {
        ReachesOutOf(nodes, gone, a, b);
      }
    }
  }

  lemma RestrictedReaches(nodes: Nodes, gone: set<NodeId>, a: NodeId, b: NodeId)
    requires Reaches(Dependencies(Restricted(nodes, gone)), a, b)
    ensures b in Restricted(nodes, gone) && Reaches(Dependencies(nodes), a, b)
  {
    var left := Dependencies(Restricted(nodes, gone));
    var p :| IsPath(left, p) && p[0] == a && p[|p| - 1] == b;
    assert IsPath(Dependencies(nodes), p);
    assert b in left;
  }

  /** A path either stays clear of `gone` or runs into it. */
  lemma ReachesOutOf(nodes: Nodes, gone: set<NodeId>, a: NodeId, b: NodeId)
    requires Reaches(Dependencies(nodes), a, b)
    ensures Reaches(Dependencies(Restricted(nodes, gone)), a, b)
         || exists g :: g in gone && Reaches(Dependencies(nodes), g, b)
    ensures b in nodes
  {
    var deps := Dependencies(nodes);
    var p :| IsPath(deps, p) && p[0] == a && p[|p| - 1] == b;
    assert b in deps;
    if i :| 0 <= i < |p| && p[i] in gone {
      assert IsPath(deps, p[i..]);
      assert Reaches(deps, p[i], b);
    } else {
      assert IsPath(Dependencies(Restricted(nodes, gone)), p);
    }
  }

  lemma SameButCacheComplete(a: Nodes, b: Nodes, x: NodeId)
    requires SameButCache(a, b)
    ensures Dependencies(a) == Dependencies(b)
    ensures Complete(a, x) <==> Complete(b, x)
  {
    assert Dependencies(a) == Dependencies(b);
    forall y | Reaches(Dependencies(a), x, y) ensures a[y].Fetched() == b[y].Fetched() {
      var p :| IsPath(Dependencies(a), p) && p[0] == x && p[|p| - 1] == y;
      assert y in a;
    }
  }

  lemma SameButCacheEdges(a: Nodes, b: Nodes)
    requires SameButCache(a, b) && EdgesOk(b)
    ensures EdgesOk(a)
  {
    forall x, y ensures DependsOn(a, x, y) <==> DependsOn(b, x, y) {}
    forall x, y ensures IsDependent(a, x, y) <==> IsDependent(b, x, y) {}
  }

  lemma IncompleteDependency(nodes: Nodes, a: NodeId, b: NodeId)
    requires DependsOn(nodes, a, b) && !Complete(nodes, b)
    ensures !Complete(nodes, a)
  {
    var deps := Dependencies(nodes);
    var c :| Reaches(deps, b, c) && !nodes[c].Fetched();
    ReachesStep(deps, a, b, c);
  }

  // ---------------------------------------------------------------- adding nodes and edges

  function Added(nodes: Nodes, id: NodeId): Nodes {
    if id in nodes then nodes else nodes[id := NEW_NODE]
  }

  /** `node` depends on `from`. */
  function Linked(nodes: Nodes, node: NodeId, from: NodeId): Nodes
    requires node in nodes && from in nodes && node != from
  {
    nodes[node := nodes[node].(dependsOf := Insert(nodes[node].dependsOf, from))]
         [from := nodes[from].(dependentNodes := Insert(nodes[from].dependentNodes, node))]
  }

  lemma AddedKeepsEdges(nodes: Nodes, id: NodeId)
    requires EdgesOk(nodes)
    ensures EdgesOk(Added(nodes, id))
  {
    var r := Added(nodes, id);
    forall a, b ensures DependsOn(r, a, b) <==> DependsOn(nodes, a, b) {}
    forall a, b ensures IsDependent(r, a, b) <==> IsDependent(nodes, a, b) {}
  }

  lemma LinkedKeepsEdges(nodes: Nodes, node: NodeId, from: NodeId)
    requires EdgesOk(nodes) && node in nodes && from in nodes && node != from
    ensures EdgesOk(Linked(nodes, node, from))
    ensures forall a, b ::
      DependsOn(Linked(nodes, node, from), a, b) <==> DependsOn(nodes, a, b) || (a == node && b == from)
  {
    var r := Linked(nodes, node, from);
    forall a, b ensures DependsOn(r, a, b) <==> DependsOn(nodes, a, b) || (a == node && b == from) {}
    forall a, b ensures IsDependent(r, a, b) <==> IsDependent(nodes, a, b) || (a == node && b == from) {}
  }

  // ---------------------------------------------------------------- the release report

  datatype FetchError = FetchError(id: NodeId, status: Status)
  datatype FetchCompletedResult = FetchCompletedResult(nodes: seq<NodeRecord>, errors: seq<FetchError>)
  {
    ghost function Ids(): set<NodeId> {
      (set i | 0 <= i < |nodes| :: nodes[i].id) + (set i | 0 <= i < |errors| :: errors[i].id)
    }
  }

  /** `result` mentions each node of `released` once: with its state if its status is good, with
      its status otherwise. */
  ghost predicate ReportsExactly(result: FetchCompletedResult, nodes: Nodes, released: set<NodeId>) {
    && result.Ids() == released
    && (forall i :: 0 <= i < |result.nodes| ==>
         var n := result.nodes[i]; n.id in nodes && nodes[n.id].status.Good? && n.state == nodes[n.id].state)
    && (forall i :: 0 <= i < |result.errors| ==>
         var e := result.errors[i]; e.id in nodes && !nodes[e.id].status.Good? && e.status == nodes[e.id].status)
    && (forall i, j :: 0 <= i < j < |result.nodes| ==> result.nodes[i].id != result.nodes[j].id)
    && (forall i, j :: 0 <= i < j < |result.errors| ==> result.errors[i].id != result.errors[j].id)
  }

  function Report(result: FetchCompletedResult, id: NodeId, node: FetchingNode): FetchCompletedResult {
    if node.status.Good? then result.(nodes := result.nodes + [NodeRecord(id, node.state)])
    else result.(errors := result.errors + [FetchError(id, node.status)])
  }

  lemma ReportOneMore(result: FetchCompletedResult, nodes: Nodes, released: set<NodeId>, id: NodeId)
    requires ReportsExactly(result, nodes, released) && id in nodes && id !in released
    ensures ReportsExactly(Report(result, id, nodes[id]), nodes, released + {id})
  {
    var r := Report(result, id, nodes[id]);
    forall i | 0 <= i < |result.nodes| ensures result.nodes[i].id in released {
      assert result.nodes[i].id in result.Ids();
    }
    forall i | 0 <= i < |result.errors| ensures result.errors[i].id in released {
      assert result.errors[i].id in result.Ids();
    }
    forall x ensures x in r.Ids() <==> x in released + {id} {
      if x in result.Ids() {
        if i :| 0 <= i < |result.nodes| && result.nodes[i].id == x { assert r.nodes[i].id == x; }
        if i :| 0 <= i < |result.errors| && result.errors[i].id == x { assert r.errors[i].id == x; }
      }
      if nodes[id].status.Good? {
        assert r.nodes[|r.nodes| - 1].id == id;
      } else {
        assert r.errors[|r.errors| - 1].id == id;
      }
    }
    assert r.Ids() == released + {id};
  }

  // ---------------------------------------------------------------- the graph object

  ghost predicate GraphOk(nodes: Nodes, nextIteration: nat) {
    && EdgesOk(nodes)
    && 0 < nextIteration
    && forall x :: x in nodes ==> nodes[x].cacheIteration < nextIteration
  }

  lemma RestrictedKeepsGraph(nodes: Nodes, nextIteration: nat, gone: set<NodeId>)
    requires GraphOk(nodes, nextIteration)
    ensures GraphOk(Restricted(nodes, gone), nextIteration)
  {
    RestrictedKeepsEdges(nodes, gone);
  }

  ghost function Visited(nodes: Nodes, iteration: nat): set<NodeId> {
    set x | x in nodes && nodes[x].cacheIteration == iteration
  }

  /** Every node visited in this iteration is fetched and memoised as such. */
  ghost predicate VisitedFetched(nodes: Nodes, iteration: nat) {
    forall x :: x in Visited(nodes, iteration) ==> nodes[x].Fetched() && nodes[x].cacheState
  }

  /** From `was` to `now` only memo fields changed, and only by visiting nodes in `iteration`. */
  ghost predicate Walked(was: Nodes, now: Nodes, iteration: nat) {
    && SameButCache(now, was)
    && (forall x :: x in now ==> now[x].cacheIteration in {was[x].cacheIteration, iteration})
    && Visited(was, iteration) <= Visited(now, iteration)
  }

  /** The nodes visited from `was` to `now` are fetched and, but for those still `open`, have all
      their dependencies visited. */
  ghost predicate Explored(was: Nodes, now: Nodes, iteration: nat, open: set<NodeId>) {
    && VisitedFetched(now, iteration)
    && forall x, y :: x in Visited(now, iteration) - Visited(was, iteration) - open && DependsOn(now, x, y) ==>
         y in Visited(now, iteration)
  }

  lemma WalkedThenExplored(was: Nodes, mid: Nodes, now: Nodes, iteration: nat, open: set<NodeId>)
    requires Walked(was, mid, iteration) && Walked(mid, now, iteration)
    ensures Walked(was, now, iteration)
    ensures now.Keys == was.Keys && Visited(mid, iteration) <= Visited(now, iteration)
    ensures Explored(was, mid, iteration, open) && Explored(mid, now, iteration, {}) ==>
              Explored(was, now, iteration, open)
  {
    if Explored(was, mid, iteration, open) && Explored(mid, now, iteration, {}) {
      forall x, y | x in Visited(now, iteration) - Visited(was, iteration) - open && DependsOn(now, x, y)
        ensures y in Visited(now, iteration)
      {
        if x in Visited(mid, iteration) {
          assert DependsOn(mid, x, y);
        }
      }
    }
  }

  /** Marking a fetched node starts an exploration that is open at that node only. */
  lemma MarkedIsExplored(was: Nodes, id: NodeId, iteration: nat)
    requires id in was && was[id].Fetched() && VisitedFetched(was, iteration)
    requires was[id].cacheIteration != iteration
    ensures var now := was[id := was[id].(cacheIteration := iteration, cacheState := true)];
      Walked(was, now, iteration) && Explored(was, now, iteration, {id}) && id in Visited(now, iteration)
  {
  }

  lemma NotWalking(nodes: Nodes, iteration: nat, id: NodeId)
    requires VisitedFetched(nodes, iteration) && id in nodes
    ensures Walked(nodes, nodes, iteration) && Explored(nodes, nodes, iteration, {})
    ensures nodes[id].cacheIteration == iteration <==> id in Visited(nodes, iteration)
    ensures id in Visited(nodes, iteration) ==> nodes[id].cacheState
    ensures !nodes[id].Fetched() ==> !Complete(nodes, id)
  {
    ReachesSelf(Dependencies(nodes), id);
  }

  lemma FewerUnvisited(was: Nodes, now: Nodes, iteration: nat, id: NodeId)
    requires Walked(was, now, iteration) && id in Visited(now, iteration) && id !in Visited(was, iteration)
    ensures now.Keys == was.Keys && now.Keys - Visited(now, iteration) < was.Keys - Visited(was, iteration)
    ensures SameButCache(now, was) && now[id].dependsOf == was[id].dependsOf
  {
  }

  lemma NextDependency(was: Nodes, now: Nodes, id: NodeId, i: nat)
    requires SameButCache(now, was) && EdgesOk(was) && id in was && i < |was[id].dependsOf|
    ensures EdgesOk(now) && now.Keys == was.Keys
    ensures var d := was[id].dependsOf[i];
      d in now && DependsOn(was, id, d) && (Complete(now, d) <==> Complete(was, d))
  {
    SameButCacheEdges(now, was);
    SameButCacheComplete(now, was, was[id].dependsOf[i]);
    assert DependsOn(was, id, was[id].dependsOf[i]);
  }

  lemma SetStateIsWalk(was: Nodes, now: Nodes, id: NodeId, iteration: nat, fetched: bool)
    requires Walked(was, now, iteration) && id in Visited(now, iteration)
    requires fetched ==> Explored(was, now, iteration, {id})
    requires fetched ==> Elements(was[id].dependsOf) <= Visited(now, iteration)
    ensures var after := now[id := now[id].(cacheState := fetched)];
      && Walked(was, after, iteration)
      && id in Visited(after, iteration)
      && (fetched ==> Explored(was, after, iteration, {}))
  {
    var after := now[id := now[id].(cacheState := fetched)];
    if !fetched {
      StateIsCache(was, now, id, iteration);
    } else {
      assert after == now;
      forall y | DependsOn(now, id, y) ensures y in Visited(now, iteration) {
        assert y in Elements(was[id].dependsOf);
      }
    }
  }

  lemma StateIsCache(was: Nodes, now: Nodes, id: NodeId, iteration: nat)
    requires Walked(was, now, iteration) && id in Visited(now, iteration)
    ensures var after := now[id := now[id].(cacheState := false)];
      Walked(was, after, iteration) && id in Visited(after, iteration)
  {
    var after := now[id := now[id].(cacheState := false)];
    assert Visited(after, iteration) == Visited(now, iteration);
  }

  lemma ExploredIsComplete(was: Nodes, now: Nodes, iteration: nat, id: NodeId)
    requires Walked(was, now, iteration) && Explored(was, now, iteration, {})
    requires Visited(was, iteration) == {} && id in Visited(now, iteration)
    ensures Complete(was, id)
  {
    SameButCacheComplete(now, was, id);
    var deps := Dependencies(now);
    forall x, y | x in Visited(now, iteration) && x in deps && y in deps[x] ensures y in Visited(now, iteration) {
      assert DependsOn(now, x, y);
    }
    forall b | Reaches(deps, id, b) ensures now[b].Fetched() {
      ClosedContainsReachable(deps, Visited(now, iteration), id, b);
    }
  }

  /** The release loop has decided all nodes but `todo` and released the complete ones, `gone`. */
  ghost predicate Releasing(was: Nodes, now: Nodes, todo: set<NodeId>, gone: set<NodeId>,
                            result: FetchCompletedResult) {
    && todo <= now.Keys
    && gone == CompleteNodes(was) - todo
    && SameButCache(now, Restricted(was, gone))
    && ReportsExactly(result, was, gone)
  }

  lemma SameButCacheTwice(a: Nodes, b: Nodes, c: Nodes)
    requires SameButCache(a, b) && SameButCache(b, c)
    ensures SameButCache(a, c)
  {
  }

  /** One query of the release loop decides completeness in the graph at entry of the loop. */
  lemma QueryIsExact(was: Nodes, gone: set<NodeId>, before: Nodes, now: Nodes, id: NodeId)
    requires EdgesOk(was) && id in before && gone <= CompleteNodes(was)
    requires SameButCache(before, Restricted(was, gone)) && SameButCache(now, before)
    ensures Complete(before, id) <==> Complete(was, id)
    ensures SameButCache(now, Restricted(was, gone))
  {
    SameButCacheTwice(now, before, Restricted(was, gone));
    SameButCacheComplete(before, Restricted(was, gone), id);
    RestrictedComplete(was, gone, id);
  }

  lemma DecideOne(all: set<NodeId>, todo: set<NodeId>, gone: set<NodeId>, id: NodeId)
    requires gone == all - todo && id in todo
    ensures gone + (if id in all then {id} else {}) == all - (todo - {id})
  {
  }

  lemma SkipOne(was: Nodes, now: Nodes, todo: set<NodeId>, gone: set<NodeId>, result: FetchCompletedResult, id: NodeId)
    requires Releasing(was, now, todo, gone, result)
    requires id in todo && !Complete(was, id)
    ensures Releasing(was, now, todo - {id}, gone, result)
  {
    DecideOne(CompleteNodes(was), todo, gone, id);
  }

  lemma ReleaseOne(was: Nodes, now: Nodes, todo: set<NodeId>, gone: set<NodeId>, result: FetchCompletedResult,
                   id: NodeId)
    requires Releasing(was, now, todo, gone, result)
    requires id in todo && Complete(was, id)
    ensures Releasing(was, Restricted(now, {id}), todo - {id}, gone + {id}, Report(result, id, now[id]))
  {
    ReportOneMore(result, was, gone, id);
    RestrictedSameButCache(now, Restricted(was, gone), {id});
    RestrictedTwice(was, gone, {id});
    DecideOne(CompleteNodes(was), todo, gone, id);
  }

  class FetchingNodeGraph {
    var nodes: Nodes
    var fetchCacheIteration: nat

    ghost predicate Valid()
      reads this
    {
      GraphOk(nodes, fetchCacheIteration)
    }

    constructor ()
      ensures Valid() && nodes == map[]
    {
      nodes := map[];
      fetchCacheIteration := 1;
    }

    method ClearDependsOf(id: NodeId)
      requires id in nodes && EdgesOk(nodes)
      modifies this`nodes
      ensures nodes == WithoutDependencies(old(nodes), id)
    {
      ghost var was := nodes;
      var targets := nodes[id].dependsOf;
      assert was == DependentErased(was, {}, id);
      for i := 0 to |targets|
        invariant nodes == DependentErased(was, Elements(targets[..i]), id)
      {
        var d := targets[i];
        DependencyEnds(was, id, i);
        EraseIsWithout(was[d].dependentNodes, id);
        nodes := nodes[d := nodes[d].(dependentNodes := Erase(nodes[d].dependentNodes, id))];
        assert targets[..i + 1] == targets[..i] + [d];
      }
      assert targets[..|targets|] == targets;
      DependentErasedAll(was, id);
      nodes := nodes[id := nodes[id].(dependsOf := [])];
    }

    method ClearDependentNodes(id: NodeId)
      requires id in nodes && EdgesOk(nodes)
      modifies this`nodes
      ensures nodes == WithoutDependents(old(nodes), id)
    {
      ghost var was := nodes;
      var sources := nodes[id].dependentNodes;
      assert was == DependencyErased(was, {}, id);
      for i := 0 to |sources|
        invariant nodes == DependencyErased(was, Elements(sources[..i]), id)
      {
        var d := sources[i];
        DependentEnds(was, id, i);
        EraseIsWithout(was[d].dependsOf, id);
        nodes := nodes[d := nodes[d].(dependsOf := Erase(nodes[d].dependsOf, id))];
        assert sources[..i + 1] == sources[..i] + [d];
      }
      assert sources[..|sources|] == sources;
      DependencyErasedAll(was, id);
      nodes := nodes[id := nodes[id].(dependentNodes := [])];
    }

    method Detach(id: NodeId)
      requires Valid() && id in nodes
      modifies this`nodes
      ensures Valid() && nodes == Restricted(old(nodes), {id})
    {
      RestrictedKeepsGraph(nodes, fetchCacheIteration, {id});
      WithoutBothIsRestricted(nodes, id);
      ClearDependsOf(id);
      ClearDependentNodes(id);
      nodes := nodes - {id};
    }

    method AddNode(id: NodeId)
      requires !id.Null? && Valid()
      modifies this`nodes
      ensures Valid() && nodes == Added(old(nodes), id)
    {
      AddedKeepsEdges(nodes, id);
      if id !in nodes {
        nodes := nodes[id := NEW_NODE];
      }
    }

    method RemoveNode(id: NodeId)
      requires Valid()
      modifies this`nodes
      ensures Valid()
      ensures nodes == if id in old(nodes) then Restricted(old(nodes), {id}) else old(nodes)
    {
      if id !in nodes {
        return;
      }
      Detach(id);
    }

    method AddDependency(node: NodeId, from: NodeId)
      requires Valid() && node in nodes && from in nodes && node != from
      modifies this`nodes
      ensures Valid() && nodes == Linked(old(nodes), node, from)
    {
      LinkedKeepsEdges(nodes, node, from);
      nodes := nodes[from := nodes[from].(dependentNodes := Insert(nodes[from].dependentNodes, node))];
      nodes := nodes[node := nodes[node].(dependsOf := Insert(nodes[node].dependsOf, from))];
      assert nodes == Linked(old(nodes), node, from);
    }

    /** The memoised walk. A node in progress counts as fetched, so a cycle closes; as the first
        unfetched node makes every frame return at once, no wrong memo is ever read. */
    method IsFetchedRecursively(id: NodeId, iteration: nat) returns (fetched: bool)
      requires id in nodes && EdgesOk(nodes) && VisitedFetched(nodes, iteration)
      modifies this`nodes
      ensures Walked(old(nodes), nodes, iteration)
      ensures fetched ==> id in Visited(nodes, iteration) && Explored(old(nodes), nodes, iteration, {})
      ensures !fetched ==> !Complete(old(nodes), id)
      decreases nodes.Keys - Visited(nodes, iteration)
    {
      hide EdgesOk, Walked, Complete, SameButCache, Visited, DependsOn;
      ghost var was := nodes;
      NotWalking(nodes, iteration, id);
      if !nodes[id].Fetched() {
        return false;
      }
      if nodes[id].cacheIteration == iteration {
        return nodes[id].cacheState;
      }
      MarkedIsExplored(nodes, id, iteration);
      nodes := nodes[id := nodes[id].(cacheIteration := iteration, cacheState := true)];
      FewerUnvisited(was, nodes, iteration, id);
      var targets := nodes[id].dependsOf;
      fetched := true;
      var i := 0;
      while fetched && i < |targets|
        invariant 0 <= i <= |targets| && nodes.Keys == was.Keys
        invariant Walked(was, nodes, iteration) && id in Visited(nodes, iteration)
        invariant fetched ==> Explored(was, nodes, iteration, {id})
        invariant fetched ==> Elements(targets[..i]) <= Visited(nodes, iteration)
        invariant !fetched ==> !Complete(was, id)
        decreases |targets| - i, fetched
      {
        ghost var mid := nodes;
        FewerUnvisited(was, mid, iteration, id);
        NextDependency(was, mid, id, i);
        fetched := IsFetchedRecursively(targets[i], iteration);
        WalkedThenExplored(was, mid, nodes, iteration, {id});
        if fetched {
          ElementsStep(targets, i);
          i := i + 1;
        } else {
          IncompleteDependency(was, id, targets[i]);
        }
      }
      assert targets[..|targets|] == targets;
      SetStateIsWalk(was, nodes, id, iteration, fetched);
      nodes := nodes[id := nodes[id].(cacheState := fetched)];
    }

    /** A walk in an iteration of its own is exact. */
    method Query(id: NodeId) returns (complete: bool)
      requires Valid() && id in nodes
      modifies this
      ensures Valid() && SameButCache(nodes, old(nodes))
      ensures complete <==> Complete(old(nodes), id)
    {
      ghost var was := nodes;
      var iteration := fetchCacheIteration;
      fetchCacheIteration := fetchCacheIteration + 1;
      complete := IsFetchedRecursively(id, iteration);
      SameButCacheEdges(nodes, was);
      if complete {
        ExploredIsComplete(was, nodes, iteration, id);
      }
    }

    /** Releases the complete nodes. The map is walked in an arbitrary order. */
    method GetFetchedNodes() returns (result: FetchCompletedResult)
      requires Valid()
      modifies this
      ensures Valid()
      ensures SameButCache(nodes, Restricted(old(nodes), CompleteNodes(old(nodes))))
      ensures ReportsExactly(result, old(nodes), CompleteNodes(old(nodes)))
    {
      ghost var was := nodes;
      ghost var gone: set<NodeId> := {};
      result := FetchCompletedResult([], []);
      var todo := nodes.Keys;
      RestrictedNothing(was);
      while todo != {}
        invariant Valid()
        invariant Releasing(was, nodes, todo, gone, result)
      {
        var id :| id in todo;
        ghost var before := nodes;
        var complete := Query(id);
        QueryIsExact(was, gone, before, nodes, id);
        if complete {
          ReleaseOne(was, nodes, todo, gone, result, id);
          result := Report(result, id, nodes[id]);
          Detach(id);
          gone := gone + {id};
        } else {
          SkipOne(was, nodes, todo, gone, result, id);
        }
        todo := todo - {id};
      }
      assert gone == CompleteNodes(was);
    }
  }
}
