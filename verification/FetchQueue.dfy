/** The queue of pending nodes: a binary heap in a vector, ordered by the pending sequence of the
    node and then by insertion. The order key lives in the node, not in the queue. */
module FetchingQueue {
  import opened NodeIds
  import opened Paths
  import opened FetchTypes
  import opened FetchingGraph

  datatype Entry = Entry(sequence: nat, node: NodeId)

  type Keys = map<NodeId, nat>

  function PendingSequences(nodes: Nodes): Keys {
    map x | x in nodes :: nodes[x].pendingSequence
  }

  // ---------------------------------------------------------------- heap order

  function Key(keys: Keys, e: Entry): nat {
    if e.node in keys then keys[e.node] else 0
  }

  /** `a` is not popped after `b`. */
  predicate NotAfter(keys: Keys, a: Entry, b: Entry) {
    Key(keys, a) < Key(keys, b) || (Key(keys, a) == Key(keys, b) && a.sequence <= b.sequence)
  }

  function Parent(i: int): int {
    (i - 1) / 2
  }

  /** Heap order at every position below `n` whose parent is at `from` or further. */
  predicate HeapFrom(keys: Keys, q: seq<Entry>, from: int, n: int)
    requires 0 <= n <= |q|
  {
    forall i :: 0 < i < n && from <= Parent(i) ==> NotAfter(keys, q[Parent(i)], q[i])
  }

  predicate IsHeap(keys: Keys, q: seq<Entry>) {
    HeapFrom(keys, q, 0, |q|)
  }

  function Swap(q: seq<Entry>, i: int, j: int): (r: seq<Entry>)
    requires 0 <= i < |q| && 0 <= j < |q|
    ensures |r| == |q| && multiset(r) == multiset(q)
  {
    q[i := q[j]][j := q[i]]
  }

  /** The front has the least pending sequence, and of equal ones the least insertion sequence. */
  lemma {:induction false} FrontIsLeast(keys: Keys, q: seq<Entry>, i: int)
    requires IsHeap(keys, q) && 0 <= i < |q|
    ensures NotAfter(keys, q[0], q[i])
    ensures q[0].node in keys && q[i].node in keys ==>
      || keys[q[0].node] < keys[q[i].node]
      || (keys[q[0].node] == keys[q[i].node] && q[0].sequence <= q[i].sequence)
  {
    if i > 0 {
      FrontIsLeast(keys, q, Parent(i));
    }
  }

  /** Heap order below `n`, with all parents at `lo` or further, but for the entry at `i`, which may
      rank before its parent; its children still rank after that parent. */
  ghost predicate RisingAt(keys: Keys, q: seq<Entry>, i: int, n: int)
    requires 0 <= i < n <= |q|
  {
    && (forall j :: 0 < j < n && j != i ==> NotAfter(keys, q[Parent(j)], q[j]))
    && (forall j :: 0 < j < n && Parent(j) == i && i > 0 ==> NotAfter(keys, q[Parent(i)], q[j]))
  }

  /** Likewise for the entry at `i`, which may rank after its children. */
  ghost predicate SinkingAt(keys: Keys, q: seq<Entry>, lo: int, i: int, n: int)
    requires 0 <= lo <= i && 0 <= n <= |q|
  {
    && (forall j :: 0 < j < n && lo <= Parent(j) && Parent(j) != i ==> NotAfter(keys, q[Parent(j)], q[j]))
    && (forall j :: 0 < j < n && Parent(j) == i && lo <= Parent(i) && i > 0 ==> NotAfter(keys, q[Parent(i)], q[j]))
  }

  lemma Transitive(keys: Keys, a: Entry, b: Entry, c: Entry)
    requires NotAfter(keys, a, b) && NotAfter(keys, b, c)
    ensures NotAfter(keys, a, c)
  {
  }

  lemma TotalOrder(keys: Keys, a: Entry, b: Entry)
    requires !NotAfter(keys, a, b)
    ensures NotAfter(keys, b, a)
  {
  }

  lemma RiseStep(keys: Keys, q: seq<Entry>, i: int, n: int)
    requires 0 < i < n <= |q| && RisingAt(keys, q, i, n) && !NotAfter(keys, q[Parent(i)], q[i])
    ensures RisingAt(keys, Swap(q, i, Parent(i)), Parent(i), n)
  {
    var r, p := Swap(q, i, Parent(i)), Parent(i);
    forall j | 0 < j < n && j != p ensures NotAfter(keys, r[Parent(j)], r[j]) {
      if j != i {
        assert r[j] == q[j];
        if Parent(j) == p {
          Transitive(keys, q[i], q[p], q[j]);
        }
      }
    }
    forall j | 0 < j < n && Parent(j) == p && p > 0 ensures NotAfter(keys, r[Parent(p)], r[j]) {
      assert r[Parent(p)] == q[Parent(p)];
      if j != i {
        Transitive(keys, q[Parent(p)], q[p], q[j]);
      }
    }
  }

  lemma SinkStep(keys: Keys, q: seq<Entry>, lo: int, i: int, c: int, n: int)
    requires 0 <= lo <= i && 0 < c < n <= |q| && Parent(c) == i && SinkingAt(keys, q, lo, i, n)
    requires NotAfter(keys, q[c], q[i])
    requires forall j :: 0 < j < n && Parent(j) == i ==> NotAfter(keys, q[c], q[j])
    ensures SinkingAt(keys, Swap(q, i, c), lo, c, n)
  {
    var r := Swap(q, i, c);
    forall j | 0 < j < n && lo <= Parent(j) && Parent(j) != c ensures NotAfter(keys, r[Parent(j)], r[j]) {
      if Parent(j) == i {
        assert r[Parent(j)] == q[c];
      } else if j == i {
        assert r[j] == q[c] && r[Parent(j)] == q[Parent(i)];
      } else {
        assert r[j] == q[j] && r[Parent(j)] == q[Parent(j)];
      }
    }
    forall j | 0 < j < n && Parent(j) == c ensures NotAfter(keys, r[Parent(c)], r[j]) {
      assert r[j] == q[j] && r[i] == q[c];
    }
  }

  lemma LeastChild(keys: Keys, q: seq<Entry>, i: int, n: int)
    requires 0 <= i && 2 * i + 1 < n <= |q|
    ensures var l := 2 * i + 1;
      var c := if l + 1 < n && !NotAfter(keys, q[l], q[l + 1]) then l + 1 else l;
      Parent(c) == i && forall j :: 0 < j < n && Parent(j) == i ==> NotAfter(keys, q[c], q[j])
  {
    assert forall j :: 0 < j < n && Parent(j) == i ==> j == 2 * i + 1 || j == 2 * i + 2;
  }

  lemma Sunk(keys: Keys, q: seq<Entry>, lo: int, i: int, n: int)
    requires 0 <= lo <= i && 0 <= n <= |q| && SinkingAt(keys, q, lo, i, n)
    requires 2 * i + 1 < n ==> forall j :: 0 < j < n && Parent(j) == i ==> NotAfter(keys, q[i], q[j])
    ensures HeapFrom(keys, q, lo, n)
  {
  }

  lemma SunkBefore(keys: Keys, q: seq<Entry>, lo: int, i: int, c: int, n: int)
    requires 0 <= lo <= i < n <= |q| && 0 < c < n && SinkingAt(keys, q, lo, i, n)
    requires NotAfter(keys, q[i], q[c])
    requires forall j :: 0 < j < n && Parent(j) == i ==> NotAfter(keys, q[c], q[j])
    ensures HeapFrom(keys, q, lo, n)
  {
    forall j | 0 < j < n && Parent(j) == i ensures NotAfter(keys, q[i], q[j]) {
      Transitive(keys, q[i], q[c], q[j]);
    }
    Sunk(keys, q, lo, i, n);
  }

  lemma SwapKeepsTail(q: seq<Entry>, i: int, j: int, n: int)
    requires 0 <= i < n <= |q| && 0 <= j < n
    ensures Swap(q, i, j)[n..] == q[n..]
  {
  }

  /** `std::push_heap` */
  method PushHeap(keys: Keys, q: seq<Entry>) returns (r: seq<Entry>)
    requires q != []
    ensures |r| == |q| && multiset(r) == multiset(q)
    ensures IsHeap(keys, q[..|q| - 1]) ==> IsHeap(keys, r)
  {
    ghost var ordered := IsHeap(keys, q[..|q| - 1]);
    r := q;
    var i := |q| - 1;
    assert ordered ==> RisingAt(keys, r, i, |r|) by {
      assert forall j :: 0 < j < |q| && j != i ==> q[j] == q[..i][j] && q[Parent(j)] == q[..i][Parent(j)];
    }
    while i > 0 && !NotAfter(keys, r[Parent(i)], r[i])
      invariant 0 <= i < |r| == |q| && multiset(r) == multiset(q)
      invariant ordered ==> RisingAt(keys, r, i, |r|)
    {
      if ordered {
        RiseStep(keys, r, i, |r|);
      }
      r := Swap(r, i, Parent(i));
      i := Parent(i);
    }
  }

  /** Sinks the entry at `lo` within the first `n` positions. */
  method SiftDown(keys: Keys, q: seq<Entry>, lo: int, n: int) returns (r: seq<Entry>)
    requires 0 <= lo <= n <= |q|
    ensures |r| == |q| && multiset(r) == multiset(q) && r[n..] == q[n..]
    ensures HeapFrom(keys, q, lo + 1, n) ==> HeapFrom(keys, r, lo, n)
  {
    hide NotAfter, Swap;
    ghost var ordered := HeapFrom(keys, q, lo + 1, n);
    r := q;
    var i := lo;
    while 2 * i + 1 < n
      invariant lo <= i && |r| == |q| && multiset(r) == multiset(q) && r[n..] == q[n..]
      invariant ordered ==> SinkingAt(keys, r, lo, i, n)
      decreases n - i
    {
      var least := 2 * i + 1;
      if least + 1 < n && !NotAfter(keys, r[least], r[least + 1]) {
        least := least + 1;
      }
      LeastChild(keys, r, i, n);
      if NotAfter(keys, r[i], r[least]) {
        if ordered {
          SunkBefore(keys, r, lo, i, least, n);
        }
        return;
      }
      if ordered {
        TotalOrder(keys, r[i], r[least]);
        SinkStep(keys, r, lo, i, least, n);
      }
      SwapKeepsTail(r, i, least, n);
      r := Swap(r, i, least);
      i := least;
    }
    if ordered {
      Sunk(keys, r, lo, i, n);
    }
  }

  /** `std::make_heap` */
  method MakeHeap(keys: Keys, q: seq<Entry>) returns (r: seq<Entry>)
    ensures |r| == |q| && multiset(r) == multiset(q) && IsHeap(keys, r)
  {
    r := q;
    var i := |q| / 2;
    assert forall j :: 0 < j < |q| ==> Parent(j) < i;
    while i > 0
      invariant 0 <= i && |r| == |q| && multiset(r) == multiset(q) && HeapFrom(keys, r, i, |r|)
    {
      i := i - 1;
      r := SiftDown(keys, r, i, |r|);
    }
  }

  /** `std::pop_heap` and `pop_back` */
  method PopHeap(keys: Keys, q: seq<Entry>) returns (r: seq<Entry>)
    requires q != []
    ensures |r| == |q| - 1 && multiset(r) == multiset(q) - multiset{q[0]}
    ensures IsHeap(keys, q) ==> IsHeap(keys, r) && forall e :: e in multiset(r) ==> NotAfter(keys, q[0], e)
  {
    hide NotAfter, Parent, HeapFrom;
    var n := |q| - 1;
    if IsHeap(keys, q) {
      PopOrder(keys, q);
    }
    var swapped := Swap(q, 0, n);
    r := SiftDown(keys, swapped, 0, n);
    assert r[n] == swapped[n..][0] == q[0] by { assert r[n] == r[n..][0]; }
    DropLast(r, multiset(q), q[0]);
    if HeapFrom(keys, r, 0, n) {
      HeapTrimmed(keys, r, n);
    }
    r := r[..n];
  }

  lemma HeapTrimmed(keys: Keys, q: seq<Entry>, n: nat)
    requires n <= |q| && HeapFrom(keys, q, 0, n)
    ensures IsHeap(keys, q[..n])
  {
  }

  lemma DropLast(r: seq<Entry>, all: multiset<Entry>, last: Entry)
    requires r != [] && multiset(r) == all && r[|r| - 1] == last
    ensures multiset(r[..|r| - 1]) == all - multiset{last}
  {
    assert r == r[..|r| - 1] + [r[|r| - 1]];
  }

  lemma PopOrder(keys: Keys, q: seq<Entry>)
    requires q != [] && IsHeap(keys, q)
    ensures HeapFrom(keys, Swap(q, 0, |q| - 1), 1, |q| - 1)
    ensures forall e :: e in multiset(q) ==> NotAfter(keys, q[0], e)
  {
    forall e | e in multiset(q) ensures NotAfter(keys, q[0], e) {
      var i :| 0 <= i < |q| && q[i] == e;
      FrontIsLeast(keys, q, i);
    }
  }

  /** Erasing an entry rebuilds the heap from whatever order there was. */
  method EraseHeap(keys: Keys, q: seq<Entry>, i: nat) returns (r: seq<Entry>)
    requires i < |q|
    ensures |r| == |q| - 1 && multiset(r) == multiset(q) - multiset{q[i]} && IsHeap(keys, r)
  {
    var last := |q| - 1;
    r := Swap(q, i, last);
    assert r == r[..last] + [r[last]];
    r := MakeHeap(keys, r[..last]);
  }

  // ---------------------------------------------------------------- the queue object

  function Queued(entries: multiset<Entry>): set<NodeId> {
    set e | e in entries :: e.node
  }

  function PendingNodes(nodes: Nodes): set<NodeId> {
    set x | x in nodes && nodes[x].pending
  }

  /** The entries are exactly the pending nodes of the graph, each once, told apart by sequence. */
  ghost predicate QueueOk(entries: multiset<Entry>, nextSequence: nat, nodes: Nodes) {
    && (forall e :: e in entries ==> entries[e] == 1 && e.sequence < nextSequence)
    && (forall e, f :: e in entries && f in entries && (e.node == f.node || e.sequence == f.sequence) ==> e == f)
    && Queued(entries) == PendingNodes(nodes)
  }

  function SetPending(nodes: Nodes, id: NodeId, pending: bool): Nodes
    requires id in nodes
  {
    nodes[id := nodes[id].(pending := pending)]
  }

  lemma SamePending(a: Nodes, b: Nodes)
    requires forall id :: id in a && a[id].pending ==> id in b && b[id].pending
    requires forall id :: id in b && b[id].pending ==> id in a && a[id].pending
    ensures PendingNodes(a) == PendingNodes(b)
  {
  }

  lemma SetPendingKeepsKeys(nodes: Nodes, id: NodeId, pending: bool)
    requires id in nodes
    ensures PendingSequences(SetPending(nodes, id, pending)) == PendingSequences(nodes)
    ensures PendingNodes(SetPending(nodes, id, pending)) ==
              if pending then PendingNodes(nodes) + {id} else PendingNodes(nodes) - {id}
  {
  }

  lemma QueuedMore(entries: multiset<Entry>, e: Entry)
    ensures Queued(entries + multiset{e}) == Queued(entries) + {e.node}
  {
    var more := entries + multiset{e};
    assert forall f :: f in more <==> f in entries || f == e;
    assert e in more;
    forall x | x in Queued(entries) ensures x in Queued(more) {
      var f :| f in entries && f.node == x;
      assert f in more;
    }
  }

  lemma QueuedLess(entries: multiset<Entry>, next: nat, nodes: Nodes, e: Entry)
    requires QueueOk(entries, next, nodes) && e in entries
    ensures Queued(entries - multiset{e}) == Queued(entries) - {e.node}
  {
    var less := entries - multiset{e};
    assert forall f :: f in less <==> f in entries && f != e;
    forall x | x in Queued(entries) && x != e.node ensures x in Queued(less) {
      var f :| f in entries && f.node == x;
      assert f in less;
    }
  }

  lemma QueuedOnce(entries: multiset<Entry>, next: nat, nodes: Nodes, id: NodeId)
    requires QueueOk(entries, next, nodes) && id in nodes
    ensures id in Queued(entries) <==> nodes[id].pending
    ensures SetPending(nodes, id, nodes[id].pending) == nodes
    ensures Queued(entries) == if nodes[id].pending then Queued(entries) + {id} else Queued(entries) - {id}
  {
    assert id in Queued(entries) <==> id in PendingNodes(nodes);
  }

  lemma PushOk(entries: multiset<Entry>, next: nat, nodes: Nodes, id: NodeId)
    requires QueueOk(entries, next, nodes) && id in nodes && !nodes[id].pending
    ensures QueueOk(entries + multiset{Entry(next, id)}, next + 1, SetPending(nodes, id, true))
    ensures Queued(entries + multiset{Entry(next, id)}) == Queued(entries) + {id}
  {
    var e := Entry(next, id);
    assert id !in Queued(entries);
    QueuedMore(entries, e);
    SetPendingKeepsKeys(nodes, id, true);
  }

  lemma DropOk(entries: multiset<Entry>, next: nat, nodes: Nodes, e: Entry)
    requires QueueOk(entries, next, nodes) && e in entries
    ensures e.node in nodes && nodes[e.node].pending
    ensures QueueOk(entries - multiset{e}, next, SetPending(nodes, e.node, false))
    ensures Queued(entries - multiset{e}) == Queued(entries) - {e.node}
  {
    assert e.node in Queued(entries);
    QueuedLess(entries, next, nodes, e);
    SetPendingKeepsKeys(nodes, e.node, false);
  }

  /** The node of the one entry is due before that of the other. */
  predicate Earlier(nodes: Nodes, e: Entry, f: Entry) {
    && e.node in nodes && f.node in nodes
    && (nodes[e.node].pendingSequence < nodes[f.node].pendingSequence
        || (nodes[e.node].pendingSequence == nodes[f.node].pendingSequence && e.sequence <= f.sequence))
  }

  lemma AllLater(nodes: Nodes, e: Entry, entries: multiset<Entry>, next: nat)
    requires QueueOk(entries, next, nodes) && e.node in nodes
    ensures (forall f :: f in entries ==> NotAfter(PendingSequences(nodes), e, f)) ==>
      forall f :: f in entries ==> Earlier(nodes, e, f)
  {
    forall f | f in entries ensures f.node in nodes {
      assert f.node in Queued(entries);
    }
  }

  class FetchQueue {
    var queue: seq<Entry>
    var nextSequence: nat

    ghost predicate Valid(nodes: Nodes)
      reads this
    {
      QueueOk(multiset(queue), nextSequence, nodes)
    }

    /** The heap property for the keys the nodes carry now. */
    ghost predicate Ordered(nodes: Nodes)
      reads this
    {
      IsHeap(PendingSequences(nodes), queue)
    }

    constructor ()
      ensures queue == [] && Valid(map[])
    {
      queue := [];
      nextSequence := 0;
    }

    method Find(id: NodeId) returns (i: nat)
      ensures i <= |queue|
      ensures i < |queue| ==> queue[i].node == id
      ensures i == |queue| <==> id !in Queued(multiset(queue))
    {
      i := 0;
      while i < |queue| && queue[i].node != id
        invariant i <= |queue|
        invariant forall j :: 0 <= j < i ==> queue[j].node != id
      {
        i := i + 1;
      }
      if i < |queue| {
        assert queue[i] in multiset(queue);
      }
    }

    method Count(graph: FetchingNodeGraph, id: NodeId) returns (n: nat)
      requires Valid(graph.nodes) && id in graph.nodes
      ensures n == if id in Queued(multiset(queue)) then 1 else 0
    {
      n := if graph.nodes[id].pending then 1 else 0;
    }

    method Push(graph: FetchingNodeGraph, id: NodeId)
      requires Valid(graph.nodes) && id in graph.nodes
      modifies this, graph`nodes
      ensures Valid(graph.nodes)
      ensures graph.nodes == SetPending(old(graph.nodes), id, true)
      ensures multiset(queue) == old(multiset(queue)) +
        if old(graph.nodes)[id].pending then multiset{} else multiset{Entry(old(nextSequence), id)}
      ensures Queued(multiset(queue)) == old(Queued(multiset(queue))) + {id}
      ensures old(Ordered(graph.nodes)) ==> Ordered(graph.nodes)
    {
      hide IsHeap, Key, QueueOk, Queued;
      if graph.nodes[id].pending {
        QueuedOnce(multiset(queue), nextSequence, graph.nodes, id);
        return;
      }
      PushOk(multiset(queue), nextSequence, graph.nodes, id);
      SetPendingKeepsKeys(graph.nodes, id, true);
      graph.nodes := SetPending(graph.nodes, id, true);
      var longer := queue + [Entry(nextSequence, id)];
      assert longer[..|longer| - 1] == queue;
      nextSequence := nextSequence + 1;
      queue := PushHeap(PendingSequences(graph.nodes), longer);
    }

    function Top(): (id: NodeId)
      requires queue != []
      reads this
    {
      queue[0].node
    }

    method Pop(graph: FetchingNodeGraph)
      requires Valid(graph.nodes) && queue != []
      modifies this`queue, graph`nodes
      ensures Valid(graph.nodes)
      ensures var e := old(queue[0]);
        && e.node in old(graph.nodes) && old(graph.nodes)[e.node].pending
        && graph.nodes == SetPending(old(graph.nodes), e.node, false)
        && multiset(queue) == old(multiset(queue)) - multiset{e}
        && Queued(multiset(queue)) == old(Queued(multiset(queue))) - {e.node}
        && |queue| == old(|queue|) - 1
      ensures old(Ordered(graph.nodes)) ==>
        && Ordered(graph.nodes)
        && forall f :: f in multiset(queue) ==> NotAfter(PendingSequences(graph.nodes), old(queue[0]), f)
      ensures old(Ordered(graph.nodes)) ==> forall f :: f in multiset(queue) ==> Earlier(graph.nodes, old(queue[0]), f)
    {
      assert queue[0] in multiset(queue);
      DropOk(multiset(queue), nextSequence, graph.nodes, queue[0]);
      SetPendingKeepsKeys(graph.nodes, Top(), false);
      graph.nodes := SetPending(graph.nodes, Top(), false);
      ghost var front := queue[0];
      queue := PopHeap(PendingSequences(graph.nodes), queue);
      AllLater(graph.nodes, front, multiset(queue), nextSequence);
    }

    method Erase(graph: FetchingNodeGraph, id: NodeId)
      requires Valid(graph.nodes) && id in graph.nodes
      modifies this`queue, graph`nodes
      ensures Valid(graph.nodes)
      ensures graph.nodes == SetPending(old(graph.nodes), id, false)
      ensures Queued(multiset(queue)) == old(Queued(multiset(queue))) - {id}
      ensures multiset(queue) <= old(multiset(queue))
      ensures old(graph.nodes)[id].pending || old(Ordered(graph.nodes)) ==> Ordered(graph.nodes)
    {
      hide IsHeap, Key, QueueOk, Queued;
      QueuedOnce(multiset(queue), nextSequence, graph.nodes, id);
      if !graph.nodes[id].pending {
        return;
      }
      var i := Find(id);
      DropOk(multiset(queue), nextSequence, graph.nodes, queue[i]);
      SetPendingKeepsKeys(graph.nodes, id, false);
      queue := EraseHeap(PendingSequences(graph.nodes), queue, i);
      graph.nodes := SetPending(graph.nodes, id, false);
    }
  }

  // ---------------------------------------------------------------- keys that change

  /** A queued node may take any other key: the heap stays one exactly when the entry still ranks
      not before its parent and not after its children. */
  lemma RekeyKeepsHeapIff(keys: Keys, q: seq<Entry>, i: nat, key: nat)
    requires IsHeap(keys, q) && i < |q|
    requires forall j, k :: 0 <= j < k < |q| ==> q[j].node != q[k].node
    ensures var after := keys[q[i].node := key];
      IsHeap(after, q) <==>
        && (i > 0 ==> NotAfter(after, q[Parent(i)], q[i]))
        && (forall c :: 0 < c < |q| && Parent(c) == i ==> NotAfter(after, q[i], q[c]))
  {
    var after := keys[q[i].node := key];
    assert forall j :: 0 <= j < |q| && j != i ==> Key(after, q[j]) == Key(keys, q[j]);
    forall j | 0 < j < |q| && j != i && Parent(j) != i ensures NotAfter(after, q[Parent(j)], q[j]) {
      assert NotAfter(keys, q[Parent(j)], q[j]);
    }
  }

  /** A repeated `Fetch` gives a queued node a key beyond all others: the heap stays one exactly when
      the node has no children in it. */
  lemma RefetchKeepsHeapIff(keys: Keys, q: seq<Entry>, i: nat, key: nat)
    requires IsHeap(keys, q) && i < |q|
    requires forall j, k :: 0 <= j < k < |q| ==> q[j].node != q[k].node
    requires forall j :: 0 <= j < |q| ==> Key(keys, q[j]) < key
    ensures IsHeap(keys[q[i].node := key], q) <==> |q| <= 2 * i + 1
  {
    RekeyKeepsHeapIff(keys, q, i, key);
    if 2 * i + 1 < |q| {
      assert Parent(2 * i + 1) == i;
      assert q[2 * i + 1].node != q[i].node;
    }
  }

  /** A child that is queued already takes the key of the node that names it: where that key does not
      exceed its own, the heap stays one exactly when the entry ranks not before its parent. */
  lemma ChildRekeyKeepsHeapIff(keys: Keys, q: seq<Entry>, i: nat, key: nat)
    requires IsHeap(keys, q) && i < |q| && key <= Key(keys, q[i])
    requires q[i].node in keys
    requires forall j, k :: 0 <= j < k < |q| ==> q[j].node != q[k].node
    ensures var after := keys[q[i].node := key];
      IsHeap(after, q) <==> (i > 0 ==> NotAfter(after, q[Parent(i)], q[i]))
  {
    RekeyKeepsHeapIff(keys, q, i, key);
    var after := keys[q[i].node := key];
    forall c | 0 < c < |q| && Parent(c) == i ensures NotAfter(after, q[i], q[c]) {
      assert NotAfter(keys, q[Parent(c)], q[c]);
    }
  }

  /** A child that was queued as a mere dependency has the least key and takes a later one from the node
      that names it: then the heap stays one exactly when the entry ranks not after its children. */
  lemma LaterChildKeepsHeapIff(keys: Keys, q: seq<Entry>, i: nat, key: nat)
    requires IsHeap(keys, q) && i < |q| && Key(keys, q[i]) <= key
    requires forall j, k :: 0 <= j < k < |q| ==> q[j].node != q[k].node
    ensures var after := keys[q[i].node := key];
      IsHeap(after, q) <==> forall c :: 0 < c < |q| && Parent(c) == i ==> NotAfter(after, q[i], q[c])
  {
    RekeyKeepsHeapIff(keys, q, i, key);
    if i > 0 {
      assert NotAfter(keys, q[Parent(i)], q[i]) && q[Parent(i)].node != q[i].node;
    }
  }

  /** Fetching the first of two waiting nodes again leaves it before the other. */
  lemma RefetchBreaksHeap()
    ensures var a, b := Numeric(1, 1), Numeric(1, 2);
      var q := [Entry(0, a), Entry(1, b)];
      IsHeap(map[a := 5, b := 7], q) && !IsHeap(map[a := 8, b := 7], q)
  {
    assert Parent(1) == 0;
  }

  /** A waiting dependency named as a child by a node of sequence 9 stays before one of sequence 5. */
  lemma LaterChildBreaksHeap()
    ensures var c, b := Numeric(1, 1), Numeric(1, 2);
      var q := [Entry(0, c), Entry(1, b)];
      IsHeap(map[c := 0, b := 5], q) && !IsHeap(map[c := 9, b := 5], q)
  {
    assert Parent(1) == 0;
  }

  /** A waiting child named by a node of sequence 3 stays behind one of sequence 5, although it has no
      children in the heap. */
  lemma ChildRekeyBreaksHeap()
    ensures var a, c := Numeric(1, 1), Numeric(1, 2);
      var q := [Entry(0, a), Entry(1, c)];
      IsHeap(map[a := 5, c := 7], q) && !IsHeap(map[a := 5, c := 3], q)
  {
    assert Parent(1) == 0;
  }
}
