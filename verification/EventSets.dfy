/** An ordered set of pointers as a search tree, and what its search finds when the objects that the
    pointers lead to change their rank in place. */
module EventSets {
  import opened NodeIds

  type Pointer = nat

  /** Earlier times first, equal times by address. */
  datatype Rank = Rank(time: int, address: int)

  predicate Less(a: Rank, b: Rank) {
    a.time < b.time || (a.time == b.time && a.address < b.address)
  }

  /** The ranks of the objects in memory, as they are now. */
  type Ranks = map<Pointer, Rank>

  /** No two objects have one address. */
  ghost predicate Apart(ranks: Ranks) {
    forall p, q :: p in ranks && q in ranks && p != q ==> ranks[p].address != ranks[q].address
  }

  datatype Tree = Leaf | Node(left: Tree, at: Pointer, right: Tree)

  function InOrder(t: Tree): seq<Pointer> {
    match t
    case Leaf => []
    case Node(left, at, right) => InOrder(left) + [at] + InOrder(right)
  }

  ghost predicate InMemory(ranks: Ranks, s: seq<Pointer>) {
    forall i :: 0 <= i < |s| ==> s[i] in ranks
  }

  ghost predicate Ordered(ranks: Ranks, s: seq<Pointer>) {
    InMemory(ranks, s) && forall i, j :: 0 <= i < j < |s| ==> Less(ranks[s[i]], ranks[s[j]])
  }

  lemma PartsInMemory(ranks: Ranks, low: seq<Pointer>, at: Pointer, high: seq<Pointer>)
    requires InMemory(ranks, low + [at] + high)
    ensures InMemory(ranks, low) && at in ranks && InMemory(ranks, high)
  {
    var s := low + [at] + high;
    assert forall i :: 0 <= i < |low| ==> s[i] == low[i];
    assert forall i :: 0 <= i < |high| ==> s[|low| + 1 + i] == high[i];
    assert s[|low|] == at;
  }

  ghost predicate Once(s: seq<Pointer>) {
    forall i, j :: 0 <= i < j < |s| ==> s[i] != s[j]
  }

  lemma {:induction false} OnceCounted(s: seq<Pointer>)
    ensures Once(s) <==> forall p :: multiset(s)[p] <= 1
  {
    if s != [] {
      var init, last := s[..|s| - 1], s[|s| - 1];
      OnceCounted(init);
      assert s == init + [last];
      assert multiset(s)[last] == multiset(init)[last] + 1;
      assert forall p :: multiset(init)[p] <= multiset(s)[p];
      OnceSplit(s);
    }
  }

  lemma OnceSplit(s: seq<Pointer>)
    requires s != []
    ensures Once(s) <==> Once(s[..|s| - 1]) && s[|s| - 1] !in multiset(s[..|s| - 1])
  {
  }

  /** Parts of a sequence without repetitions share nothing, so a place in it is a place in one part. */
  lemma PartsOnce(low: seq<Pointer>, at: Pointer, high: seq<Pointer>)
    requires Once(low + [at] + high)
    ensures Once(low) && Once(high) && at !in low && at !in high
    ensures forall p :: p in low ==> p !in high
    ensures forall i :: 0 <= i < |low| ==> (low + [at] + high)[i] == low[i]
    ensures forall i :: |low| < i < |low| + 1 + |high| ==> (low + [at] + high)[i] == high[i - |low| - 1]
    ensures (low + [at] + high)[|low|] == at
  {
    var s := low + [at] + high;
    assert forall i :: 0 <= i < |low| ==> s[i] == low[i];
    assert forall i :: 0 <= i < |high| ==> s[|low| + 1 + i] == high[i];
    assert s[|low|] == at;
  }

  // ---------------------------------------------------------------- searching

  datatype Outcome = Found(at: Pointer) | Missing | Dangling

  /** `lower_bound`: the last node met that does not rank below, unless the walk meets freed memory. */
  function LowerBound(t: Tree, ranks: Ranks, key: Rank, best: Outcome): (r: Outcome)
    requires best.Found? ==> best.at in ranks && !Less(ranks[best.at], key)
    ensures r.Found? ==> r.at in ranks && !Less(ranks[r.at], key)
    ensures r == best || r.Dangling? || (r.Found? && r.at in InOrder(t))
  {
    match t
    case Leaf => best
    case Node(left, at, right) =>
      if at !in ranks then Dangling
      else if Less(ranks[at], key) then LowerBound(right, ranks, key, best)
      else LowerBound(left, ranks, key, Found(at))
  }

  /** `find` */
  function Find(t: Tree, ranks: Ranks, key: Rank): (r: Outcome)
    ensures r.Found? ==>
      r.at in ranks && r.at in InOrder(t) && !Less(ranks[r.at], key) && !Less(key, ranks[r.at])
  {
    var r := LowerBound(t, ranks, key, Missing);
    if r.Found? && Less(key, ranks[r.at]) then Missing else r
  }

  /** All that stand before the position rank below it, and all after it above. */
  ghost predicate Pivot(ranks: Ranks, s: seq<Pointer>, i: nat)
    requires i < |s| && InMemory(ranks, s)
  {
    && (forall j :: 0 <= j < i ==> Less(ranks[s[j]], ranks[s[i]]))
    && (forall j :: i < j < |s| ==> Less(ranks[s[i]], ranks[s[j]]))
  }

  lemma {:induction false} BoundOfParts(t: Tree, ranks: Ranks, key: Rank, best: Outcome, i: nat)
    requires best.Found? ==> best.at in ranks && !Less(ranks[best.at], key)
    requires InMemory(ranks, InOrder(t)) && i <= |InOrder(t)|
    requires forall j :: 0 <= j < i ==> Less(ranks[InOrder(t)[j]], key)
    requires forall j :: i <= j < |InOrder(t)| ==> !Less(ranks[InOrder(t)[j]], key)
    ensures LowerBound(t, ranks, key, best) == if i == |InOrder(t)| then best else Found(InOrder(t)[i])
  {
    match t
    case Leaf =>
    case Node(left, at, right) =>
      var low, high := InOrder(left), InOrder(right);
      assert forall j :: 0 <= j < |low| ==> InOrder(t)[j] == low[j];
      assert forall j :: 0 <= j < |high| ==> InOrder(t)[|low| + 1 + j] == high[j];
      assert InOrder(t)[|low|] == at;
      if i <= |low| {
        BoundOfParts(left, ranks, key, Found(at), i);
      } else {
        BoundOfParts(right, ranks, key, best, i - |low| - 1);
      }
  }

  lemma PivotFound(t: Tree, ranks: Ranks, i: nat)
    requires InMemory(ranks, InOrder(t)) && i < |InOrder(t)| && Pivot(ranks, InOrder(t), i)
    ensures Find(t, ranks, ranks[InOrder(t)[i]]) == Found(InOrder(t)[i])
  {
    BoundOfParts(t, ranks, ranks[InOrder(t)[i]], Missing, i);
  }

  function Spine(s: seq<Pointer>): (t: Tree)
    ensures InOrder(t) == s
  {
    if s == [] then Leaf else Node(Leaf, s[0], Spine(s[1..]))
  }

  /** With an element that ranks on the wrong side of the position as its root, the tree hides it. */
  lemma HiddenBelow(ranks: Ranks, s: seq<Pointer>, i: nat, j: nat) returns (t: Tree)
    requires Apart(ranks) && InMemory(ranks, s) && Once(s) && i < |s| && j < |s| && j != i
    requires if j < i then !Less(ranks[s[j]], ranks[s[i]]) else !Less(ranks[s[i]], ranks[s[j]])
    ensures InOrder(t) == s && Find(t, ranks, ranks[s[i]]) != Found(s[i])
  {
    var low, high, key := s[..j], s[j + 1..], ranks[s[i]];
    t := Node(Spine(low), s[j], Spine(high));
    assert s == low + [s[j]] + high;
    if i < j {
      assert ranks[s[i]].address != ranks[s[j]].address;
    }
  }

  /** Whatever the layout of the tree, the element is found: exactly when it ranks where it stands. */
  lemma FoundIff(ranks: Ranks, s: seq<Pointer>, i: nat)
    requires Apart(ranks) && InMemory(ranks, s) && Once(s) && i < |s|
    ensures (forall t :: InOrder(t) == s ==> Find(t, ranks, ranks[s[i]]) == Found(s[i])) <==> Pivot(ranks, s, i)
  {
    hide Find, Apart;
    if Pivot(ranks, s, i) {
      forall t | InOrder(t) == s ensures Find(t, ranks, ranks[s[i]]) == Found(s[i]) {
        PivotFound(t, ranks, i);
      }
    } else if j :| 0 <= j < i && !Less(ranks[s[j]], ranks[s[i]]) {
      var t := HiddenBelow(ranks, s, i, j);
    } else {
      var j :| i < j < |s| && !Less(ranks[s[i]], ranks[s[j]]);
      var t := HiddenBelow(ranks, s, i, j);
    }
  }

  /** Among elements in order, one that moves still ranks where it stands exactly when it ranks
      between its neighbours. */
  lemma PivotByNeighbours(ranks: Ranks, s: seq<Pointer>, i: nat)
    requires InMemory(ranks, s) && i < |s| && Ordered(ranks, s[..i] + s[i + 1..])
    ensures Pivot(ranks, s, i) <==>
      && (i > 0 ==> Less(ranks[s[i - 1]], ranks[s[i]]))
      && (i < |s| - 1 ==> Less(ranks[s[i]], ranks[s[i + 1]]))
  {
    var rest := s[..i] + s[i + 1..];
    forall j | 0 <= j < i - 1 ensures Less(ranks[s[j]], ranks[s[i - 1]]) {
      assert rest[j] == s[j] && rest[i - 1] == s[i - 1];
    }
    forall j | i + 1 < j < |s| ensures Less(ranks[s[i + 1]], ranks[s[j]]) {
      assert rest[i] == s[i + 1] && rest[j - 1] == s[j];
    }
  }

  /** Where one element alone takes another rank, the order stays exactly when it ranks where it stands. */
  lemma OneMoved(was: Ranks, now: Ranks, s: seq<Pointer>, i: nat)
    requires Ordered(was, s) && i < |s| && InMemory(now, s)
    requires forall j :: 0 <= j < |s| && j != i ==> now[s[j]] == was[s[j]]
    ensures Ordered(now, s) <==> Pivot(now, s, i)
  {
  }

  lemma NoneMoved(was: Ranks, now: Ranks, s: seq<Pointer>)
    requires Ordered(was, s) && forall p :: p in s ==> p in now && now[p] == was[p]
    ensures Ordered(now, s)
  {
    assert forall i :: 0 <= i < |s| ==> s[i] in s;
  }

  /** In no layout is an element found that ranks before the one it stands after. */
  lemma NotBeforePredecessor(t: Tree, ranks: Ranks, i: nat)
    requires InMemory(ranks, InOrder(t)) && Once(InOrder(t)) && 0 < i < |InOrder(t)|
    requires Find(t, ranks, ranks[InOrder(t)[i]]) == Found(InOrder(t)[i])
    ensures Less(ranks[InOrder(t)[i - 1]], ranks[InOrder(t)[i]])
  {
    PredecessorBelow(t, ranks, ranks[InOrder(t)[i]], Missing, i);
  }

  lemma {:induction false} PredecessorBelow(t: Tree, ranks: Ranks, key: Rank, best: Outcome, i: nat)
    requires InMemory(ranks, InOrder(t)) && Once(InOrder(t)) && i <= |InOrder(t)|
    requires best.Found? ==> best.at in ranks && best.at !in InOrder(t) && !Less(ranks[best.at], key)
    requires LowerBound(t, ranks, key, best) == if i == |InOrder(t)| then best else Found(InOrder(t)[i])
    requires !best.Dangling?
    ensures i > 0 ==> Less(ranks[InOrder(t)[i - 1]], key)
  {
    hide InMemory, Once;
    match t
    case Leaf =>
    case Node(left, at, right) =>
      var low, high := InOrder(left), InOrder(right);
      PartsInMemory(ranks, low, at, high);
      PartsOnce(low, at, high);
      if Less(ranks[at], key) {
        PredecessorBelow(right, ranks, key, best, i - |low| - 1);
      } else {
        PredecessorBelow(left, ranks, key, Found(at), i);
      }
  }

  // ---------------------------------------------------------------- inserting and erasing

  /** `insert`: the pointers in order with one more, unless the walk meets freed memory. */
  function Insert(t: Tree, ranks: Ranks, p: Pointer): Option<seq<Pointer>>
    requires p in ranks
  {
    match t
    case Leaf => Some([p])
    case Node(left, at, right) =>
      if at !in ranks then None
      else if Less(ranks[p], ranks[at]) then
        var r := Insert(left, ranks, p);
        if r.None? then None else Some(r.value + [at] + InOrder(right))
      else
        var r := Insert(right, ranks, p);
        if r.None? then None else Some(InOrder(left) + [at] + r.value)
  }

  /** The new pointer joins and nothing else changes, in whatever order they are. */
  lemma {:induction false} InsertHolds(t: Tree, ranks: Ranks, p: Pointer)
    requires p in ranks
    ensures InMemory(ranks, InOrder(t)) ==> Insert(t, ranks, p).Some?
    ensures Insert(t, ranks, p).Some? ==>
      multiset(Insert(t, ranks, p).value) == multiset(InOrder(t)) + multiset{p}
  {
    hide InMemory, Less;
    match t
    case Leaf =>
    case Node(left, at, right) =>
      if InMemory(ranks, InOrder(t)) {
        PartsInMemory(ranks, InOrder(left), at, InOrder(right));
      }
      if at in ranks {
        if Less(ranks[p], ranks[at]) {
          InsertHolds(left, ranks, p);
        } else {
          InsertHolds(right, ranks, p);
        }
      }
  }

  lemma PartsInOrder(ranks: Ranks, low: seq<Pointer>, at: Pointer, high: seq<Pointer>)
    requires Ordered(ranks, low + [at] + high)
    ensures Ordered(ranks, low) && at in ranks && Ordered(ranks, high)
    ensures forall q :: q in multiset(low) ==> q in ranks && Less(ranks[q], ranks[at])
    ensures forall q :: q in multiset(high) ==> q in ranks && Less(ranks[at], ranks[q])
  {
    var s := low + [at] + high;
    PartsInMemory(ranks, low, at, high);
    assert forall i :: 0 <= i < |low| ==> s[i] == low[i];
    assert forall i :: 0 <= i < |high| ==> s[|low| + 1 + i] == high[i];
    assert s[|low|] == at;
    forall q | q in multiset(low) ensures Less(ranks[q], ranks[at]) {
      var i :| 0 <= i < |low| && low[i] == q;
    }
    forall q | q in multiset(high) ensures Less(ranks[at], ranks[q]) {
      var i :| 0 <= i < |high| && high[i] == q;
    }
  }

  /** In a set in order it joins at its place. */
  lemma {:induction false} InsertKeepsOrder(t: Tree, ranks: Ranks, p: Pointer)
    requires Apart(ranks) && p in ranks && p !in multiset(InOrder(t)) && Ordered(ranks, InOrder(t))
    ensures Insert(t, ranks, p).Some? && Ordered(ranks, Insert(t, ranks, p).value)
  {
    hide Ordered, InMemory;
    match t
    case Leaf => OneInOrder(ranks, p);
    case Node(left, at, right) =>
      PartsInOrder(ranks, InOrder(left), at, InOrder(right));
      if Less(ranks[p], ranks[at]) {
        InsertKeepsOrder(left, ranks, p);
        InsertHolds(left, ranks, p);
        JoinInOrder(ranks, Insert(left, ranks, p).value, at, InOrder(right));
      } else {
        InsertKeepsOrder(right, ranks, p);
        InsertHolds(right, ranks, p);
        JoinInOrder(ranks, InOrder(left), at, Insert(right, ranks, p).value);
      }
  }

  lemma OneInOrder(ranks: Ranks, p: Pointer)
    requires p in ranks
    ensures Ordered(ranks, [p])
  {
  }

  lemma JoinInOrder(ranks: Ranks, low: seq<Pointer>, at: Pointer, high: seq<Pointer>)
    requires Ordered(ranks, low) && Ordered(ranks, high) && at in ranks
    requires forall q :: q in multiset(low) ==> q in ranks && Less(ranks[q], ranks[at])
    requires forall q :: q in multiset(high) ==> q in ranks && Less(ranks[at], ranks[q])
    ensures Ordered(ranks, low + [at] + high)
  {
    var s := low + [at] + high;
    forall i | 0 <= i < |low| ensures Less(ranks[low[i]], ranks[at]) {
      assert low[i] in multiset(low);
    }
    forall i | 0 <= i < |high| ensures Less(ranks[at], ranks[high[i]]) {
      assert high[i] in multiset(high);
    }
  }

  function Position(s: seq<Pointer>, p: Pointer): (i: nat)
    requires p in s
    ensures i < |s| && s[i] == p
  {
    if s[0] == p then 0 else 1 + Position(s[1..], p)
  }

  function Without(s: seq<Pointer>, p: Pointer): (r: seq<Pointer>)
    requires p in s
    ensures multiset(r) == multiset(s) - multiset{p}
  {
    var i := Position(s, p);
    assert s == s[..i] + [p] + s[i + 1..];
    s[..i] + s[i + 1..]
  }

  lemma WithoutKeepsOrder(ranks: Ranks, s: seq<Pointer>, p: Pointer)
    requires Ordered(ranks, s) && p in s
    ensures Ordered(ranks, Without(s, p))
  {
  }
}
