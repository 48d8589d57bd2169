/** The references of an address space by the ids they connect, and what deleting a node does to
    them. */
module ReferenceGraph {
  import opened NodeIds
  import opened Paths

  datatype Ref = Ref(kind: NodeId, source: NodeId, target: NodeId)

  datatype Space = Space(ids: set<NodeId>, refs: set<Ref>)

  ghost predicate Closed(s: Space) {
    forall r :: r in s.refs ==> r.kind in s.ids && r.source in s.ids && r.target in s.ids
  }

  predicate Touches(r: Ref, gone: set<NodeId>) {
    r.source in gone || r.target in gone
  }

  /** The space without the nodes `gone` and the references that touch them. */
  function Remaining(s: Space, gone: set<NodeId>): Space {
    Space(s.ids - gone, set r | r in s.refs && !Touches(r, gone))
  }

  function Supertypes(s: Space): Relation<NodeId> {
    map a | a in s.ids :: set b | b in s.ids && Ref(HAS_SUBTYPE, b, a) in s.refs
  }

  ghost predicate IsSubtype(s: Space, a: NodeId, b: NodeId) {
    Reaches(Supertypes(s), a, b)
  }

  ghost predicate IsChild(s: Space, a: NodeId, b: NodeId) {
    exists k :: Ref(k, a, b) in s.refs && IsSubtype(s, k, HIERARCHICAL_REFERENCES)
  }

  ghost function Children(s: Space): Relation<NodeId> {
    map a | a in s.ids :: set b | b in s.ids && IsChild(s, a, b)
  }

  /** The node and all below it. */
  ghost function Descendants(s: Space, id: NodeId): set<NodeId> {
    set d | d in s.ids && Reaches(Children(s), id, d)
  }

  // ---------------------------------------------------------------- when a node can be deleted

  /** No type of a reference in use, and no supertype of one, is among `gone`. */
  ghost predicate TypesStay(s: Space, gone: set<NodeId>) {
    forall r, d :: r in s.refs && d in gone ==> !IsSubtype(s, r.kind, d)
  }

  /** The supertype chain of each reference type in use ends. */
  ghost predicate TypesEnd(s: Space) {
    forall r :: r in s.refs ==> NoCyclesFrom(Supertypes(s), r.kind)
  }

  ghost predicate Deletable(s: Space, id: NodeId) {
    && NoCyclesFrom(Children(s), id)
    && TypesEnd(s)
    && TypesStay(s, Descendants(s, id))
  }

  /** A child stands before its parent, or was reported already. */
  ghost predicate ChildrenFirst(children: Relation<NodeId>, log: seq<NodeId>) {
    forall i, b :: 0 <= i < |log| && log[i] in children && b in children[log[i]] ==> b in log[..i]
  }

  // ---------------------------------------------------------------- what deletion keeps

  lemma RemainingTwice(s: Space, g: set<NodeId>, h: set<NodeId>)
    ensures Remaining(Remaining(s, g), h) == Remaining(s, g + h)
    ensures Remaining(s, g).ids == s.ids - g && Remaining(s, g + h).ids == s.ids - g - h
  {
  }

  lemma SupertypesNarrow(s: Space, gone: set<NodeId>)
    ensures Narrower(Supertypes(Remaining(s, gone)), Supertypes(s))
  {
  }

  /** Chains that avoid what goes are the same before and after. */
  lemma SubtypeStays(s: Space, gone: set<NodeId>, k: NodeId, t: NodeId)
    requires forall d :: d in gone ==> !IsSubtype(s, k, d)
    ensures IsSubtype(Remaining(s, gone), k, t) <==> IsSubtype(s, k, t)
  {
    var big, small := Supertypes(s), Supertypes(Remaining(s, gone));
    SupertypesNarrow(s, gone);
    if IsSubtype(s, k, t) {
      var p :| IsPath(big, p) && p[0] == k && p[|p| - 1] == t;
      forall i | 0 <= i < |p| ensures p[i] !in gone {
        assert IsPath(big, p[..i + 1]);
        assert IsSubtype(s, k, p[i]);
      }
      assert forall i :: 0 <= i < |p| - 1 ==> Ref(HAS_SUBTYPE, p[i + 1], p[i]) in s.refs;
      assert IsPath(small, p);
    }
    if IsSubtype(Remaining(s, gone), k, t) {
      ReachesInWider(small, big, k, t);
    }
  }

  lemma ChildrenStay(s: Space, gone: set<NodeId>, a: NodeId)
    requires TypesStay(s, gone) && a in s.ids && a !in gone
    ensures a in Children(Remaining(s, gone))
    ensures Children(Remaining(s, gone))[a] == Children(s)[a] - gone
  {
    var rest := Remaining(s, gone);
    forall b | b in s.ids && b !in gone ensures IsChild(rest, a, b) <==> IsChild(s, a, b) {
      if IsChild(s, a, b) {
        var k :| Ref(k, a, b) in s.refs && IsSubtype(s, k, HIERARCHICAL_REFERENCES);
        assert forall d :: d in gone ==> !IsSubtype(s, Ref(k, a, b).kind, d);
        SubtypeStays(s, gone, k, HIERARCHICAL_REFERENCES);
        assert Ref(k, a, b) in rest.refs;
      }
      if IsChild(rest, a, b) {
        var k :| Ref(k, a, b) in rest.refs && IsSubtype(rest, k, HIERARCHICAL_REFERENCES);
        assert forall d :: d in gone ==> !IsSubtype(s, Ref(k, a, b).kind, d);
        SubtypeStays(s, gone, k, HIERARCHICAL_REFERENCES);
      }
    }
  }

  lemma ChildrenNarrow(s: Space, gone: set<NodeId>)
    requires TypesStay(s, gone)
    ensures Narrower(Children(Remaining(s, gone)), Children(s))
  {
    forall a | a in Children(Remaining(s, gone))
      ensures Children(Remaining(s, gone))[a] <= Children(s)[a]
    {
      ChildrenStay(s, gone, a);
    }
  }

  lemma TypesEndStays(s: Space, gone: set<NodeId>)
    requires TypesEnd(s)
    ensures TypesEnd(Remaining(s, gone))
  {
    SupertypesNarrow(s, gone);
    forall r | r in Remaining(s, gone).refs ensures NoCyclesFrom(Supertypes(Remaining(s, gone)), r.kind) {
      NoCyclesInNarrower(Supertypes(Remaining(s, gone)), Supertypes(s), r.kind);
    }
  }

  // ---------------------------------------------------------------- deleting child by child

  /** Part-way through deleting `id`: whole subtrees below it are gone. */
  ghost predicate Below(s: Space, id: NodeId, gone: set<NodeId>) {
    && gone <= Descendants(s, id) - {id}
    && (forall a, b :: a in gone && a in s.ids && b in Children(s)[a] ==> b in gone)
  }

  /** What is left can be deleted from any child that is left. */
  lemma ChildDeletable(s: Space, id: NodeId, gone: set<NodeId>, child: NodeId)
    requires id in s.ids && Deletable(s, id) && Below(s, id, gone)
    requires child in Children(s)[id] - gone
    ensures Deletable(Remaining(s, gone), child)
    ensures Descendants(Remaining(s, gone), child) <= Descendants(s, child) < Descendants(s, id)
    ensures id !in Descendants(s, child)
  {
    var rest := Remaining(s, gone);
    ChildrenNarrow(s, gone);
    ReachesSelf(Children(s), child);
    ReachesSelf(Children(s), id);
    ReachesStep(Children(s), id, child, child);
    forall d | d in Descendants(s, child) ensures d in Descendants(s, id) {
      ReachesStep(Children(s), id, child, d);
    }
    assert id in Descendants(s, id) && id !in Descendants(s, child);
    forall d | d in Descendants(rest, child) ensures d in Descendants(s, child) {
      ReachesInWider(Children(rest), Children(s), child, d);
    }
    NoCyclesBelow(Children(s), id, child);
    NoCyclesInNarrower(Children(rest), Children(s), child);
    TypesEndStays(s, gone);
    SupertypesNarrow(s, gone);
    forall r, d | r in rest.refs && d in Descendants(rest, child) ensures !IsSubtype(rest, r.kind, d) {
      if IsSubtype(rest, r.kind, d) {
        ReachesInWider(Supertypes(rest), Supertypes(s), r.kind, d);
      }
    }
  }

  /** Deleting a child's subtree from what is left keeps the parent's deletion on its way. */
  lemma ChildDeleted(s: Space, id: NodeId, gone: set<NodeId>, child: NodeId)
    requires id in s.ids && Deletable(s, id) && Below(s, id, gone)
    requires child in Children(s)[id] - gone
    ensures Below(s, id, gone + Descendants(Remaining(s, gone), child))
  {
    var rest := Remaining(s, gone);
    ChildDeletable(s, id, gone, child);
    var more := Descendants(rest, child);
    forall a, b | a in more && b in Children(s)[a] ensures b in gone + more {
      ChildrenStay(s, gone, a);
      if b !in gone {
        assert b in Children(rest)[a];
        assert b in rest.ids;
        ReachesEnd(Children(rest), child, a, b);
      }
    }
  }

  /** With no child left, all that is below is gone. */
  lemma NoChildLeft(s: Space, id: NodeId, gone: set<NodeId>)
    requires id in s.ids && Below(s, id, gone) && Children(s)[id] - gone == {}
    ensures Descendants(s, id) == gone + {id} && Children(s)[id] <= gone
  {
    forall b | b in Children(s)[id] ensures b in gone {
      assert b !in Children(s)[id] - gone;
    }
    forall d | d in Descendants(s, id) ensures d in gone + {id} {
      ClosedContainsReachable(Children(s), gone + {id}, id, d);
    }
    ReachesSelf(Children(s), id);
  }

  /** The reports of successive subtrees join into one. */
  lemma ChildrenFirstJoin(s: Space, gone: set<NodeId>, log: seq<NodeId>, more: seq<NodeId>)
    requires TypesStay(s, gone) && Elements(log) == gone
    requires ChildrenFirst(Children(s), log) && ChildrenFirst(Children(Remaining(s, gone)), more)
    requires Elements(more) <= s.ids - gone
    ensures ChildrenFirst(Children(s), log + more)
  {
    var all := log + more;
    forall i, b | 0 <= i < |all| && all[i] in Children(s) && b in Children(s)[all[i]] ensures b in all[..i] {
      if i < |log| {
        assert all[..i] == log[..i];
      } else {
        var k := i - |log|;
        assert all[..i] == log + more[..k];
        assert all[i] == more[k] && more[k] in Elements(more);
        ChildrenStay(s, gone, more[k]);
        if b in gone {
          assert b in Elements(log);
        }
      }
    }
  }

  lemma ChildrenFirstEnd(children: Relation<NodeId>, log: seq<NodeId>, id: NodeId)
    requires ChildrenFirst(children, log) && id in children && children[id] <= Elements(log)
    ensures ChildrenFirst(children, log + [id])
  {
    var all := log + [id];
    forall i, b | 0 <= i < |all| && all[i] in children && b in children[all[i]] ensures b in all[..i] {
      if i < |log| {
        assert all[..i] == log[..i];
      } else {
        assert all[..i] == log && b in Elements(log);
      }
    }
  }

  /** `log` names `gone` and nothing else, each once and children before parents. */
  ghost predicate Reported(s: Space, log: seq<NodeId>, gone: set<NodeId>) {
    Distinct(log) && Elements(log) == gone && ChildrenFirst(Children(s), log)
  }

  lemma DistinctJoin(a: seq<NodeId>, b: seq<NodeId>)
    requires Distinct(a) && Distinct(b) && Elements(a) !! Elements(b)
    ensures Distinct(a + b) && Elements(a + b) == Elements(a) + Elements(b)
  {
    forall i, j | 0 <= i < |a| && 0 <= j < |b| ensures a[i] != b[j] {
      assert a[i] in Elements(a) && b[j] in Elements(b);
    }
    forall x | x in Elements(a) + Elements(b) ensures x in a + b {
      assert x in a || x in b;
    }
  }

  lemma ReportedJoin(s: Space, log: seq<NodeId>, gone: set<NodeId>, more: seq<NodeId>, also: set<NodeId>)
    requires TypesStay(s, gone) && also <= s.ids - gone
    requires Reported(s, log, gone) && Reported(Remaining(s, gone), more, also)
    ensures Reported(s, log + more, gone + also)
  {
    ChildrenFirstJoin(s, gone, log, more);
    DistinctJoin(log, more);
  }

  lemma ReportedEnd(s: Space, log: seq<NodeId>, gone: set<NodeId>, id: NodeId)
    requires Reported(s, log, gone) && id in s.ids && id !in gone && Children(s)[id] <= gone
    ensures Reported(s, log + [id], gone + {id})
  {
    ChildrenFirstEnd(Children(s), log, id);
    DistinctJoin(log, [id]);
  }

  /** The types of the references in use outlast the deletion. */
  lemma KindsStay(s: Space, id: NodeId)
    requires id in s.ids && Deletable(s, id) && Closed(s)
    ensures forall r :: r in Remaining(s, Descendants(s, id)).refs ==> r.kind != id && !Touches(r, {id})
  {
    ReachesSelf(Children(s), id);
    forall r | r in s.refs ensures r.kind !in Descendants(s, id) {
      ReachesSelf(Supertypes(s), r.kind);
    }
  }

  lemma NothingReported(s: Space)
    ensures Reported(s, [], {}) && Remaining(s, {}) == s
  {
  }

  lemma StartsBelow(s: Space, id: NodeId)
    ensures Below(s, id, {}) && Reported(s, [], {}) && Remaining(s, {}) == s
  {
    NothingReported(s);
  }

  lemma BelowEnds(s: Space, id: NodeId, gone: set<NodeId>)
    requires id in s.ids && Deletable(s, id) && Below(s, id, gone)
    ensures id !in gone && gone <= s.ids && TypesStay(s, gone) && TypesEnd(Remaining(s, gone))
    ensures id in Children(s) && id in Children(Remaining(s, gone))
    ensures Children(Remaining(s, gone))[id] == Children(s)[id] - gone
  {
    TypesEndStays(s, gone);
    ChildrenStay(s, gone, id);
  }

  lemma DeletableChild(s: Space, id: NodeId, gone: set<NodeId>, child: NodeId) returns (also: set<NodeId>)
    requires id in s.ids && Deletable(s, id) && Below(s, id, gone) && child in Children(s)[id] - gone
    ensures also == Descendants(Remaining(s, gone), child) && Deletable(Remaining(s, gone), child)
    ensures also < Descendants(s, id) && Below(s, id, gone + also) && also <= s.ids - gone && child in also
  {
    ChildDeletable(s, id, gone, child);
    ChildDeleted(s, id, gone, child);
    also := Descendants(Remaining(s, gone), child);
    ReachesSelf(Children(Remaining(s, gone)), child);
  }

  // ---------------------------------------------------------------- cycles of children

  /** The nodes that lie between the node and itself. */
  ghost function OnCycle(s: Space, id: NodeId): set<NodeId> {
    set d | d in Descendants(s, id) && Reaches(Children(s), d, id)
  }

  /** A node goes only when no child of it is left; on a cycle that never comes, whatever else goes:
      each of its nodes keeps a child that is on the cycle too. */
  lemma CycleKeepsChildren(s: Space, id: NodeId, child: NodeId, gone: set<NodeId>, on: NodeId)
    requires id in s.ids && child in Children(s)[id] && Reaches(Children(s), child, id)
    requires TypesStay(s, gone) && gone !! OnCycle(s, id) && on in OnCycle(s, id)
    ensures on in Children(Remaining(s, gone))
    ensures Children(Remaining(s, gone))[on] * OnCycle(s, id) != {}
  {
    var below := Children(s);
    var next := child;
    if on != id {
      ReachesFirst(below, on, id);
      next :| next in below[on] && Reaches(below, next, id);
    }
    ReachesSelf(below, id);
    ReachesEnd(below, id, on, next);
    ChildrenStay(s, gone, on);
    assert next in Children(Remaining(s, gone))[on] * OnCycle(s, id);
  }

  /** The deletion of a node ends in `t` within so many steps, whichever child it takes each time. */
  ghost predicate Deletes(s: Space, id: NodeId, steps: nat, t: Space)
    decreases steps
  {
    && steps > 0
    && if id !in s.ids then t == s
       else if Children(s)[id] == {} then t == Remaining(s, {id})
       else exists child, mid :: child in Children(s)[id] && DeletesChild(s, id, steps, child, mid, t)
  }

  ghost predicate DeletesChild(s: Space, id: NodeId, steps: nat, child: NodeId, mid: Space, t: Space)
    requires steps > 0
    decreases steps, 0
  {
    Deletes(s, child, steps - 1, mid) && Deletes(mid, id, steps - 1, t)
  }

  /** What a deletion below the node can take from it leaves the cycle alone. */
  ghost predicate Spares(s: Space, id: NodeId, gone: set<NodeId>) {
    gone <= Descendants(s, id) - OnCycle(s, id)
  }

  /** No node of a cycle is ever deleted, whatever is deleted below it. */
  lemma {:induction false} CycleIsSpared(s: Space, id: NodeId, child: NodeId, gone: set<NodeId>, at: NodeId,
                                         steps: nat, t: Space) returns (later: set<NodeId>)
    requires id in s.ids && child in Children(s)[id] && Reaches(Children(s), child, id)
    requires TypesStay(s, Descendants(s, id)) && Spares(s, id, gone) && at in Descendants(s, id)
    requires Deletes(Remaining(s, gone), at, steps, t)
    ensures at !in OnCycle(s, id) && Spares(s, id, later) && t == Remaining(s, later)
    decreases steps
  {
    hide Children, Descendants, OnCycle, TypesStay;
    var here := Remaining(s, gone);
    TypesStayFewer(s, Descendants(s, id), gone);
    later := gone;
    if at in here.ids {
      ChildrenStay(s, gone, at);
      if Children(here)[at] == {} {
        NotOnCycle(s, id, child, gone, at);
        later := gone + {at};
        RemainingTwice(s, gone, {at});
      } else {
        var next, mid :| next in Children(here)[at] && DeletesChild(here, at, steps, next, mid, t);
        BelowToo(s, id, at, next);
        var between := CycleIsSpared(s, id, child, gone, next, steps - 1, mid);
        later := CycleIsSpared(s, id, child, between, at, steps - 1, t);
      }
    } else {
      GoneIsSpared(s, id, gone, at);
    }
  }

  lemma TypesStayFewer(s: Space, all: set<NodeId>, gone: set<NodeId>)
    requires TypesStay(s, all) && gone <= all
    ensures TypesStay(s, gone)
  {
  }

  lemma NotOnCycle(s: Space, id: NodeId, child: NodeId, gone: set<NodeId>, at: NodeId)
    requires id in s.ids && child in Children(s)[id] && Reaches(Children(s), child, id)
    requires TypesStay(s, gone) && Spares(s, id, gone) && at in Remaining(s, gone).ids
    requires Children(Remaining(s, gone))[at] == {}
    ensures at !in OnCycle(s, id)
  {
    if at in OnCycle(s, id) {
      CycleKeepsChildren(s, id, child, gone, at);
    }
  }

  lemma BelowToo(s: Space, id: NodeId, at: NodeId, next: NodeId)
    requires at in Descendants(s, id) && next in Children(s)[at]
    ensures next in Descendants(s, id)
  {
    ReachesEnd(Children(s), id, at, next);
  }

  lemma GoneIsSpared(s: Space, id: NodeId, gone: set<NodeId>, at: NodeId)
    requires Spares(s, id, gone) && at in Descendants(s, id) && at !in Remaining(s, gone).ids
    ensures at !in OnCycle(s, id)
  {
  }

  /** The deletion of a node on a cycle of children ends within no number of steps. */
  lemma CycleNeverEnds(s: Space, id: NodeId, child: NodeId, steps: nat, t: Space)
    requires id in s.ids && child in Children(s)[id] && Reaches(Children(s), child, id)
    requires TypesStay(s, Descendants(s, id))
    ensures !Deletes(s, id, steps, t)
  {
    if Deletes(s, id, steps, t) {
      ReachesSelf(Children(s), id);
      NothingReported(s);
      var later := CycleIsSpared(s, id, child, {}, id, steps, t);
    }
  }

  /** Two nodes that are each other's children. */
  lemma TwoNodesNeverEnd(a: NodeId, b: NodeId, steps: nat, t: Space)
    requires a != b && a != HIERARCHICAL_REFERENCES && b != HIERARCHICAL_REFERENCES
    ensures var k := HIERARCHICAL_REFERENCES;
      !Deletes(Space({a, b, k}, {Ref(k, a, b), Ref(k, b, a)}), a, steps, t)
  {
    var k := HIERARCHICAL_REFERENCES;
    var s := Space({a, b, k}, {Ref(k, a, b), Ref(k, b, a)});
    ReachesSelf(Supertypes(s), k);
    assert IsChild(s, a, b) && IsChild(s, b, a);
    ReachesSelf(Children(s), a);
    ReachesStep(Children(s), b, a, a);
    forall d | d in Descendants(s, a) ensures !IsSubtype(s, k, d) {
      OnlyTwoBelow(s, a, b, d);
      if IsSubtype(s, k, d) {
        ClosedContainsReachable(Supertypes(s), {k}, k, d);
      }
    }
    CycleNeverEnds(s, a, b, steps, t);
  }

  lemma OnlyTwoBelow(s: Space, a: NodeId, b: NodeId, d: NodeId)
    requires s.refs == {Ref(HIERARCHICAL_REFERENCES, a, b), Ref(HIERARCHICAL_REFERENCES, b, a)}
    requires d in Descendants(s, a)
    ensures d in {a, b}
  {
    ClosedContainsReachable(Children(s), {a, b}, a, d);
  }

  // ---------------------------------------------------------------- neighbours

  /** A reference connects the two, in either direction. */
  ghost predicate Linked(s: Space, a: NodeId, b: NodeId) {
    exists k :: Ref(k, a, b) in s.refs || Ref(k, b, a) in s.refs
  }

  ghost function Neighbours(s: Space): Relation<NodeId> {
    map a | a in s.ids :: set b | b in s.ids && Linked(s, a, b)
  }

  lemma NeighboursMutual(s: Space, a: NodeId, b: NodeId)
    requires a in s.ids && b in Neighbours(s)[a]
    ensures b in s.ids && a in Neighbours(s)[b] && Neighbours(s)[b] != {}
  {
    assert Linked(s, b, a);
  }
}
