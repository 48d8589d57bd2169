/** Paths and reachability in a finite relation, shared by the dependency graph of the fetcher, the
    hierarchical sort and the address space. */
module Paths {
  predicate Distinct<T(==)>(s: seq<T>) {
    forall i, j :: 0 <= i < j < |s| ==> s[i] != s[j]
  }

  function Elements<T>(s: seq<T>): set<T> {
    set x | x in s
  }

  lemma ElementsStep<T>(s: seq<T>, i: nat)
    requires i < |s|
    ensures Elements(s[..i + 1]) == Elements(s[..i]) + {s[i]}
  {
    assert s[..i + 1] == s[..i] + [s[i]];
  }

  /** To each element, those it leads to in one step. */
  type Relation<T(==)> = map<T, set<T>>

  ghost predicate IsPath<T>(deps: Relation<T>, p: seq<T>) {
    && p != []
    && (forall i :: 0 <= i < |p| ==> p[i] in deps)
    && (forall i :: 0 <= i < |p| - 1 ==> p[i + 1] in deps[p[i]])
  }

  ghost predicate Reaches<T(!new)>(deps: Relation<T>, a: T, b: T) {
    exists p :: IsPath(deps, p) && p[0] == a && p[|p| - 1] == b
  }

  lemma ReachesSelf<T(!new)>(deps: Relation<T>, a: T)
    requires a in deps
    ensures Reaches(deps, a, a)
  {
    assert IsPath(deps, [a]);
  }

  lemma ReachesStep<T(!new)>(deps: Relation<T>, a: T, b: T, c: T)
    requires a in deps && b in deps[a] && Reaches(deps, b, c)
    ensures Reaches(deps, a, c)
  {
    var p :| IsPath(deps, p) && p[0] == b && p[|p| - 1] == c;
    var q := [a] + p;
    assert forall i :: 0 <= i < |q| - 1 ==> q[i + 1] in deps[q[i]] by {
      forall i | 0 <= i < |q| - 1 ensures q[i + 1] in deps[q[i]] {
        if i > 0 { assert q[i] == p[i - 1] && q[i + 1] == p[i]; }
      }
    }
    assert IsPath(deps, q);
  }

  lemma ReachesEnd<T(!new)>(deps: Relation<T>, a: T, b: T, c: T)
    requires Reaches(deps, a, b) && b in deps && c in deps[b] && c in deps
    ensures Reaches(deps, a, c)
  {
    var p :| IsPath(deps, p) && p[0] == a && p[|p| - 1] == b;
    assert IsPath(deps, p + [c]);
  }

  lemma ReachesThrough<T(!new)>(deps: Relation<T>, a: T, b: T, c: T)
    requires Reaches(deps, a, b) && Reaches(deps, b, c)
    ensures Reaches(deps, a, c)
  {
    var p :| IsPath(deps, p) && p[0] == a && p[|p| - 1] == b;
    var i := |p| - 1;
    while i > 0
      invariant 0 <= i < |p| && Reaches(deps, p[i], c)
    {
      i := i - 1;
      ReachesStep(deps, p[i], p[i + 1], c);
    }
  }

  /** Every one in `seen` was left towards `at`. */
  ghost predicate Left<T(!new)>(deps: Relation<T>, seen: set<T>, at: T) {
    forall v :: v in seen ==> v in deps && exists w :: w in deps[v] && Reaches(deps, w, at)
  }

  lemma LeftFurther<T(!new)>(deps: Relation<T>, seen: set<T>, at: T, next: T)
    requires Left(deps, seen, at) && at in deps && next in deps[at] && next in deps
    ensures Left(deps, seen + {at}, next)
  {
    ReachesSelf(deps, next);
    forall v | v in seen ensures exists w :: w in deps[v] && Reaches(deps, w, next) {
      var w :| w in deps[v] && Reaches(deps, w, at);
      ReachesEnd(deps, w, at, next);
    }
  }

  /** Without cycles a walk comes to no place it has left. */
  lemma LeftForGood<T(!new)>(deps: Relation<T>, root: T, seen: set<T>, at: T)
    requires NoCyclesFrom(deps, root) && Reaches(deps, root, at) && Left(deps, seen, at)
    ensures at !in seen
  {
  }

  lemma ReachesFirst<T(!new)>(deps: Relation<T>, a: T, c: T)
    requires Reaches(deps, a, c) && a != c
    ensures a in deps && exists b :: b in deps[a] && Reaches(deps, b, c)
  {
    var p :| IsPath(deps, p) && p[0] == a && p[|p| - 1] == c;
    assert IsPath(deps, p[1..]);
    assert p[1] in deps[a] && Reaches(deps, p[1], c);
  }

  ghost predicate Narrower<T(!new)>(small: Relation<T>, big: Relation<T>) {
    forall a :: a in small ==> a in big && small[a] <= big[a]
  }

  lemma ReachesInWider<T(!new)>(small: Relation<T>, big: Relation<T>, a: T, b: T)
    requires Narrower(small, big) && Reaches(small, a, b)
    ensures Reaches(big, a, b)
  {
    var p :| IsPath(small, p) && p[0] == a && p[|p| - 1] == b;
    assert IsPath(big, p);
  }

  /** From `root` no path returns to a place it has left. */
  ghost predicate NoCyclesFrom<T(!new)>(deps: Relation<T>, root: T) {
    forall a, b :: Reaches(deps, root, a) && a in deps && b in deps[a] ==> !Reaches(deps, b, a)
  }

  lemma NoCyclesBelow<T(!new)>(deps: Relation<T>, root: T, below: T)
    requires NoCyclesFrom(deps, root) && Reaches(deps, root, below)
    ensures NoCyclesFrom(deps, below)
  {
    forall a, b | Reaches(deps, below, a) && a in deps && b in deps[a] ensures !Reaches(deps, b, a) {
      ReachesThrough(deps, root, below, a);
    }
  }

  lemma NoCyclesInNarrower<T(!new)>(small: Relation<T>, big: Relation<T>, root: T)
    requires Narrower(small, big) && NoCyclesFrom(big, root)
    ensures NoCyclesFrom(small, root)
  {
    forall a, b | Reaches(small, root, a) && a in small && b in small[a] ensures !Reaches(small, b, a) {
      ReachesInWider(small, big, root, a);
      if Reaches(small, b, a) {
        ReachesInWider(small, big, b, a);
      }
    }
  }

  /** A set closed under dependencies contains all that its members reach. */
  lemma ClosedContainsReachable<T(!new)>(deps: Relation<T>, s: set<T>, a: T, b: T)
    requires a in s
    requires forall x, y :: x in s && x in deps && y in deps[x] ==> y in s
    requires Reaches(deps, a, b)
    ensures b in s
  {
    var p :| IsPath(deps, p) && p[0] == a && p[|p| - 1] == b;
    var i := 0;
    while i < |p| - 1
      invariant 0 <= i < |p| && p[i] in s
    {
      i := i + 1;
    }
  }
}
