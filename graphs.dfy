/**
 * Reachability over a finite directed graph given by its set of edges.
 * The worklist searches of the model (breadth-first iteration over the
 * query dependency graph, the traversal that finds references to a
 * function name, the cycle search of the query graph) are specified
 * against these definitions.
 */
module Graphs {

  /** `p` is a walk from `a` to `b` whose consecutive elements are joined by edges of `E`. */
  ghost predicate IsWalk<T>(E: set<(T, T)>, a: T, older p: seq<T>, b: T)
    decreases |p|
  {
    if |p| == 1 then p[0] == a && a == b
    else |p| > 1 && p[0] == a && (a, p[1]) in E && IsWalk(E, p[1], p[1..], b)
  }

  /** `b` can be reached from `a` by zero or more edges of `E`. */
  ghost predicate Reachable<T>(E: set<(T, T)>, a: T, b: T) {
    exists p :: IsWalk(E, a, p, b)
  }

  /** No edge of `E` leaves the set `S`. */
  ghost predicate ClosedUnder<T>(E: set<(T, T)>, S: set<T>) {
    forall e :: e in E && e.0 in S ==> e.1 in S
  }

  lemma ReachableRefl<T>(E: set<(T, T)>, a: T)
    ensures Reachable(E, a, a)
  {
    assert IsWalk(E, a, [a], a);
  }

  /** A walk to `b` followed by the edge `(b, c)` is a walk to `c`. */
  lemma {:induction false} WalkAppend<T>(E: set<(T, T)>, a: T, p: seq<T>, b: T, c: T)
    requires IsWalk(E, a, p, b) && (b, c) in E
    ensures IsWalk(E, a, p + [c], c)
    decreases |p|
  {
    if |p| == 1 {
      assert p + [c] == [a, c];
      assert [a, c][1..] == [c];
      assert IsWalk(E, c, [c], c);
    } else {
      WalkAppend(E, p[1], p[1..], b, c);
      assert (p + [c])[1..] == p[1..] + [c];
    }
  }

  /** Extending a walk by one edge reaches the edge's target. */
  lemma ReachableStep<T>(E: set<(T, T)>, a: T, b: T, c: T)
    requires Reachable(E, a, b) && (b, c) in E
    ensures Reachable(E, a, c)
  {
    var p :| IsWalk(E, a, p, b);
    WalkAppend(E, a, p, b, c);
  }

  /** The end of a walk that starts in a closed set lies in that set. */
  lemma {:induction false} WalkStaysInClosedSet<T>(E: set<(T, T)>, S: set<T>, a: T, p: seq<T>, b: T)
    requires IsWalk(E, a, p, b) && a in S && ClosedUnder(E, S)
    ensures b in S
    decreases |p|
  {
    if |p| > 1 {
      assert (a, p[1]) in E && (a, p[1]).0 == a;
      WalkStaysInClosedSet(E, S, p[1], p[1..], b);
    }
  }

  /** A set that holds `a` and is closed under `E` holds everything reachable from `a`. */
  lemma ClosedSetContainsReachable<T>(E: set<(T, T)>, S: set<T>, a: T, b: T)
    requires a in S && ClosedUnder(E, S) && Reachable(E, a, b)
    ensures b in S
  {
    var p :| IsWalk(E, a, p, b);
    WalkStaysInClosedSet(E, S, a, p, b);
  }

  /** Adding an unseen vertex to the seen set shrinks the unseen part. */
  lemma CardinalityDrops<T>(all: set<T>, seen: set<T>, s: T)
    requires s in all && s !in seen
    ensures |all - (seen + {s})| < |all - seen|
  {
    var rest := all - (seen + {s});
    assert all - seen == rest + {s} && s !in rest;
  }

  /** Growing the seen set never grows the unseen part. */
  lemma SubsetCardinality<T>(all: set<T>, small: set<T>, big: set<T>)
    requires small <= big
    ensures |all - big| <= |all - small|
  {
    assert all - big <= all - small;
    SubsetSize(all - big, all - small);
  }

  lemma {:induction false} SubsetSize<T>(a: set<T>, b: set<T>)
    requires a <= b
    ensures |a| <= |b|
    decreases |b|
  {
    if a != {} {
      var x :| x in a;
      SubsetSize(a - {x}, b - {x});
    }
  }
}
