/** Finite directed graphs over names, walks in them, and reachability.
    A call graph, a condensed graph and a lock relation are all of this shape. */
module Graphs {

  /** An identifier taken from the analysed sources. */
  datatype Name = Name(text: string)

  type Graph<T> = map<T, set<T>>

  /** The successors of `v`; a node without an entry has none (`graph.get(v, ())`). */
  function Succ<T>(g: Graph<T>, v: T): set<T> {
    if v in g then g[v] else {}
  }

  lemma SuccUpdate<T>(g: Graph<T>, u: T, s: set<T>, v: T)
    ensures Succ(g[u := s], v) == if v == u then s else Succ(g, v)
  {
  }

  /** A non-empty sequence of nodes in which each one steps to the next. */
  ghost predicate IsWalk<T>(g: Graph<T>, p: seq<T>) {
    |p| > 0 && forall i :: 0 <= i < |p| - 1 ==> p[i + 1] in Succ(g, p[i])
  }

  ghost predicate IsWalkFrom<T>(g: Graph<T>, p: seq<T>, a: T, b: T) {
    IsWalk(g, p) && p[0] == a && p[|p| - 1] == b
  }

  ghost predicate Reach<T(!new)>(g: Graph<T>, a: T, b: T) {
    exists p :: IsWalkFrom(g, p, a, b)
  }

  /** Two nodes each reachable from the other. */
  ghost predicate Mutual<T(!new)>(g: Graph<T>, a: T, b: T) {
    Reach(g, a, b) && Reach(g, b, a)
  }

  /** No step of the graph leaves `s`. */
  ghost predicate Closed<T>(g: Graph<T>, s: set<T>) {
    forall v :: v in s ==> Succ(g, v) <= s
  }

  lemma ReachRefl<T(!new)>(g: Graph<T>, a: T)
    ensures Reach(g, a, a)
  {
    assert IsWalkFrom(g, [a], a, a);
  }

  lemma ReachStep<T(!new)>(g: Graph<T>, a: T, b: T)
    requires b in Succ(g, a)
    ensures Reach(g, a, b)
  {
    assert IsWalkFrom(g, [a, b], a, b);
  }

  lemma JoinWalks<T>(g: Graph<T>, p: seq<T>, q: seq<T>)
    requires IsWalk(g, p) && IsWalk(g, q) && p[|p| - 1] == q[0]
    ensures IsWalk(g, p[..|p| - 1] + q)
  {
  }

  lemma ReachTrans<T(!new)>(g: Graph<T>, a: T, b: T, c: T)
    requires Reach(g, a, b) && Reach(g, b, c)
    ensures Reach(g, a, c)
  {
    var p :| IsWalkFrom(g, p, a, b);
    var q :| IsWalkFrom(g, q, b, c);
    JoinWalks(g, p, q);
    assert IsWalkFrom(g, p[..|p| - 1] + q, a, c);
  }

  lemma Subwalk<T>(g: Graph<T>, p: seq<T>, i: nat, j: nat)
    requires IsWalk(g, p) && i < j <= |p|
    ensures IsWalk(g, p[i..j])
  {
    var q := p[i..j];
    forall n | 0 <= n < |q| - 1
      ensures q[n + 1] in Succ(g, q[n])
    {
      assert p[i + n + 1] in Succ(g, p[i + n]);
    }
  }

  /** A walk that starts inside a closed set never leaves it. */
  lemma {:induction false} WalkStaysIn<T>(g: Graph<T>, s: set<T>, p: seq<T>)
    requires Closed(g, s) && IsWalk(g, p) && p[0] in s
    ensures forall i :: 0 <= i < |p| ==> p[i] in s
  {
    if |p| > 1 {
      WalkStaysIn(g, s, p[..|p| - 1]);
      var q := p[..|p| - 1];
      assert q[|p| - 2] == p[|p| - 2];
      assert p[|p| - 2 + 1] in Succ(g, p[|p| - 2]);
    }
  }

  lemma ReachStaysIn<T(!new)>(g: Graph<T>, s: set<T>, a: T, b: T)
    requires Closed(g, s) && a in s && Reach(g, a, b)
    ensures b in s
  {
    var p :| IsWalkFrom(g, p, a, b);
    WalkStaysIn(g, s, p);
  }
}
