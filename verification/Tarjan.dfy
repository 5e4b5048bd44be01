/** Strongly connected components of a call graph: the `longest` function of
    tools/check_stack_budget.py, a recursive walk that shares a counter, a stack,
    an on-stack set and two dictionaries between its activations. */
module Tarjan {
  import opened Graphs

  /** The walk's shared variables, except `low`, as one value. */
  datatype State = State(
    index: nat,
    stack: seq<Name>,
    on: set<Name>,
    idx: map<Name, nat>,
    compOf: map<Name, nat>,
    comps: seq<seq<Name>>)

  /** `comps` and `compOf` describe the same partition of the numbered components. */
  ghost predicate Partition(compOf: map<Name, nat>, comps: seq<seq<Name>>) {
    && (forall v :: v in compOf ==> compOf[v] < |comps| && v in comps[compOf[v]])
    && (forall c, i {:trigger comps[c][i]} :: 0 <= c < |comps| && 0 <= i < |comps[c]| ==>
          comps[c][i] in compOf && compOf[comps[c][i]] == c)
    && (forall c {:trigger comps[c]} :: 0 <= c < |comps| ==> comps[c] != [] && Distinct(comps[c]))
  }

  /** Every edge out of a component stays in it or goes to a lower number. */
  ghost predicate Descending(g: Graph<Name>, compOf: map<Name, nat>) {
    forall v, w {:trigger w in Succ(g, v)} :: v in compOf && w in Succ(g, v) ==>
      w in compOf && compOf[w] <= compOf[v]
  }

  /** Two nodes share a component exactly when each reaches the other. */
  ghost predicate Classes(g: Graph<Name>, compOf: map<Name, nat>) {
    forall v, w {:trigger Mutual(g, v, w)} {:trigger compOf[v], compOf[w]} ::
      v in compOf && w in compOf ==> (compOf[v] == compOf[w] <==> Mutual(g, v, w))
  }

  ghost predicate Components(g: Graph<Name>, compOf: map<Name, nat>, comps: seq<seq<Name>>) {
    Partition(compOf, comps) && Descending(g, compOf) && Classes(g, compOf)
  }

  ghost predicate Distinct<T>(s: seq<T>) {
    forall i, j :: 0 <= i < j < |s| ==> s[i] != s[j]
  }

  /** Numbered nodes are on the stack or in a component, never both. */
  ghost predicate Books(s: State) {
    && s.idx.Keys == s.on + s.compOf.Keys
    && s.on !! s.compOf.Keys
    && (forall v :: v in s.idx ==> s.idx[v] < s.index)
  }

  /** The stack holds exactly the nodes of `on`, ordered by number. */
  ghost predicate Stacked(s: State)
    requires s.on <= s.idx.Keys
  {
    && (forall v :: v in s.on <==> v in s.stack)
    && (forall i, j :: 0 <= i < j < |s.stack| ==> s.idx[s.stack[i]] < s.idx[s.stack[j]])
  }

  ghost predicate Shape(nodes: set<Name>, s: State) {
    s.idx.Keys <= nodes && Books(s) && Stacked(s)
  }

  /** Every numbered node whose activation is closed has only numbered successors. */
  ghost predicate Explored(g: Graph<Name>, s: State, gray: set<Name>) {
    forall v, w {:trigger w in Succ(g, v)} :: v in s.idx && v !in gray && w in Succ(g, v) ==> w in s.idx
  }

  /** An older node on the stack reaches every younger one. */
  ghost predicate Ordered(g: Graph<Name>, s: State)
    requires s.on <= s.idx.Keys
  {
    forall x, y {:trigger Reach(g, x, y)} :: x in s.on && y in s.on && s.idx[x] <= s.idx[y] ==> Reach(g, x, y)
  }

  /** Every node on the stack reaches one whose activation is still open and that is
      no younger. */
  ghost predicate Anchored(g: Graph<Name>, s: State, gray: set<Name>)
    requires s.on <= s.idx.Keys
  {
    forall y {:trigger AnchoredIn(g, s, gray, y)} :: y in s.on ==> AnchoredIn(g, s, gray, y)
  }

  /** The nodes of an unfinished component; `gray` are those whose activation is open. */
  ghost predicate Pending(g: Graph<Name>, s: State, gray: set<Name>) {
    gray <= s.on <= s.idx.Keys && Explored(g, s, gray) && Ordered(g, s) && Anchored(g, s, gray)
  }

  ghost predicate AnchoredIn(g: Graph<Name>, s: State, gray: set<Name>, y: Name)
    requires y in s.idx
  {
    exists x :: x in gray && x in s.idx && s.idx[x] <= s.idx[y] && Reach(g, y, x)
  }

  ghost predicate Inv(g: Graph<Name>, nodes: set<Name>, s: State, gray: set<Name>) {
    Shape(nodes, s) && Pending(g, s, gray) && Components(g, s.compOf, s.comps)
  }

  /** What one activation leaves alone: everything numbered before it stays as it was. */
  ghost predicate Grows(s: State, t: State) {
    && s.index <= t.index
    && s.on <= t.on
    && (forall v :: v in s.idx ==> v in t.idx && t.idx[v] == s.idx[v])
    && (forall v :: v in t.idx && v !in s.idx ==> s.index <= t.idx[v])
    && (forall v :: v in s.compOf ==> v in t.compOf && t.compOf[v] == s.compOf[v])
  }

  ghost predicate Extends(s: State, t: State) {
    s.stack <= t.stack && Grows(s, t)
  }

  /** `n` is at most the number of every older stacked node that an edge leaves the
      nodes numbered from `v` on for; of `v`'s own edges only those in `done` count. */
  ghost predicate LowBound(g: Graph<Name>, s: State, v: Name, done: set<Name>, n: nat)
    requires v in s.idx && s.on <= s.idx.Keys
  {
    forall x, y :: x in s.on && s.idx[v] <= s.idx[x] && y in Succ(g, x) && y in s.on &&
                   s.idx[y] < s.idx[v] && (x == v ==> y in done)
                   ==> n <= s.idx[y]
  }

  /** `n` is the number of a stacked node that `v` reaches. */
  ghost predicate LowWitness(g: Graph<Name>, s: State, v: Name, n: nat) {
    exists y :: y in s.on && y in s.idx && s.idx[y] == n && Reach(g, v, y)
  }

  function Pushed(s: State, v: Name): State {
    s.(index := s.index + 1, stack := s.stack + [v], on := s.on + {v}, idx := s.idx[v := s.index])
  }

  lemma PushKeepsShape(nodes: set<Name>, s: State, v: Name)
    requires Shape(nodes, s) && v in nodes && v !in s.idx
    ensures Shape(nodes, Pushed(s, v)) && Extends(s, Pushed(s, v))
  {
  }

  lemma StackReaches(g: Graph<Name>, s: State, gray: set<Name>, v: Name)
    requires Pending(g, s, gray)
    requires forall x :: x in gray ==> Reach(g, x, v)
    ensures forall x :: x in s.on ==> Reach(g, x, v)
  {
    forall x | x in s.on
      ensures Reach(g, x, v)
    {
      assert AnchoredIn(g, s, gray, x);
      var a :| a in gray && a in s.idx && s.idx[a] <= s.idx[x] && Reach(g, x, a);
      ReachTrans(g, x, a, v);
    }
  }

  lemma PushKeepsOrder(g: Graph<Name>, s: State, v: Name)
    requires s.on <= s.idx.Keys && Ordered(g, s) && v !in s.idx
    requires forall x :: x in s.idx ==> s.idx[x] < s.index
    requires forall x :: x in s.on ==> Reach(g, x, v)
    ensures Pushed(s, v).on <= Pushed(s, v).idx.Keys && Ordered(g, Pushed(s, v))
  {
    ReachRefl(g, v);
  }

  lemma PushKeepsAnchors(g: Graph<Name>, s: State, gray: set<Name>, v: Name)
    requires s.on <= s.idx.Keys && Anchored(g, s, gray) && v !in s.idx
    ensures Pushed(s, v).on <= Pushed(s, v).idx.Keys && Anchored(g, Pushed(s, v), gray + {v})
  {
    var t := Pushed(s, v);
    ReachRefl(g, v);
    forall y | y in t.on
      ensures AnchoredIn(g, t, gray + {v}, y)
    {
      if y != v {
        assert AnchoredIn(g, s, gray, y);
        var a :| a in gray && a in s.idx && s.idx[a] <= s.idx[y] && Reach(g, y, a);
        assert a in gray + {v} && t.idx[a] <= t.idx[y];
      } else {
        assert v in gray + {v} && t.idx[v] <= t.idx[v];
      }
    }
  }

  lemma PushKeepsPending(g: Graph<Name>, s: State, gray: set<Name>, v: Name)
    requires Pending(g, s, gray) && v !in s.idx
    requires forall x :: x in s.idx ==> s.idx[x] < s.index
    requires forall x :: x in s.on ==> Reach(g, x, v)
    ensures Pending(g, Pushed(s, v), gray + {v})
  {
    PushKeepsOrder(g, s, v);
    PushKeepsAnchors(g, s, gray, v);
  }

  /** The nodes on the stack from position `base` up, in the order they are popped. */
  function Segment(stack: seq<Name>, base: nat): seq<Name>
    requires base <= |stack|
  {
    seq(|stack| - base, i requires 0 <= i < |stack| - base => stack[|stack| - 1 - i])
  }

  function Numbered(compOf: map<Name, nat>, comp: seq<Name>, cid: nat): map<Name, nat> {
    map v | v in compOf.Keys + Elements(comp) :: if v in comp then cid else compOf[v]
  }

  lemma NumberedNone(compOf: map<Name, nat>, cid: nat)
    ensures Numbered(compOf, [], cid) == compOf
  {
    assert compOf.Keys + Elements<Name>([]) == compOf.Keys;
  }

  lemma NumberedNext(compOf: map<Name, nat>, comp: seq<Name>, i: nat, cid: nat)
    requires i < |comp|
    ensures Numbered(compOf, comp[..i + 1], cid) == Numbered(compOf, comp[..i], cid)[comp[i] := cid]
  {
    assert comp[..i + 1] == comp[..i] + [comp[i]];
  }

  function Elements<T>(s: seq<T>): set<T> {
    set x | x in s
  }

  /** The state after the component from position `base` up is taken off the stack. */
  function Popped(s: State, base: nat): State
    requires base <= |s.stack|
  {
    var comp := Segment(s.stack, base);
    s.(stack := s.stack[..base], on := s.on - Elements(comp),
       compOf := Numbered(s.compOf, comp, |s.comps|), comps := s.comps + [comp])
  }

  lemma SegmentDistinct(nodes: set<Name>, s: State, base: nat)
    requires Shape(nodes, s) && base <= |s.stack|
    ensures Distinct(Segment(s.stack, base))
  {
    var comp := Segment(s.stack, base);
    forall i, j | 0 <= i < j < |comp|
      ensures comp[i] != comp[j]
    {
      assert s.idx[s.stack[|s.stack| - 1 - j]] < s.idx[s.stack[|s.stack| - 1 - i]];
    }
  }

  lemma SegmentMember(nodes: set<Name>, s: State, base: nat, i: nat)
    requires Shape(nodes, s) && base < |s.stack| && i < |s.stack|
    ensures s.stack[i] in Segment(s.stack, base) <==> s.idx[s.stack[base]] <= s.idx[s.stack[i]]
    ensures s.stack[i] in s.stack[..base] <==> s.idx[s.stack[i]] < s.idx[s.stack[base]]
  {
    var comp := Segment(s.stack, base);
    if i < base {
      assert s.stack[..base][i] == s.stack[i];
      forall k | 0 <= k < |comp|
        ensures comp[k] != s.stack[i]
      {
        assert s.idx[s.stack[i]] < s.idx[s.stack[|s.stack| - 1 - k]];
      }
    } else {
      assert comp[|s.stack| - 1 - i] == s.stack[i];
    }
  }

  lemma SegmentMembers(nodes: set<Name>, s: State, base: nat, v: Name)
    requires Shape(nodes, s) && base < |s.stack| && s.stack[base] == v
    ensures Elements(Segment(s.stack, base)) == set x | x in s.on && s.idx[v] <= s.idx[x]
    ensures forall x :: x in s.stack[..base] <==> x in s.on && s.idx[x] < s.idx[v]
  {
    forall x | x in s.on
      ensures x in Segment(s.stack, base) <==> s.idx[v] <= s.idx[x]
      ensures x in s.stack[..base] <==> s.idx[x] < s.idx[v]
    {
      var i :| 0 <= i < |s.stack| && s.stack[i] == x;
      SegmentMember(nodes, s, base, i);
    }
    assert forall x :: x in Segment(s.stack, base) ==> x in s.stack;
    assert forall x :: x in s.stack[..base] ==> x in s.stack;
  }

  lemma PopKeepsShape(nodes: set<Name>, s: State, base: nat, v: Name)
    requires Shape(nodes, s) && base < |s.stack| && s.stack[base] == v
    ensures Shape(nodes, Popped(s, base))
  {
    SegmentMembers(nodes, s, base, v);
  }

  /** Taking `v` off the open set keeps every anchor below it. */
  lemma AnchorsBelow(g: Graph<Name>, s: State, t: State, gray: set<Name>, v: Name)
    requires s.on <= s.idx.Keys && v in s.idx && Anchored(g, s, gray)
    requires t.on <= s.on && t.idx == s.idx && forall y :: y in t.on ==> s.idx[y] < s.idx[v]
    ensures Anchored(g, t, gray - {v})
  {
    forall y | y in t.on
      ensures AnchoredIn(g, t, gray - {v}, y)
    {
      assert AnchoredIn(g, s, gray, y);
      var a :| a in gray && a in s.idx && s.idx[a] <= s.idx[y] && Reach(g, y, a);
      assert a in gray - {v} && t.idx[a] <= t.idx[y];
    }
  }

  lemma PopKeepsPending(g: Graph<Name>, nodes: set<Name>, s: State, gray: set<Name>, base: nat, v: Name)
    requires Shape(nodes, s) && Pending(g, s, gray) && Succ(g, v) <= s.idx.Keys
    requires base < |s.stack| && s.stack[base] == v
    requires forall x :: x in gray && x != v ==> s.idx[x] < s.idx[v]
    ensures Pending(g, Popped(s, base), gray - {v})
  {
    SegmentMembers(nodes, s, base, v);
    AnchorsBelow(g, s, Popped(s, base), gray, v);
  }

  /** Once every edge of `v` is followed and `low[v] == idx[v]`, nothing reachable from
      `v` is outside the stacked nodes from `v` on and the finished ones. */
  lemma SegmentIsClosed(g: Graph<Name>, nodes: set<Name>, s: State, gray: set<Name>, v: Name)
    requires Inv(g, nodes, s, gray) && v in gray && Succ(g, v) <= s.idx.Keys
    requires forall x :: x in gray && x != v ==> s.idx[x] < s.idx[v]
    requires LowBound(g, s, v, Succ(g, v), s.idx[v])
    ensures Closed(g, (set x | x in s.on && s.idx[v] <= s.idx[x]) + s.compOf.Keys)
  {
    var seg := set x | x in s.on && s.idx[v] <= s.idx[x];
    forall x, y | x in seg + s.compOf.Keys && y in Succ(g, x)
      ensures y in seg + s.compOf.Keys
    {
      if x in seg && y !in seg {
        assert y in s.idx;
        assert y !in s.on;
      }
    }
  }

  /** A stacked node from `v` on and `v` reach each other. */
  lemma SegmentIsMutual(g: Graph<Name>, nodes: set<Name>, s: State, gray: set<Name>, v: Name, x: Name)
    requires Inv(g, nodes, s, gray) && v in gray && x in s.on && s.idx[v] <= s.idx[x]
    requires forall y :: y in gray && y != v ==> s.idx[y] < s.idx[v]
    requires Closed(g, (set y | y in s.on && s.idx[v] <= s.idx[y]) + s.compOf.Keys)
    ensures Mutual(g, v, x)
  {
    assert Reach(g, v, x);
    assert AnchoredIn(g, s, gray, x);
    var a :| a in gray && a in s.idx && s.idx[a] <= s.idx[x] && Reach(g, x, a);
    if a != v {
      ReachTrans(g, v, x, a);
      ReachStaysIn(g, (set y | y in s.on && s.idx[v] <= s.idx[y]) + s.compOf.Keys, v, a);
      assert false;
    }
  }

  /** Numbering a set of mutually reachable nodes, with no edge leaving it and the
      older components, keeps the classes exact. */
  lemma NumberKeepsClasses(g: Graph<Name>, compOf: map<Name, nat>, comp: seq<Name>, cid: nat, v: Name)
    requires Classes(g, compOf) && Closed(g, compOf.Keys)
    requires forall x :: x in compOf ==> compOf[x] < cid && x !in comp
    requires forall x :: x in comp ==> Mutual(g, v, x)
    ensures Classes(g, Numbered(compOf, comp, cid))
  {
    var after := Numbered(compOf, comp, cid);
    forall x, y | x in after && y in after
      ensures after[x] == after[y] <==> Mutual(g, x, y)
    {
      if x in comp && y in comp {
        ReachTrans(g, x, v, y);
        ReachTrans(g, y, v, x);
      } else if x in comp && Reach(g, y, x) {
        ReachStaysIn(g, compOf.Keys, y, x);
      } else if y in comp && Reach(g, x, y) {
        ReachStaysIn(g, compOf.Keys, x, y);
      }
    }
  }

  lemma NumberKeepsDescending(g: Graph<Name>, compOf: map<Name, nat>, comp: seq<Name>, cid: nat)
    requires Descending(g, compOf)
    requires forall x :: x in compOf ==> compOf[x] < cid && x !in comp
    requires Closed(g, Elements(comp) + compOf.Keys)
    ensures Descending(g, Numbered(compOf, comp, cid))
  {
    forall x, y | x in Numbered(compOf, comp, cid) && y in Succ(g, x)
      ensures y in Numbered(compOf, comp, cid)
      ensures Numbered(compOf, comp, cid)[y] <= Numbered(compOf, comp, cid)[x]
    {
      assert x in Elements(comp) + compOf.Keys;
    }
  }

  lemma NumberKeepsPartition(compOf: map<Name, nat>, comps: seq<seq<Name>>, comp: seq<Name>)
    requires Partition(compOf, comps) && comp != [] && Distinct(comp)
    requires forall x :: x in compOf ==> x !in comp
    ensures Partition(Numbered(compOf, comp, |comps|), comps + [comp])
  {
  }

  lemma PopKeepsComponents(g: Graph<Name>, nodes: set<Name>, s: State, gray: set<Name>, base: nat, v: Name)
    requires Inv(g, nodes, s, gray) && v in gray && Succ(g, v) <= s.idx.Keys
    requires base < |s.stack| && s.stack[base] == v
    requires forall x :: x in gray && x != v ==> s.idx[x] < s.idx[v]
    requires LowBound(g, s, v, Succ(g, v), s.idx[v])
    ensures Components(g, Popped(s, base).compOf, Popped(s, base).comps)
  {
    var comp := Segment(s.stack, base);
    SegmentMembers(nodes, s, base, v);
    SegmentDistinct(nodes, s, base);
    SegmentIsClosed(g, nodes, s, gray, v);
    assert Elements(comp) == set x | x in s.on && s.idx[v] <= s.idx[x];
    forall x | x in comp
      ensures Mutual(g, v, x)
    {
      assert x in Elements(comp);
      SegmentIsMutual(g, nodes, s, gray, v, x);
    }
    forall x | x in s.compOf
      ensures s.compOf[x] < |s.comps| && x !in comp
    {
      assert x !in Elements(comp);
    }
    NumberKeepsClasses(g, s.compOf, comp, |s.comps|, v);
    NumberKeepsDescending(g, s.compOf, comp, |s.comps|);
    NumberKeepsPartition(s.compOf, s.comps, comp);
  }

  lemma RetainAnchor(g: Graph<Name>, s: State, gray: set<Name>, v: Name, b: Name, x: Name)
    requires x in s.idx && v in s.idx && b in s.idx && AnchoredIn(g, s, gray, x)
    requires b in gray && s.idx[b] < s.idx[v] && Reach(g, v, b)
    ensures AnchoredIn(g, s, gray - {v}, x)
  {
    var a :| a in gray && a in s.idx && s.idx[a] <= s.idx[x] && Reach(g, x, a);
    if a == v {
      ReachTrans(g, x, v, b);
      assert b in gray - {v} && s.idx[b] <= s.idx[x];
    } else {
      assert a in gray - {v};
    }
  }

  /** `low[v] < idx[v]`: what `v` anchored is anchored by an older open node. */
  lemma RetainKeepsAnchors(g: Graph<Name>, s: State, gray: set<Name>, v: Name, n: nat)
    requires s.on <= s.idx.Keys && Anchored(g, s, gray) && v in s.on
    requires LowWitness(g, s, v, n) && n < s.idx[v]
    ensures Anchored(g, s, gray - {v})
  {
    var y :| y in s.on && y in s.idx && s.idx[y] == n && Reach(g, v, y);
    assert AnchoredIn(g, s, gray, y);
    var b :| b in gray && b in s.idx && s.idx[b] <= s.idx[y] && Reach(g, y, b);
    ReachTrans(g, v, y, b);
    forall x | x in s.on
      ensures AnchoredIn(g, s, gray - {v}, x)
    {
      RetainAnchor(g, s, gray, v, b, x);
    }
  }

  lemma RetainKeepsPending(g: Graph<Name>, s: State, gray: set<Name>, v: Name, n: nat)
    requires Pending(g, s, gray) && v in s.on && Succ(g, v) <= s.idx.Keys
    requires LowWitness(g, s, v, n) && n < s.idx[v]
    ensures Pending(g, s, gray - {v})
  {
    RetainKeepsAnchors(g, s, gray, v, n);
  }

  /** What an activation of `strong(v)` returns in `low[v]`: no older stacked node that
      an edge reaches from the new part of the stack is numbered below it, and if it
      is below `idx[v]` then it is the number of a stacked node that `v` reaches. */
  ghost predicate LowOk(g: Graph<Name>, s: State, v: Name, n: nat) {
    && v in s.idx && s.on <= s.idx.Keys
    && n <= s.idx[v]
    && (n < s.idx[v] ==> v in s.on && LowWitness(g, s, v, n))
    && LowBound(g, s, v, Succ(g, v), n)
  }

  /** The middle of `strong(v)`: the edges to `done` have been followed and `low[v]` is `n`. */
  ghost predicate Following(g: Graph<Name>, s: State, v: Name, done: set<Name>, n: nat) {
    && s.on <= s.idx.Keys
    && v in s.on
    && done <= s.idx.Keys
    && n <= s.idx[v]
    && LowWitness(g, s, v, n)
    && LowBound(g, s, v, done, n)
  }

  lemma PushIsFollowing(g: Graph<Name>, nodes: set<Name>, s: State, v: Name)
    requires Shape(nodes, s) && v in nodes && v !in s.idx
    ensures Following(g, Pushed(s, v), v, {}, s.index)
  {
    ReachRefl(g, v);
    assert LowWitness(g, Pushed(s, v), v, s.index);
  }

  lemma FollowFinished(g: Graph<Name>, s: State, v: Name, done: set<Name>, n: nat, w: Name)
    requires Following(g, s, v, done, n) && w in s.idx && w !in s.on
    ensures Following(g, s, v, done + {w}, n)
  {
  }

  lemma FollowStacked(g: Graph<Name>, s: State, v: Name, done: set<Name>, n: nat, w: Name)
    requires Following(g, s, v, done, n) && w in s.on && w in Succ(g, v)
    ensures Following(g, s, v, done + {w}, if s.idx[w] < n then s.idx[w] else n)
  {
    ReachStep(g, v, w);
  }

  lemma OlderIsStacked(s: State, t: State, x: Name)
    requires Books(s) && Books(t) && Grows(s, t) && x in t.on && t.idx[x] < s.index
    ensures x in s.on && s.idx[x] == t.idx[x]
  {
  }

  lemma DescendKeepsBound(g: Graph<Name>, s: State, t: State, v: Name, done: set<Name>, n: nat, w: Name, m: nat)
    requires Books(s) && Books(t) && Grows(s, t) && v in s.on
    requires w in t.idx && t.idx[w] == s.index
    requires LowBound(g, s, v, done, n) && LowBound(g, t, w, Succ(g, w), m)
    ensures LowBound(g, t, v, done + {w}, if m < n then m else n)
  {
    forall x, y | x in t.on && t.idx[v] <= t.idx[x] && y in Succ(g, x) && y in t.on && t.idx[y] < t.idx[v] &&
                  (x == v ==> y in done + {w})
      ensures (if m < n then m else n) <= t.idx[y]
    {
      OlderIsStacked(s, t, y);
      if t.idx[x] < s.index {
        OlderIsStacked(s, t, x);
      }
    }
  }

  lemma DescendKeepsWitness(g: Graph<Name>, s: State, t: State, v: Name, n: nat, w: Name, m: nat)
    requires Books(s) && Books(t) && Grows(s, t) && v in s.on && n <= s.idx[v]
    requires w in t.idx && t.idx[w] == s.index && w in Succ(g, v)
    requires LowWitness(g, s, v, n) && (m < t.idx[w] ==> LowWitness(g, t, w, m))
    ensures LowWitness(g, t, v, if m < n then m else n)
  {
    if m < n {
      ReachStep(g, v, w);
      var y :| y in t.on && y in t.idx && t.idx[y] == m && Reach(g, w, y);
      ReachTrans(g, v, w, y);
    } else {
      var y :| y in s.on && y in s.idx && s.idx[y] == n && Reach(g, v, y);
      assert y in t.on && t.idx[y] == n;
    }
  }

  lemma FollowDescended(g: Graph<Name>, nodes: set<Name>, s: State, t: State, gray: set<Name>, v: Name,
                        done: set<Name>, n: nat, w: Name, m: nat)
    requires Inv(g, nodes, s, gray) && Inv(g, nodes, t, gray) && Extends(s, t) && Following(g, s, v, done, n)
    requires w in t.idx && t.idx[w] == s.index && w in Succ(g, v) && LowOk(g, t, w, m)
    ensures Following(g, t, v, done + {w}, if m < n then m else n)
  {
    hide Stacked, Pending, Components;
    DescendKeepsBound(g, s, t, v, done, n, w, m);
    DescendKeepsWitness(g, s, t, v, n, w, m);
  }

  lemma FewerLeft(nodes: set<Name>, s0: State, s: State, v: Name)
    requires v in nodes && v !in s0.idx && Extends(Pushed(s0, v), s)
    ensures nodes - s.idx.Keys < nodes - s0.idx.Keys
  {
    assert v in Pushed(s0, v).idx;
    assert v in nodes - s0.idx.Keys;
    assert forall x :: x in s0.idx ==> x in Pushed(s0, v).idx;
  }

  lemma OpenKeepsInv(g: Graph<Name>, nodes: set<Name>, s: State, gray: set<Name>, v: Name)
    requires Inv(g, nodes, s, gray) && v in nodes && v !in s.idx
    requires forall x :: x in gray ==> Reach(g, x, v)
    ensures Inv(g, nodes, Pushed(s, v), gray + {v})
    ensures Following(g, Pushed(s, v), v, {}, s.index)
  {
    hide Stacked, Components, AnchoredIn, LowWitness;
    StackReaches(g, s, gray, v);
    PushKeepsShape(nodes, s, v);
    PushKeepsPending(g, s, gray, v);
    PushIsFollowing(g, nodes, s, v);
  }

  lemma ExtendsRefl(s: State)
    ensures Extends(s, s)
  {
  }

  lemma ExtendsTrans(s: State, t: State, u: State)
    requires Extends(s, t) && Extends(t, u)
    ensures Extends(s, u)
  {
  }

  lemma PopGrows(s0: State, s: State, t: State, v: Name)
    requires Books(s0) && Books(s) && v !in s0.idx && Grows(Pushed(s0, v), s)
    requires t.index == s.index && t.idx == s.idx
    requires t.on == set x | x in s.on && s.idx[x] < s.idx[v]
    requires forall x :: x in s.compOf ==> x in t.compOf && t.compOf[x] == s.compOf[x]
    ensures Grows(s0, t)
  {
  }

  lemma PopExtends(nodes: set<Name>, s0: State, s: State, v: Name)
    requires Books(s0) && Shape(nodes, s) && v !in s0.idx && Extends(Pushed(s0, v), s)
    ensures |s0.stack| < |s.stack| && s.stack[|s0.stack|] == v
    ensures Extends(s0, Popped(s, |s0.stack|))
  {
    var base := |s0.stack|;
    assert Pushed(s0, v).stack[base] == v;
    SegmentMembers(nodes, s, base, v);
    assert s.stack[..base] == s0.stack;
    PopGrows(s0, s, Popped(s, base), v);
  }

  lemma PopIsLow(g: Graph<Name>, nodes: set<Name>, s: State, base: nat, v: Name)
    requires Shape(nodes, s) && base < |s.stack| && s.stack[base] == v
    ensures LowOk(g, Popped(s, base), v, s.idx[v])
  {
    SegmentMembers(nodes, s, base, v);
  }

  class Walk {
    const graph: Graph<Name>
    const nodes: set<Name>
    var index: nat
    var stack: seq<Name>
    var on: set<Name>
    var idx: map<Name, nat>
    var low: map<Name, nat>
    var compOf: map<Name, nat>
    var comps: seq<seq<Name>>

    constructor (graph: Graph<Name>, nodes: set<Name>)
      ensures this.graph == graph && this.nodes == nodes
      ensures Inv(graph, nodes, View(), {}) && idx == map[]
    {
      this.graph, this.nodes := graph, nodes;
      index, stack, on, idx, low, compOf, comps := 0, [], {}, map[], map[], map[], [];
    }

    ghost function View(): State
      reads this
    {
      State(index, stack, on, idx, compOf, comps)
    }

    /** Take the names from `v` up off the stack, the top one first. */
    method TakeOff(v: Name, ghost base: nat) returns (comp: seq<Name>)
      requires base < |stack| && stack[base] == v && forall i :: base < i < |stack| ==> stack[i] != v
      modifies this`stack, this`on
      ensures comp == Segment(old(stack), base) && stack == old(stack)[..base] && on == old(on) - Elements(comp)
    {
      comp := [];
      ghost var full := Segment(stack, base);
      while true
        invariant base < |stack| <= |old(stack)| && stack == old(stack)[..|stack|]
        invariant comp == full[..|old(stack)| - |stack|]
        invariant on == old(on) - Elements(comp)
        decreases |stack|
      {
        var w := stack[|stack| - 1];
        stack := stack[..|stack| - 1];
        on := on - {w};
        comp := comp + [w];
        if w == v { break; }
      }
      assert comp == full;
    }

    /** Take the component headed by `v` off the stack and number it. */
    method Pop(v: Name, ghost base: nat)
      requires base < |stack| && stack[base] == v && forall i :: base < i < |stack| ==> stack[i] != v
      modifies this`stack, this`on, this`compOf, this`comps
      ensures View() == Popped(old(View()), base)
    {
      hide Numbered;
      var comp := TakeOff(v, base);
      var cid := |comps|;
      comps := comps + [comp];
      NumberedNone(compOf, cid);
      assert comp[..0] == [];
      for i := 0 to |comp|
        invariant stack == old(stack)[..base] && on == old(on) - Elements(comp) && comps == old(comps) + [comp]
        invariant compOf == Numbered(old(compOf), comp[..i], cid)
      {
        NumberedNext(old(compOf), comp, i, cid);
        compOf := compOf[comp[i] := cid];
      }
      assert comp[..|comp|] == comp;
    }

    /** Number `v`, put it on the stack, follow its edges, and take its component off
        the stack if `v` is the oldest node of it. */
    method Strong(v: Name, ghost gray: set<Name>)
      requires Closed(graph, nodes) && v in nodes && v !in idx
      requires Inv(graph, nodes, View(), gray)
      requires forall x :: x in gray ==> Reach(graph, x, v)
      modifies this
      ensures Inv(graph, nodes, View(), gray) && Extends(old(View()), View())
      ensures v in idx && idx[v] == old(index) && v in low && LowOk(graph, View(), v, low[v])
      ensures KeepsLow(old(idx).Keys, old(low), low)
      decreases nodes - idx.Keys, 0
    {
      hide Components, Pending, Shape, Extends, Following, LowOk, KeepsLow;
      ghost var s0, low0 := View(), low;
      OpenKeepsInv(graph, nodes, s0, gray, v);
      idx, low := idx[v := index], low[v := index];
      index := index + 1;
      stack := stack + [v];
      on := on + {v};
      assert View() == Pushed(s0, v);
      ExtendsRefl(View());
      KeepsLowUpdate(s0.idx.Keys, low0, low0, v, index - 1);
      assert s0.idx.Keys - {v} == s0.idx.Keys;
      var todo := Succ(graph, v);
      assert Succ(graph, v) - todo == {};
      while todo != {}
        invariant todo <= Succ(graph, v) && v in low
        invariant Inv(graph, nodes, View(), gray + {v}) && Extends(Pushed(s0, v), View())
        invariant Following(graph, View(), v, Succ(graph, v) - todo, low[v])
        invariant KeepsLow(s0.idx.Keys, low0, low)
        decreases todo
      {
        var w :| w in todo;
        ghost var s, low1 := View(), low;
        OpenReach(graph, gray, v, w);
        FewerLeft(nodes, s0, s, v);
        Follow(v, w, gray, Succ(graph, v) - todo);
        ExtendsTrans(Pushed(s0, v), s, View());
        KeepsLowTrans(s0, s, v, low0, low1, low);
        assert Succ(graph, v) - (todo - {w}) == Succ(graph, v) - todo + {w};
        todo := todo - {w};
      }
      assert Succ(graph, v) - todo == Succ(graph, v);
      FollowingIsOpen(graph, View(), v, Succ(graph, v), low[v]);
      if low[v] == idx[v] {
        CloseByPop(graph, nodes, s0, View(), gray, v);
        Pop(v, |s0.stack|);
      } else {
        CloseByRetaining(graph, nodes, s0, View(), gray, v, low[v]);
      }
    }

    /** Follow one edge of `v`. */
    method Follow(v: Name, w: Name, ghost gray: set<Name>, ghost done: set<Name>)
      requires Closed(graph, nodes) && w in Succ(graph, v) && v in nodes
      requires Inv(graph, nodes, View(), gray + {v}) && v in low && Following(graph, View(), v, done, low[v])
      requires forall x :: x in gray + {v} ==> Reach(graph, x, w)
      modifies this
      ensures Inv(graph, nodes, View(), gray + {v}) && Extends(old(View()), View())
      ensures v in low && Following(graph, View(), v, done + {w}, low[v])
      ensures KeepsLow(old(idx).Keys - {v}, old(low), low)
      decreases nodes - idx.Keys, 1
    {
      hide Components, Pending, Shape, Extends, Following, LowOk, KeepsLow;
      ghost var s, n, low0 := View(), low[v], low;
      FollowingIsOpen(graph, s, v, done, n);
      if w !in idx {
        Strong(w, gray + {v});
        KeepsLowUse(s.idx.Keys, low0, low, v);
        FollowDescended(graph, nodes, s, View(), gray + {v}, v, done, n, w, low[w]);
        KeepsLowUpdate(s.idx.Keys, low0, low, v, if low[w] < low[v] then low[w] else low[v]);
        low := low[v := if low[w] < low[v] then low[w] else low[v]];
      } else if w in on {
        ExtendsRefl(s);
        FollowStacked(graph, s, v, done, n, w);
        KeepsLowUpdate(s.idx.Keys, low0, low, v, if idx[w] < low[v] then idx[w] else low[v]);
        low := low[v := if idx[w] < low[v] then idx[w] else low[v]];
      } else {
        ExtendsRefl(s);
        KeepsLowUpdate(s.idx.Keys, low0, low, v, n);
        assert low[v := n] == low;
        FollowFinished(graph, s, v, done, n, w);
      }
    }
  }

  /** The `low` entries of the nodes in `keys` are the ones they were. */
  ghost predicate KeepsLow(keys: set<Name>, low0: map<Name, nat>, low: map<Name, nat>) {
    forall x :: x in keys && x in low0 ==> x in low && low[x] == low0[x]
  }

  lemma KeepsLowUse(keys: set<Name>, low0: map<Name, nat>, low: map<Name, nat>, v: Name)
    requires KeepsLow(keys, low0, low) && v in keys && v in low0
    ensures v in low && low[v] == low0[v]
  {
  }

  lemma KeepsLowUpdate(keys: set<Name>, low0: map<Name, nat>, low: map<Name, nat>, v: Name, n: nat)
    requires KeepsLow(keys, low0, low) || low0 == low
    ensures KeepsLow(keys - {v}, low0, low[v := n])
  {
  }

  lemma KeepsLowTrans(s0: State, s: State, v: Name, low0: map<Name, nat>, low1: map<Name, nat>, low2: map<Name, nat>)
    requires Extends(Pushed(s0, v), s) && v !in s0.idx
    requires KeepsLow(s0.idx.Keys, low0, low1) && KeepsLow(s.idx.Keys - {v}, low1, low2)
    ensures KeepsLow(s0.idx.Keys, low0, low2)
  {
    forall x | x in s0.idx
      ensures x in s.idx
    {
      assert x in Pushed(s0, v).idx;
    }
  }

  lemma FollowingIsOpen(g: Graph<Name>, s: State, v: Name, done: set<Name>, n: nat)
    requires Following(g, s, v, done, n)
    ensures v in s.on && v in s.idx && n <= s.idx[v]
  {
  }

  lemma CloseByPop(g: Graph<Name>, nodes: set<Name>, s0: State, s: State, gray: set<Name>, v: Name)
    requires Inv(g, nodes, s0, gray) && v !in s0.idx
    requires Inv(g, nodes, s, gray + {v}) && Extends(Pushed(s0, v), s)
    requires v in s.idx && Following(g, s, v, Succ(g, v), s.idx[v])
    ensures |s0.stack| < |s.stack| && s.stack[|s0.stack|] == v
    ensures forall i :: |s0.stack| < i < |s.stack| ==> s.stack[i] != v
    ensures Inv(g, nodes, Popped(s, |s0.stack|), gray) && Extends(s0, Popped(s, |s0.stack|))
    ensures s.idx[v] == s0.index && LowOk(g, Popped(s, |s0.stack|), v, s.idx[v])
  {
    hide LowOk, Segment, Numbered;
    assert gray + {v} - {v} == gray by { assert v !in gray; }
    assert s.idx[v] == s0.index;
    PopExtends(nodes, s0, s, v);
    PopKeepsShape(nodes, s, |s0.stack|, v);
    PopKeepsPending(g, nodes, s, gray + {v}, |s0.stack|, v);
    PopKeepsComponents(g, nodes, s, gray + {v}, |s0.stack|, v);
    PopIsLow(g, nodes, s, |s0.stack|, v);
  }

  lemma CloseByRetaining(g: Graph<Name>, nodes: set<Name>, s0: State, s: State, gray: set<Name>, v: Name, n: nat)
    requires Inv(g, nodes, s0, gray) && v !in s0.idx
    requires Inv(g, nodes, s, gray + {v}) && Extends(Pushed(s0, v), s)
    requires v in s.idx && n != s.idx[v] && Following(g, s, v, Succ(g, v), n)
    ensures Inv(g, nodes, s, gray) && Extends(s0, s)
    ensures s.idx[v] == s0.index && LowOk(g, s, v, n)
  {
    hide Stacked, Components, AnchoredIn, LowWitness;
    assert gray + {v} - {v} == gray by { assert v !in gray; }
    RetainKeepsPending(g, s, gray + {v}, v, n);
  }

  lemma OpenReach(g: Graph<Name>, gray: set<Name>, v: Name, w: Name)
    requires w in Succ(g, v) && forall x :: x in gray ==> Reach(g, x, v)
    ensures forall x :: x in gray + {v} ==> Reach(g, x, w)
  {
    ReachStep(g, v, w);
    forall x | x in gray
      ensures Reach(g, x, w)
    {
      ReachTrans(g, x, v, w);
    }
  }

  /** The components of a call graph, visited in any order. */
  method Longest(graph: Graph<Name>, nodes: set<Name>) returns (comps: seq<seq<Name>>, compOf: map<Name, nat>)
    requires Closed(graph, nodes)
    ensures compOf.Keys == nodes && Components(graph, compOf, comps)
  {
    var walk := new Walk(graph, nodes);
    var todo := nodes;
    while todo != {}
      invariant todo <= nodes && nodes - todo <= walk.idx.Keys
      invariant walk.graph == graph && walk.nodes == nodes && Inv(graph, nodes, walk.View(), {})
      decreases todo
    {
      hide Components, Pending, Shape, Grows, LowOk, KeepsLow;
      var v :| v in todo;
      ghost var s := walk.View();
      if v !in walk.idx {
        walk.Strong(v, {});
        ExtendsKeys(s, walk.View());
      }
      todo := todo - {v};
    }
    NothingPending(graph, nodes, walk.View());
    comps, compOf := walk.comps, walk.compOf;
  }

  lemma ExtendsKeys(s: State, t: State)
    requires Extends(s, t)
    ensures s.idx.Keys <= t.idx.Keys
  {
  }

  /** With no activation open, the stack is empty and every numbered node has its component. */
  lemma NothingPending(g: Graph<Name>, nodes: set<Name>, s: State)
    requires Inv(g, nodes, s, {}) && nodes <= s.idx.Keys
    ensures s.compOf.Keys == nodes
  {
    assert forall v :: v in s.on ==> AnchoredIn(g, s, {}, v);
  }

  /** The partition does not depend on the order the nodes and edges were visited in. */
  lemma ComponentsAreUnique(g: Graph<Name>, compOf1: map<Name, nat>, comps1: seq<seq<Name>>,
                            compOf2: map<Name, nat>, comps2: seq<seq<Name>>, v: Name)
    requires Components(g, compOf1, comps1) && Components(g, compOf2, comps2)
    requires compOf1.Keys == compOf2.Keys && v in compOf1
    ensures Elements(comps1[compOf1[v]]) == Elements(comps2[compOf2[v]])
  {
    forall w | w in compOf1
      ensures w in comps1[compOf1[v]] <==> w in comps2[compOf2[v]]
    {
      assert compOf1[v] == compOf1[w] <==> Mutual(g, v, w);
      assert compOf2[v] == compOf2[w] <==> Mutual(g, v, w);
    }
  }
}
