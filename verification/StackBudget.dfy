/** The depth half of tools/check_stack_budget.py: a multiplicity per component, a cost
    per component, a memoised longest path in the condensed graph, and the decision. */
module StackBudget {
  import opened Wrappers
  import opened Graphs
  import Tarjan

  /** What the checker has gathered before it sums anything. */
  datatype Program = Program(
    graph: Graph<Name>,
    nodes: set<Name>,
    frames: map<Name, nat>,
    directSelf: set<Name>,
    sourceBounds: map<Name, Option<int>>,
    nonreentrant: bool,
    callsLock: set<Name>)

  /** How often a node of `comp` may sit on one stack; `None` when nothing bounds it. */
  function SccBound(p: Program, comp: seq<Name>): (r: Option<nat>)
    requires comp != []
    ensures r.Some? ==> r.value >= 1
  {
    if |comp| == 1 then
      var node := comp[0];
      if node !in Succ(p.graph, node) then Some(1)
      else if node !in p.directSelf then Some(2)
      else
        var bound := if node in p.sourceBounds then p.sourceBounds[node] else None;
        if bound.None? || bound.value <= 1 then None else Some(bound.value)
    else if p.nonreentrant && exists node :: node in comp && node in p.callsLock then Some(2)
    else None
  }

  function Frame(frames: map<Name, nat>, v: Name): nat {
    if v in frames then frames[v] else 0
  }

  /** The frames of a sequence of activations. */
  function Sum(frames: map<Name, nat>, s: seq<Name>): nat {
    if s == [] then 0 else Sum(frames, s[..|s| - 1]) + Frame(frames, s[|s| - 1])
  }

  function CompCost(p: Program, comp: seq<Name>): Option<nat>
    requires comp != []
  {
    match SccBound(p, comp)
    case None => None
    case Some(b) => Some(Sum(p.frames, comp) * b)
  }

  // ----- The longest path in the condensed graph -----

  type Costs = seq<Option<nat>>

  ghost predicate Dag(dag: Graph<nat>, n: nat) {
    forall c: nat, d: nat {:trigger d in Succ(dag, c)} :: c < n && d in Succ(dag, c) ==> d < c
  }

  /** The deepest chain of components starting at `c`, or `None` when one is unbounded. */
  function Depth(cost: Costs, dag: Graph<nat>, c: nat): Option<nat>
    requires c < |cost|
    decreases c, c + 1
  {
    if cost[c].None? then None
    else match Deepest(cost, dag, c, c)
         case None => None
         case Some(b) => Some(cost[c].value + b)
  }

  /** The largest depth among the successors of `c` numbered below `k`. */
  function Deepest(cost: Costs, dag: Graph<nat>, c: nat, k: nat): Option<nat>
    requires k <= c < |cost|
    decreases c, k
  {
    if k == 0 then Some(0)
    else
      var rest := Deepest(cost, dag, c, k - 1);
      if k - 1 !in Succ(dag, c) then rest
      else
        var d := Depth(cost, dag, k - 1);
        if rest.None? || d.None? then None else Some(Max(rest.value, d.value))
  }

  function Max(a: nat, b: nat): nat {
    if a < b then b else a
  }

  lemma {:induction false} DeepestBounds(cost: Costs, dag: Graph<nat>, c: nat, k: nat)
    requires k <= c < |cost|
    ensures Deepest(cost, dag, c, k).None? <==> exists d: nat :: d in Succ(dag, c) && d < k && Depth(cost, dag, d).None?
    ensures Deepest(cost, dag, c, k).Some? ==> forall d: nat :: d in Succ(dag, c) && d < k ==>
              Depth(cost, dag, d).Some? && Depth(cost, dag, d).value <= Deepest(cost, dag, c, k).value
    decreases k
  {
    if k > 0 {
      DeepestBounds(cost, dag, c, k - 1);
      if Deepest(cost, dag, c, k).None? {
        if Deepest(cost, dag, c, k - 1).None? {
          var d: nat :| d in Succ(dag, c) && d < k - 1 && Depth(cost, dag, d).None?;
        } else {
          assert k - 1 in Succ(dag, c) && Depth(cost, dag, k - 1).None?;
        }
      }
    }
  }

  lemma {:induction false} DeepestAttained(cost: Costs, dag: Graph<nat>, c: nat, k: nat) returns (d: nat)
    requires k <= c < |cost| && Deepest(cost, dag, c, k).Some? && Deepest(cost, dag, c, k).value > 0
    ensures d in Succ(dag, c) && d < k && Depth(cost, dag, d) == Deepest(cost, dag, c, k)
    decreases k
  {
    if k - 1 in Succ(dag, c) && Depth(cost, dag, k - 1) == Deepest(cost, dag, c, k) {
      d := k - 1;
    } else {
      d := DeepestAttained(cost, dag, c, k - 1);
    }
  }

  /** `Depth` is the cost of the component plus the deepest of its successors. */
  lemma DepthUnfolds(cost: Costs, dag: Graph<nat>, c: nat)
    requires Dag(dag, |cost|) && c < |cost|
    ensures Depth(cost, dag, c).None? <==>
            cost[c].None? || exists d: nat :: d in Succ(dag, c) && d < c && Depth(cost, dag, d).None?
    ensures Depth(cost, dag, c).Some? ==> cost[c].Some? && Depth(cost, dag, c).value >= cost[c].value
    ensures Depth(cost, dag, c).Some? ==> forall d: nat :: d in Succ(dag, c) ==>
              d < c && Depth(cost, dag, d).Some? &&
              cost[c].value + Depth(cost, dag, d).value <= Depth(cost, dag, c).value
  {
    DeepestBounds(cost, dag, c, c);
  }

  /** The memo of `depth_of`: what it has answered so far, always the specification's answer. */
  class Memo {
    const cost: Costs
    const dag: Graph<nat>
    var memo: map<nat, Option<nat>>

    ghost predicate Valid()
      reads this
    {
      forall c :: c in memo ==> c < |cost| && memo[c] == Depth(cost, dag, c)
    }

    constructor (cost: Costs, dag: Graph<nat>)
      ensures this.cost == cost && this.dag == dag && Valid()
    {
      this.cost, this.dag, memo := cost, dag, map[];
    }

    method DepthOf(cid: nat) returns (r: Option<nat>)
      requires Valid() && Dag(dag, |cost|) && cid < |cost|
      modifies this
      ensures Valid() && r == Depth(cost, dag, cid)
      decreases cid
    {
      if cid in memo { return memo[cid]; }
      if cost[cid].None? {
        memo := memo[cid := None];
        return None;
      }
      DeepestBounds(cost, dag, cid, cid);
      var best := 0;
      var todo := Succ(dag, cid);
      while todo != {}
        invariant Valid() && todo <= Succ(dag, cid)
        invariant forall d: nat :: d in Succ(dag, cid) - todo ==>
                    Depth(cost, dag, d).Some? && Depth(cost, dag, d).value <= best
        invariant best == 0 || exists d: nat :: d in Succ(dag, cid) - todo && Depth(cost, dag, d) == Some(best)
        decreases todo
      {
        var nxt :| nxt in todo;
        var d := DepthOf(nxt);
        if d.None? {
          memo := memo[cid := None];
          return None;
        }
        ghost var was := best;
        best := Max(best, d.value);
        assert nxt in Succ(dag, cid) - (todo - {nxt});
        todo := todo - {nxt};
      }
      assert Deepest(cost, dag, cid, cid) == Some(best) by {
        if Deepest(cost, dag, cid, cid).Some? && Deepest(cost, dag, cid, cid).value > 0 {
          var d := DeepestAttained(cost, dag, cid, cid);
        }
      }
      memo := memo[cid := Some(cost[cid].value + best)];
      return memo[cid];
    }
  }

  // ----- What the depth means: chains of components -----

  /** A chain of components starting at `c`, all numbered below `|cost|`. */
  ghost predicate IsChain(cost: Costs, dag: Graph<nat>, c: nat, q: seq<nat>) {
    IsWalk(dag, q) && q[0] == c && forall i :: 0 <= i < |q| ==> q[i] < |cost|
  }

  /** The cost of a chain, `None` when one of its components is unbounded. */
  ghost function ChainCost(cost: Costs, q: seq<nat>): Option<nat>
    requires forall i :: 0 <= i < |q| ==> q[i] < |cost|
  {
    if q == [] then Some(0)
    else
      var rest := ChainCost(cost, q[1..]);
      if cost[q[0]].None? || rest.None? then None else Some(cost[q[0]].value + rest.value)
  }

  lemma ChainTail(cost: Costs, dag: Graph<nat>, c: nat, q: seq<nat>)
    requires IsChain(cost, dag, c, q) && |q| > 1
    ensures IsChain(cost, dag, q[1], q[1..]) && q[1] in Succ(dag, c)
  {
    assert q[0 + 1] in Succ(dag, q[0]);
    Subwalk(dag, q, 1, |q|);
  }

  lemma ChainCons(cost: Costs, dag: Graph<nat>, c: nat, d: nat, q: seq<nat>)
    requires IsChain(cost, dag, d, q) && d in Succ(dag, c) && c < |cost|
    ensures IsChain(cost, dag, c, [c] + q)
    ensures ([c] + q)[1..] == q
  {
    var t := [c] + q;
    forall i | 0 <= i < |t| - 1
      ensures t[i + 1] in Succ(dag, t[i])
    {
      if i > 0 {
        assert q[i - 1 + 1] in Succ(dag, q[i - 1]);
      }
    }
  }

  /** No chain from `c` costs more than its depth, and none is unbounded when the depth is not. */
  lemma {:induction false} DepthCoversChain(cost: Costs, dag: Graph<nat>, c: nat, q: seq<nat>)
    requires Dag(dag, |cost|) && IsChain(cost, dag, c, q) && Depth(cost, dag, c).Some?
    ensures ChainCost(cost, q).Some? && ChainCost(cost, q).value <= Depth(cost, dag, c).value
    decreases |q|
  {
    DepthUnfolds(cost, dag, c);
    if |q| > 1 {
      ChainTail(cost, dag, c, q);
      DepthCoversChain(cost, dag, q[1], q[1..]);
    }
  }

  /** Some chain from `c` costs exactly its depth; when the depth is unbounded, some
      chain has no cost. */
  lemma {:induction false} DepthIsAttained(cost: Costs, dag: Graph<nat>, c: nat) returns (q: seq<nat>)
    requires Dag(dag, |cost|) && c < |cost|
    ensures IsChain(cost, dag, c, q) && ChainCost(cost, q) == Depth(cost, dag, c)
    decreases c
  {
    DepthUnfolds(cost, dag, c);
    if cost[c].None? {
      q := [c];
    } else if Depth(cost, dag, c).None? {
      var d: nat :| d in Succ(dag, c) && d < c && Depth(cost, dag, d).None?;
      var t := DepthIsAttained(cost, dag, d);
      ChainCons(cost, dag, c, d, t);
      q := [c] + t;
    } else if Deepest(cost, dag, c, c).value == 0 {
      q := [c];
      assert q[1..] == [];
    } else {
      var d := DeepestAttained(cost, dag, c, c);
      var t := DepthIsAttained(cost, dag, d);
      ChainCons(cost, dag, c, d, t);
      q := [c] + t;
    }
  }

  // ----- What the depth means: call stacks -----

  /** The components of a program's call graph, with the costs and the condensed graph. */
  datatype Condensed = Condensed(comps: seq<seq<Name>>, compOf: map<Name, nat>, cost: Costs, dag: Graph<nat>)

  ghost predicate Condenses(p: Program, k: Condensed) {
    && Closed(p.graph, p.nodes)
    && k.compOf.Keys == p.nodes
    && Tarjan.Components(p.graph, k.compOf, k.comps)
    && |k.cost| == |k.comps|
    && (forall c {:trigger k.cost[c]} :: 0 <= c < |k.comps| ==> k.cost[c] == CompCost(p, k.comps[c]))
    && (forall c: nat, d: nat {:trigger d in Succ(k.dag, c)} :: d in Succ(k.dag, c) <==> DagEdge(p.graph, k.compOf, c, d))
  }

  /** An edge of the call graph leads from component `c` to another, `d`. */
  ghost predicate DagEdge(g: Graph<Name>, compOf: map<Name, nat>, c: nat, d: nat) {
    c != d && exists v, w :: v in compOf && compOf[v] == c && w in Succ(g, v) && w in compOf && compOf[w] == d
  }

  lemma CondensedIsDag(p: Program, k: Condensed)
    requires Condenses(p, k)
    ensures Dag(k.dag, |k.cost|)
  {
    forall c: nat, d: nat {:trigger d in Succ(k.dag, c)} | c < |k.cost| && d in Succ(k.dag, c)
      ensures d < c
    {
      assert DagEdge(p.graph, k.compOf, c, d);
    }
  }

  /** A call stack starting at `root` that the source's bounds allow: no function is on it
      more often than its component's multiplicity. */
  ghost predicate Admissible(p: Program, k: Condensed, root: Name, s: seq<Name>)
    requires Condenses(p, k)
  {
    && IsWalk(p.graph, s) && s[0] == root && root in p.nodes
    && forall v :: v in s && v in k.compOf ==>
         WithinBound(SccBound(p, k.comps[k.compOf[v]]), multiset(s)[v])
  }

  ghost predicate WithinBound(bound: Option<nat>, n: nat) {
    bound.Some? ==> n <= bound.value
  }

  // ----- A stretch of a stack inside one component -----

  /** The activations counted in `m`, charged to the functions of `comp`. */
  ghost function Charged(frames: map<Name, nat>, comp: seq<Name>, m: multiset<Name>): nat {
    if comp == [] then 0
    else Charged(frames, comp[..|comp| - 1], m) + m[comp[|comp| - 1]] * Frame(frames, comp[|comp| - 1])
  }

  lemma {:induction false} ChargedNone(frames: map<Name, nat>, comp: seq<Name>)
    ensures Charged(frames, comp, multiset{}) == 0
  {
    if comp != [] {
      ChargedNone(frames, comp[..|comp| - 1]);
    }
  }

  lemma {:induction false} ChargedOther(frames: map<Name, nat>, comp: seq<Name>, m: multiset<Name>, x: Name)
    requires x !in comp
    ensures Charged(frames, comp, m + multiset{x}) == Charged(frames, comp, m)
  {
    if comp != [] {
      ChargedOther(frames, comp[..|comp| - 1], m, x);
      assert comp[|comp| - 1] in comp;
    }
  }

  lemma {:induction false} ChargedOne(frames: map<Name, nat>, comp: seq<Name>, m: multiset<Name>, x: Name)
    requires x in comp && Tarjan.Distinct(comp)
    ensures Charged(frames, comp, m + multiset{x}) == Charged(frames, comp, m) + Frame(frames, x)
  {
    var init, last := comp[..|comp| - 1], comp[|comp| - 1];
    if x == last {
      ChargedOther(frames, init, m, x);
      assert (m[x] + 1) * Frame(frames, x) == m[x] * Frame(frames, x) + Frame(frames, x);
    } else {
      ChargedOne(frames, init, m, x);
    }
  }

  /** The frames of a stretch are the sum, over the component's functions, of how often each is on it. */
  lemma {:induction false} SumIsCharged(frames: map<Name, nat>, comp: seq<Name>, s: seq<Name>)
    requires Tarjan.Distinct(comp) && forall x :: x in s ==> x in comp
    ensures Sum(frames, s) == Charged(frames, comp, multiset(s))
  {
    if s == [] {
      ChargedNone(frames, comp);
    } else {
      var init, last := s[..|s| - 1], s[|s| - 1];
      SumIsCharged(frames, comp, init);
      assert last in s;
      ChargedOne(frames, comp, multiset(init), last);
      assert s == init + [last];
      assert multiset(s) == multiset(init) + multiset{last};
    }
  }

  lemma {:induction false} ChargedWithin(frames: map<Name, nat>, comp: seq<Name>, m: multiset<Name>, b: nat)
    requires forall x :: x in comp ==> m[x] <= b
    ensures Charged(frames, comp, m) <= Sum(frames, comp) * b
  {
    if comp != [] {
      var init, last := comp[..|comp| - 1], comp[|comp| - 1];
      assert last in comp;
      ChargedWithin(frames, init, m, b);
      MulMonotone(m[last], b, Frame(frames, last));
      assert (Sum(frames, init) + Frame(frames, last)) * b == Sum(frames, init) * b + Frame(frames, last) * b;
    }
  }

  lemma MulMonotone(a: nat, b: nat, c: nat)
    requires a <= b
    ensures a * c <= c * b
  {
    assert (b - a) * c >= 0;
  }

  lemma {:induction false} SumConcat(frames: map<Name, nat>, s: seq<Name>, t: seq<Name>)
    ensures Sum(frames, s + t) == Sum(frames, s) + Sum(frames, t)
  {
    if t == [] {
      assert s + t == s;
    } else {
      SumConcat(frames, s, t[..|t| - 1]);
      assert (s + t)[..|s + t| - 1] == s + t[..|t| - 1];
    }
  }

  // ----- The whole stack -----

  /** Along a walk the component number never rises. */
  lemma {:induction false} WalkDescends(p: Program, k: Condensed, s: seq<Name>, i: nat, j: nat)
    requires Condenses(p, k) && IsWalk(p.graph, s) && s[0] in p.nodes && i <= j < |s|
    ensures s[i] in k.compOf && s[j] in k.compOf && k.compOf[s[j]] <= k.compOf[s[i]]
    decreases j - i
  {
    WalkStaysIn(p.graph, p.nodes, s);
    if i < j {
      WalkDescends(p, k, s, i, j - 1);
      assert s[j - 1 + 1] in Succ(p.graph, s[j - 1]);
    }
  }

  /** How many leading activations of `s` are in component `c`. */
  ghost function Lead(compOf: map<Name, nat>, s: seq<Name>, c: nat): (n: nat)
    ensures n <= |s|
    ensures forall i :: 0 <= i < n ==> s[i] in compOf && compOf[s[i]] == c
    ensures n < |s| ==> !(s[n] in compOf && compOf[s[n]] == c)
  {
    if s != [] && s[0] in compOf && compOf[s[0]] == c then 1 + Lead(compOf, s[1..], c) else 0
  }

  lemma SubwalkAdmissible(p: Program, k: Condensed, root: Name, s: seq<Name>, n: nat)
    requires Condenses(p, k) && Admissible(p, k, root, s) && n < |s|
    ensures Admissible(p, k, s[n], s[n..])
  {
    var t := s[n..];
    WalkStaysIn(p.graph, p.nodes, s);
    Subwalk(p.graph, s, n, |s|);
    assert s == s[..n] + t;
    assert multiset(s) == multiset(s[..n]) + multiset(t);
    forall v | v in t && v in k.compOf
      ensures WithinBound(SccBound(p, k.comps[k.compOf[v]]), multiset(t)[v])
    {
      assert v in s;
    }
  }

  lemma MemberOf(p: Program, k: Condensed, c: nat, x: Name)
    requires Condenses(p, k) && c < |k.comps|
    ensures x in k.comps[c] <==> x in k.compOf && k.compOf[x] == c
  {
    if x in k.comps[c] {
      var i :| 0 <= i < |k.comps[c]| && k.comps[c][i] == x;
      assert k.compOf[k.comps[c][i]] == c;
    }
  }

  lemma CostIs(p: Program, k: Condensed, c: nat)
    requires Condenses(p, k) && c < |k.comps| && k.cost[c].Some?
    ensures k.comps[c] != [] && Tarjan.Distinct(k.comps[c]) && SccBound(p, k.comps[c]).Some?
    ensures k.cost[c].value == Sum(p.frames, k.comps[c]) * SccBound(p, k.comps[c]).value
  {
    hide SccBound, Sum;
  }

  lemma PrefixOccurs(s: seq<Name>, n: nat, x: Name)
    requires n <= |s|
    ensures multiset(s[..n])[x] <= multiset(s)[x]
  {
    assert s == s[..n] + s[n..];
    assert multiset(s) == multiset(s[..n]) + multiset(s[n..]);
  }

  /** How often a function of component `c` is in the front of an admissible stack. */
  lemma OccursWithin(p: Program, k: Condensed, root: Name, s: seq<Name>, c: nat, n: nat, x: Name)
    requires Condenses(p, k) && Admissible(p, k, root, s) && c < |k.comps| && n <= |s|
    requires x in k.compOf && k.compOf[x] == c && k.comps[c] != [] && SccBound(p, k.comps[c]).Some?
    ensures multiset(s[..n])[x] <= SccBound(p, k.comps[c]).value
  {
    hide SccBound, Condenses;
    PrefixOccurs(s, n, x);
  }

  /** The leading stretch of an admissible stack costs no more than its component. */
  lemma StretchWithinCost(p: Program, k: Condensed, root: Name, s: seq<Name>, c: nat, n: nat)
    requires Condenses(p, k) && Admissible(p, k, root, s) && c < |k.comps| && n <= |s| && c < |k.cost|
    requires forall i :: 0 <= i < n ==> s[i] in k.compOf && k.compOf[s[i]] == c
    requires k.cost[c].Some?
    ensures Sum(p.frames, s[..n]) <= k.cost[c].value
  {
    hide Condenses, Admissible, SccBound, Sum, Charged, Tarjan.Distinct;
    CostIs(p, k, c);
    var comp, t := k.comps[c], s[..n];
    var b := SccBound(p, comp).value;
    forall x | x in comp
      ensures multiset(t)[x] <= b
    {
      MemberOf(p, k, c, x);
      OccursWithin(p, k, root, s, c, n, x);
    }
    forall x | x in t
      ensures x in comp
    {
      MemberOf(p, k, c, x);
    }
    SumIsCharged(p.frames, comp, t);
    ChargedWithin(p.frames, comp, multiset(t), b);
  }

  /** THE DEPTH IS AN UPPER BOUND: the frames of every admissible call stack from `root`
      sum to at most the depth of its component. */
  lemma {:induction false} StackWithinDepth(p: Program, k: Condensed, root: Name, s: seq<Name>)
    requires Condenses(p, k) && Admissible(p, k, root, s) && Dag(k.dag, |k.cost|)
    requires Depth(k.cost, k.dag, k.compOf[root]).Some?
    ensures Sum(p.frames, s) <= Depth(k.cost, k.dag, k.compOf[root]).value
    decreases |s|
  {
    hide Sum, SccBound, Depth;
    var c := k.compOf[root];
    var n := Lead(k.compOf, s, c);
    DepthUnfolds(k.cost, k.dag, c);
    StretchWithinCost(p, k, root, s, c, n);
    assert s == s[..n] + s[n..];
    SumConcat(p.frames, s[..n], s[n..]);
    if n < |s| {
      LeavesComponent(p, k, root, s, c, n);
      SubwalkAdmissible(p, k, root, s, n);
      StackWithinDepth(p, k, s[n], s[n..]);
    } else {
      assert s[..n] == s;
    }
  }

  lemma LeavesComponent(p: Program, k: Condensed, root: Name, s: seq<Name>, c: nat, n: nat)
    requires Condenses(p, k) && Admissible(p, k, root, s) && c == k.compOf[root]
    requires n < |s| && n == Lead(k.compOf, s, c)
    ensures n > 0 && s[n] in k.compOf && k.compOf[s[n]] in Succ(k.dag, c)
  {
    WalkDescends(p, k, s, 0, n);
    assert s[n - 1 + 1] in Succ(p.graph, s[n - 1]);
    assert DagEdge(p.graph, k.compOf, c, k.compOf[s[n]]);
  }

  // ----- When the depth is unbounded -----

  /** A chain of components is a path of calls between any of their functions. */
  lemma {:induction false} ChainReaches(p: Program, k: Condensed, q: seq<nat>, v: Name, w: Name)
    requires Condenses(p, k) && q != [] && IsChain(k.cost, k.dag, q[0], q)
    requires v in k.compOf && w in k.compOf && k.compOf[v] == q[0] && k.compOf[w] == q[|q| - 1]
    ensures Reach(p.graph, v, w)
    decreases |q|
  {
    if |q| == 1 {
      assert Mutual(p.graph, v, w);
    } else {
      ChainTail(k.cost, k.dag, q[0], q);
      assert DagEdge(p.graph, k.compOf, q[0], q[1]);
      var x, y :| x in k.compOf && k.compOf[x] == q[0] && y in Succ(p.graph, x) && y in k.compOf && k.compOf[y] == q[1];
      assert Mutual(p.graph, v, x);
      ReachStep(p.graph, x, y);
      ReachTrans(p.graph, v, x, y);
      ChainReaches(p, k, q[1..], y, w);
      ReachTrans(p.graph, v, y, w);
    }
  }

  lemma ChainSnoc(cost: Costs, dag: Graph<nat>, c: nat, q: seq<nat>, d: nat)
    requires IsChain(cost, dag, c, q) && d in Succ(dag, q[|q| - 1]) && d < |cost|
    ensures IsChain(cost, dag, c, q + [d])
  {
    var t := q + [d];
    forall i | 0 <= i < |t| - 1
      ensures t[i + 1] in Succ(dag, t[i])
    {
      if i < |q| - 1 {
        assert q[i + 1] in Succ(dag, q[i]);
      }
    }
  }

  /** A path of calls is a chain of components. */
  lemma {:induction false} WalkHasChain(p: Program, k: Condensed, s: seq<Name>) returns (q: seq<nat>)
    requires Condenses(p, k) && IsWalk(p.graph, s) && s[0] in p.nodes
    ensures s[|s| - 1] in k.compOf && IsChain(k.cost, k.dag, k.compOf[s[0]], q) && q[|q| - 1] == k.compOf[s[|s| - 1]]
    decreases |s|
  {
    if |s| == 1 {
      q := [k.compOf[s[0]]];
    } else {
      var t := s[..|s| - 1];
      q := WalkHasChain(p, k, t);
      var x, y := s[|s| - 2], s[|s| - 1];
      assert t[|t| - 1] == x && s[|s| - 2 + 1] in Succ(p.graph, x);
      if k.compOf[x] != k.compOf[y] {
        assert DagEdge(p.graph, k.compOf, k.compOf[x], k.compOf[y]);
        ChainSnoc(k.cost, k.dag, k.compOf[s[0]], q, k.compOf[y]);
        q := q + [k.compOf[y]];
      }
    }
  }

  lemma {:induction false} CostlessChain(cost: Costs, q: seq<nat>)
    requires forall i :: 0 <= i < |q| ==> q[i] < |cost|
    ensures ChainCost(cost, q).None? <==> exists i :: 0 <= i < |q| && cost[q[i]].None?
  {
    if q != [] {
      CostlessChain(cost, q[1..]);
      if ChainCost(cost, q).None? && cost[q[0]].Some? {
        var i :| 0 <= i < |q[1..]| && cost[q[1..][i]].None?;
        assert cost[q[i + 1]].None?;
      }
      if i :| 0 <= i < |q| && cost[q[i]].None? {
        if i > 0 {
          assert cost[q[1..][i - 1]].None?;
        }
      }
    }
  }

  lemma ChainPrefix(cost: Costs, dag: Graph<nat>, c: nat, q: seq<nat>, i: nat)
    requires IsChain(cost, dag, c, q) && i < |q|
    ensures IsChain(cost, dag, c, q[..i + 1])
  {
    Subwalk(dag, q, 0, i + 1);
  }

  /** `w` is a function that `root` can reach and whose recursion nothing bounds. */
  ghost predicate UnboundedFrom(p: Program, k: Condensed, root: Name, w: Name)
    requires Condenses(p, k)
  {
    w in k.compOf && Reach(p.graph, root, w) && SccBound(p, k.comps[k.compOf[w]]).None?
  }

  lemma UnboundedIsReached(p: Program, k: Condensed, root: Name) returns (w: Name)
    requires Condenses(p, k) && root in p.nodes && Dag(k.dag, |k.cost|)
    requires Depth(k.cost, k.dag, k.compOf[root]).None?
    ensures UnboundedFrom(p, k, root, w)
  {
    var c := k.compOf[root];
    var q := DepthIsAttained(k.cost, k.dag, c);
    CostlessChain(k.cost, q);
    var i :| 0 <= i < |q| && k.cost[q[i]].None?;
    w := k.comps[q[i]][0];
    ChainPrefix(k.cost, k.dag, c, q, i);
    ChainReaches(p, k, q[..i + 1], root, w);
  }

  lemma ReachedIsUnbounded(p: Program, k: Condensed, root: Name, w: Name)
    requires Condenses(p, k) && root in p.nodes && Dag(k.dag, |k.cost|) && UnboundedFrom(p, k, root, w)
    ensures Depth(k.cost, k.dag, k.compOf[root]).None?
  {
    var s :| IsWalkFrom(p.graph, s, root, w);
    var q := WalkHasChain(p, k, s);
    assert k.cost[q[|q| - 1]].None?;
    CostlessChain(k.cost, q);
    if Depth(k.cost, k.dag, k.compOf[root]).Some? {
      DepthCoversChain(k.cost, k.dag, k.compOf[root], q);
    }
  }

  /** The depth is `None` exactly when an unbounded recursion can be reached. */
  lemma UnboundedExactly(p: Program, k: Condensed, root: Name)
    requires Condenses(p, k) && root in p.nodes && Dag(k.dag, |k.cost|)
    ensures Depth(k.cost, k.dag, k.compOf[root]).None? <==> exists w :: UnboundedFrom(p, k, root, w)
  {
    if Depth(k.cost, k.dag, k.compOf[root]).None? {
      var w := UnboundedIsReached(p, k, root);
    }
    if w :| UnboundedFrom(p, k, root, w) {
      ReachedIsUnbounded(p, k, root, w);
    }
  }

  // ----- Functions the bound says nothing about -----

  lemma {:induction false} TwiceMeansTwoPlaces(s: seq<Name>, v: Name) returns (i: nat, j: nat)
    requires multiset(s)[v] >= 2
    ensures i < j < |s| && s[i] == v && s[j] == v
  {
    var init, last := s[..|s| - 1], s[|s| - 1];
    assert s == init + [last];
    if multiset(init)[v] >= 2 {
      i, j := TwiceMeansTwoPlaces(init, v);
    } else {
      assert v in init;
      i :| 0 <= i < |init| && init[i] == v;
      j := |s| - 1;
    }
  }

  /** A function outside every cycle is on no call stack twice, so admissibility assumes
      nothing of it. */
  lemma NonRecursiveOnce(p: Program, k: Condensed, s: seq<Name>, v: Name)
    requires Condenses(p, k) && IsWalk(p.graph, s) && s[0] in p.nodes && v in k.compOf
    requires |k.comps[k.compOf[v]]| == 1 && v !in Succ(p.graph, v)
    ensures multiset(s)[v] <= 1
  {
    if multiset(s)[v] >= 2 {
      var i, j := TwiceMeansTwoPlaces(s, v);
      var u := s[i + 1];
      WalkStaysIn(p.graph, p.nodes, s);
      assert u in Succ(p.graph, v);
      ReachStep(p.graph, v, u);
      Subwalk(p.graph, s, i + 1, j + 1);
      assert IsWalkFrom(p.graph, s[i + 1..j + 1], u, v);
      assert Mutual(p.graph, v, u);
    }
  }

  /** Some call stack holds a function of component `c` twice. */
  ghost predicate Recurs(p: Program, k: Condensed, c: nat)
    requires Condenses(p, k) && c < |k.comps|
  {
    exists s, v :: IsWalk(p.graph, s) && s[0] in p.nodes && v in k.comps[c] && multiset(s)[v] >= 2
  }

  lemma EndsMeanTwice(s: seq<Name>, v: Name)
    requires |s| > 1 && s[0] == v && s[|s| - 1] == v
    ensures multiset(s)[v] >= 2
  {
    assert s == [v] + s[1..|s| - 1] + [v];
  }

  lemma LoopIsTwice(p: Program, k: Condensed, c: nat, v: Name, w: Name, s: seq<Name>, t: seq<Name>)
    requires Condenses(p, k) && c < |k.comps| && v in k.comps[c] && v in p.nodes
    requires IsWalkFrom(p.graph, s, v, w) && IsWalkFrom(p.graph, t, w, v) && |s| > 1
    ensures Recurs(p, k, c)
  {
    var loop := s[..|s| - 1] + t;
    JoinWalks(p.graph, s, t);
    EndsMeanTwice(loop, v);
  }

  /** Multiplicity one is given exactly to the components whose functions are never on a
      call stack twice. */
  lemma MultiplicityOneExactly(p: Program, k: Condensed, c: nat)
    requires Condenses(p, k) && c < |k.comps|
    ensures SccBound(p, k.comps[c]) == Some(1) <==> !Recurs(p, k, c)
  {
    var comp := k.comps[c];
    var v := comp[0];
    assert v in k.compOf && k.compOf[v] == c;
    if SccBound(p, comp) == Some(1) {
      forall s, u | IsWalk(p.graph, s) && s[0] in p.nodes && u in comp
        ensures multiset(s)[u] < 2
      {
        NonRecursiveOnce(p, k, s, u);
      }
    } else if |comp| == 1 {
      ReachRefl(p.graph, v);
      LoopIsTwice(p, k, c, v, v, [v, v], [v]);
    } else {
      var w := comp[1];
      assert k.compOf[w] == c && Mutual(p.graph, v, w);
      var s :| IsWalkFrom(p.graph, s, v, w);
      var t :| IsWalkFrom(p.graph, t, w, v);
      LoopIsTwice(p, k, c, v, w, s, t);
    }
  }

  // ----- The steps of the checker -----

  /** The ends of the edges that leave `from`. */
  ghost function Ends(edges: Graph<Name>, from: set<Name>): set<Name> {
    from + set u, v | u in from && v in Succ(edges, u) :: v
  }

  lemma EndsGrow(edges: Graph<Name>, from: set<Name>, src: Name)
    ensures Ends(edges, from + {src}) == Ends(edges, from) + {src} + Succ(edges, src)
  {
  }

  method AddEdges(graph: Graph<Name>, nodes: set<Name>, edges: Graph<Name>)
    returns (graph': Graph<Name>, nodes': set<Name>)
    ensures graph'.Keys == graph.Keys + edges.Keys
    ensures forall v :: Succ(graph', v) == Succ(graph, v) + Succ(edges, v)
    ensures nodes' == nodes + Ends(edges, edges.Keys)
  {
    graph', nodes' := graph, nodes;
    var todo := edges.Keys;
    while todo != {}
      invariant todo <= edges.Keys && graph'.Keys == graph.Keys + (edges.Keys - todo)
      invariant forall v {:trigger Succ(graph', v)} ::
                  Succ(graph', v) == if v in todo then Succ(graph, v) else Succ(graph, v) + Succ(edges, v)
      invariant nodes' == nodes + Ends(edges, edges.Keys - todo)
      decreases todo
    {
      hide Ends, Succ;
      var src :| src in todo;
      ghost var before := graph';
      EndsGrow(edges, edges.Keys - todo, src);
      assert edges.Keys - (todo - {src}) == edges.Keys - todo + {src};
      var more := Succ(edges, src);
      nodes' := nodes' + {src} + more;
      var next := Succ(graph', src) + more;
      graph' := graph'[src := next];
      forall v
        ensures Succ(graph', v) == if v == src then next else Succ(before, v)
      {
        SuccUpdate(before, src, next, v);
      }
      todo := todo - {src};
    }
    assert edges.Keys - todo == edges.Keys;
  }

  /** The call graph with the edges that indirect calls add, and every function it names. */
  method BuildGraph(frames: map<Name, nat>, edges: Graph<Name>, extra: Graph<Name>)
    returns (graph: Graph<Name>, nodes: set<Name>)
    ensures forall v :: Succ(graph, v) == Succ(edges, v) + Succ(extra, v)
    ensures nodes == frames.Keys + Ends(edges, edges.Keys) + Ends(extra, extra.Keys)
    ensures Closed(graph, nodes) && graph.Keys <= nodes
  {
    graph, nodes := AddEdges(map[], frames.Keys, edges);
    graph, nodes := AddEdges(graph, nodes, extra);
    EndsClosed(edges, nodes);
    EndsClosed(extra, nodes);
  }

  lemma EndsClosed(edges: Graph<Name>, nodes: set<Name>)
    requires Ends(edges, edges.Keys) <= nodes
    ensures forall v :: Succ(edges, v) <= nodes
  {
    forall v, w | w in Succ(edges, v)
      ensures w in nodes
    {
      assert w in Ends(edges, edges.Keys);
    }
  }

  /** The cost of every component: the sum of its frames, times its multiplicity. */
  method ComponentCosts(p: Program, comps: seq<seq<Name>>, compOf: map<Name, nat>) returns (cost: Costs)
    requires Tarjan.Partition(compOf, comps)
    ensures |cost| == |comps| && forall c :: 0 <= c < |comps| ==> cost[c] == CompCost(p, comps[c])
  {
    var multi: map<Name, nat> := map[];
    var unbounded: set<Name> := {};
    for c := 0 to |comps|
      invariant forall v :: v in compOf && compOf[v] < c ==>
                  (v in unbounded <==> SccBound(p, comps[compOf[v]]).None?)
      invariant forall v :: v in compOf && compOf[v] < c && v !in unbounded ==>
                  v in multi && SccBound(p, comps[compOf[v]]) == Some(multi[v])
      invariant forall v :: v in compOf && v in unbounded ==> compOf[v] < c
    {
      var bound := SccBound(p, comps[c]);
      forall v | v in compOf
        ensures v in comps[c] <==> compOf[v] == c
      {
      }
      if bound.None? {
        unbounded := unbounded + set node | node in comps[c];
      } else {
        multi := multi + map node | node in comps[c] :: bound.value;
      }
    }
    cost := [];
    for c := 0 to |comps|
      invariant |cost| == c && forall i :: 0 <= i < c ==> cost[i] == CompCost(p, comps[i])
    {
      var comp := comps[c];
      assert comp[0] in compOf && compOf[comp[0]] == c;
      if exists node :: node in comp && node in unbounded {
        cost := cost + [None];
      } else {
        var bound := if comp[0] in multi then multi[comp[0]] else 1;
        cost := cost + [Some(Sum(p.frames, comp) * bound)];
      }
    }
  }

  /** The other components that `src` calls into. */
  function Leaving(graph: Graph<Name>, compOf: map<Name, nat>, src: Name): set<nat>
    requires src in compOf && Succ(graph, src) <= compOf.Keys
  {
    set dst | dst in Succ(graph, src) && compOf[dst] != compOf[src] :: compOf[dst]
  }

  lemma LeavingIsEdge(graph: Graph<Name>, compOf: map<Name, nat>, src: Name)
    requires src in compOf && Succ(graph, src) <= compOf.Keys
    ensures forall d: nat :: d in Leaving(graph, compOf, src) ==> DagEdge(graph, compOf, compOf[src], d)
    ensures forall w :: w in Succ(graph, src) && compOf[w] != compOf[src] ==> compOf[w] in Leaving(graph, compOf, src)
  {
  }

  /** The condensed graph: an edge for every call that leaves a component. */
  method BuildDag(graph: Graph<Name>, nodes: set<Name>, compOf: map<Name, nat>) returns (dag: Graph<nat>)
    requires Closed(graph, nodes) && graph.Keys <= nodes && compOf.Keys == nodes
    ensures forall c: nat, d: nat {:trigger d in Succ(dag, c)} :: d in Succ(dag, c) <==> DagEdge(graph, compOf, c, d)
  {
    hide DagEdge;
    dag := map[];
    var todo := graph.Keys;
    while todo != {}
      invariant todo <= graph.Keys
      invariant forall c: nat, d: nat {:trigger d in Succ(dag, c)} :: d in Succ(dag, c) ==> DagEdge(graph, compOf, c, d)
      invariant forall v, w {:trigger w in Succ(graph, v)} ::
                  v in nodes && v !in todo && w in Succ(graph, v) && compOf[v] != compOf[w] ==>
                  compOf[w] in Succ(dag, compOf[v])
      decreases todo
    {
      var src :| src in todo;
      LeavingIsEdge(graph, compOf, src);
      ghost var before := dag;
      var c: nat := compOf[src];
      var next: set<nat> := Succ(dag, c) + Leaving(graph, compOf, src);
      dag := dag[c := next];
      forall x: nat
        ensures Succ<nat>(dag, x) == if x == c then next else Succ<nat>(before, x)
      {
        SuccUpdate<nat>(before, c, next, x);
      }
      todo := todo - {src};
    }
    EveryEdge(graph, compOf, dag);
  }

  lemma EveryEdge(graph: Graph<Name>, compOf: map<Name, nat>, dag: Graph<nat>)
    requires Closed(graph, compOf.Keys)
    requires forall v, w {:trigger w in Succ(graph, v)} :: v in compOf && w in Succ(graph, v) && compOf[v] != compOf[w] ==>
               compOf[w] in Succ(dag, compOf[v])
    ensures forall c: nat, d: nat {:trigger d in Succ(dag, c)} {:trigger DagEdge(graph, compOf, c, d)} ::
              DagEdge(graph, compOf, c, d) ==> d in Succ(dag, c)
  {
  }

  /** Everything the decision needs, from the gathered program. */
  method Condense(p: Program) returns (k: Condensed)
    requires Closed(p.graph, p.nodes) && p.graph.Keys <= p.nodes
    ensures Condenses(p, k) && Dag(k.dag, |k.cost|)
  {
    var comps, compOf := Tarjan.Longest(p.graph, p.nodes);
    var cost := ComponentCosts(p, comps, compOf);
    var dag := BuildDag(p.graph, p.nodes, compOf);
    k := Condensed(comps, compOf, cost, dag);
    CondensedIsDag(p, k);
  }

  // ----- The decision -----

  const SYSCALL_EDGE_FLOOR := 50
  const DEPTH_FLOOR := 8192
  const INTERRUPT_HANDLER := Name("interrupt_handler64")

  /** The bytes below the handler's own frame: what the CPU pushes and what the stub pushes. */
  function AsmReserve(commonPushes: nat, entryPushes: nat): Option<nat> {
    var pushes := commonPushes + entryPushes;
    if pushes < 15 then None else Some(5 * 8 + pushes * 8)
  }

  /** The limit a depth is compared with: an explicit budget, or what the reserve leaves. */
  function Limit(budget: Option<int>, stackSize: Option<nat>, reserve: Option<nat>): Option<int> {
    if budget.Some? then budget
    else if stackSize.None? || reserve.None? then None
    else Some(stackSize.value - reserve.value)
  }

  /** A root of the call graph as the assembler names it and as the reports do. */
  datatype Root = Root(name: Name, resolved: Name)

  function RootComp(compOf: map<Name, nat>, r: Root): Option<nat> {
    if r.resolved in compOf then Some(compOf[r.resolved])
    else if r.name in compOf then Some(compOf[r.name]) else None
  }

  /** One root is within the limit. */
  predicate RootPasses(k: Condensed, r: Root, limit: int, source: bool)
    requires forall v :: v in k.compOf ==> k.compOf[v] < |k.cost|
  {
    var c := RootComp(k.compOf, r);
    && c.Some?
    && var d := Depth(k.cost, k.dag, c.value);
    && d.Some?
    && d.value < limit
    && (source && r.name == INTERRUPT_HANDLER ==> d.value >= DEPTH_FLOOR)
  }

  ghost predicate Passes(k: Condensed, problems: nat, limit: Option<int>, source: bool, syscallCount: nat, roots: seq<Root>)
    requires forall v :: v in k.compOf ==> k.compOf[v] < |k.cost|
  {
    && problems == 0 && limit.Some? && (source ==> syscallCount >= SYSCALL_EDGE_FLOOR)
    && forall i :: 0 <= i < |roots| ==> RootPasses(k, roots[i], limit.value, source)
  }

  /** The end of `main`: true is exit status 0. */
  method Decide(p: Program, problems: nat, limit: Option<int>, source: bool, syscallCount: nat, roots: seq<Root>)
    returns (ok: bool, k: Condensed)
    requires Closed(p.graph, p.nodes) && p.graph.Keys <= p.nodes
    ensures Condenses(p, k) && Dag(k.dag, |k.cost|)
    ensures ok <==> Passes(k, problems, limit, source, syscallCount, roots)
  {
    k := Condense(p);
    CompsInRange(p, k);
    if problems > 0 || limit.None? || (source && syscallCount < SYSCALL_EDGE_FLOOR) { return false, k; }
    var memo := new Memo(k.cost, k.dag);
    var over := false;
    for i := 0 to |roots|
      invariant memo.Valid() && memo.cost == k.cost && memo.dag == k.dag
      invariant over <==> !forall j :: 0 <= j < i ==> RootPasses(k, roots[j], limit.value, source)
    {
      var cid := RootComp(k.compOf, roots[i]);
      if cid.None? { return false, k; }
      var d := memo.DepthOf(cid.value);
      if d.None? {
        over := true;
        continue;
      }
      if source && roots[i].name == INTERRUPT_HANDLER && d.value < DEPTH_FLOOR { return false, k; }
      if d.value >= limit.value { over := true; }
    }
    ok := !over;
  }

  lemma CompsInRange(p: Program, k: Condensed)
    requires Condenses(p, k)
    ensures forall v :: v in k.compOf ==> k.compOf[v] < |k.cost|
  {
  }

  /** OK MEANS NO OVERFLOW: when the checker passes with the default limit, the entry
      reserve and the frames of any admissible call stack of any root fit below the
      kernel stack's size. */
  lemma OkMeansNoOverflow(p: Program, k: Condensed, problems: nat, source: bool, syscallCount: nat, roots: seq<Root>,
                          stackSize: nat, commonPushes: nat, entryPushes: nat, i: nat, entry: Name, s: seq<Name>)
    requires Condenses(p, k) && Dag(k.dag, |k.cost|) && forall v :: v in k.compOf ==> k.compOf[v] < |k.cost|
    requires Passes(k, problems, Limit(None, Some(stackSize), AsmReserve(commonPushes, entryPushes)), source, syscallCount, roots)
    requires i < |roots| && entry == (if roots[i].resolved in k.compOf then roots[i].resolved else roots[i].name)
    requires entry in p.nodes && Admissible(p, k, entry, s)
    ensures AsmReserve(commonPushes, entryPushes).Some?
    ensures AsmReserve(commonPushes, entryPushes).value + Sum(p.frames, s) < stackSize
  {
    assert RootPasses(k, roots[i], Limit(None, Some(stackSize), AsmReserve(commonPushes, entryPushes)).value, source);
    StackWithinDepth(p, k, entry, s);
  }
}
