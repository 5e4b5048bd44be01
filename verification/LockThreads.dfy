/** Any number of threads that interleave calls of analysed functions, and the circular waits
    they can and cannot reach. */
module LockThreads {
  import opened Graphs
  import opened LockNestings
  import opened LockRuns
  import opened LockBlindness

  /** Each thread's events, and how many of them have happened. */
  type Threads = seq<seq<Event>>
  type Counters = seq<nat>

  ghost predicate InRange(ts: Threads, pcs: Counters) {
    |pcs| == |ts| && forall t :: 0 <= t < |ts| ==> pcs[t] <= |ts[t]|
  }

  ghost function Holds(ts: Threads, pcs: Counters, t: nat): seq<Name>
    requires InRange(ts, pcs) && t < |ts|
  {
    After([], ts[t][..pcs[t]])
  }

  /** A thread may take a lock that no thread holds, and may always drop one. */
  ghost predicate Enabled(ts: Threads, pcs: Counters, t: nat)
    requires InRange(ts, pcs) && t < |ts|
  {
    && pcs[t] < |ts[t]|
    && (ts[t][pcs[t]].Acquire? ==> forall u: nat {:trigger Holds(ts, pcs, u)} :: u < |ts| ==> ts[t][pcs[t]].lock !in Holds(ts, pcs, u))
  }

  /** The counters after the threads in `schedule` have each made a step, in that order. */
  ghost predicate Reaches(ts: Threads, schedule: seq<nat>, pcs: Counters) {
    InRange(ts, pcs) &&
    if schedule == [] then forall t :: 0 <= t < |ts| ==> pcs[t] == 0
    else
      var t := schedule[|schedule| - 1];
      && t < |ts| && pcs[t] > 0
      && Reaches(ts, schedule[..|schedule| - 1], pcs[t := pcs[t] - 1])
      && Enabled(ts, pcs[t := pcs[t] - 1], t)
  }

  ghost predicate Wants(ts: Threads, pcs: Counters, t: nat, l: Name)
    requires InRange(ts, pcs)
  {
    t < |ts| && pcs[t] < |ts[t]| && ts[t][pcs[t]] == Acquire(l)
  }

  /** `ring[k]` waits for `locks[k]`, which the next thread of the ring holds. */
  ghost predicate CircularWait(ts: Threads, pcs: Counters, ring: seq<nat>, locks: seq<Name>)
    requires InRange(ts, pcs)
  {
    && |ring| == |locks| > 0
    && forall k :: 0 <= k < |ring| ==> WaitsAt(ts, pcs, ring, locks, k)
  }

  ghost predicate WaitsAt(ts: Threads, pcs: Counters, ring: seq<nat>, locks: seq<Name>, k: nat)
    requires InRange(ts, pcs) && |ring| == |locks| && k < |ring|
  {
    var next := if k + 1 < |ring| then k + 1 else 0;
    Wants(ts, pcs, ring[k], locks[k]) && ring[next] < |ts| && locks[k] in Holds(ts, pcs, ring[next])
  }

  /** Locks are dropped innermost first, and nest only as `rel` says. */
  ghost predicate Nested(held: seq<Name>, ev: seq<Event>, rel: set<Nesting>)
    decreases |ev|
  {
    ev == [] ||
    (match ev[0]
     case Acquire(l) => (held == [] || (Top(held), l) in rel) && Nested(held + [l], ev[1..], rel)
     case Release(l) => held != [] && Top(held) == l && Nested(Popped(held), ev[1..], rel))
  }

  ghost predicate AllNestIn(ts: Threads, rel: set<Nesting>) {
    forall t :: 0 <= t < |ts| ==> Nested([], ts[t], rel)
  }

  // ----- The held stack is a path of the relation -----

  ghost predicate Chain(held: seq<Name>, rel: set<Nesting>) {
    forall j :: 0 <= j < |held| - 1 ==> (held[j], held[j + 1]) in rel
  }

  lemma {:induction false} HeldIsChain(held: seq<Name>, ev: seq<Event>, k: nat, rel: set<Nesting>)
    requires Nested(held, ev, rel) && Chain(held, rel) && k <= |ev|
    ensures Chain(After(held, ev[..k]), rel)
    ensures Nested(After(held, ev[..k]), ev[k..], rel)
    decreases k
  {
    if k == 0 {
      assert ev[..0] == [] && ev[0..] == ev;
    } else {
      assert ev[..k][0] == ev[0] && ev[..k][1..] == ev[1..][..k - 1] && ev[k..] == ev[1..][k - 1..];
      HeldIsChain(AfterEvent(held, ev[0]), ev[1..], k - 1, rel);
    }
  }

  function Outers(rel: set<Nesting>): set<Name> {
    set n | n in rel :: n.0
  }

  function Inners(rel: set<Nesting>, a: Name): set<Name> {
    set n | n in rel && n.0 == a :: n.1
  }

  function RelGraph(rel: set<Nesting>): Graph<Name> {
    map a | a in Outers(rel) :: Inners(rel, a)
  }

  lemma RelEdge(rel: set<Nesting>, a: Name, b: Name)
    ensures b in Succ(RelGraph(rel), a) <==> (a, b) in rel
  {
    if (a, b) in rel {
      assert a in RelGraph(rel);
    }
    if b in Succ(RelGraph(rel), a) {
      var n :| n in rel && n.0 == a && n.1 == b;
      assert n == (a, b);
    }
  }

  /** From a held lock to the lock wanted there is a path of at least one nesting. */
  lemma HeldLeadsToWanted(held: seq<Name>, j: nat, l: Name, rel: set<Nesting>)
    requires Chain(held, rel) && j < |held| && (Top(held), l) in rel
    ensures IsWalkFrom(RelGraph(rel), held[j..] + [l], held[j], l) && |held[j..] + [l]| > 1
  {
    var p := held[j..] + [l];
    forall i | 0 <= i < |p| - 1
      ensures p[i + 1] in Succ(RelGraph(rel), p[i])
    {
      RelEdge(rel, p[i], p[i + 1]);
      if i < |p| - 2 {
        assert (held[j + i], held[j + i + 1]) in rel;
      }
    }
  }

  lemma WaiterIsStep(ts: Threads, pcs: Counters, t: nat, x: Name, l: Name, rel: set<Nesting>) returns (p: seq<Name>)
    requires InRange(ts, pcs) && t < |ts| && Nested([], ts[t], rel)
    requires x in Holds(ts, pcs, t) && Wants(ts, pcs, t, l)
    ensures IsWalkFrom(RelGraph(rel), p, x, l) && |p| > 1
    ensures x == Top(Holds(ts, pcs, t)) ==> (x, l) in rel
  {
    var k := pcs[t];
    HeldIsChain([], ts[t], k, rel);
    var held := Holds(ts, pcs, t);
    assert ts[t][k..][0] == Acquire(l);
    assert (Top(held), l) in rel;
    var j :| 0 <= j < |held| && held[j] == x;
    HeldLeadsToWanted(held, j, l, rel);
    p := held[j..] + [l];
  }

  // ----- No deadlock -----

  /** Passing the two rules, no two threads each wait for the other's innermost lock. */
  lemma NoMutualWait(ts: Threads, pcs: Counters, t: nat, u: nat, found: set<Nesting>, declared: set<Nesting>)
    requires PassesRules(found, declared) && AllNestIn(ts, found) && InRange(ts, pcs) && t < |ts| && u < |ts|
    requires Holds(ts, pcs, t) != [] && Holds(ts, pcs, u) != []
    ensures !(Wants(ts, pcs, t, Top(Holds(ts, pcs, u))) && Wants(ts, pcs, u, Top(Holds(ts, pcs, t))))
  {
    var x, y := Top(Holds(ts, pcs, t)), Top(Holds(ts, pcs, u));
    if Wants(ts, pcs, t, y) && Wants(ts, pcs, u, x) {
      assert Nested([], ts[t], found) && Nested([], ts[u], found);
      var p := WaiterIsStep(ts, pcs, t, x, y, found);
      var q := WaiterIsStep(ts, pcs, u, y, x, found);
    }
  }

  /** No nesting leads back to where it started. */
  ghost predicate Acyclic(rel: set<Nesting>) {
    forall p {:trigger IsWalk(RelGraph(rel), p)} :: IsWalk(RelGraph(rel), p) && |p| > 1 ==> p[0] != p[|p| - 1]
  }

  lemma {:induction false} RingWalk(ts: Threads, pcs: Counters, ring: seq<nat>, locks: seq<Name>, k: nat, rel: set<Nesting>)
    returns (p: seq<Name>)
    requires InRange(ts, pcs) && AllNestIn(ts, rel) && CircularWait(ts, pcs, ring, locks) && 0 < k < |ring|
    ensures IsWalkFrom(RelGraph(rel), p, locks[0], locks[k]) && |p| > 1
  {
    assert WaitsAt(ts, pcs, ring, locks, k - 1) && WaitsAt(ts, pcs, ring, locks, k);
    assert Nested([], ts[ring[k]], rel);
    var q := WaiterIsStep(ts, pcs, ring[k], locks[k - 1], locks[k], rel);
    if k == 1 {
      p := q;
    } else {
      var r := RingWalk(ts, pcs, ring, locks, k - 1, rel);
      JoinWalks(RelGraph(rel), r, q);
      p := r[..|r| - 1] + q;
    }
  }

  /** With an acyclic relation no circular wait of any length exists. */
  lemma NoCircularWait(ts: Threads, pcs: Counters, ring: seq<nat>, locks: seq<Name>, rel: set<Nesting>)
    requires Acyclic(rel) && AllNestIn(ts, rel) && InRange(ts, pcs)
    ensures !CircularWait(ts, pcs, ring, locks)
  {
    if CircularWait(ts, pcs, ring, locks) {
      var n := |ring|;
      assert WaitsAt(ts, pcs, ring, locks, n - 1) && WaitsAt(ts, pcs, ring, locks, 0);
      assert Nested([], ts[ring[0]], rel);
      var q := WaiterIsStep(ts, pcs, ring[0], locks[n - 1], locks[0], rel);
      if n > 1 {
        var r := RingWalk(ts, pcs, ring, locks, n - 1, rel);
        JoinWalks(RelGraph(rel), r, q);
      }
    }
  }

  // ----- And only then -----

  ghost predicate DistinctButEnds(p: seq<Name>) {
    forall i, j :: 0 <= i < j < |p| - 1 ==> p[i] != p[j]
  }

  /** A cycle contains one that repeats no lock. */
  lemma {:induction false} SimpleCycle(g: Graph<Name>, p: seq<Name>) returns (q: seq<Name>)
    requires IsWalk(g, p) && |p| > 1 && p[0] == p[|p| - 1]
    ensures IsWalk(g, q) && |q| > 1 && q[0] == q[|q| - 1] && DistinctButEnds(q)
    decreases |p|
  {
    if i, j :| 0 <= i < j < |p| - 1 && p[i] == p[j] {
      Subwalk(g, p, i, j + 1);
      q := SimpleCycle(g, p[i..j + 1]);
    } else {
      q := p;
    }
  }

  /** Thread `i` takes the `i`-th lock of the cycle and then wants the next. */
  ghost function CycleThreads(q: seq<Name>): Threads
    requires |q| > 1
  {
    seq(|q| - 1, i requires 0 <= i < |q| - 1 => [Acquire(q[i]), Acquire(q[i + 1])])
  }

  ghost function Ones(n: nat, k: nat): Counters {
    seq(n, i => if i < k then 1 else 0)
  }

  ghost function UpTo(k: nat): seq<nat> {
    seq(k, i => i)
  }

  lemma CycleHolds(q: seq<Name>, k: nat, t: nat)
    requires |q| > 1 && k <= |q| - 1 && t < |q| - 1
    ensures InRange(CycleThreads(q), Ones(|q| - 1, k))
    ensures Holds(CycleThreads(q), Ones(|q| - 1, k), t) == if t < k then [q[t]] else []
  {
    var ts, pcs := CycleThreads(q), Ones(|q| - 1, k);
    if t < k {
      assert ts[t][..1] == [Acquire(q[t])];
      assert After([], [Acquire(q[t])]) == After([q[t]], []);
    } else {
      assert ts[t][..0] == [];
    }
  }

  lemma {:induction false} CycleReaches(q: seq<Name>, k: nat)
    requires |q| > 1 && DistinctButEnds(q) && k <= |q| - 1
    ensures Reaches(CycleThreads(q), UpTo(k), Ones(|q| - 1, k))
  {
    var ts, n := CycleThreads(q), |q| - 1;
    CycleHolds(q, k, 0);
    if k > 0 {
      CycleReaches(q, k - 1);
      CycleHolds(q, k - 1, 0);
      assert UpTo(k)[..k - 1] == UpTo(k - 1);
      assert Ones(n, k)[k - 1 := 0] == Ones(n, k - 1);
      forall u: nat {:trigger Holds(ts, Ones(n, k - 1), u)} | u < n
        ensures q[k - 1] !in Holds(ts, Ones(n, k - 1), u)
      {
        CycleHolds(q, k - 1, u);
      }
      assert Enabled(ts, Ones(n, k - 1), k - 1);
    }
  }

  lemma CycleNests(q: seq<Name>, rel: set<Nesting>, t: nat)
    requires IsWalk(RelGraph(rel), q) && |q| > 1 && t < |q| - 1
    ensures Nested([], CycleThreads(q)[t], rel)
  {
    assert q[t + 1] in Succ(RelGraph(rel), q[t]);
    RelEdge(rel, q[t], q[t + 1]);
    var ev := [Acquire(q[t]), Acquire(q[t + 1])];
    assert ev[1..] == [Acquire(q[t + 1])];
    assert ev[1..][1..] == [];
    assert Nested([q[t]], ev[1..], rel);
    assert [] + [q[t]] == [q[t]];
    assert Nested([], ev, rel);
  }

  lemma CycleWaits(q: seq<Name>)
    requires |q| > 1 && q[0] == q[|q| - 1] && InRange(CycleThreads(q), Ones(|q| - 1, |q| - 1))
    ensures CircularWait(CycleThreads(q), Ones(|q| - 1, |q| - 1), UpTo(|q| - 1), q[1..])
  {
    var ts, n := CycleThreads(q), |q| - 1;
    forall k | 0 <= k < n
      ensures WaitsAt(ts, Ones(n, n), UpTo(n), q[1..], k)
    {
      CycleHolds(q, n, if k + 1 < n then k + 1 else 0);
    }
  }

  /** Threads that nest only as `rel` says can reach a circular wait. */
  ghost predicate CanDeadlock(rel: set<Nesting>) {
    exists ts: Threads, schedule, pcs, ring, locks ::
      AllNestIn(ts, rel) && Reaches(ts, schedule, pcs) && CircularWait(ts, pcs, ring, locks)
  }

  /** DEADLOCK EXACTLY WHEN CYCLIC: threads whose locks nest as `rel` says can reach a circular
      wait if and only if `rel` has a cycle. */
  lemma DeadlockExactlyWhenCyclic(rel: set<Nesting>)
    ensures CanDeadlock(rel) <==> !Acyclic(rel)
  {
    if !Acyclic(rel) {
      var p :| IsWalk(RelGraph(rel), p) && |p| > 1 && p[0] == p[|p| - 1];
      var q := SimpleCycle(RelGraph(rel), p);
      var ts, n := CycleThreads(q), |q| - 1;
      forall t | 0 <= t < |ts|
        ensures Nested([], ts[t], rel)
      {
        CycleNests(q, rel, t);
      }
      CycleReaches(q, n);
      CycleHolds(q, n, 0);
      CycleWaits(q);
      assert AllNestIn(ts, rel) && Reaches(ts, UpTo(n), Ones(n, n)) && CircularWait(ts, Ones(n, n), UpTo(n), q[1..]);
    }
    if CanDeadlock(rel) {
      var ts: Threads, schedule, pcs, ring, locks :|
        AllNestIn(ts, rel) && Reaches(ts, schedule, pcs) && CircularWait(ts, pcs, ring, locks);
      if Acyclic(rel) {
        NoCircularWait(ts, pcs, ring, locks, rel);
      }
    }
  }

  // ----- The checker's answer -----

  /** No lock is taken while it is held. */
  ghost predicate NoReacquire(held: seq<Name>, ev: seq<Event>)
    decreases |ev|
  {
    ev == [] || ((ev[0].Acquire? ==> ev[0].lock !in held) && NoReacquire(AfterEvent(held, ev[0]), ev[1..]))
  }

  lemma {:induction false} CoveredIsNested(held: seq<Name>, ev: seq<Event>, found: iset<Nesting>, rel: set<Nesting>, open: iset<Name>)
    requires Covered(held, ev, found, open) && NoReacquire(held, ev) && forall n :: n in found ==> n in rel
    ensures Nested(held, ev, rel)
    decreases |ev|
  {
    if ev != [] {
      CoveredIsNested(AfterEvent(held, ev[0]), ev[1..], found, rel, open);
    }
  }

  /** The events of calls made one after the other. */
  ghost function CallsTrace(p: Program, calls: seq<Run>): seq<Event>
    requires forall k :: 0 <= k < |calls| ==> IsRun(p, calls[k])
    decreases |calls|
  {
    if calls == [] then [] else RunTrace(p, calls[0]) + CallsTrace(p, calls[1..])
  }

  ghost predicate AreCalls(p: Program, calls: seq<Run>) {
    forall k :: 0 <= k < |calls| ==> IsRun(p, calls[k])
  }

  /** Threads that each make any number of calls, one after the other, and take no lock they hold. */
  ghost predicate MakeCalls(p: Program, ts: Threads, calls: seq<seq<Run>>) {
    |calls| == |ts| && forall t :: 0 <= t < |ts| ==> MakesCalls(p, ts[t], calls[t])
  }

  ghost predicate MakesCalls(p: Program, ev: seq<Event>, calls: seq<Run>) {
    AreCalls(p, calls) && ev == CallsTrace(p, calls) && NoReacquire([], ev)
  }

  lemma {:induction false} CallsCovered(a: Analysis, calls: seq<Run>)
    requires Analysed(a) && BlindSpotsFound(a) && AreCalls(a.p, calls)
    ensures Covered([], CallsTrace(a.p, calls), Found(a), iset l: Name | l.text == l.text) && After([], CallsTrace(a.p, calls)) == []
    decreases |calls|
  {
    hide Analysed, BlindSpotsFound, Covered, After;
    var every := iset l: Name | l.text == l.text;
    NothingCovered([], Found(a), every);
    if calls != [] {
      NestingsAreFound(a);
      BracketsOf(a);
      RunCovered(a.p, Found(a), calls[0]);
      CoveredAbove([], [], RunTrace(a.p, calls[0]), Found(a), OpenOf(a.p, calls[0].fn), every);
      CallsCovered(a, calls[1..]);
      Join([], RunTrace(a.p, calls[0]), CallsTrace(a.p, calls[1..]), Found(a), every);
    }
  }

  lemma NestingsAreFound(a: Analysis)
    requires Analysed(a) && BlindSpotsFound(a)
    ensures forall n :: CanNest(a.p, n) ==> n in Found(a)
  {
    hide Analysed, BlindSpotsFound, AllRunsNest;
    CheckerSeesExactly(a);
    BracketsOf(a);
    RunsNestExactly(a.p, Found(a));
  }

  /** Threads calling functions of a program whose blind spots are found nest only as declared. */
  lemma AnalysedNest(a: Analysis, rel: set<Nesting>, ts: Threads, calls: seq<seq<Run>>)
    requires Analysed(a) && BlindSpotsFound(a) && a.found <= rel && MakeCalls(a.p, ts, calls)
    ensures AllNestIn(ts, rel)
  {
    hide Analysed, BlindSpotsFound;
    forall t | 0 <= t < |ts|
      ensures Nested([], ts[t], rel)
    {
      assert MakesCalls(a.p, ts[t], calls[t]);
      CallsCovered(a, calls[t]);
      CoveredIsNested([], ts[t], Found(a), rel, iset l: Name | l.text == l.text);
    }
  }

  /** The two rules alone already rule out two threads waiting for each other's innermost lock. */
  lemma CheckedNeverMutuallyWait(a: Analysis, declared: set<Nesting>, ts: Threads, calls: seq<seq<Run>>,
                                 schedule: seq<nat>, pcs: Counters, t: nat, u: nat)
    requires Analysed(a) && BlindSpotsFound(a) && PassesRules(a.found, declared) && MakeCalls(a.p, ts, calls)
    requires Reaches(ts, schedule, pcs) && t < |ts| && u < |ts|
    requires Holds(ts, pcs, t) != [] && Holds(ts, pcs, u) != []
    ensures !(Wants(ts, pcs, t, Top(Holds(ts, pcs, u))) && Wants(ts, pcs, u, Top(Holds(ts, pcs, t))))
  {
    hide Analysed, BlindSpotsFound;
    AnalysedNest(a, a.found, ts, calls);
    NoMutualWait(ts, pcs, t, u, a.found, declared);
  }

  /** THE CHECKER'S THEOREM: when the closure converged, every way through a body drops what it
      took, the blind spots are found, both rules pass and the declared order has no cycle,
      then threads calling any functions of the program, any number of times and interleaved
      in any way, never reach a circular wait. */
  lemma CheckedNeverDeadlocks(a: Analysis, declared: set<Nesting>, ts: Threads, calls: seq<seq<Run>>,
                              schedule: seq<nat>, pcs: Counters, ring: seq<nat>, locks: seq<Name>)
    requires Analysed(a) && BlindSpotsFound(a) && PassesRules(a.found, declared) && Acyclic(declared)
    requires MakeCalls(a.p, ts, calls) && Reaches(ts, schedule, pcs)
    ensures !CircularWait(ts, pcs, ring, locks)
  {
    hide Analysed, BlindSpotsFound, Acyclic;
    AnalysedNest(a, declared, ts, calls);
    NoCircularWait(ts, pcs, ring, locks, declared);
  }

  /** The two rules alone look only at pairs: three locks nested in a ring pass both. */
  lemma RulesAloneAllowRings()
    ensures var x, y, z := Name("x"), Name("y"), Name("z");
            var ring := {(x, y), (y, z), (z, x)};
            PassesRules(ring, ring) && CanDeadlock(ring)
  {
    var x, y, z := Name("x"), Name("y"), Name("z");
    var ring := {(x, y), (y, z), (z, x)};
    assert x.text[0] != y.text[0] && y.text[0] != z.text[0] && z.text[0] != x.text[0];
    RelEdge(ring, x, y);
    RelEdge(ring, y, z);
    RelEdge(ring, z, x);
    var p := [x, y, z, x];
    assert IsWalk(RelGraph(ring), p);
    DeadlockExactlyWhenCyclic(ring);
  }
}
