/** What an early return hides from the lock-order checker. */
module LockEarlyReturn {
  import opened Graphs
  import opened LockClosure
  import opened LockNestings
  import opened LockRuns
  import opened LockBlindness
  import opened LockThreads

  /** Threads calling functions of the program can reach a circular wait. */
  ghost predicate CallsCanDeadlock(p: Program) {
    exists ts: Threads, calls, schedule, pcs, ring, locks ::
      MakeCalls(p, ts, calls) && Reaches(ts, schedule, pcs) && CircularWait(ts, pcs, ring, locks)
  }

  function TakeLine(a: Name): Line {
    Line([a], false, [], [], false)
  }

  function DropLine(a: Name): Line {
    Line([], false, [], [a], false)
  }

  /** Take `a`; drop it and return, or go on, take and drop `b`, and drop `a`. */
  function NestBody(a: Name, b: Name): Body {
    [TakeLine(a), DropLine(a), TakeLine(b), DropLine(b), DropLine(a)]
  }

  function NestCode(a: Name, b: Name): Code {
    Do(Take(a), Exit(Do(Drop(a), End), Do(Take(b), Do(Drop(b), Do(Drop(a), End)))))
  }

  /** Two such functions, in opposite order; the checker finds no nesting in either. */
  function Opposite(f: Name, g: Name, x: Name, y: Name): Analysis {
    Analysis(Program(map[f := [NestBody(x, y)], g := [NestBody(y, x)]],
                     map[f := [NestCode(x, y)], g := [NestCode(y, x)]], map[]),
             {x, y}, map[f := {x, y}, g := {x, y}], {})
  }

  lemma LineOfOne(held: seq<Name>, a: Name, known: set<Name>, takes: Takes)
    requires a in known
    ensures LineSteps(TakeLine(a), known) == [Take(a)] && LineSteps(DropLine(a), known) == [Drop(a)]
    ensures AfterLine(held, TakeLine(a), known) == held + [a] && AfterLine(held, DropLine(a), known) == Popped(held)
    ensures LineNestings(held, TakeLine(a), takes, known) == if held == [] then {} else {(Top(held), a)}
    ensures LineNestings(held, DropLine(a), takes, known) == {}
  {
    assert [a][1..] == [];
    assert TakeSteps([a], known) == [Take(a)] + TakeSteps([], known) && DropSteps([a], known) == [Drop(a)] + DropSteps([], known);
    assert TakeSteps([], known) == [] && DropSteps([], known) == [] && CallSteps([]) == [];
    assert AfterTakes(held, [a], known) == AfterTakes(held + [a], [], known);
    assert AfterDrops(held, [a], known) == AfterDrops(Popped(held), [], known);
    assert TakeNestings(held + [a], [], known) == {};
    assert CallNestings(held + [a], [], takes) == {} && CallNestings(held, [], takes) == {};
  }

  lemma NestSteps(a: Name, b: Name, known: set<Name>)
    requires a in known && b in known
    ensures BodySteps(NestBody(a, b), known) == Text(NestCode(a, b))
  {
    hide LineSteps;
    var body := NestBody(a, b);
    LineOfOne([], a, known, map[]);
    LineOfOne([], b, known, map[]);
    assert body[1..] == [DropLine(a), TakeLine(b), DropLine(b), DropLine(a)];
    assert body[1..][1..] == [TakeLine(b), DropLine(b), DropLine(a)];
    assert body[1..][1..][1..] == [DropLine(b), DropLine(a)];
    assert body[1..][1..][1..][1..] == [DropLine(a)];
    assert BodySteps([DropLine(a)], known) == [Drop(a)];
    assert BodySteps([DropLine(b), DropLine(a)], known) == [Drop(b), Drop(a)];
    assert BodySteps(body[1..][1..], known) == [Take(b), Drop(b), Drop(a)];
    assert BodySteps(body[1..], known) == [Drop(a), Take(b), Drop(b), Drop(a)];
    var code := NestCode(a, b);
    assert Text(End) == [] && Text(Do(Drop(a), End)) == [Drop(a)] + [];
    assert Text(Do(Drop(b), Do(Drop(a), End))) == [Drop(b)] + [Drop(a)];
    assert Text(code.rest) == [Drop(a)] + [Take(b), Drop(b), Drop(a)];
  }

  lemma NestIsMissed(a: Name, b: Name, known: set<Name>, takes: Takes)
    requires a in known && b in known
    ensures BodyNestings([], NestBody(a, b), takes, known) == {}
  {
    hide LineNestings, AfterLine;
    var body := NestBody(a, b);
    LineOfOne([], a, known, takes);
    LineOfOne([], b, known, takes);
    LineOfOne([a], a, known, takes);
    LineOfOne([b], b, known, takes);
    assert [] + [a] == [a] && [] + [b] == [b];
    assert body[1..] == [DropLine(a), TakeLine(b), DropLine(b), DropLine(a)];
    assert body[1..][1..] == [TakeLine(b), DropLine(b), DropLine(a)];
    assert body[1..][1..][1..] == [DropLine(b), DropLine(a)];
    assert body[1..][1..][1..][1..] == [DropLine(a)];
    assert BodyNestings([], [DropLine(a)], takes, known) == {};
    assert BodyNestings([b], [DropLine(b), DropLine(a)], takes, known) == {};
    assert BodyNestings([], body[1..][1..], takes, known) == {};
  }

  lemma NestBrackets(p: Program, a: Name, b: Name)
    ensures Brackets(p, [], NestCode(a, b), [])
  {
    assert [] + [a] == [a] && Popped([a, b]) == [a];
    assert Brackets(p, [a, b], Do(Drop(b), Do(Drop(a), End)), []);
    assert Brackets(p, [a], Do(Take(b), Do(Drop(b), Do(Drop(a), End))), []);
  }

  /** Going on past the early return. */
  function GoOn(f: Name): Run {
    Run(f, 0, Next(Pass(Next(Next(Next(Stop))))))
  }

  lemma NestTrace(p: Program, f: Name, a: Name, b: Name)
    requires f in p.codes && f !in p.wrappers && p.codes[f] == [NestCode(a, b)]
    ensures IsRun(p, GoOn(f))
    ensures RunTrace(p, GoOn(f)) == [Acquire(a), Acquire(b), Release(b), Release(a)]
  {
    var code := NestCode(a, b);
    assert IsPath(p, code.rest.rest, Next(Next(Next(Stop))));
    assert Trace(p, code.rest.rest, Next(Next(Next(Stop)))) == [Acquire(b), Release(b), Release(a)];
  }

  lemma OppositeIsClosed(f: Name, g: Name, x: Name, y: Name)
    requires f != g && x != y
    ensures var a := Opposite(f, g, x, y);
            HasDirect(a.p.bodies, a.known, a.takes) && ClosedOn(a.p.bodies, a.takes, a.p.bodies.Keys)
  {
    var a := Opposite(f, g, x, y);
    forall h | h in a.p.bodies
      ensures Callees(a.p.bodies, h) == {}
    {
      assert forall i :: 0 <= i < 5 ==> NestBody(x, y)[i].calls == [] && NestBody(y, x)[i].calls == [];
    }
    forall h | h in a.p.bodies
      ensures Direct(a.p.bodies, a.known, h) <= {x, y}
    {
      assert forall i :: 0 <= i < 5 ==> !NestBody(x, y)[i].ipcTake && !NestBody(y, x)[i].ipcTake;
    }
  }

  lemma OppositeShowsNothing(f: Name, g: Name, x: Name, y: Name, n: Nesting)
    requires f != g && x != y
    ensures var a := Opposite(f, g, x, y); !Shown(a.p.bodies, a.takes, a.known, n)
  {
    hide BodyNestings, NestBody, NestCode;
    var a := Opposite(f, g, x, y);
    NestIsMissed(x, y, a.known, a.takes);
    NestIsMissed(y, x, a.known, a.takes);
  }

  lemma OppositeIsAnalysed(f: Name, g: Name, x: Name, y: Name)
    requires f != g && x != y
    ensures Analysed(Opposite(f, g, x, y))
  {
    hide Shown, BodySteps, Text, Brackets, HasDirect, ClosedOn, NestBody, NestCode;
    var a := Opposite(f, g, x, y);
    OppositeIsClosed(f, g, x, y);
    NestSteps(x, y, a.known);
    NestSteps(y, x, a.known);
    forall n
      ensures !Shown(a.p.bodies, a.takes, a.known, n)
    {
      OppositeShowsNothing(f, g, x, y, n);
    }
    NestBrackets(a.p, x, y);
    NestBrackets(a.p, y, x);
  }

  /** EARLY RETURNS HIDE A DEADLOCK: two functions that each drop their lock on an early return and
      otherwise take the other's under it pass the checker with nothing declared, and two
      threads calling them can wait for each other. */
  lemma EarlyReturnsHideADeadlock(f: Name, g: Name, x: Name, y: Name)
    requires f != g && x != y
    ensures var a := Opposite(f, g, x, y);
            && Analysed(a) && a.known != {} && EveryLockSeen(a.p.bodies, a.takes, a.known) && PassesRules(a.found, {})
            && !BlindSpotsFound(a) && CallsCanDeadlock(a.p)
  {
    hide Analysed, BlindSpotsFound, NestCode, NestBody, GoOn;
    var a := Opposite(f, g, x, y);
    OppositeIsAnalysed(f, g, x, y);
    assert f in a.takes && x in a.takes[f] && y in a.takes[f];
    NestTrace(a.p, f, x, y);
    NestTrace(a.p, g, y, x);
    OppositeDeadlocks(a.p, f, g, x, y);
    if BlindSpotsFound(a) {
      NoDeadlockOf(a);
    }
  }

  /** With nothing found and nothing hidden there is no deadlock. */
  lemma NoDeadlockOf(a: Analysis)
    requires Analysed(a) && BlindSpotsFound(a) && a.found == {}
    ensures !CallsCanDeadlock(a.p)
  {
    hide Analysed, BlindSpotsFound;
    forall ts: Threads, calls, schedule, pcs, ring, locks | MakeCalls(a.p, ts, calls) && Reaches(ts, schedule, pcs)
      ensures !CircularWait(ts, pcs, ring, locks)
    {
      NothingIsAcyclic();
      CheckedNeverDeadlocks(a, {}, ts, calls, schedule, pcs, ring, locks);
    }
  }

  lemma NothingIsAcyclic()
    ensures Acyclic({})
  {
    forall p: seq<Name> | |p| > 1
      ensures !IsWalk(RelGraph({}), p)
    {
      assert Succ(RelGraph({}), p[0]) == {};
      assert p[0 + 1] !in Succ(RelGraph({}), p[0]);
    }
  }

  lemma OppositeDeadlocks(p: Program, f: Name, g: Name, x: Name, y: Name)
    requires x != y && IsRun(p, GoOn(f)) && IsRun(p, GoOn(g))
    requires RunTrace(p, GoOn(f)) == [Acquire(x), Acquire(y), Release(y), Release(x)]
    requires RunTrace(p, GoOn(g)) == [Acquire(y), Acquire(x), Release(x), Release(y)]
    ensures CallsCanDeadlock(p)
  {
    hide RunTrace, IsRun;
    var e, e' := RunTrace(p, GoOn(f)), RunTrace(p, GoOn(g));
    var ts: Threads, calls := [e, e'], [[GoOn(f)], [GoOn(g)]];
    OneCall(p, GoOn(f), x, y);
    OneCall(p, GoOn(g), y, x);
    assert MakeCalls(p, ts, calls);
    TwoSteps(ts, x, y);
    var pcs: Counters, ring: seq<nat>, locks := [1, 1], [0, 1], [y, x];
    assert CircularWait(ts, pcs, ring, locks);
  }

  lemma OneCall(p: Program, r: Run, x: Name, y: Name)
    requires x != y && IsRun(p, r) && RunTrace(p, r) == [Acquire(x), Acquire(y), Release(y), Release(x)]
    ensures MakesCalls(p, RunTrace(p, r), [r])
  {
    hide RunTrace, IsRun, NoReacquire;
    assert [r][1..] == [];
    assert CallsTrace(p, [r]) == RunTrace(p, r) + [];
    TakesNoneTwice(x, y);
  }

  lemma TakesNoneTwice(x: Name, y: Name)
    requires x != y
    ensures NoReacquire([], [Acquire(x), Acquire(y), Release(y), Release(x)])
  {
    hide NoReacquire;
    assert [] + [x] == [x] && [x] + [y] == [x, y] && Popped([x, y]) == [x];
    NoReacquireNone([]);
    NoReacquireMore([x], Release(x), []);
    assert [Release(x)] + [] == [Release(x)];
    NoReacquireMore([x, y], Release(y), [Release(x)]);
    NoReacquireMore([x], Acquire(y), [Release(y), Release(x)]);
    NoReacquireMore([], Acquire(x), [Acquire(y), Release(y), Release(x)]);
    assert [Release(y)] + [Release(x)] == [Release(y), Release(x)];
    assert [Acquire(y)] + [Release(y), Release(x)] == [Acquire(y), Release(y), Release(x)];
    assert [Acquire(x)] + [Acquire(y), Release(y), Release(x)] == [Acquire(x), Acquire(y), Release(y), Release(x)];
  }

  lemma NoReacquireNone(held: seq<Name>)
    ensures NoReacquire(held, [])
  {
  }

  lemma NoReacquireMore(held: seq<Name>, e: Event, ev: seq<Event>)
    requires e.Acquire? ==> e.lock !in held
    requires NoReacquire(AfterEvent(held, e), ev)
    ensures NoReacquire(held, [e] + ev)
  {
    assert ([e] + ev)[1..] == ev;
  }

  lemma FirstHeld(ts: Threads, pcs: Counters, t: nat, l: Name)
    requires InRange(ts, pcs) && t < |ts| && pcs[t] <= 1 && ts[t] != [] && ts[t][0] == Acquire(l)
    ensures Holds(ts, pcs, t) == if pcs[t] == 1 then [l] else []
  {
    if pcs[t] == 1 {
      assert ts[t][..1] == [Acquire(l)] && [Acquire(l)][1..] == [];
      assert After([], [Acquire(l)]) == After([] + [l], []);
    }
  }

  lemma TwoSteps(ts: Threads, x: Name, y: Name)
    requires x != y && |ts| == 2 && |ts[0]| > 1 && |ts[1]| > 1 && ts[0][0] == Acquire(x) && ts[1][0] == Acquire(y)
    ensures Reaches(ts, [0, 1], [1, 1]) && Holds(ts, [1, 1], 0) == [x] && Holds(ts, [1, 1], 1) == [y]
  {
    hide Holds;
    var zero: Counters, one: Counters, both: Counters := [0, 0], [1, 0], [1, 1];
    assert one[0 := 0] == zero && both[1 := 0] == one;
    FirstHeld(ts, zero, 0, x);
    FirstHeld(ts, zero, 1, y);
    FirstHeld(ts, one, 0, x);
    FirstHeld(ts, one, 1, y);
    FirstHeld(ts, both, 0, x);
    FirstHeld(ts, both, 1, y);
    var s0: seq<nat>, s1: seq<nat> := [0], [0, 1];
    assert s0[..0] == [] && s1[..1] == s0;
    assert Reaches(ts, [], zero);
    assert Enabled(ts, zero, 0);
    assert Reaches(ts, s0, one);
    assert Enabled(ts, one, 1);
  }
}
