/** Where the lock-order checker sees what the code does, and where it is blind. Its one straight
    pass pops a lock at every drop, so after a branch that returns early it holds less than the
    code does, and a lock taken through a wrapper it does not hold at all. */
module LockBlindness {
  import opened Graphs
  import opened LockClosure
  import opened LockNestings
  import opened LockRuns

  // ----- Every moment is one of a run -----

  /** The straight way through: no call made, no branch entered. */
  function Straight(code: Code): Path {
    match code
    case End => Stop
    case Do(_, rest) => Next(Straight(rest))
    case Exit(_, rest) => Pass(Straight(rest))
    case Maybe(_, rest) => Pass(Straight(rest))
  }

  lemma {:induction false} StraightIsPath(p: Program, code: Code)
    ensures IsPath(p, code, Straight(code))
  {
    if !code.End? {
      StraightIsPath(p, code.rest);
    }
  }

  /** Somewhere in the trace `l` is taken while exactly `at` is held. */
  ghost predicate Shows(held: seq<Name>, ev: seq<Event>, at: seq<Name>, l: Name) {
    exists k {:trigger ev[..k]} :: 0 <= k < |ev| && ev[k] == Acquire(l) && After(held, ev[..k]) == at
  }

  lemma ShowsFirst(held: seq<Name>, ev: seq<Event>, more: seq<Event>, at: seq<Name>, l: Name)
    requires Shows(held, ev, at, l)
    ensures Shows(held, ev + more, at, l)
  {
    var k :| 0 <= k < |ev| && ev[k] == Acquire(l) && After(held, ev[..k]) == at;
    assert (ev + more)[..k] == ev[..k];
  }

  lemma ShowsLater(held: seq<Name>, ev: seq<Event>, more: seq<Event>, at: seq<Name>, l: Name)
    requires Shows(After(held, ev), more, at, l)
    ensures Shows(held, ev + more, at, l)
  {
    var k :| 0 <= k < |more| && more[k] == Acquire(l) && After(After(held, ev), more[..k]) == at;
    assert (ev + more)[..|ev| + k] == ev + more[..k];
    AfterConcat(held, ev, more[..k]);
  }

  lemma StepAfter(p: Program, held: seq<Name>, s: Step)
    ensures After(held, StepEvents(p, s)) == RealAfter(p, held, s)
  {
    var ev := StepEvents(p, s);
    if ev != [] {
      assert ev[1..] == [] && After(AfterEvent(held, ev[0]), []) == AfterEvent(held, ev[0]);
    }
  }

  /** What a callee shows over nothing it shows over whatever its caller holds. */
  lemma ShowsAbove(p: Program, held: seq<Name>, r: Run, l: Name)
    requires AllBracket(p) && IsRun(p, r) && Shows([], RunTrace(p, r), [], l)
    ensures Shows(held, RunTrace(p, r), held, l)
  {
    hide AllBracket, Covered, OpenWithin;
    var all := iset n: Nesting | CanNest(p, n) || (held != [] && n.0 == Top(held));
    var open := OpenOf(p, r.fn);
    var ev := RunTrace(p, r);
    RunCovered(p, all, r);
    var k :| 0 <= k < |ev| && ev[k] == Acquire(l) && After([], ev[..k]) == [];
    assert ev == ev[..k] + ev[k..];
    CoveredConcat([], ev[..k], ev[k..], all, open);
    CoveredAbove(held, [], ev[..k], all, open, open);
    assert held + [] == held;
  }

  lemma {:induction false} OpenRun(p: Program, n: nat, f: Name, l: Name) returns (r: Run)
    requires AllBracket(p) && (f, l) in OpenWithin(p, n)
    ensures IsRun(p, r) && r.fn == f && Shows([], RunTrace(p, r), [], l)
    decreases n, 0
  {
    assert Opens(p, OpenWithin(p, n - 1), f, l);
    var i, tool :| 0 <= i < |p.codes[f]| && Has(p, OpenWithin(p, n - 1), p.codes[f][i], [], [], Moment([], tool, l));
    var q := Witness(p, n - 1, p.codes[f][i], [], [], Moment([], tool, l));
    r := Run(f, i, q);
  }

  /** Every moment of the code is met on some way through it. */
  lemma {:induction false} Witness(p: Program, n: nat, code: Code, held: seq<Name>, tool: seq<Name>, m: Moment) returns (q: Path)
    requires AllBracket(p) && Has(p, OpenWithin(p, n), code, held, tool, m)
    ensures IsPath(p, code, q) && Shows(held, Trace(p, code, q), m.held, m.lock)
    decreases n, 2, code
  {
    hide AllBracket, OpenWithin, Shows;
    StraightIsPath(p, code.rest);
    match code
    case Do(s, rest) =>
      if m.held == held && m.tool == tool && MayTakeHere(p, OpenWithin(p, n), s, m.lock) {
        q := WitnessHere(p, n, code, held, m.lock);
      } else {
        var q' := Witness(p, n, rest, RealAfter(p, held, s), ToolAfter(tool, s), m);
        q := Next(q');
        StepAfter(p, held, s);
        ShowsLater(held, StepEvents(p, s), Trace(p, rest, q'), m.held, m.lock);
      }
    case Exit(branch, rest) =>
      if Has(p, OpenWithin(p, n), branch, held, tool, m) {
        var q' := Witness(p, n, branch, held, tool, m);
        q := Leave(q');
      } else {
        var q' := Witness(p, n, rest, held, ToolThrough(tool, Text(branch)), m);
        q := Pass(q');
      }
    case Maybe(branch, rest) =>
      if Has(p, OpenWithin(p, n), branch, held, tool, m) {
        var q' := Witness(p, n, branch, held, tool, m);
        q := Round(q', if Left(q') then Stop else Pass(Straight(rest)));
        ShowsFirst(held, Trace(p, branch, q'), if Left(q') then [] else Trace(p, code, q.rest), m.held, m.lock);
      } else {
        var q' := Witness(p, n, rest, held, ToolThrough(tool, Text(branch)), m);
        q := Pass(q');
      }
  }

  lemma WitnessHere(p: Program, n: nat, code: Code, held: seq<Name>, l: Name) returns (q: Path)
    requires AllBracket(p) && code.Do? && MayTakeHere(p, OpenWithin(p, n), code.step, l)
    ensures IsPath(p, code, q) && Shows(held, Trace(p, code, q), held, l)
    decreases n, 1
  {
    hide AllBracket, OpenWithin;
    var s := code.step;
    StraightIsPath(p, code.rest);
    var later := Trace(p, code.rest, Straight(code.rest));
    if s.Call? && s.fn !in p.wrappers {
      var r := OpenRun(p, n, s.fn, l);
      ShowsAbove(p, held, r, l);
      q := Made(r, Straight(code.rest));
      ShowsFirst(held, RunTrace(p, r), later, held, l);
    } else {
      q := Next(Straight(code.rest));
      var ev := StepEvents(p, s);
      assert ev[0] == Acquire(l) && ev[..0] == [] && After(held, ev[..0]) == held;
      ShowsFirst(held, ev, later, held, l);
    }
  }

  /** Every lock of the trace nests as `found` says. */
  ghost predicate NestsIn(ev: seq<Event>, found: iset<Nesting>) {
    exists open :: Covered([], ev, found, open)
  }

  ghost predicate AllRunsNest(p: Program, found: iset<Nesting>) {
    forall r {:trigger IsRun(p, r)} :: IsRun(p, r) ==> NestsIn(RunTrace(p, r), found)
  }

  lemma ShownIsCovered(ev: seq<Event>, found: iset<Nesting>, at: seq<Name>, l: Name)
    requires NestsIn(ev, found) && Shows([], ev, at, l) && at != [] && l !in at
    ensures (Top(at), l) in found
  {
    var open :| Covered([], ev, found, open);
    var k :| 0 <= k < |ev| && ev[k] == Acquire(l) && After([], ev[..k]) == at;
    assert ev == ev[..k] + ev[k..];
    CoveredConcat([], ev[..k], ev[k..], found, open);
    assert ev[k..][0] == Acquire(l);
  }

  /** THE NESTINGS OF ALL RUNS are exactly those that can be read off the control flow. */
  lemma RunsNestExactly(p: Program, found: iset<Nesting>)
    requires AllBracket(p)
    ensures AllRunsNest(p, found) <==> forall n :: CanNest(p, n) ==> n in found
  {
    hide AllBracket, OpenWithin, Covered, Shows;
    if forall n :: CanNest(p, n) ==> n in found {
      forall r | IsRun(p, r)
        ensures NestsIn(RunTrace(p, r), found)
      {
        RunCovered(p, found, r);
      }
    }
    if AllRunsNest(p, found) {
      forall n | CanNest(p, n)
        ensures n in found
      {
        var f, i: nat, m: Moment :| IsMoment(p, f, i, m) && m.held != [] && m.lock !in m.held && n == (Top(m.held), m.lock);
        var k := HasWithin(p, p.codes[f][i], [], [], m);
        var q := Witness(p, k, p.codes[f][i], [], [], m);
        assert IsRun(p, Run(f, i, q));
        ShownIsCovered(RunTrace(p, Run(f, i, q)), found, m.held, m.lock);
      }
    }
  }

  // ----- What the checker finds at a moment it sees -----

  /** The analysed program, the locks looked for, and the checker's results. */
  datatype Analysis = Analysis(p: Program, known: set<Name>, takes: Takes, found: set<Nesting>)

  ghost function Found(a: Analysis): iset<Nesting> {
    iset n | n in a.found
  }

  /** The control flow is that of the text. */
  ghost predicate IsText(p: Program, known: set<Name>) {
    && p.codes.Keys == p.bodies.Keys
    && (forall f :: f in p.bodies ==> |p.codes[f]| == |p.bodies[f]|)
    && (forall f, i :: f in p.bodies && 0 <= i < |p.bodies[f]| ==> Text(p.codes[f][i]) == BodySteps(p.bodies[f][i], known))
  }

  ghost predicate WrappersAre(p: Program, known: set<Name>) {
    forall c {:trigger c in p.wrappers} :: c in p.wrappers ==>
      && c in p.bodies && p.bodies[c] != []
      && forall i :: 0 <= i < |p.bodies[c]| ==>
           BodySteps(p.bodies[c][i], known) == [if p.wrappers[c].Taker? then Take(p.wrappers[c].lock) else Drop(p.wrappers[c].lock)]
  }

  /** The closure converged, every nesting shown was found, and every way through a body that is
      not a wrapper's drops what it took, innermost first. */
  ghost predicate Analysed(a: Analysis) {
    && HasDirect(a.p.bodies, a.known, a.takes) && ClosedOn(a.p.bodies, a.takes, a.p.bodies.Keys)
    && (forall n :: Shown(a.p.bodies, a.takes, a.known, n) ==> n in a.found)
    && IsText(a.p, a.known) && WrappersAre(a.p, a.known) && AllBracket(a.p)
  }

  ghost predicate ToolMayTake(takes: Takes, s: Step, l: Name) {
    match s
    case Take(m) => l == m
    case Drop(_) => false
    case Call(c) => l in Get(takes, c)
  }

  /** Somewhere in the text the checker holds `at` where it thinks `l` may be taken. */
  ghost predicate ToolSees(takes: Takes, tool: seq<Name>, steps: seq<Step>, at: seq<Name>, l: Name)
    decreases |steps|
  {
    steps != [] &&
    ((tool == at && ToolMayTake(takes, steps[0], l)) || ToolSees(takes, ToolAfter(tool, steps[0]), steps[1..], at, l))
  }

  lemma {:induction false} ToolSeesBoth(takes: Takes, tool: seq<Name>, steps: seq<Step>, more: seq<Step>, at: seq<Name>, l: Name)
    ensures ToolSees(takes, tool, steps + more, at, l) <==>
            ToolSees(takes, tool, steps, at, l) || ToolSees(takes, ToolThrough(tool, steps), more, at, l)
    decreases |steps|
  {
    if steps == [] {
      assert steps + more == more;
    } else {
      assert (steps + more)[1..] == steps[1..] + more && (steps + more)[0] == steps[0];
      ToolSeesBoth(takes, ToolAfter(tool, steps[0]), steps[1..], more, at, l);
    }
  }

  lemma {:induction false} TakesSeen(takes: Takes, held: seq<Name>, ls: seq<Name>, known: set<Name>, at: seq<Name>, l: Name)
    ensures ToolThrough(held, TakeSteps(ls, known)) == AfterTakes(held, ls, known)
    ensures ToolSees(takes, held, TakeSteps(ls, known), at, l) && at != [] ==> (Top(at), l) in TakeNestings(held, ls, known)
    decreases |ls|
  {
    if ls != [] {
      TakesSeen(takes, if ls[0] in known then held + [ls[0]] else held, ls[1..], known, at, l);
      if ls[0] in known {
        assert TakeSteps(ls, known)[1..] == TakeSteps(ls[1..], known);
      } else {
        assert TakeSteps(ls, known) == TakeSteps(ls[1..], known);
      }
    }
  }

  lemma {:induction false} CallsSeen(takes: Takes, held: seq<Name>, calls: seq<Name>, at: seq<Name>, l: Name)
    ensures ToolThrough(held, CallSteps(calls)) == held
    ensures ToolSees(takes, held, CallSteps(calls), at, l) && at != [] && l !in at ==> (Top(at), l) in CallNestings(held, calls, takes)
    decreases |calls|
  {
    if calls != [] {
      CallsSeen(takes, held, calls[1..], at, l);
      if calls[0] in LOCK_PRIMITIVES {
        assert CallSteps(calls) == CallSteps(calls[1..]);
      } else {
        assert CallSteps(calls)[1..] == CallSteps(calls[1..]) && CallSteps(calls)[0] == Call(calls[0]);
      }
    }
  }

  lemma {:induction false} DropsSeen(takes: Takes, held: seq<Name>, drops: seq<Name>, known: set<Name>, at: seq<Name>, l: Name)
    ensures ToolThrough(held, DropSteps(drops, known)) == AfterDrops(held, drops, known)
    ensures !ToolSees(takes, held, DropSteps(drops, known), at, l)
    decreases |drops|
  {
    if drops != [] {
      DropsSeen(takes, if drops[0] in known then Popped(held) else held, drops[1..], known, at, l);
      if drops[0] in known {
        assert DropSteps(drops, known)[1..] == DropSteps(drops[1..], known);
      } else {
        assert DropSteps(drops, known) == DropSteps(drops[1..], known);
      }
    }
  }

  lemma OneSeen(takes: Takes, held: seq<Name>, s: Step, at: seq<Name>, l: Name)
    ensures ToolThrough(held, [s]) == ToolAfter(held, s)
    ensures ToolSees(takes, held, [s], at, l) <==> held == at && ToolMayTake(takes, s, l)
  {
    assert [s][1..] == [];
  }

  lemma LineSeen(takes: Takes, held: seq<Name>, line: Line, known: set<Name>, at: seq<Name>, l: Name)
    ensures ToolThrough(held, LineSteps(line, known)) == AfterLine(held, line, known)
    ensures ToolSees(takes, held, LineSteps(line, known), at, l) && at != [] && l !in at ==>
              (Top(at), l) in LineNestings(held, line, takes, known)
  {
    hide ToolSees, ToolThrough, TakeNestings, CallNestings, AfterTakes, AfterDrops, TakeSteps, CallSteps, DropSteps;
    var s1, s3, s4 := TakeSteps(line.takes, known), CallSteps(line.calls), DropSteps(line.drops, known);
    var s2 := if line.ipcTake then [Take(ENDPOINT_LOCK)] else [];
    var s5 := if line.ipcDrop then [Drop(ENDPOINT_LOCK)] else [];
    assert LineSteps(line, known) == s1 + s2 + s3 + s4 + s5;
    var h1 := AfterTakes(held, line.takes, known);
    var h2 := AfterIpcTake(h1, line.ipcTake);
    var h4 := AfterDrops(h2, line.drops, known);
    TakesSeen(takes, held, line.takes, known, at, l);
    OneSeen(takes, h1, Take(ENDPOINT_LOCK), at, l);
    CallsSeen(takes, h2, line.calls, at, l);
    DropsSeen(takes, h2, line.drops, known, at, l);
    OneSeen(takes, h4, Drop(ENDPOINT_LOCK), at, l);
    NoneSeen(takes, h1, at, l);
    NoneSeen(takes, h4, at, l);
    ToolThroughBoth(held, s1, s2);
    ToolThroughBoth(held, s1 + s2, s3);
    ToolThroughBoth(held, s1 + s2 + s3, s4);
    ToolThroughBoth(held, s1 + s2 + s3 + s4, s5);
    ToolSeesBoth(takes, held, s1, s2, at, l);
    ToolSeesBoth(takes, held, s1 + s2, s3, at, l);
    ToolSeesBoth(takes, held, s1 + s2 + s3, s4, at, l);
    ToolSeesBoth(takes, held, s1 + s2 + s3 + s4, s5, at, l);
  }

  lemma NoneSeen(takes: Takes, held: seq<Name>, at: seq<Name>, l: Name)
    ensures ToolThrough(held, []) == held && !ToolSees(takes, held, [], at, l)
  {
  }

  /** What the checker sees in a text it finds there. */
  lemma {:induction false} BodySeen(takes: Takes, held: seq<Name>, body: Body, known: set<Name>, at: seq<Name>, l: Name)
    requires ToolSees(takes, held, BodySteps(body, known), at, l) && at != [] && l !in at
    ensures (Top(at), l) in BodyNestings(held, body, takes, known)
    decreases |body|
  {
    hide LineSteps, LineNestings, AfterLine, ToolThrough;
    if body == [] {
      NoneSeen(takes, held, at, l);
    } else {
      ToolSeesBoth(takes, held, LineSteps(body[0], known), BodySteps(body[1..], known), at, l);
      LineSeen(takes, held, body[0], known, at, l);
      if ToolSees(takes, AfterLine(held, body[0], known), BodySteps(body[1..], known), at, l) {
        BodySeen(takes, AfterLine(held, body[0], known), body[1..], known, at, l);
      }
    }
  }

  /** Every step that may take a lock may do so in the checker's eyes. */
  ghost predicate Overestimates(p: Program, open: Openings, takes: Takes) {
    && (forall c, l {:trigger (c, l) in open} :: (c, l) in open ==> l in Get(takes, c))
    && (forall c {:trigger c in p.wrappers} :: c in p.wrappers && p.wrappers[c].Taker? ==> p.wrappers[c].lock in Get(takes, c))
  }

  lemma {:induction false} HasIsSeen(p: Program, open: Openings, takes: Takes, code: Code, held: seq<Name>, tool: seq<Name>, m: Moment)
    requires Overestimates(p, open, takes) && Has(p, open, code, held, tool, m)
    ensures ToolSees(takes, tool, Text(code), m.tool, m.lock)
    decreases code
  {
    match code
    case Do(s, rest) =>
      assert Text(code)[1..] == Text(rest);
      if !(m.held == held && m.tool == tool && MayTakeHere(p, open, s, m.lock)) {
        HasIsSeen(p, open, takes, rest, RealAfter(p, held, s), ToolAfter(tool, s), m);
      }
    case Exit(branch, rest) =>
      ToolSeesBoth(takes, tool, Text(branch), Text(rest), m.tool, m.lock);
      if Has(p, open, branch, held, tool, m) {
        HasIsSeen(p, open, takes, branch, held, tool, m);
      } else {
        HasIsSeen(p, open, takes, rest, held, ToolThrough(tool, Text(branch)), m);
      }
    case Maybe(branch, rest) =>
      ToolSeesBoth(takes, tool, Text(branch), Text(rest), m.tool, m.lock);
      if Has(p, open, branch, held, tool, m) {
        HasIsSeen(p, open, takes, branch, held, tool, m);
      } else {
        HasIsSeen(p, open, takes, rest, held, ToolThrough(tool, Text(branch)), m);
      }
  }

  // ----- What is taken first is in the closure -----

  lemma {:induction false} SeenStep(takes: Takes, tool: seq<Name>, steps: seq<Step>, at: seq<Name>, l: Name) returns (s: Step)
    requires ToolSees(takes, tool, steps, at, l)
    ensures s in steps && ToolMayTake(takes, s, l)
    decreases |steps|
  {
    if tool == at && ToolMayTake(takes, steps[0], l) {
      s := steps[0];
    } else {
      s := SeenStep(takes, ToolAfter(tool, steps[0]), steps[1..], at, l);
    }
  }

  lemma {:induction false} TakeStepsHave(takes: seq<Name>, known: set<Name>, s: Step)
    requires s in TakeSteps(takes, known)
    ensures s.Take? && s.lock in takes && s.lock in known
  {
    if !(takes[0] in known && s == Take(takes[0])) {
      TakeStepsHave(takes[1..], known, s);
    }
  }

  lemma {:induction false} CallStepsHave(calls: seq<Name>, s: Step)
    requires s in CallSteps(calls)
    ensures s.Call? && s.fn in calls
  {
    if !(calls[0] !in LOCK_PRIMITIVES && s == Call(calls[0])) {
      CallStepsHave(calls[1..], s);
    }
  }

  lemma {:induction false} DropStepsHave(drops: seq<Name>, known: set<Name>, s: Step)
    requires s in DropSteps(drops, known)
    ensures s.Drop?
  {
    if !(drops[0] in known && s == Drop(drops[0])) {
      DropStepsHave(drops[1..], known, s);
    }
  }

  lemma LineStepsHave(line: Line, known: set<Name>, s: Step)
    requires s in LineSteps(line, known)
    ensures s.Take? ==> (s.lock in line.takes && s.lock in known) || (line.ipcTake && s.lock == ENDPOINT_LOCK)
    ensures s.Call? ==> s.fn in line.calls
  {
    if s in TakeSteps(line.takes, known) {
      TakeStepsHave(line.takes, known, s);
    } else if s in CallSteps(line.calls) {
      CallStepsHave(line.calls, s);
    } else if s in DropSteps(line.drops, known) {
      DropStepsHave(line.drops, known, s);
    }
  }

  lemma {:induction false} BodyStepsHave(body: Body, known: set<Name>, s: Step)
    requires s in BodySteps(body, known)
    ensures s.Take? ==> s.lock in BodyTakes(body, known)
    ensures s.Call? ==> s.fn in BodyCalls(body)
    decreases |body|
  {
    hide LineSteps;
    if s in LineSteps(body[0], known) {
      LineStepsHave(body[0], known, s);
    } else {
      BodyStepsHave(body[1..], known, s);
      if s.Call? {
        var i :| 0 <= i < |body[1..]| && s.fn in body[1..][i].calls;
        assert body[i + 1] == body[1..][i];
      } else if s.Take? {
        TakesOfMore(body, known, s.lock);
      }
    }
  }

  lemma TakesOfMore(body: Body, known: set<Name>, l: Name)
    requires body != [] && l in BodyTakes(body[1..], known)
    ensures l in BodyTakes(body, known)
  {
    if i :| 0 <= i < |body[1..]| && l in body[1..][i].takes && l in known {
      assert body[i + 1] == body[1..][i];
    } else {
      var i :| 0 <= i < |body[1..]| && body[1..][i].ipcTake;
      assert body[i + 1] == body[1..][i];
    }
  }

  /** A step of a function's text that may take a lock puts it in the function's set. */
  lemma StepInTakes(a: Analysis, f: Name, i: nat, s: Step, l: Name)
    requires Analysed(a) && f in a.p.bodies && i < |a.p.bodies[f]|
    requires s in BodySteps(a.p.bodies[f][i], a.known) && ToolMayTake(a.takes, s, l)
    ensures l in Get(a.takes, f)
  {
    hide IsText, WrappersAre, AllBracket, Shown, BodySteps;
    var body := a.p.bodies[f][i];
    BodyStepsHave(body, a.known, s);
    if s.Take? {
      assert l in Direct(a.p.bodies, a.known, f);
    } else if s.fn != f {
      assert s.fn in Callees(a.p.bodies, f);
      assert ClosedAt(a.p.bodies, a.takes, f);
    }
  }

  lemma WrapperInTakes(a: Analysis, c: Name)
    requires Analysed(a) && c in a.p.wrappers && a.p.wrappers[c].Taker?
    ensures a.p.wrappers[c].lock in Get(a.takes, c)
  {
    StepInTakes(a, c, 0, Take(a.p.wrappers[c].lock), a.p.wrappers[c].lock);
  }

  lemma {:induction false} OpenInTakes(a: Analysis, n: nat, f: Name, l: Name)
    requires Analysed(a) && (f, l) in OpenWithin(a.p, n)
    ensures l in Get(a.takes, f)
    decreases n
  {
    hide Analysed;
    var open := OpenWithin(a.p, n - 1);
    forall c, l' {:trigger (c, l') in open} | (c, l') in open
      ensures l' in Get(a.takes, c)
    {
      OpenInTakes(a, n - 1, c, l');
    }
    forall c {:trigger c in a.p.wrappers} | c in a.p.wrappers && a.p.wrappers[c].Taker?
      ensures a.p.wrappers[c].lock in Get(a.takes, c)
    {
      WrapperInTakes(a, c);
    }
    assert Opens(a.p, open, f, l);
    var i, tool :| 0 <= i < |a.p.codes[f]| && Has(a.p, open, a.p.codes[f][i], [], [], Moment([], tool, l));
    HasIsSeen(a.p, open, a.takes, a.p.codes[f][i], [], [], Moment([], tool, l));
    var s := SeenStep(a.takes, [], Text(a.p.codes[f][i]), tool, l);
    TextOf(a, f, i);
    StepInTakes(a, f, i, s, l);
  }

  lemma TextOf(a: Analysis, f: Name, i: nat)
    requires Analysed(a) && f in a.p.codes && i < |a.p.codes[f]|
    ensures f in a.p.bodies && i < |a.p.bodies[f]| && Text(a.p.codes[f][i]) == BodySteps(a.p.bodies[f][i], a.known)
  {
  }

  lemma OpenIsOverestimated(a: Analysis)
    requires Analysed(a)
    ensures Overestimates(a.p, Open(a.p), a.takes)
  {
    hide Analysed;
    forall c, l {:trigger (c, l) in Open(a.p)} | (c, l) in Open(a.p)
      ensures l in Get(a.takes, c)
    {
      var n :| (c, l) in OpenWithin(a.p, n);
      OpenInTakes(a, n, c, l);
    }
    forall c {:trigger c in a.p.wrappers} | c in a.p.wrappers && a.p.wrappers[c].Taker?
      ensures a.p.wrappers[c].lock in Get(a.takes, c)
    {
      WrapperInTakes(a, c);
    }
  }

  // ----- The exact condition -----

  /** The checker's stack is not empty, ends in the innermost lock the code holds, and has none
      the code does not hold. */
  predicate Sees(m: Moment)
    requires m.held != []
  {
    m.tool != [] && Top(m.tool) == Top(m.held) && forall x :: x in m.tool ==> x in m.held
  }

  /** Where the checker is blind, the nesting is found elsewhere. */
  ghost predicate BlindSpotsFound(a: Analysis) {
    forall f, i: nat, m {:trigger IsMoment(a.p, f, i, m)} ::
      IsMoment(a.p, f, i, m) && m.held != [] && m.lock !in m.held && !Sees(m) ==> (Top(m.held), m.lock) in a.found
  }

  lemma SeenIsFound(a: Analysis, f: Name, i: nat, m: Moment)
    requires Analysed(a) && IsMoment(a.p, f, i, m) && m.held != [] && m.lock !in m.held && Sees(m)
    ensures (Top(m.held), m.lock) in a.found
  {
    hide Analysed, BodyNestings;
    OpenIsOverestimated(a);
    HasIsSeen(a.p, Open(a.p), a.takes, a.p.codes[f][i], [], [], m);
    TextOf(a, f, i);
    BodySeen(a.takes, [], a.p.bodies[f][i], a.known, m.tool, m.lock);
    ShownIsFound(a, f, i, (Top(m.tool), m.lock));
  }

  lemma ShownIsFound(a: Analysis, f: Name, i: nat, n: Nesting)
    requires Analysed(a) && f in a.p.bodies && i < |a.p.bodies[f]| && n in BodyNestings([], a.p.bodies[f][i], a.takes, a.known)
    ensures n in a.found
  {
    assert Shown(a.p.bodies, a.takes, a.known, n);
  }

  /** WHAT THE CHECKER'S PASS IS WORTH: it has found the nestings of every run if and only if it
      has found those of its blind spots elsewhere. */
  lemma CheckerSeesExactly(a: Analysis)
    requires Analysed(a)
    ensures AllRunsNest(a.p, Found(a)) <==> BlindSpotsFound(a)
  {
    hide AllRunsNest, Analysed, Sees;
    BracketsOf(a);
    RunsNestExactly(a.p, Found(a));
    if BlindSpotsFound(a) {
      forall n | CanNest(a.p, n)
        ensures n in a.found
      {
        var f, i: nat, m: Moment :| IsMoment(a.p, f, i, m) && m.held != [] && m.lock !in m.held && n == (Top(m.held), m.lock);
        if Sees(m) {
          SeenIsFound(a, f, i, m);
        }
      }
    }
    if forall n :: CanNest(a.p, n) ==> n in Found(a) {
      forall f, i: nat, m {:trigger IsMoment(a.p, f, i, m)} | IsMoment(a.p, f, i, m) && m.held != [] && m.lock !in m.held
        ensures (Top(m.held), m.lock) in a.found
      {
        assert CanNest(a.p, (Top(m.held), m.lock));
      }
    }
  }

  lemma BracketsOf(a: Analysis)
    requires Analysed(a)
    ensures AllBracket(a.p)
  {
  }

  // ----- What blindness is, without wrappers -----

  ghost predicate NoWrapperCalls(p: Program, code: Code) {
    match code
    case End => true
    case Do(s, rest) => (s.Call? ==> s.fn !in p.wrappers) && NoWrapperCalls(p, rest)
    case Exit(branch, rest) => NoWrapperCalls(p, branch) && NoWrapperCalls(p, rest)
    case Maybe(branch, rest) => NoWrapperCalls(p, branch) && NoWrapperCalls(p, rest)
  }

  /** The checker's stack is the upper part of the code's. */
  predicate Above(tool: seq<Name>, held: seq<Name>) {
    |tool| <= |held| && held[|held| - |tool|..] == tool
  }

  lemma StepStaysAbove(p: Program, held: seq<Name>, tool: seq<Name>, s: Step)
    requires Above(tool, held) && DropsInnermost(p, held, s) && (s.Call? ==> s.fn !in p.wrappers)
    ensures Above(ToolAfter(tool, s), RealAfter(p, held, s))
  {
    if s.Drop? && tool != [] {
      assert Popped(held)[|held| - |tool|..] == Popped(tool);
    }
  }

  lemma {:induction false} ToolStaysAbove(p: Program, code: Code, held: seq<Name>, tool: seq<Name>, end: seq<Name>)
    requires Brackets(p, held, code, end) && NoWrapperCalls(p, code) && Above(tool, held)
    ensures Above(ToolThrough(tool, Text(code)), end)
    decreases code
  {
    match code
    case End =>
    case Do(s, rest) =>
      StepStaysAbove(p, held, tool, s);
      ToolStaysAbove(p, rest, RealAfter(p, held, s), ToolAfter(tool, s), end);
      assert Text(code)[1..] == Text(rest);
    case Exit(branch, rest) =>
      ToolStaysAbove(p, branch, held, tool, []);
      ToolStaysAbove(p, rest, held, ToolThrough(tool, Text(branch)), end);
      ToolThroughBoth(tool, Text(branch), Text(rest));
    case Maybe(branch, rest) =>
      ToolStaysAbove(p, branch, held, tool, held);
      ToolStaysAbove(p, rest, held, ToolThrough(tool, Text(branch)), end);
      ToolThroughBoth(tool, Text(branch), Text(rest));
  }

  lemma {:induction false} MomentIsAbove(p: Program, code: Code, held: seq<Name>, tool: seq<Name>, end: seq<Name>, m: Moment)
    requires Brackets(p, held, code, end) && NoWrapperCalls(p, code) && Above(tool, held) && Has(p, Open(p), code, held, tool, m)
    ensures Above(m.tool, m.held)
    decreases code
  {
    match code
    case Do(s, rest) =>
      if Has(p, Open(p), rest, RealAfter(p, held, s), ToolAfter(tool, s), m) {
        StepStaysAbove(p, held, tool, s);
        MomentIsAbove(p, rest, RealAfter(p, held, s), ToolAfter(tool, s), end, m);
      }
    case Exit(branch, rest) =>
      if Has(p, Open(p), branch, held, tool, m) {
        MomentIsAbove(p, branch, held, tool, [], m);
      } else {
        ToolStaysAbove(p, branch, held, tool, []);
        MomentIsAbove(p, rest, held, ToolThrough(tool, Text(branch)), end, m);
      }
    case Maybe(branch, rest) =>
      if Has(p, Open(p), branch, held, tool, m) {
        MomentIsAbove(p, branch, held, tool, held, m);
      } else {
        ToolStaysAbove(p, branch, held, tool, held);
        MomentIsAbove(p, rest, held, ToolThrough(tool, Text(branch)), end, m);
      }
  }

  /** In a body that calls no wrapper the checker is blind exactly where its stack is empty and the
      code's is not: its stack is always the upper part of the code's. */
  lemma BlindExactlyWhenEmpty(p: Program, f: Name, i: nat, m: Moment)
    requires AllBracket(p) && IsMoment(p, f, i, m) && NoWrapperCalls(p, p.codes[f][i]) && m.held != []
    ensures Above(m.tool, m.held) && (Sees(m) <==> m.tool != [])
  {
    hide Sees;
    MomentIsAbove(p, p.codes[f][i], [], [], [], m);
    AboveSees(m);
  }

  lemma AboveSees(m: Moment)
    requires m.held != [] && Above(m.tool, m.held)
    ensures Sees(m) <==> m.tool != []
  {
    var n := |m.held| - |m.tool|;
    forall j | 0 <= j < |m.tool|
      ensures m.tool[j] == m.held[n + j]
    {
      assert m.held[n..][j] == m.held[n + j];
    }
  }

  ghost predicate NoExits(code: Code) {
    match code
    case End => true
    case Do(_, rest) => NoExits(rest)
    case Exit(_, _) => false
    case Maybe(branch, rest) => NoExits(branch) && NoExits(rest)
  }

  lemma {:induction false} ToolIsExact(p: Program, code: Code, held: seq<Name>, end: seq<Name>)
    requires Brackets(p, held, code, end) && NoWrapperCalls(p, code) && NoExits(code)
    ensures ToolThrough(held, Text(code)) == end
    decreases code
  {
    match code
    case End =>
    case Do(s, rest) =>
      ToolIsExact(p, rest, RealAfter(p, held, s), end);
      assert Text(code)[1..] == Text(rest);
    case Maybe(branch, rest) =>
      ToolIsExact(p, branch, held, held);
      ToolIsExact(p, rest, held, end);
      ToolThroughBoth(held, Text(branch), Text(rest));
  }

  lemma {:induction false} MomentIsExact(p: Program, code: Code, held: seq<Name>, end: seq<Name>, m: Moment)
    requires Brackets(p, held, code, end) && NoWrapperCalls(p, code) && NoExits(code) && Has(p, Open(p), code, held, held, m)
    ensures m.tool == m.held
    decreases code
  {
    match code
    case Do(s, rest) =>
      if Has(p, Open(p), rest, RealAfter(p, held, s), ToolAfter(held, s), m) {
        MomentIsExact(p, rest, RealAfter(p, held, s), end, m);
      }
    case Maybe(branch, rest) =>
      if Has(p, Open(p), branch, held, held, m) {
        MomentIsExact(p, branch, held, held, m);
      } else {
        ToolIsExact(p, branch, held, held);
        MomentIsExact(p, rest, held, end, m);
      }
  }

  /** A program without early returns and without wrappers has no blind spot. */
  lemma StraightHasNoBlindSpot(a: Analysis)
    requires Analysed(a)
    requires forall f, i :: f in a.p.codes && f !in a.p.wrappers && 0 <= i < |a.p.codes[f]| ==>
               NoExits(a.p.codes[f][i]) && NoWrapperCalls(a.p, a.p.codes[f][i])
    ensures BlindSpotsFound(a)
  {
    BracketsOf(a);
    hide Analysed;
    forall f, i: nat, m {:trigger IsMoment(a.p, f, i, m)} | IsMoment(a.p, f, i, m) && m.held != []
      ensures Sees(m)
    {
      MomentIsExact(a.p, a.p.codes[f][i], [], [], m);
    }
  }
}
