/** What the lock-order checker's answer means when the code runs. The checker reads a body as
    one straight line; control passes branches by, leaves early, and takes and drops some locks
    through wrappers. */
module LockRuns {
  import opened Graphs
  import opened LockClosure
  import opened LockNestings

  // ----- The text, step by step -----

  /** What the checker sees on a line, in the order it looks. */
  datatype Step = Take(lock: Name) | Call(fn: Name) | Drop(lock: Name)

  function TakeSteps(takes: seq<Name>, known: set<Name>): seq<Step> {
    if takes == [] then []
    else (if takes[0] in known then [Take(takes[0])] else []) + TakeSteps(takes[1..], known)
  }

  function CallSteps(calls: seq<Name>): seq<Step> {
    if calls == [] then []
    else (if calls[0] in LOCK_PRIMITIVES then [] else [Call(calls[0])]) + CallSteps(calls[1..])
  }

  function DropSteps(drops: seq<Name>, known: set<Name>): seq<Step> {
    if drops == [] then []
    else (if drops[0] in known then [Drop(drops[0])] else []) + DropSteps(drops[1..], known)
  }

  function LineSteps(line: Line, known: set<Name>): seq<Step> {
    TakeSteps(line.takes, known) + (if line.ipcTake then [Take(ENDPOINT_LOCK)] else []) + CallSteps(line.calls)
    + DropSteps(line.drops, known) + (if line.ipcDrop then [Drop(ENDPOINT_LOCK)] else [])
  }

  function BodySteps(body: Body, known: set<Name>): seq<Step> {
    if body == [] then [] else LineSteps(body[0], known) + BodySteps(body[1..], known)
  }

  // ----- The control flow behind the text -----

  /** How control can pass through a body: in order, but for the branches that return, each
      entered or passed by, and those that rejoin, each entered any number of times. */
  datatype Code =
    | End
    | Do(step: Step, rest: Code)
    | Exit(branch: Code, rest: Code)
    | Maybe(branch: Code, rest: Code)

  /** The text of a body, as the checker reads it: every branch in its place. */
  function Text(code: Code): seq<Step> {
    match code
    case End => []
    case Do(step, rest) => [step] + Text(rest)
    case Exit(branch, rest) => Text(branch) + Text(rest)
    case Maybe(branch, rest) => Text(branch) + Text(rest)
  }

  /** A function that does nothing but take, or drop, one lock. */
  datatype Wrapper = Taker(lock: Name) | Dropper(lock: Name)

  /** The bodies the checker reads, the control flow of each, and which are wrappers. */
  datatype Program = Program(bodies: Bodies, codes: map<Name, seq<Code>>, wrappers: map<Name, Wrapper>)

  // ----- Runs -----

  /** One call of a function: which of its bodies ran, and the way through it. */
  datatype Run = Run(fn: Name, body: nat, path: Path)

  /** `Next` goes on, past a call that is not made; `Made` makes it; `Leave` enters a branch that
      returns; `Round` enters one that rejoins, and comes back before it; `Pass` passes by. */
  datatype Path =
    | Stop
    | Next(rest: Path)
    | Made(run: Run, rest: Path)
    | Leave(inner: Path)
    | Pass(rest: Path)
    | Round(inner: Path, rest: Path)

  /** The way ends in a branch that returns. */
  predicate Left(q: Path) {
    match q
    case Stop => false
    case Next(rest) => Left(rest)
    case Made(_, rest) => Left(rest)
    case Leave(_) => true
    case Pass(rest) => Left(rest)
    case Round(inner, rest) => Left(inner) || Left(rest)
  }

  ghost predicate IsRun(p: Program, r: Run)
    decreases r
  {
    r.fn in p.codes && r.fn !in p.wrappers && r.body < |p.codes[r.fn]| && IsPath(p, p.codes[r.fn][r.body], r.path)
  }

  ghost predicate IsPath(p: Program, code: Code, q: Path)
    decreases q
  {
    match q
    case Stop => code.End?
    case Next(rest) => code.Do? && IsPath(p, code.rest, rest)
    case Made(run, rest) => code.Do? && code.step == Call(run.fn) && IsRun(p, run) && IsPath(p, code.rest, rest)
    case Leave(inner) => code.Exit? && IsPath(p, code.branch, inner)
    case Pass(rest) => (code.Exit? || code.Maybe?) && IsPath(p, code.rest, rest)
    case Round(inner, rest) =>
      code.Maybe? && IsPath(p, code.branch, inner) && if Left(inner) then rest == Stop else IsPath(p, code, rest)
  }

  // ----- The events of a run -----

  datatype Event = Acquire(lock: Name) | Release(lock: Name)

  function StepEvents(p: Program, s: Step): seq<Event> {
    match s
    case Take(l) => [Acquire(l)]
    case Drop(l) => [Release(l)]
    case Call(c) =>
      if c !in p.wrappers then []
      else if p.wrappers[c].Taker? then [Acquire(p.wrappers[c].lock)] else [Release(p.wrappers[c].lock)]
  }

  ghost function RunTrace(p: Program, r: Run): seq<Event>
    requires IsRun(p, r)
    decreases r
  {
    Trace(p, p.codes[r.fn][r.body], r.path)
  }

  ghost function Trace(p: Program, code: Code, q: Path): seq<Event>
    requires IsPath(p, code, q)
    decreases q
  {
    match q
    case Stop => []
    case Next(rest) => StepEvents(p, code.step) + Trace(p, code.rest, rest)
    case Made(run, rest) => RunTrace(p, run) + Trace(p, code.rest, rest)
    case Leave(inner) => Trace(p, code.branch, inner)
    case Pass(rest) => Trace(p, code.rest, rest)
    case Round(inner, rest) => Trace(p, code.branch, inner) + if Left(inner) then [] else Trace(p, code, rest)
  }

  // ----- Reading a trace -----

  function AfterEvent(held: seq<Name>, e: Event): seq<Name> {
    if e.Acquire? then held + [e.lock] else Popped(held)
  }

  /** The locks held after a trace that started with `held`. */
  ghost function After(held: seq<Name>, ev: seq<Event>): seq<Name>
    decreases |ev|
  {
    if ev == [] then held else After(AfterEvent(held, ev[0]), ev[1..])
  }

  /** Releases match the innermost lock taken since the start; a lock not held already nests, when
      it is taken, in the innermost one as `found` says, or is in `open` when none is held. */
  ghost predicate Covered(held: seq<Name>, ev: seq<Event>, found: iset<Nesting>, open: iset<Name>)
    decreases |ev|
  {
    ev == [] ||
    (match ev[0]
     case Acquire(l) =>
       && (l in held || (if held == [] then l in open else (Top(held), l) in found))
       && Covered(held + [l], ev[1..], found, open)
     case Release(l) => held != [] && Top(held) == l && Covered(Popped(held), ev[1..], found, open))
  }

  lemma {:induction false} AfterConcat(held: seq<Name>, ev: seq<Event>, more: seq<Event>)
    ensures After(held, ev + more) == After(After(held, ev), more)
    decreases |ev|
  {
    if ev == [] {
      assert ev + more == more;
    } else {
      assert (ev + more)[1..] == ev[1..] + more;
      AfterConcat(AfterEvent(held, ev[0]), ev[1..], more);
    }
  }

  lemma {:induction false} CoveredConcat(held: seq<Name>, ev: seq<Event>, more: seq<Event>, found: iset<Nesting>, open: iset<Name>)
    ensures Covered(held, ev + more, found, open) <==>
            Covered(held, ev, found, open) && Covered(After(held, ev), more, found, open)
    decreases |ev|
  {
    if ev == [] {
      assert ev + more == more;
    } else {
      assert (ev + more)[1..] == ev[1..] + more && (ev + more)[0] == ev[0];
      CoveredConcat(AfterEvent(held, ev[0]), ev[1..], more, found, open);
    }
  }

  lemma Join(held: seq<Name>, ev: seq<Event>, more: seq<Event>, found: iset<Nesting>, open: iset<Name>)
    requires Covered(held, ev, found, open) && Covered(After(held, ev), more, found, open)
    ensures Covered(held, ev + more, found, open) && After(held, ev + more) == After(After(held, ev), more)
  {
    CoveredConcat(held, ev, more, found, open);
    AfterConcat(held, ev, more);
  }

  /** A covered trace leaves the locks below its start alone, and with `below` held by the caller
      what it may take first nests in the innermost of those. */
  lemma {:induction false} CoveredAbove(below: seq<Name>, held: seq<Name>, ev: seq<Event>, found: iset<Nesting>, open: iset<Name>, open': iset<Name>)
    requires Covered(held, ev, found, open)
    requires forall l :: l in open && l !in below ==> if below == [] then l in open' else (Top(below), l) in found
    ensures Covered(below + held, ev, found, open') && After(below + held, ev) == below + After(held, ev)
    decreases |ev|
  {
    if ev != [] {
      if ev[0].Acquire? {
        assert below + held + [ev[0].lock] == below + (held + [ev[0].lock]);
        assert held == [] ==> below + held == below;
        assert held != [] ==> Top(below + held) == Top(held);
        CoveredAbove(below, held + [ev[0].lock], ev[1..], found, open, open');
      } else {
        assert Popped(below + held) == below + Popped(held);
        assert Top(below + held) == Top(held);
        CoveredAbove(below, Popped(held), ev[1..], found, open, open');
      }
    }
  }

  // ----- The stack a run holds, and the one the checker holds -----

  function RealAfter(p: Program, held: seq<Name>, s: Step): seq<Name> {
    match s
    case Take(l) => held + [l]
    case Drop(_) => Popped(held)
    case Call(c) =>
      if c !in p.wrappers then held
      else if p.wrappers[c].Taker? then held + [p.wrappers[c].lock] else Popped(held)
  }

  function ToolAfter(tool: seq<Name>, s: Step): seq<Name> {
    match s
    case Take(l) => tool + [l]
    case Drop(_) => Popped(tool)
    case Call(_) => tool
  }

  function ToolThrough(tool: seq<Name>, steps: seq<Step>): seq<Name>
    decreases |steps|
  {
    if steps == [] then tool else ToolThrough(ToolAfter(tool, steps[0]), steps[1..])
  }

  lemma {:induction false} ToolThroughBoth(tool: seq<Name>, steps: seq<Step>, more: seq<Step>)
    ensures ToolThrough(tool, steps + more) == ToolThrough(ToolThrough(tool, steps), more)
    decreases |steps|
  {
    if steps == [] {
      assert steps + more == more;
    } else {
      assert (steps + more)[1..] == steps[1..] + more;
      ToolThroughBoth(ToolAfter(tool, steps[0]), steps[1..], more);
    }
  }

  /** Every way through the code drops the innermost lock first, comes to its end with `end` held,
      and has dropped everything where it returns early. */
  ghost predicate Brackets(p: Program, held: seq<Name>, code: Code, end: seq<Name>)
    decreases code
  {
    match code
    case End => held == end
    case Do(s, rest) => DropsInnermost(p, held, s) && Brackets(p, RealAfter(p, held, s), rest, end)
    case Exit(branch, rest) => Brackets(p, held, branch, []) && Brackets(p, held, rest, end)
    case Maybe(branch, rest) => Brackets(p, held, branch, held) && Brackets(p, held, rest, end)
  }

  ghost predicate DropsInnermost(p: Program, held: seq<Name>, s: Step) {
    match s
    case Take(_) => true
    case Drop(l) => held != [] && Top(held) == l
    case Call(c) => c in p.wrappers && p.wrappers[c].Dropper? ==> held != [] && Top(held) == p.wrappers[c].lock
  }

  // ----- The moments at which a lock may be taken -----

  /** A lock that may be taken, what a run holds then, and what the checker thinks is held. */
  datatype Moment = Moment(held: seq<Name>, tool: seq<Name>, lock: Name)

  /** The functions and the locks they may take while they hold none of their own. */
  type Openings = iset<(Name, Name)>

  ghost predicate MayTakeHere(p: Program, open: Openings, s: Step, l: Name) {
    match s
    case Take(m) => l == m
    case Drop(_) => false
    case Call(c) => if c in p.wrappers then p.wrappers[c] == Taker(l) else (c, l) in open
  }

  ghost predicate Has(p: Program, open: Openings, code: Code, held: seq<Name>, tool: seq<Name>, m: Moment)
    decreases code
  {
    match code
    case End => false
    case Do(s, rest) =>
      || (m.held == held && m.tool == tool && MayTakeHere(p, open, s, m.lock))
      || Has(p, open, rest, RealAfter(p, held, s), ToolAfter(tool, s), m)
    case Exit(branch, rest) => Has(p, open, branch, held, tool, m) || Has(p, open, rest, held, ToolThrough(tool, Text(branch)), m)
    case Maybe(branch, rest) => Has(p, open, branch, held, tool, m) || Has(p, open, rest, held, ToolThrough(tool, Text(branch)), m)
  }

  ghost predicate Opens(p: Program, open: Openings, f: Name, l: Name) {
    f in p.codes && f !in p.wrappers &&
    exists i, tool :: 0 <= i < |p.codes[f]| && Has(p, open, p.codes[f][i], [], [], Moment([], tool, l))
  }

  /** What functions may take first, through at most `n` calls. */
  ghost function OpenWithin(p: Program, n: nat): Openings {
    if n == 0 then iset{} else iset f, l | Opens(p, OpenWithin(p, n - 1), f, l) :: (f, l)
  }

  ghost function Open(p: Program): Openings {
    iset f, l | exists n :: (f, l) in OpenWithin(p, n) :: (f, l)
  }

  ghost function OpenOf(p: Program, f: Name): iset<Name> {
    iset l | (f, l) in Open(p) :: l
  }

  /** A moment needs at most one call, so it needs only so many. */
  lemma {:induction false} HasWithin(p: Program, code: Code, held: seq<Name>, tool: seq<Name>, m: Moment) returns (n: nat)
    requires Has(p, Open(p), code, held, tool, m)
    ensures Has(p, OpenWithin(p, n), code, held, tool, m)
    decreases code
  {
    match code
    case Do(s, rest) =>
      if m.held == held && m.tool == tool && MayTakeHere(p, Open(p), s, m.lock) {
        n := 0;
        if s.Call? && s.fn !in p.wrappers {
          n :| (s.fn, m.lock) in OpenWithin(p, n);
        }
      } else {
        n := HasWithin(p, rest, RealAfter(p, held, s), ToolAfter(tool, s), m);
      }
    case Exit(branch, rest) =>
      if Has(p, Open(p), branch, held, tool, m) {
        n := HasWithin(p, branch, held, tool, m);
      } else {
        n := HasWithin(p, rest, held, ToolThrough(tool, Text(branch)), m);
      }
    case Maybe(branch, rest) =>
      if Has(p, Open(p), branch, held, tool, m) {
        n := HasWithin(p, branch, held, tool, m);
      } else {
        n := HasWithin(p, rest, held, ToolThrough(tool, Text(branch)), m);
      }
  }

  lemma OpenIsClosed(p: Program, f: Name, i: nat, m: Moment)
    requires f in p.codes && f !in p.wrappers && i < |p.codes[f]| && m.held == []
    requires Has(p, Open(p), p.codes[f][i], [], [], m)
    ensures (f, m.lock) in Open(p)
  {
    var n := HasWithin(p, p.codes[f][i], [], [], m);
    assert m == Moment([], m.tool, m.lock);
    assert Opens(p, OpenWithin(p, n), f, m.lock);
    assert (f, m.lock) in OpenWithin(p, n + 1);
  }

  // ----- Every nesting of a run is one of a moment -----

  /** Every moment of the code nests as `found` says, or is in `open` with nothing held. */
  ghost predicate NestsAs(p: Program, code: Code, held: seq<Name>, tool: seq<Name>, found: iset<Nesting>, open: iset<Name>) {
    forall m {:trigger Has(p, Open(p), code, held, tool, m)} ::
      Has(p, Open(p), code, held, tool, m) && m.lock !in m.held ==>
      if m.held == [] then m.lock in open else (Top(m.held), m.lock) in found
  }

  /** The nestings the program can make. */
  ghost predicate CanNest(p: Program, n: Nesting) {
    exists f, i: nat, m: Moment :: IsMoment(p, f, i, m) && m.held != [] && m.lock !in m.held && n == (Top(m.held), m.lock)
  }

  ghost predicate IsMoment(p: Program, f: Name, i: nat, m: Moment) {
    f in p.codes && f !in p.wrappers && i < |p.codes[f]| && Has(p, Open(p), p.codes[f][i], [], [], m)
  }

  /** Every function but the wrappers drops, on every way through it, what it took. */
  ghost predicate AllBracket(p: Program) {
    forall f, i :: f in p.codes && f !in p.wrappers && 0 <= i < |p.codes[f]| ==> Brackets(p, [], p.codes[f][i], [])
  }

  lemma {:induction false} RunCovered(p: Program, found: iset<Nesting>, r: Run)
    requires AllBracket(p) && (forall n :: CanNest(p, n) ==> n in found) && IsRun(p, r)
    ensures Covered([], RunTrace(p, r), found, OpenOf(p, r.fn)) && After([], RunTrace(p, r)) == []
    decreases r
  {
    hide Brackets;
    var code := p.codes[r.fn][r.body];
    forall m | Has(p, Open(p), code, [], [], m) && m.lock !in m.held
      ensures if m.held == [] then m.lock in OpenOf(p, r.fn) else (Top(m.held), m.lock) in found
    {
      if m.held == [] {
        OpenIsClosed(p, r.fn, r.body, m);
      } else {
        assert IsMoment(p, r.fn, r.body, m);
        assert CanNest(p, (Top(m.held), m.lock));
      }
    }
    PathCovered(p, found, OpenOf(p, r.fn), [], [], code, r.path, []);
  }

  lemma StepCovered(p: Program, found: iset<Nesting>, open: iset<Name>, held: seq<Name>, tool: seq<Name>, s: Step, rest: Code)
    requires DropsInnermost(p, held, s) && NestsAs(p, Do(s, rest), held, tool, found, open)
    ensures Covered(held, StepEvents(p, s), found, open) && After(held, StepEvents(p, s)) == RealAfter(p, held, s)
  {
    var ev := StepEvents(p, s);
    if ev != [] {
      assert ev[1..] == [];
      assert Covered(AfterEvent(held, ev[0]), [], found, open);
      if ev[0].Acquire? {
        assert Has(p, Open(p), Do(s, rest), held, tool, Moment(held, tool, ev[0].lock));
      }
    }
  }

  lemma NestsOnwards(p: Program, found: iset<Nesting>, open: iset<Name>, held: seq<Name>, tool: seq<Name>, code: Code)
    requires !code.End? && NestsAs(p, code, held, tool, found, open)
    ensures code.Do? ==> NestsAs(p, code.rest, RealAfter(p, held, code.step), ToolAfter(tool, code.step), found, open)
    ensures !code.Do? ==> NestsAs(p, code.branch, held, tool, found, open)
    ensures !code.Do? ==> NestsAs(p, code.rest, held, ToolThrough(tool, Text(code.branch)), found, open)
  {
    var c := code;
    if c.Do? {
      forall m | Has(p, Open(p), c.rest, RealAfter(p, held, c.step), ToolAfter(tool, c.step), m)
        ensures Has(p, Open(p), c, held, tool, m)
      {
      }
    } else {
      forall m | Has(p, Open(p), c.branch, held, tool, m)
        ensures Has(p, Open(p), c, held, tool, m)
      {
      }
      forall m | Has(p, Open(p), c.rest, held, ToolThrough(tool, Text(c.branch)), m)
        ensures Has(p, Open(p), c, held, tool, m)
      {
      }
    }
  }

  lemma CalleeCovered(p: Program, found: iset<Nesting>, open: iset<Name>, held: seq<Name>, tool: seq<Name>, code: Code, run: Run)
    requires code.Do? && code.step == Call(run.fn) && IsRun(p, run) && NestsAs(p, code, held, tool, found, open)
    requires Covered([], RunTrace(p, run), found, OpenOf(p, run.fn)) && After([], RunTrace(p, run)) == []
    ensures Covered(held, RunTrace(p, run), found, open) && After(held, RunTrace(p, run)) == held
  {
    hide Covered, After, RunTrace, OpenWithin;
    forall l | l in OpenOf(p, run.fn) && l !in held
      ensures if held == [] then l in open else (Top(held), l) in found
    {
      assert Has(p, Open(p), code, held, tool, Moment(held, tool, l));
    }
    CoveredAbove(held, [], RunTrace(p, run), found, OpenOf(p, run.fn), open);
    assert held + [] == held;
  }

  lemma {:induction false} PathCovered(p: Program, found: iset<Nesting>, open: iset<Name>, held: seq<Name>, tool: seq<Name>,
                                       code: Code, q: Path, end: seq<Name>)
    requires AllBracket(p) && (forall n :: CanNest(p, n) ==> n in found) && IsPath(p, code, q)
    requires Brackets(p, held, code, end) && NestsAs(p, code, held, tool, found, open)
    ensures Covered(held, Trace(p, code, q), found, open)
    ensures After(held, Trace(p, code, q)) == if Left(q) then [] else end
    decreases q
  {
    hide AllBracket, CanNest, Covered, After, NestsAs;
    if !q.Stop? {
      NestsOnwards(p, found, open, held, tool, code);
    }
    match q
    case Stop => NothingCovered(held, found, open);
    case Next(rest) =>
      var s := code.step;
      StepCovered(p, found, open, held, tool, s, code.rest);
      PathCovered(p, found, open, RealAfter(p, held, s), ToolAfter(tool, s), code.rest, rest, end);
      Join(held, StepEvents(p, s), Trace(p, code.rest, rest), found, open);
    case Made(run, rest) =>
      var s := code.step;
      RunCovered(p, found, run);
      CalleeCovered(p, found, open, held, tool, code, run);
      PathCovered(p, found, open, held, ToolAfter(tool, s), code.rest, rest, end);
      Join(held, RunTrace(p, run), Trace(p, code.rest, rest), found, open);
    case Leave(inner) => PathCovered(p, found, open, held, tool, code.branch, inner, []);
    case Pass(rest) => PathCovered(p, found, open, held, ToolThrough(tool, Text(code.branch)), code.rest, rest, end);
    case Round(inner, rest) =>
      PathCovered(p, found, open, held, tool, code.branch, inner, held);
      if Left(inner) {
        assert Trace(p, code, q) == Trace(p, code.branch, inner);
      } else {
        PathCovered(p, found, open, held, tool, code, rest, end);
        Join(held, Trace(p, code.branch, inner), Trace(p, code, rest), found, open);
      }
  }

  lemma NothingCovered(held: seq<Name>, found: iset<Nesting>, open: iset<Name>)
    ensures Covered(held, [], found, open) && After(held, []) == held
  {
  }
}
