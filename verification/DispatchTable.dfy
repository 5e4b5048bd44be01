/** Which entries of the system call table a build compiles (`scan_table` in
    tools/check_syscall_coverage.py): a stack machine over lines, and the groups of section
    6.10.1 of ISO/IEC 9899:2011 that it must agree with. */
module DispatchTable {
  import opened Wrappers
  import opened Conditionals

  datatype Guard = Ifdef(name: string) | Ifndef(name: string) | If(e: Expr)

  /** A line of the table. `Unknown` is any other directive, `Other` any line that is neither a
      directive nor an entry. */
  datatype Line = Open(guard: Guard) | Else | Endif | Unknown | Entry(index: string, handler: string) | Other

  predicate GuardReadable(g: Guard) {
    g.If? ==> Evaluable(g.e)
  }

  predicate GuardHolds(g: Guard, defined: set<string>) {
    match g
    case Ifdef(n) => n in defined
    case Ifndef(n) => n !in defined
    case If(e) => Holds(e, defined)
  }

  function GuardText(g: Guard): string {
    match g
    case Ifdef(n) => n
    case Ifndef(n) => n
    case If(e) => Canonical(e)
  }

  function GuardError(g: Guard): Error {
    if g.If? && Mixed(g.e) then MixedOperators else UnsupportedTerm
  }

  predicate IsNull(handler: string) {
    handler == "0" || handler == "NULL"
  }

  predicate IsNumber(index: string) {
    index != "" && forall i :: 0 <= i < |index| ==> '0' <= index[i] <= '9'
  }

  // ----- The stack machine -----

  /** An open conditional: whether its current arm compiles, and its guard's text. */
  datatype Frame = Frame(live: bool, flag: string)

  datatype State = State(active: map<string, string>, guarded: map<string, string>, stack: seq<Frame>)

  const START := State(map[], map[], [])

  /** The innermost guard that keeps a line out, if one does. */
  function Blocker(stack: seq<Frame>): Option<string> {
    if stack == [] then None
    else if !stack[|stack| - 1].live then Some(stack[|stack| - 1].flag)
    else Blocker(stack[..|stack| - 1])
  }

  function Step(l: Line, defined: set<string>, st: State): Result<State> {
    match l
    case Open(g) =>
      if !GuardReadable(g) then Err(GuardError(g))
      else Ok(st.(stack := st.stack + [Frame(GuardHolds(g, defined), GuardText(g))]))
    case Else =>
      if st.stack == [] then Err(ElseAlone)
      else
        var top := st.stack[|st.stack| - 1];
        Ok(st.(stack := st.stack[..|st.stack| - 1] + [top.(live := !top.live)]))
    case Endif =>
      if st.stack == [] then Err(EndifAlone) else Ok(st.(stack := st.stack[..|st.stack| - 1]))
    case Unknown => Err(UnsupportedDirective)
    case Other => Ok(st)
    case Entry(index, handler) =>
      if IsNull(handler) then Ok(st)
      else if IsNumber(index) then Err(BareNumber)
      else match Blocker(st.stack)
        case None => Ok(st.(active := st.active[index := handler]))
        case Some(flag) => Ok(st.(guarded := st.guarded[index := flag]))
  }

  function Run(lines: seq<Line>, defined: set<string>, st: State): Result<State> {
    if lines == [] then (if st.stack == [] then Ok(st) else Err(Unterminated))
    else match Step(lines[0], defined, st)
      case Ok(next) => Run(lines[1..], defined, next)
      case Err(e) => Err(e)
  }

  datatype Table = Table(active: map<string, string>, guarded: map<string, string>)

  /** What a scan reports: an entry that is in some live arm is active, whatever dead arms it is
      also in. */
  function Reported(st: State): Table {
    Table(st.active, st.guarded - st.active.Keys)
  }

  function Scan(lines: seq<Line>, defined: set<string>): Result<Table> {
    match Run(lines, defined, START)
    case Ok(st) => Ok(Reported(st))
    case Err(e) => Err(e)
  }

  method EvalGuard(g: Guard, defined: set<string>) returns (r: Result<Frame>)
    ensures r == if GuardReadable(g) then Ok(Frame(GuardHolds(g, defined), GuardText(g))) else Err(GuardError(g))
  {
    match g
    case Ifdef(n) => return Ok(Frame(n in defined, n));
    case Ifndef(n) => return Ok(Frame(n !in defined, n));
    case If(e) =>
      var v := EvalIf(e, defined);
      match v {
        case Ok(pair) => return Ok(Frame(pair.0, pair.1));
        case Err(err) => return Err(err);
      }
  }

  /** Remove from `guarded` the names that are active. */
  method ActiveWins(active: map<string, string>, guarded: map<string, string>) returns (r: map<string, string>)
    ensures r == guarded - active.Keys
  {
    r := guarded;
    var names := guarded.Keys;
    ghost var seen: set<string> := {};
    while names != {}
      invariant names + seen == guarded.Keys
      invariant r == guarded - (seen * active.Keys)
      decreases names
    {
      var name :| name in names;
      if name in active { r := r - {name}; }
      names, seen := names - {name}, seen + {name};
    }
    assert seen * active.Keys == guarded.Keys * active.Keys;
  }

  method ScanTable(lines: seq<Line>, defined: set<string>) returns (r: Result<Table>)
    ensures r == Scan(lines, defined)
  {
    hide Evaluable, Mixed, Holds, Canonical;
    var active: map<string, string>, guarded: map<string, string> := map[], map[];
    var stack: seq<Frame> := [];
    for i := 0 to |lines|
      invariant Run(lines[i..], defined, State(active, guarded, stack)) == Run(lines, defined, START)
    {
      var l := lines[i];
      assert lines[i..][0] == l && lines[i..][1..] == lines[i + 1..];
      match l {
        case Open(g) =>
          var f := EvalGuard(g, defined);
          match f {
            case Ok(frame) => stack := stack + [frame];
            case Err(e) => return Err(e);
          }
        case Else =>
          if stack == [] { return Err(ElseAlone); }
          var top := stack[|stack| - 1];
          stack := stack[..|stack| - 1] + [Frame(!top.live, top.flag)];
        case Endif =>
          if stack == [] { return Err(EndifAlone); }
          stack := stack[..|stack| - 1];
        case Unknown => return Err(UnsupportedDirective);
        case Other =>
        case Entry(index, handler) =>
          if !IsNull(handler) {
            if IsNumber(index) { return Err(BareNumber); }
            var blocker := Blocker(stack);
            if blocker.None? {
              active := active[index := handler];
            } else {
              guarded := guarded[index := blocker.value];
            }
          }
      }
    }
    if stack != [] { return Err(Unterminated); }
    guarded := ActiveWins(active, guarded);
    return Ok(Table(active, guarded));
  }

  // ----- Groups -----

  /** A stretch of the table as nested groups. */
  datatype Forest =
    | Nil
    | Row(index: string, handler: string, next: Forest)
    | Skip(next: Forest)
    | Group(guard: Guard, arms: Arms, next: Forest)

  /** The arms of a group, with `#else` between them and `#endif` after the last. */
  datatype Arms = Last(body: Forest) | Then(body: Forest, rest: Arms)

  function Flatten(f: Forest): seq<Line> {
    match f
    case Nil => []
    case Row(i, h, next) => [Entry(i, h)] + Flatten(next)
    case Skip(next) => [Other] + Flatten(next)
    case Group(g, arms, next) => [Open(g)] + FlattenArms(arms) + Flatten(next)
  }

  function FlattenArms(a: Arms): seq<Line> {
    match a
    case Last(b) => Flatten(b) + [Endif]
    case Then(b, rest) => Flatten(b) + [Else] + FlattenArms(rest)
  }

  predicate Readable(f: Forest) {
    match f
    case Nil => true
    case Row(i, h, next) => (IsNull(h) || !IsNumber(i)) && Readable(next)
    case Skip(next) => Readable(next)
    case Group(g, arms, next) => GuardReadable(g) && ReadableArms(arms) && Readable(next)
  }

  predicate ReadableArms(a: Arms) {
    match a
    case Last(b) => Readable(b)
    case Then(b, rest) => Readable(b) && ReadableArms(rest)
  }

  /** What becomes of one entry: compiled with its handler, or kept out by a guard. */
  datatype Verdict = Live(name: string, handler: string) | Dead(name: string, flag: string)

  /** What becomes of the entries, `blocker` being the innermost enclosing guard that fails. A
      group's first arm is processed when its guard holds, and its second when it does not. */
  function Meaning(f: Forest, defined: set<string>, blocker: Option<string>): seq<Verdict> {
    match f
    case Nil => []
    case Row(i, h, next) =>
      (if IsNull(h) then [] else [if blocker.None? then Live(i, h) else Dead(i, blocker.value)]) + Meaning(next, defined, blocker)
    case Skip(next) => Meaning(next, defined, blocker)
    case Group(g, arms, next) =>
      MeaningArms(arms, defined, blocker, GuardHolds(g, defined), GuardText(g)) + Meaning(next, defined, blocker)
  }

  function MeaningArms(a: Arms, defined: set<string>, blocker: Option<string>, taken: bool, flag: string): seq<Verdict> {
    var inside := if taken then blocker else Some(flag);
    match a
    case Last(b) => Meaning(b, defined, inside)
    case Then(b, rest) => Meaning(b, defined, inside) + MeaningArms(rest, defined, blocker, !taken, flag)
  }

  function NoteOne(v: Verdict, st: State): State {
    match v
    case Live(n, h) => st.(active := st.active[n := h])
    case Dead(n, flag) => st.(guarded := st.guarded[n := flag])
  }

  /** The two maps after a list of verdicts, the later ones winning. */
  function Noted(vs: seq<Verdict>, st: State): (r: State)
    ensures r.stack == st.stack
  {
    if vs == [] then st else NoteOne(vs[|vs| - 1], Noted(vs[..|vs| - 1], st))
  }

  lemma {:induction false} NotedConcat(a: seq<Verdict>, b: seq<Verdict>, st: State)
    ensures Noted(a + b, st) == Noted(b, Noted(a, st))
    decreases |b|
  {
    if b == [] {
      assert a + b == a;
    } else {
      assert (a + b)[..|a + b| - 1] == a + b[..|b| - 1];
      NotedConcat(a, b[..|b| - 1], st);
    }
  }

  lemma NotedOne(v: Verdict, st: State)
    ensures Noted([v], st) == NoteOne(v, st)
  {
    assert [v][..0] == [];
  }

  lemma RunStep(l: Line, rest: seq<Line>, defined: set<string>, st: State)
    requires Step(l, defined, st).Ok?
    ensures Run([l] + rest, defined, st) == Run(rest, defined, Step(l, defined, st).value)
  {
    assert ([l] + rest)[1..] == rest;
  }

  lemma NotedStack(vs: seq<Verdict>, st: State, stack: seq<Frame>)
    ensures Noted(vs, st).(stack := stack) == Noted(vs, st.(stack := stack))
    decreases |vs|
  {
    if vs != [] {
      NotedStack(vs[..|vs| - 1], st, stack);
    }
  }

  /** Scanning a readable stretch notes its meaning, and leaves the stack as it was. */
  lemma {:induction false} FlattenRuns(f: Forest, rest: seq<Line>, defined: set<string>, st: State)
    requires Readable(f)
    ensures Run(Flatten(f) + rest, defined, st) == Run(rest, defined, Noted(Meaning(f, defined, Blocker(st.stack)), st))
    decreases f
  {
    hide Run, GuardReadable, GuardHolds, GuardText, IsNumber, IsNull;
    var blocker := Blocker(st.stack);
    match f
    case Nil =>
      assert Flatten(f) + rest == rest;
    case Row(i, h, next) =>
      assert Flatten(f) + rest == [Entry(i, h)] + (Flatten(next) + rest);
      RunStep(Entry(i, h), Flatten(next) + rest, defined, st);
      var st1 := Step(Entry(i, h), defined, st).value;
      FlattenRuns(next, rest, defined, st1);
      if !IsNull(h) {
        var v := if blocker.None? then Live(i, h) else Dead(i, blocker.value);
        NotedOne(v, st);
        NotedConcat([v], Meaning(next, defined, blocker), st);
      } else {
        assert Meaning(f, defined, blocker) == Meaning(next, defined, blocker);
      }
    case Skip(next) =>
      assert Flatten(f) + rest == [Other] + (Flatten(next) + rest);
      RunStep(Other, Flatten(next) + rest, defined, st);
      FlattenRuns(next, rest, defined, st);
    case Group(g, arms, next) =>
      var tail := FlattenArms(arms) + (Flatten(next) + rest);
      assert Flatten(f) + rest == [Open(g)] + tail;
      RunStep(Open(g), tail, defined, st);
      var frame := Frame(GuardHolds(g, defined), GuardText(g));
      ArmsRun(arms, Flatten(next) + rest, defined, st, frame);
      var vs := MeaningArms(arms, defined, blocker, frame.live, frame.flag);
      FlattenRuns(next, rest, defined, Noted(vs, st));
      NotedConcat(vs, Meaning(next, defined, blocker), st);
  }

  lemma {:induction false} ArmsRun(a: Arms, rest: seq<Line>, defined: set<string>, st: State, frame: Frame)
    requires ReadableArms(a)
    ensures Run(FlattenArms(a) + rest, defined, st.(stack := st.stack + [frame]))
         == Run(rest, defined, Noted(MeaningArms(a, defined, Blocker(st.stack), frame.live, frame.flag), st))
    decreases a
  {
    hide Run;
    var stack := st.stack + [frame];
    var st1 := st.(stack := stack);
    var inside := if frame.live then Blocker(st.stack) else Some(frame.flag);
    assert stack[..|stack| - 1] == st.stack;
    assert Blocker(stack) == inside;
    var vs := Meaning(a.body, defined, inside);
    var st2 := Noted(vs, st1);
    NotedStack(vs, st, stack);
    NotedStack(vs, st1, st.stack);
    match a
    case Last(b) =>
      assert FlattenArms(a) + rest == Flatten(b) + ([Endif] + rest);
      FlattenRuns(b, [Endif] + rest, defined, st1);
      RunStep(Endif, rest, defined, st2);
    case Then(b, more) =>
      var tail := FlattenArms(more) + rest;
      assert FlattenArms(a) + rest == Flatten(b) + ([Else] + tail);
      FlattenRuns(b, [Else] + tail, defined, st1);
      RunStep(Else, tail, defined, st2);
      var flipped := Frame(!frame.live, frame.flag);
      ArmsRun(more, rest, defined, Noted(vs, st), flipped);
      NotedStack(vs, st, st.stack + [flipped]);
      NotedConcat(vs, MeaningArms(more, defined, Blocker(st.stack), flipped.live, flipped.flag), st);
  }

  /** The report a table of groups deserves. */
  function Deserved(f: Forest, defined: set<string>): Table {
    Reported(Noted(Meaning(f, defined, None), START))
  }

  /** THE STACK MACHINE AGREES WITH THE GROUPS: a readable table, however deeply nested, is
      accepted, and reported as its groups say. */
  lemma ScanMeans(f: Forest, defined: set<string>)
    requires Readable(f)
    ensures Scan(Flatten(f), defined) == Ok(Deserved(f, defined))
  {
    hide Meaning, Noted;
    FlattenRuns(f, [], defined, START);
    assert Flatten(f) + [] == Flatten(f);
  }

  // ----- What is accepted -----

  /** A stretch of groups ends where the lines do, or at the `#else` or `#endif` of the group
      it is in. */
  predicate AtEnd(lines: seq<Line>) {
    lines == [] || lines[0] == Else || lines[0] == Endif
  }

  lemma RunHead(lines: seq<Line>, defined: set<string>, st: State)
    requires lines != [] && Run(lines, defined, st).Ok?
    ensures Step(lines[0], defined, st).Ok?
    ensures Run(lines, defined, st) == Run(lines[1..], defined, Step(lines[0], defined, st).value)
  {
  }

  lemma EndRuns(lines: seq<Line>, defined: set<string>, st: State)
    requires AtEnd(lines) && Run(lines, defined, st).Ok?
    ensures lines == [] <==> st.stack == []
    ensures lines == Flatten(Nil) + lines
  {
  }

  /** What a line that is accepted shows: it can be read, and an open conditional stays open
      after anything but its `#endif`. */
  lemma StepShows(l: Line, defined: set<string>, st: State)
    requires Step(l, defined, st).Ok?
    ensures !l.Unknown?
    ensures l.Entry? || l.Other? ==> Step(l, defined, st).value.stack == st.stack
    ensures l.Entry? ==> IsNull(l.handler) || !IsNumber(l.index)
    ensures l.Open? ==> GuardReadable(l.guard)
    ensures l.Open? || l.Else? ==> Step(l, defined, st).value.stack != []
  {
  }

  /** Lines that are scanned without a complaint are a readable stretch of groups and what
      follows it; nothing follows it outside all groups. */
  lemma {:induction false} Regroup(lines: seq<Line>, defined: set<string>, st: State) returns (f: Forest, rest: seq<Line>)
    requires Run(lines, defined, st).Ok?
    ensures lines == Flatten(f) + rest && Readable(f) && AtEnd(rest) && (rest == [] <==> st.stack == [])
    decreases |lines|, 0
  {
    hide Run, Step, Flatten, FlattenArms, GuardReadable, GuardHolds, GuardText, IsNumber, IsNull, Blocker, MeaningArms, Noted;
    if AtEnd(lines) {
      f, rest := Nil, lines;
      EndRuns(lines, defined, st);
    } else {
      var l, tail := lines[0], lines[1..];
      RunHead(lines, defined, st);
      StepShows(l, defined, st);
      var st1 := Step(l, defined, st).value;
      assert lines == [l] + tail;
      var next;
      if l.Open? {
        var arms, more := RegroupArms(tail, defined, st1);
        RegroupedRuns(lines, arms, more, defined, st);
        next, rest := Regroup(more, defined, Noted(MeaningArms(arms, defined, Blocker(st.stack), GuardHolds(l.guard, defined), GuardText(l.guard)), st));
        f := Group(l.guard, arms, next);
        HeadAndRest(f, rest);
      } else {
        next, rest := Regroup(tail, defined, st1);
        f := if l.Other? then Skip(next) else Row(l.index, l.handler, next);
        HeadAndRest(f, rest);
      }
    }
  }

  lemma RegroupedRuns(lines: seq<Line>, arms: Arms, tail: seq<Line>, defined: set<string>, st: State)
    requires lines != [] && lines[0].Open? && GuardReadable(lines[0].guard)
    requires lines[1..] == FlattenArms(arms) + tail && ReadableArms(arms)
    ensures Run(lines, defined, st)
         == Run(tail, defined, Noted(MeaningArms(arms, defined, Blocker(st.stack), GuardHolds(lines[0].guard, defined), GuardText(lines[0].guard)), st))
  {
    hide Run, GuardReadable, GuardHolds, GuardText, FlattenArms, MeaningArms, Noted, Blocker;
    var g := lines[0].guard;
    assert lines == [Open(g)] + (FlattenArms(arms) + tail);
    RunStep(Open(g), FlattenArms(arms) + tail, defined, st);
    ArmsRun(arms, tail, defined, st, Frame(GuardHolds(g, defined), GuardText(g)));
  }

  lemma ArmsLines(b: Forest, more: Arms, tail: seq<Line>)
    ensures FlattenArms(Last(b)) + tail == Flatten(b) + ([Endif] + tail)
    ensures FlattenArms(Then(b, more)) + tail == Flatten(b) + ([Else] + (FlattenArms(more) + tail))
  {
    hide Flatten;
    assert FlattenArms(Last(b)) == Flatten(b) + [Endif];
    assert FlattenArms(Then(b, more)) == Flatten(b) + [Else] + FlattenArms(more);
  }

  lemma {:induction false} RegroupArms(lines: seq<Line>, defined: set<string>, st: State) returns (a: Arms, rest: seq<Line>)
    requires Run(lines, defined, st).Ok? && st.stack != []
    ensures lines == FlattenArms(a) + rest && ReadableArms(a)
    decreases |lines|, 1
  {
    hide Run, Step, Flatten, FlattenArms, Blocker, Meaning, Noted;
    var b, tail := Regroup(lines, defined, st);
    FlattenRuns(b, tail, defined, st);
    var st1 := Noted(Meaning(b, defined, Blocker(st.stack)), st);
    RunHead(tail, defined, st1);
    assert tail == [tail[0]] + tail[1..];
    if tail[0] == Endif {
      a, rest := Last(b), tail[1..];
      ArmsLines(b, a, rest);
    } else {
      StepShows(Else, defined, st1);
      var more;
      more, rest := RegroupArms(tail[1..], defined, Step(Else, defined, st1).value);
      a := Then(b, more);
      ArmsLines(b, more, rest);
    }
  }

  /** EXACTLY THE READABLE GROUPS ARE ACCEPTED: an unmatched `#else` or `#endif`, an unterminated
      group, an unknown directive, a guard that cannot be read or a bare number is always
      rejected, and nothing else is. */
  lemma AcceptsExactly(lines: seq<Line>, defined: set<string>)
    ensures Scan(lines, defined).Ok? <==> exists f: Forest :: Readable(f) && Flatten(f) == lines
  {
    if Scan(lines, defined).Ok? {
      var f, rest := Regroup(lines, defined, START);
      assert Readable(f) && Flatten(f) == lines;
    }
    forall f: Forest | Readable(f) && Flatten(f) == lines
      ensures Scan(lines, defined).Ok?
    {
      ScanMeans(f, defined);
    }
  }

  // ----- Groups are read one way -----

  function HeadLine(g: Forest): Line {
    match g
    case Row(i, h, _) => Entry(i, h)
    case Group(x, _, _) => Open(x)
    case Skip(_) => Other
    case Nil => Endif
  }

  /** The lines after the first, with `s` after them. */
  function RestLines(g: Forest, s: seq<Line>): seq<Line> {
    match g
    case Nil => s
    case Row(_, _, next) => Flatten(next) + s
    case Skip(next) => Flatten(next) + s
    case Group(_, arms, next) => FlattenArms(arms) + (Flatten(next) + s)
  }

  lemma HeadAndRest(g: Forest, s: seq<Line>)
    requires AtEnd(s)
    ensures g.Nil? <==> AtEnd(Flatten(g) + s)
    ensures g.Nil? ==> Flatten(g) + s == s
    ensures !g.Nil? ==> Flatten(g) + s == [HeadLine(g)] + RestLines(g, s)
  {
    hide Flatten, FlattenArms, AtEnd;
    FlattenIs(g);
    match g
    case Nil =>
      assert [] + s == s;
    case Row(i, h, next) =>
      OneLine(Entry(i, h), Flatten(next), s);
    case Skip(next) =>
      OneLine(Other, Flatten(next), s);
    case Group(x, arms, next) =>
      OneLine(Open(x), FlattenArms(arms) + Flatten(next), s);
      Assoc(FlattenArms(arms), Flatten(next), s);
  }

  lemma Assoc(a: seq<Line>, b: seq<Line>, s: seq<Line>)
    ensures (a + b) + s == a + (b + s)
  {
  }

  lemma FlattenIs(g: Forest)
    ensures Flatten(g) == match g
                          case Nil => []
                          case Row(i, h, next) => [Entry(i, h)] + Flatten(next)
                          case Skip(next) => [Other] + Flatten(next)
                          case Group(x, arms, next) => [Open(x)] + (FlattenArms(arms) + Flatten(next))
  {
    if g.Group? {
      assert [Open(g.guard)] + FlattenArms(g.arms) + Flatten(g.next) == [Open(g.guard)] + (FlattenArms(g.arms) + Flatten(g.next));
    }
  }

  lemma OneLine(l: Line, a: seq<Line>, s: seq<Line>)
    requires l != Else && l != Endif
    ensures ([l] + a) + s == [l] + (a + s) && !AtEnd([l] + (a + s))
  {
  }

  lemma SameHeadAndRest(l: Line, a: seq<Line>, m: Line, b: seq<Line>)
    requires [l] + a == [m] + b
    ensures l == m && a == b
  {
    assert ([l] + a)[0] == l && ([l] + a)[1..] == a;
    assert ([m] + b)[0] == m && ([m] + b)[1..] == b;
  }

  lemma {:induction false} FlattenCuts(f: Forest, r: seq<Line>, g: Forest, s: seq<Line>)
    requires Flatten(f) + r == Flatten(g) + s && AtEnd(r) && AtEnd(s)
    ensures f == g && r == s
    decreases f
  {
    hide Flatten, FlattenArms, AtEnd;
    HeadAndRest(f, r);
    HeadAndRest(g, s);
    if !f.Nil? {
      SameHeadAndRest(HeadLine(f), RestLines(f, r), HeadLine(g), RestLines(g, s));
      if f.Group? {
        ArmsCut(f.arms, Flatten(f.next) + r, g.arms, Flatten(g.next) + s);
      }
      FlattenCuts(f.next, r, g.next, s);
    }
  }

  lemma {:induction false} ArmsCut(a: Arms, r: seq<Line>, b: Arms, s: seq<Line>)
    requires FlattenArms(a) + r == FlattenArms(b) + s
    ensures a == b && r == s
    decreases a
  {
    var p := (if a.Last? then [Endif] else [Else] + FlattenArms(a.rest)) + r;
    var q := (if b.Last? then [Endif] else [Else] + FlattenArms(b.rest)) + s;
    assert FlattenArms(a) + r == Flatten(a.body) + p;
    assert FlattenArms(b) + s == Flatten(b.body) + q;
    FlattenCuts(a.body, p, b.body, q);
    assert p[0] == q[0];
    if a.Last? {
      assert p[1..] == r && q[1..] == s;
    } else {
      assert p[1..] == FlattenArms(a.rest) + r && q[1..] == FlattenArms(b.rest) + s;
      ArmsCut(a.rest, r, b.rest, s);
    }
  }

  /** No group has more than one `#else`: the groups the C grammar allows. */
  predicate OneElse(f: Forest) {
    match f
    case Nil => true
    case Row(_, _, next) => OneElse(next)
    case Skip(next) => OneElse(next)
    case Group(_, arms, next) => OneElseArms(arms, true) && OneElse(next)
  }

  predicate OneElseArms(a: Arms, allowed: bool) {
    match a
    case Last(b) => OneElse(b)
    case Then(b, rest) => allowed && OneElse(b) && OneElseArms(rest, false)
  }

  /** A table can be read as groups in one way only, so a table the scan accepts is one the C
      grammar allows exactly when no group of it repeats its `#else`. */
  lemma ReadOneWay(f: Forest, lines: seq<Line>)
    requires Flatten(f) == lines
    ensures forall g: Forest :: Flatten(g) == lines ==> g == f
    ensures (exists g: Forest :: OneElse(g) && Flatten(g) == lines) <==> OneElse(f)
  {
    forall g: Forest | Flatten(g) == lines
      ensures g == f
    {
      assert Flatten(g) + [] == Flatten(g) && Flatten(f) + [] == Flatten(f);
      FlattenCuts(f, [], g, []);
    }
  }

  /** The scan is more lenient than the C grammar: a second `#else` is accepted, and turns its
      group on again. */
  lemma RepeatedElseIsAccepted()
    ensures var f := Group(Ifdef("A"), Then(Nil, Then(Nil, Last(Row("SYS_X", "x", Nil)))), Nil);
            && !OneElse(f)
            && Scan(Flatten(f), {"A"}) == Ok(Table(map["SYS_X" := "x"], map[]))
  {
    var rows := Row("SYS_X", "x", Nil);
    var f := Group(Ifdef("A"), Then(Nil, Then(Nil, Last(rows))), Nil);
    assert !IsNumber("SYS_X") by { assert "SYS_X"[0] == 'S'; }
    assert !IsNull("x") by { assert "x"[0] == 'x' && "0"[0] == '0' && |"NULL"| == 4; }
    assert Readable(rows);
    assert ReadableArms(Last(rows));
    assert ReadableArms(Then(Nil, Last(rows)));
    assert Readable(f);
    ScanMeans(f, {"A"});
    var v := Live("SYS_X", "x");
    assert Meaning(rows, {"A"}, None) == [v];
    assert MeaningArms(Last(rows), {"A"}, None, true, "A") == [v];
    assert MeaningArms(Then(Nil, Last(rows)), {"A"}, None, false, "A") == [v];
    assert Meaning(f, {"A"}, None) == [v];
    NotedOne(v, START);
    assert !OneElseArms(Then(Nil, Last(rows)), false);
  }

  // ----- What the two maps hold -----

  /** The last verdict of the kind on `n`. */
  ghost predicate LastOn(vs: seq<Verdict>, live: bool, n: string, i: nat) {
    && i < |vs| && vs[i].Live? == live && vs[i].name == n
    && forall j :: i < j < |vs| && vs[j].Live? == live ==> vs[j].name != n
  }

  lemma {:induction false} NotedHolds(vs: seq<Verdict>, n: string)
    ensures var st := Noted(vs, START);
            && (n in st.active ==> exists i: nat :: LastOn(vs, true, n, i) && vs[i].handler == st.active[n])
            && (n in st.guarded ==> exists i: nat :: LastOn(vs, false, n, i) && vs[i].flag == st.guarded[n])
            && forall i: nat :: i < |vs| && vs[i].name == n ==> if vs[i].Live? then n in st.active else n in st.guarded
    decreases |vs|
  {
    if vs != [] {
      var m := |vs| - 1;
      NotedHolds(vs[..m], n);
      var st := Noted(vs, START);
      if n in st.active {
        if vs[m].Live? && vs[m].name == n {
          assert LastOn(vs, true, n, m);
        } else {
          var i: nat :| LastOn(vs[..m], true, n, i) && vs[..m][i].handler == st.active[n];
          assert LastOn(vs, true, n, i);
        }
      }
      if n in st.guarded {
        if vs[m].Dead? && vs[m].name == n {
          assert LastOn(vs, false, n, m);
        } else {
          var i: nat :| LastOn(vs[..m], false, n, i) && vs[..m][i].flag == st.guarded[n];
          assert LastOn(vs, false, n, i);
        }
      }
      forall i: nat | i < |vs| && vs[i].name == n
        ensures if vs[i].Live? then n in st.active else n in st.guarded
      {
        if i < m { assert vs[..m][i] == vs[i]; }
      }
    }
  }

  /** The names of all entries that have a handler. */
  function Names(f: Forest): set<string> {
    match f
    case Nil => {}
    case Row(i, h, next) => (if IsNull(h) then {} else {i}) + Names(next)
    case Skip(next) => Names(next)
    case Group(_, arms, next) => NamesArms(arms) + Names(next)
  }

  function NamesArms(a: Arms): set<string> {
    match a
    case Last(b) => Names(b)
    case Then(b, rest) => Names(b) + NamesArms(rest)
  }

  ghost predicate Judges(vs: seq<Verdict>, names: set<string>) {
    forall n: string :: n in names <==> exists i: nat :: i < |vs| && vs[i].name == n
  }

  lemma JudgesConcat(a: seq<Verdict>, x: set<string>, b: seq<Verdict>, y: set<string>)
    requires Judges(a, x) && Judges(b, y)
    ensures Judges(a + b, x + y)
  {
    forall n: string
      ensures n in x + y <==> exists i: nat :: i < |a + b| && (a + b)[i].name == n
    {
      if n in x {
        var i: nat :| i < |a| && a[i].name == n;
        assert (a + b)[i].name == n;
      }
      if n in y {
        var i: nat :| i < |b| && b[i].name == n;
        assert (a + b)[|a| + i].name == n;
      }
      if i: nat :| i < |a + b| && (a + b)[i].name == n {
        if i < |a| { assert a[i].name == n; } else { assert b[i - |a|].name == n; }
      }
    }
  }

  lemma {:induction false} EveryNameIsJudged(f: Forest, defined: set<string>, blocker: Option<string>)
    ensures Judges(Meaning(f, defined, blocker), Names(f))
    decreases f
  {
    hide Judges, IsNull, GuardHolds, GuardText;
    match f
    case Nil => NothingJudged();
    case Row(i, h, next) =>
      EveryNameIsJudged(next, defined, blocker);
      if IsNull(h) {
        NothingJudged();
        JudgesConcat([], {}, Meaning(next, defined, blocker), Names(next));
      } else {
        var v := if blocker.None? then Live(i, h) else Dead(i, blocker.value);
        OneJudged(v);
        JudgesConcat([v], {i}, Meaning(next, defined, blocker), Names(next));
      }
    case Skip(next) => EveryNameIsJudged(next, defined, blocker);
    case Group(g, arms, next) =>
      EveryArmIsJudged(arms, defined, blocker, GuardHolds(g, defined), GuardText(g));
      EveryNameIsJudged(next, defined, blocker);
      JudgesConcat(MeaningArms(arms, defined, blocker, GuardHolds(g, defined), GuardText(g)), NamesArms(arms),
                   Meaning(next, defined, blocker), Names(next));
  }

  lemma NothingJudged()
    ensures Judges([], {})
  {
  }

  lemma OneJudged(v: Verdict)
    ensures Judges([v], {v.name})
  {
    assert [v][0] == v;
  }

  lemma {:induction false} EveryArmIsJudged(a: Arms, defined: set<string>, blocker: Option<string>, taken: bool, flag: string)
    ensures Judges(MeaningArms(a, defined, blocker, taken, flag), NamesArms(a))
    decreases a
  {
    hide Judges;
    var inside := if taken then blocker else Some(flag);
    EveryNameIsJudged(a.body, defined, inside);
    if a.Then? {
      EveryArmIsJudged(a.rest, defined, blocker, !taken, flag);
      JudgesConcat(Meaning(a.body, defined, inside), Names(a.body), MeaningArms(a.rest, defined, blocker, !taken, flag), NamesArms(a.rest));
    }
  }

  /** ACTIVE AND GUARDED PARTITION THE NAMES: an entry with a handler is in one of the two maps and
      not both. It is active exactly when some live arm holds it, with the handler of the last
      that does; otherwise it is guarded, by the innermost failing guard of the last dead
      arm that holds it. */
  lemma ReportPartitions(f: Forest, defined: set<string>)
    requires Readable(f)
    ensures var t, vs := Deserved(f, defined), Meaning(f, defined, None);
            && t.active.Keys !! t.guarded.Keys && t.active.Keys + t.guarded.Keys == Names(f)
            && forall n: string :: n in Names(f) ==>
                 && (n in t.active <==> exists i: nat :: i < |vs| && vs[i].Live? && vs[i].name == n)
                 && (n in t.active ==> exists i: nat :: LastOn(vs, true, n, i) && vs[i].handler == t.active[n])
                 && (n in t.guarded ==> exists i: nat :: LastOn(vs, false, n, i) && vs[i].flag == t.guarded[n])
  {
    hide Meaning, Noted, Names;
    var t, vs := Deserved(f, defined), Meaning(f, defined, None);
    EveryNameIsJudged(f, defined, None);
    forall n: string
      ensures n in t.active || n in t.guarded <==> n in Names(f)
      ensures n in t.active <==> exists i: nat :: i < |vs| && vs[i].Live? && vs[i].name == n
      ensures n in t.active ==> exists i: nat :: LastOn(vs, true, n, i) && vs[i].handler == t.active[n]
      ensures n in t.guarded ==> exists i: nat :: LastOn(vs, false, n, i) && vs[i].flag == t.guarded[n]
    {
      NotedHolds(vs, n);
    }
  }
}
