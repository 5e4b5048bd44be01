/** The second half of tools/check_lock_order.py: a stack of held locks simulated through
    every body, and the two rules applied to the nestings it finds. */
module LockNestings {
  import opened Graphs
  import opened LockClosure

  const LOCK_PRIMITIVES := {Name("spin_lock"), Name("spin_unlock"), Name("ipc_lock"), Name("ipc_unlock")}

  /** An outer lock and one taken while it is the innermost held. */
  type Nesting = (Name, Name)

  function Top(held: seq<Name>): Name
    requires held != []
  {
    held[|held| - 1]
  }

  function Popped(held: seq<Name>): seq<Name> {
    if held == [] then [] else held[..|held| - 1]
  }

  // ----- The stack through one line -----

  function AfterTakes(held: seq<Name>, takes: seq<Name>, known: set<Name>): seq<Name>
    decreases |takes|
  {
    if takes == [] then held
    else AfterTakes(if takes[0] in known then held + [takes[0]] else held, takes[1..], known)
  }

  function AfterIpcTake(held: seq<Name>, ipcTake: bool): seq<Name> {
    if ipcTake then held + [ENDPOINT_LOCK] else held
  }

  function AfterDrops(held: seq<Name>, drops: seq<Name>, known: set<Name>): seq<Name>
    decreases |drops|
  {
    if drops == [] then held
    else AfterDrops(if held != [] && drops[0] in known then Popped(held) else held, drops[1..], known)
  }

  function AfterIpcDrop(held: seq<Name>, ipcDrop: bool): seq<Name> {
    if ipcDrop then Popped(held) else held
  }

  /** The locks held where a line makes its calls. */
  function AtCalls(held: seq<Name>, line: Line, known: set<Name>): seq<Name> {
    AfterIpcTake(AfterTakes(held, line.takes, known), line.ipcTake)
  }

  function AfterLine(held: seq<Name>, line: Line, known: set<Name>): seq<Name> {
    AfterIpcDrop(AfterDrops(AtCalls(held, line, known), line.drops, known), line.ipcDrop)
  }

  // ----- What one line nests -----

  function TakeNestings(held: seq<Name>, takes: seq<Name>, known: set<Name>): set<Nesting>
    decreases |takes|
  {
    if takes == [] then {}
    else if takes[0] !in known then TakeNestings(held, takes[1..], known)
    else (if held != [] then {(Top(held), takes[0])} else {}) + TakeNestings(held + [takes[0]], takes[1..], known)
  }

  function IpcNestings(held: seq<Name>, ipcTake: bool): set<Nesting> {
    if ipcTake && held != [] && Top(held) != ENDPOINT_LOCK then {(Top(held), ENDPOINT_LOCK)} else {}
  }

  function CallNestings(held: seq<Name>, calls: seq<Name>, takes: Takes): set<Nesting> {
    if held == [] then {}
    else set c, l | c in calls && c !in LOCK_PRIMITIVES && l in Get(takes, c) && l !in held :: (Top(held), l)
  }

  function LineNestings(held: seq<Name>, line: Line, takes: Takes, known: set<Name>): set<Nesting> {
    TakeNestings(held, line.takes, known)
    + IpcNestings(AfterTakes(held, line.takes, known), line.ipcTake)
    + CallNestings(AtCalls(held, line, known), line.calls, takes)
  }

  function BodyNestings(held: seq<Name>, body: Body, takes: Takes, known: set<Name>): set<Nesting>
    decreases |body|
  {
    if body == [] then {}
    else LineNestings(held, body[0], takes, known)
         + BodyNestings(AfterLine(held, body[0], known), body[1..], takes, known)
  }

  /** A nesting that some body shows. */
  ghost predicate Shown(bodies: Bodies, takes: Takes, known: set<Name>, n: Nesting) {
    exists f, i :: f in bodies && 0 <= i < |bodies[f]| && n in BodyNestings([], bodies[f][i], takes, known)
  }

  // ----- The simulation as it is written -----

  /** One line, step by step, on the stack and the nestings found so far. */
  method SimulateLine(held0: seq<Name>, found0: set<Nesting>, line: Line, takes: Takes, known: set<Name>)
    returns (held: seq<Name>, found: set<Nesting>)
    ensures held == AfterLine(held0, line, known)
    ensures found == found0 + LineNestings(held0, line, takes, known)
  {
    held, found := held0, found0;
    var i := 0;
    while i < |line.takes|
      invariant 0 <= i <= |line.takes|
      invariant AfterTakes(held, line.takes[i..], known) == AfterTakes(held0, line.takes, known)
      invariant found + TakeNestings(held, line.takes[i..], known) == found0 + TakeNestings(held0, line.takes, known)
    {
      var l := line.takes[i];
      assert line.takes[i..][0] == l && line.takes[i..][1..] == line.takes[i + 1..];
      if l in known {
        if held != [] { found := found + {(Top(held), l)}; }
        held := held + [l];
      }
      i := i + 1;
    }
    assert line.takes[i..] == [];
    assert held == AfterTakes(held0, line.takes, known);
    assert found == found0 + TakeNestings(held0, line.takes, known);
    if line.ipcTake {
      if held != [] && Top(held) != ENDPOINT_LOCK { found := found + {(Top(held), ENDPOINT_LOCK)}; }
      held := held + [ENDPOINT_LOCK];
    }
    found := found + CallNestings(held, line.calls, takes);
    ghost var atCalls := held;
    i := 0;
    while i < |line.drops|
      invariant 0 <= i <= |line.drops|
      invariant AfterDrops(held, line.drops[i..], known) == AfterDrops(atCalls, line.drops, known)
    {
      assert line.drops[i..][0] == line.drops[i] && line.drops[i..][1..] == line.drops[i + 1..];
      if held != [] && line.drops[i] in known { held := Popped(held); }
      i := i + 1;
    }
    assert line.drops[i..] == [];
    if line.ipcDrop && held != [] { held := Popped(held); }
  }

  method SimulateBody(body: Body, found0: set<Nesting>, takes: Takes, known: set<Name>) returns (found: set<Nesting>)
    ensures found == found0 + BodyNestings([], body, takes, known)
  {
    found := found0;
    var held: seq<Name> := [];
    for i := 0 to |body|
      invariant found + BodyNestings(held, body[i..], takes, known) == found0 + BodyNestings([], body, takes, known)
    {
      hide LineNestings, AfterLine;
      assert body[i..][0] == body[i] && body[i..][1..] == body[i + 1..];
      held, found := SimulateLine(held, found, body[i], takes, known);
    }
    assert body[|body|..] == [];
  }

  /** Every nesting the bodies show, and no other. */
  method Nestings(bodies: Bodies, takes: Takes, known: set<Name>) returns (found: set<Nesting>)
    ensures forall n :: n in found <==> Shown(bodies, takes, known, n)
  {
    hide BodyNestings;
    found := {};
    var todo := bodies.Keys;
    while todo != {}
      invariant todo <= bodies.Keys
      invariant forall n :: n in found ==> Shown(bodies, takes, known, n)
      invariant forall f :: f in bodies && f !in todo ==> AllIn(bodies[f], |bodies[f]|, takes, known, found)
      decreases todo
    {
      var fn :| fn in todo;
      ghost var before := found;
      for i := 0 to |bodies[fn]|
        invariant before <= found && AllIn(bodies[fn], i, takes, known, found)
        invariant forall n :: n in found ==> Shown(bodies, takes, known, n)
      {
        found := SimulateBody(bodies[fn][i], found, takes, known);
      }
      todo := todo - {fn};
    }
  }

  /** The nestings of the first `n` of a function's bodies are in `found`. */
  ghost predicate AllIn(versions: seq<Body>, n: nat, takes: Takes, known: set<Name>, found: set<Nesting>)
    requires n <= |versions|
  {
    forall i :: 0 <= i < n ==> BodyNestings([], versions[i], takes, known) <= found
  }

  // ----- The two rules -----

  /** Every nesting found is declared, and no declared one is found the other way round. */
  ghost predicate PassesRules(found: set<Nesting>, declared: set<Nesting>) {
    && found <= declared
    && forall a, b :: (a, b) in declared ==> (b, a) !in found
  }

  method CheckRules(found: set<Nesting>, declared: set<Nesting>) returns (problems: nat)
    ensures problems == 0 <==> PassesRules(found, declared)
  {
    problems := 0;
    var todo := found;
    while todo != {}
      invariant todo <= found && (problems == 0 <==> found - todo <= declared)
      decreases todo
    {
      var n :| n in todo;
      if n !in declared { problems := problems + 1; }
      assert n in found - (todo - {n});
      todo := todo - {n};
    }
    todo := declared;
    while todo != {}
      invariant todo <= declared
      invariant problems == 0 <==> found <= declared && forall a, b :: (a, b) in declared && (a, b) !in todo ==> (b, a) !in found
      decreases todo
    {
      var n :| n in todo;
      if (n.1, n.0) in found {
        assert (n.0, n.1) in declared && (n.0, n.1) !in todo - {n};
        problems := problems + 1;
      }
      todo := todo - {n};
    }
  }

  /** Every declared lock has a taker. */
  ghost predicate EveryLockSeen(bodies: Bodies, takes: Takes, known: set<Name>) {
    forall l :: l in known ==> exists f :: f in takes && l in takes[f]
  }

  /** The whole checker: true is exit status 0. */
  method Check(bodies: Bodies, known: set<Name>, declared: set<Nesting>)
    returns (ok: bool, takes: Takes, converged: bool, found: set<Nesting>)
    ensures HasDirect(bodies, known, takes) && Sound(bodies, known, takes)
    ensures converged ==> ClosedOn(bodies, takes, bodies.Keys)
    ensures forall n :: n in found <==> Shown(bodies, takes, known, n)
    ensures ok <==> known != {} && EveryLockSeen(bodies, takes, known) && PassesRules(found, declared)
  {
    hide Sound, HasDirect, ClosedOn, Shown, PassesRules;
    takes, converged := LocksTaken(bodies, known);
    found := Nestings(bodies, takes, known);
    var seen := set f, l | f in takes && l in takes[f] :: l;
    var problems := CheckRules(found, declared);
    ok := known != {} && known <= seen && problems == 0;
    if known <= seen {
      forall l | l in known
        ensures exists f :: f in takes && l in takes[f]
      {
        assert l in seen;
      }
    } else {
      var l :| l in known && l !in seen;
      assert !exists f :: f in takes && l in takes[f];
    }
  }
}
