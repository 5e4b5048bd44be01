/** The first half of tools/check_lock_order.py: the locks each function takes, closed over
    calls by repeated passes that update one dictionary in place. */
module LockClosure {
  import opened Graphs

  const ENDPOINT_LOCK := Name("endpoint_lock")
  const ROUNDS := 8

  /** One line of a function's body: the locks it takes and drops by name, whether it takes
      or drops the endpoint lock by its alias, and the functions it calls. */
  datatype Line = Line(takes: seq<Name>, ipcTake: bool, calls: seq<Name>, drops: seq<Name>, ipcDrop: bool)

  type Body = seq<Line>
  type Bodies = map<Name, seq<Body>>
  type Takes = map<Name, set<Name>>

  /** The locks the lines of one body take. */
  function BodyTakes(body: Body, known: set<Name>): set<Name> {
    (set i, l | 0 <= i < |body| && l in body[i].takes && l in known :: l)
    + if exists i :: 0 <= i < |body| && body[i].ipcTake then {ENDPOINT_LOCK} else {}
  }

  function BodyCalls(body: Body): set<Name> {
    set i, c | 0 <= i < |body| && c in body[i].calls :: c
  }

  /** The locks `f` takes itself. */
  function Direct(bodies: Bodies, known: set<Name>, f: Name): set<Name> {
    if f in bodies then set i, l | 0 <= i < |bodies[f]| && l in BodyTakes(bodies[f][i], known) :: l else {}
  }

  /** The other functions `f` calls. */
  function Callees(bodies: Bodies, f: Name): set<Name> {
    if f in bodies then set i, c | 0 <= i < |bodies[f]| && c in BodyCalls(bodies[f][i]) && c != f :: c else {}
  }

  function CallGraph(bodies: Bodies): Graph<Name> {
    map f | f in bodies :: Callees(bodies, f)
  }

  lemma CallGraphSucc(bodies: Bodies, f: Name)
    ensures Succ(CallGraph(bodies), f) == Callees(bodies, f)
  {
  }

  function Get(takes: Takes, f: Name): set<Name> {
    if f in takes then takes[f] else {}
  }

  /** `f` reaches, in at most `k` calls, a function that takes `l` itself. */
  ghost predicate TakesWithin(bodies: Bodies, known: set<Name>, f: Name, l: Name, k: nat) {
    exists p :: IsWalk(CallGraph(bodies), p) && p[0] == f && |p| <= k + 1 && l in Direct(bodies, known, p[|p| - 1])
  }

  /** `f` reaches a function that takes `l` itself: the closure the passes approach. */
  ghost predicate MayTake(bodies: Bodies, known: set<Name>, f: Name, l: Name) {
    exists h :: Reach(CallGraph(bodies), f, h) && l in Direct(bodies, known, h)
  }

  ghost predicate Sound(bodies: Bodies, known: set<Name>, takes: Takes) {
    forall f, l {:trigger MayTake(bodies, known, f, l)} :: l in Get(takes, f) ==> MayTake(bodies, known, f, l)
  }

  /** `takes[f]` holds every lock within `k` calls of `f`. */
  ghost predicate CompleteAt(bodies: Bodies, known: set<Name>, takes: Takes, f: Name, k: nat) {
    forall l {:trigger TakesWithin(bodies, known, f, l, k)} :: TakesWithin(bodies, known, f, l, k) ==> l in Get(takes, f)
  }

  /** One more pass over `f` would change nothing. */
  ghost predicate ClosedAt(bodies: Bodies, takes: Takes, f: Name) {
    forall c {:trigger Get(takes, c)} :: c in Callees(bodies, f) ==> Get(takes, c) <= Get(takes, f)
  }

  // ----- One step of a pass -----

  /** What a pass gives `f`: its own set and the sets its callees have now. */
  function Gathered(bodies: Bodies, takes: Takes, f: Name): set<Name> {
    Get(takes, f) + set c, l | c in Callees(bodies, f) && l in Get(takes, c) :: l
  }

  lemma DirectIsTaken(bodies: Bodies, known: set<Name>, f: Name, l: Name)
    requires l in Direct(bodies, known, f)
    ensures MayTake(bodies, known, f, l)
  {
    ReachRefl(CallGraph(bodies), f);
  }

  lemma CalleeMayTake(bodies: Bodies, known: set<Name>, f: Name, c: Name, l: Name)
    requires c in Callees(bodies, f) && MayTake(bodies, known, c, l)
    ensures MayTake(bodies, known, f, l)
  {
    var h :| Reach(CallGraph(bodies), c, h) && l in Direct(bodies, known, h);
    CallGraphSucc(bodies, f);
    ReachStep(CallGraph(bodies), f, c);
    ReachTrans(CallGraph(bodies), f, c, h);
  }

  lemma GatherKeepsSound(bodies: Bodies, known: set<Name>, takes: Takes, f: Name)
    requires Sound(bodies, known, takes)
    ensures Sound(bodies, known, takes[f := Gathered(bodies, takes, f)])
  {
    forall l | l in Gathered(bodies, takes, f)
      ensures MayTake(bodies, known, f, l)
    {
      if l !in Get(takes, f) {
        var c :| c in Callees(bodies, f) && l in Get(takes, c);
        assert MayTake(bodies, known, c, l);
        CalleeMayTake(bodies, known, f, c, l);
      } else {
        assert MayTake(bodies, known, f, l);
      }
    }
  }

  /** A lock one call further away is a callee's lock. */
  lemma StepCloser(bodies: Bodies, known: set<Name>, f: Name, l: Name, k: nat) returns (c: Name)
    requires TakesWithin(bodies, known, f, l, k + 1) && !TakesWithin(bodies, known, f, l, k)
    ensures c in Callees(bodies, f) && TakesWithin(bodies, known, c, l, k)
  {
    var g := CallGraph(bodies);
    var p :| IsWalk(g, p) && p[0] == f && |p| <= k + 2 && l in Direct(bodies, known, p[|p| - 1]);
    assert |p| > 1;
    c := p[1];
    assert p[0 + 1] in Succ(g, p[0]);
    CallGraphSucc(bodies, f);
    Subwalk(g, p, 1, |p|);
    var q := p[1..|p|];
    assert q[|q| - 1] == p[|p| - 1];
  }

  lemma GatherReachesFurther(bodies: Bodies, known: set<Name>, takes: Takes, f: Name, k: nat)
    requires CompleteAt(bodies, known, takes, f, k)
    requires forall c :: c in Callees(bodies, f) ==> CompleteAt(bodies, known, takes, c, k)
    ensures CompleteAt(bodies, known, takes[f := Gathered(bodies, takes, f)], f, k + 1)
  {
    forall l | TakesWithin(bodies, known, f, l, k + 1)
      ensures l in Gathered(bodies, takes, f)
    {
      if !TakesWithin(bodies, known, f, l, k) {
        var c := StepCloser(bodies, known, f, l, k);
        assert CompleteAt(bodies, known, takes, c, k);
      }
    }
  }

  lemma GrowKeepsComplete(bodies: Bodies, known: set<Name>, takes: Takes, takes': Takes, f: Name, k: nat)
    requires CompleteAt(bodies, known, takes, f, k) && Get(takes, f) <= Get(takes', f)
    ensures CompleteAt(bodies, known, takes', f, k)
  {
  }

  // ----- Closed is least -----

  ghost predicate HasDirect(bodies: Bodies, known: set<Name>, takes: Takes) {
    forall f :: f in bodies ==> f in takes && Direct(bodies, known, f) <= takes[f]
  }

  lemma {:induction false} ClosedAlongWalk(bodies: Bodies, known: set<Name>, takes: Takes, p: seq<Name>, l: Name)
    requires HasDirect(bodies, known, takes) && (forall f :: f in bodies ==> ClosedAt(bodies, takes, f))
    requires IsWalk(CallGraph(bodies), p) && l in Direct(bodies, known, p[|p| - 1])
    ensures l in Get(takes, p[0])
    decreases |p|
  {
    if |p| > 1 {
      Subwalk(CallGraph(bodies), p, 1, |p|);
      assert p[0 + 1] in Succ(CallGraph(bodies), p[0]);
      CallGraphSucc(bodies, p[0]);
      ClosedAlongWalk(bodies, known, takes, p[1..|p|], l);
      assert ClosedAt(bodies, takes, p[0]);
    }
  }

  /** The sets are the least closure exactly when one more pass would change none of them. */
  lemma ClosedIsExact(bodies: Bodies, known: set<Name>, takes: Takes)
    requires HasDirect(bodies, known, takes) && Sound(bodies, known, takes)
    ensures (forall f :: f in bodies ==> ClosedAt(bodies, takes, f)) <==>
            (forall f, l :: f in bodies && MayTake(bodies, known, f, l) ==> l in Get(takes, f))
  {
    if forall f :: f in bodies ==> ClosedAt(bodies, takes, f) {
      forall f, l | f in bodies && MayTake(bodies, known, f, l)
        ensures l in Get(takes, f)
      {
        var h :| Reach(CallGraph(bodies), f, h) && l in Direct(bodies, known, h);
        var p :| IsWalkFrom(CallGraph(bodies), p, f, h);
        ClosedAlongWalk(bodies, known, takes, p, l);
      }
    }
    if forall f, l :: f in bodies && MayTake(bodies, known, f, l) ==> l in Get(takes, f) {
      forall f, c, l | f in bodies && c in Callees(bodies, f) && l in Get(takes, c)
        ensures l in Get(takes, f)
      {
        assert MayTake(bodies, known, c, l);
        CalleeMayTake(bodies, known, f, c, l);
      }
    }
  }

  // ----- The passes -----

  ghost predicate Complete(bodies: Bodies, known: set<Name>, takes: Takes, k: nat) {
    forall f {:trigger CompleteAt(bodies, known, takes, f, k)} :: CompleteAt(bodies, known, takes, f, k)
  }

  ghost predicate CompleteOn(bodies: Bodies, known: set<Name>, takes: Takes, fs: set<Name>, k: nat) {
    forall f {:trigger CompleteAt(bodies, known, takes, f, k)} :: f in fs ==> CompleteAt(bodies, known, takes, f, k)
  }

  ghost predicate ClosedOn(bodies: Bodies, takes: Takes, fs: set<Name>) {
    forall f {:trigger ClosedAt(bodies, takes, f)} :: f in fs ==> ClosedAt(bodies, takes, f)
  }

  lemma UnknownIsComplete(bodies: Bodies, known: set<Name>, takes: Takes, f: Name, k: nat)
    requires f !in bodies
    ensures CompleteAt(bodies, known, takes, f, k)
  {
    forall l | TakesWithin(bodies, known, f, l, k)
      ensures l in Direct(bodies, known, f)
    {
      var p :| IsWalk(CallGraph(bodies), p) && p[0] == f && |p| <= k + 1 && l in Direct(bodies, known, p[|p| - 1]);
      assert |p| > 1 ==> p[0 + 1] in Succ(CallGraph(bodies), p[0]);
    }
  }

  lemma GatherStep(bodies: Bodies, known: set<Name>, takes: Takes, f: Name, rest: set<Name>, k: nat)
    requires f in bodies && Sound(bodies, known, takes) && HasDirect(bodies, known, takes) && Complete(bodies, known, takes, k)
    requires CompleteOn(bodies, known, takes, rest, k + 1)
    ensures var takes' := takes[f := Gathered(bodies, takes, f)];
            && Sound(bodies, known, takes') && HasDirect(bodies, known, takes') && Complete(bodies, known, takes', k)
            && CompleteOn(bodies, known, takes', rest + {f}, k + 1)
  {
    hide Sound, CompleteAt;
    var takes' := takes[f := Gathered(bodies, takes, f)];
    GatherKeepsSound(bodies, known, takes, f);
    GatherReachesFurther(bodies, known, takes, f, k);
    forall h
      ensures CompleteAt(bodies, known, takes', h, k)
      ensures h in rest + {f} ==> CompleteAt(bodies, known, takes', h, k + 1)
    {
      assert CompleteAt(bodies, known, takes, h, k);
      GrowKeepsComplete(bodies, known, takes, takes', h, k);
      if h in rest && h != f {
        GrowKeepsComplete(bodies, known, takes, takes', h, k + 1);
      }
    }
  }

  /** One pass over every function, in any order, each seeing what earlier ones in the same
      pass have gained. */
  method Pass(bodies: Bodies, known: set<Name>, takes0: Takes, ghost k: nat) returns (takes: Takes, changed: bool)
    requires Sound(bodies, known, takes0) && HasDirect(bodies, known, takes0) && Complete(bodies, known, takes0, k)
    ensures Sound(bodies, known, takes) && HasDirect(bodies, known, takes) && Complete(bodies, known, takes, k + 1)
    ensures !changed ==> takes == takes0 && ClosedOn(bodies, takes, bodies.Keys)
  {
    hide Sound, HasDirect, CompleteAt, ClosedAt;
    takes, changed := takes0, false;
    var todo := bodies.Keys;
    while todo != {}
      invariant todo <= bodies.Keys
      invariant Sound(bodies, known, takes) && HasDirect(bodies, known, takes) && Complete(bodies, known, takes, k)
      invariant CompleteOn(bodies, known, takes, bodies.Keys - todo, k + 1)
      invariant !changed ==> takes == takes0 && ClosedOn(bodies, takes, bodies.Keys - todo)
      decreases todo
    {
      var fn :| fn in todo;
      var acc := Gathered(bodies, takes, fn);
      GatherStep(bodies, known, takes, fn, bodies.Keys - todo, k);
      assert bodies.Keys - (todo - {fn}) == bodies.Keys - todo + {fn};
      HasEntry(bodies, known, takes, fn);
      if acc != takes[fn] {
        takes, changed := takes[fn := acc], true;
      } else {
        assert takes[fn := acc] == takes;
        GatheredNothing(bodies, takes, fn);
      }
      todo := todo - {fn};
    }
    assert bodies.Keys - todo == bodies.Keys;
    forall f {:trigger CompleteAt(bodies, known, takes, f, k + 1)}
      ensures CompleteAt(bodies, known, takes, f, k + 1)
    {
      if f !in bodies {
        UnknownIsComplete(bodies, known, takes, f, k + 1);
      }
    }
  }

  lemma HasEntry(bodies: Bodies, known: set<Name>, takes: Takes, f: Name)
    requires HasDirect(bodies, known, takes) && f in bodies
    ensures f in takes
  {
  }

  lemma GatheredNothing(bodies: Bodies, takes: Takes, f: Name)
    requires f in takes && Gathered(bodies, takes, f) == takes[f]
    ensures ClosedAt(bodies, takes, f)
  {
    forall c, l | c in Callees(bodies, f) && l in Get(takes, c)
      ensures l in Get(takes, f)
    {
      assert l in Gathered(bodies, takes, f);
    }
  }

  lemma DirectStart(bodies: Bodies, known: set<Name>, takes: Takes)
    requires takes == map f | f in bodies :: Direct(bodies, known, f)
    ensures Sound(bodies, known, takes) && HasDirect(bodies, known, takes) && Complete(bodies, known, takes, 0)
  {
    forall f, l | l in Get(takes, f)
      ensures MayTake(bodies, known, f, l)
    {
      DirectIsTaken(bodies, known, f, l);
    }
    forall f, l | TakesWithin(bodies, known, f, l, 0)
      ensures l in Get(takes, f)
    {
      var p :| IsWalk(CallGraph(bodies), p) && p[0] == f && |p| <= 1 && l in Direct(bodies, known, p[|p| - 1]);
    }
  }

  /** The closure, after at most eight passes. Whatever happens every lock it names is taken by
      some function that can be reached, and every lock within eight calls is named; if a
      pass changed nothing, the sets are exactly the closure. */
  method LocksTaken(bodies: Bodies, known: set<Name>) returns (takes: Takes, converged: bool)
    ensures HasDirect(bodies, known, takes) && Sound(bodies, known, takes)
    ensures converged || Complete(bodies, known, takes, ROUNDS)
    ensures converged ==> ClosedOn(bodies, takes, bodies.Keys)
    ensures converged ==> forall f, l :: f in bodies ==> (l in Get(takes, f) <==> MayTake(bodies, known, f, l))
  {
    takes := map f | f in bodies :: Direct(bodies, known, f);
    DirectStart(bodies, known, takes);
    converged := false;
    var round := 0;
    while round < ROUNDS
      invariant 0 <= round <= ROUNDS && !converged
      invariant Sound(bodies, known, takes) && HasDirect(bodies, known, takes) && Complete(bodies, known, takes, round)
    {
      hide Sound, HasDirect, Complete, ClosedAt;
      var changed;
      takes, changed := Pass(bodies, known, takes, round);
      round := round + 1;
      if !changed {
        converged := true;
        break;
      }
    }
    if converged {
      ClosedIsExact(bodies, known, takes);
      assert forall f :: f in bodies ==> ClosedAt(bodies, takes, f);
    }
  }

  /** Enough passes: when no lock is more than eight calls away, the answer is the closure
      whether or not a pass was seen to change nothing. */
  lemma EightPassesSuffice(bodies: Bodies, known: set<Name>, takes: Takes)
    requires HasDirect(bodies, known, takes) && Sound(bodies, known, takes) && Complete(bodies, known, takes, ROUNDS)
    requires forall f, l :: MayTake(bodies, known, f, l) ==> TakesWithin(bodies, known, f, l, ROUNDS)
    ensures ClosedOn(bodies, takes, bodies.Keys)
  {
    forall f, l | f in bodies && MayTake(bodies, known, f, l)
      ensures l in Get(takes, f)
    {
      assert CompleteAt(bodies, known, takes, f, ROUNDS);
    }
    ClosedIsExact(bodies, known, takes);
  }
}
