/** Which Makefile targets build the default kernel (`default_targets` in
    tools/check_shared_kernel_jobs.py): directly, or through a sub-make that does. */
module DefaultTargets {
  import opened Graphs

  const KERNEL_GOALS: set<string> := {"all", "kernel.elf", "horus.iso", "iso"}

  /** One `make` command of a recipe: whether it sets a variable that changes the build, whether
      its goals are not all known, and the goals. */
  datatype Invocation = Invocation(foreign: bool, dynamic: bool, goals: seq<string>)

  predicate Plain(v: Invocation) {
    !v.foreign && !v.dynamic
  }

  /** A command with no goal but the kernel's builds the default kernel. */
  predicate BuildsKernel(v: Invocation) {
    forall i :: 0 <= i < |v.goals| ==> v.goals[i] in KERNEL_GOALS
  }

  /** `name` builds the default kernel itself: it is a kernel goal, or one of its commands does. */
  predicate IsDirect(recipes: map<string, seq<Invocation>>, name: string) {
    name in KERNEL_GOALS || (name in recipes && exists i :: 0 <= i < |recipes[name]| && Plain(recipes[name][i]) && BuildsKernel(recipes[name][i]))
  }

  /** The goals a recipe asks for in commands that ask for more than the kernel. */
  function Asked(lines: seq<Invocation>): set<string> {
    set i, g | 0 <= i < |lines| && Plain(lines[i]) && !BuildsKernel(lines[i]) && g in lines[i].goals :: g
  }

  function Edges(recipes: map<string, seq<Invocation>>): Graph<string> {
    map n | n in recipes :: Asked(recipes[n])
  }

  function Directs(recipes: map<string, seq<Invocation>>): set<string> {
    set n | n in KERNEL_GOALS + recipes.Keys && IsDirect(recipes, n)
  }

  /** Some target that builds the kernel itself can be reached from `n`. */
  ghost predicate ReachesDirect(edges: Graph<string>, direct: set<string>, n: string) {
    exists d: string :: d in direct && Reach<string>(edges, n, d)
  }

  // ----- Reading the recipes -----

  function GoalSet(v: Invocation): set<string> {
    set g | g in v.goals
  }

  /** What one recipe adds: whether it is direct, and the goals it asks for. */
  method ReadRecipe(lines: seq<Invocation>) returns (direct: bool, asked: set<string>)
    ensures direct <==> exists i :: 0 <= i < |lines| && Plain(lines[i]) && BuildsKernel(lines[i])
    ensures asked == Asked(lines)
  {
    direct, asked := false, {};
    for k := 0 to |lines|
      invariant direct <==> exists i :: 0 <= i < k && Plain(lines[i]) && BuildsKernel(lines[i])
      invariant forall g: string :: g in asked <==> exists i :: 0 <= i < k && Plain(lines[i]) && !BuildsKernel(lines[i]) && g in lines[i].goals
    {
      var v := lines[k];
      if v.foreign || v.dynamic { continue; }
      if BuildsKernel(v) {
        direct := true;
      } else {
        asked := asked + GoalSet(v);
      }
    }
  }

  method ReadRecipes(recipes: map<string, seq<Invocation>>) returns (direct: set<string>, edges: Graph<string>)
    ensures direct == Directs(recipes) && edges == Edges(recipes)
  {
    hide Plain, BuildsKernel, Asked;
    direct, edges := KERNEL_GOALS, map[];
    var todo := recipes.Keys;
    while todo != {}
      invariant todo <= recipes.Keys && edges.Keys == recipes.Keys - todo
      invariant forall n: string :: n in direct <==> n in KERNEL_GOALS || (n in edges && IsDirect(recipes, n))
      invariant forall n: string :: n in edges ==> edges[n] == Asked(recipes[n])
      decreases todo
    {
      var name :| name in todo;
      var d, asked := ReadRecipe(recipes[name]);
      if d { direct := direct + {name}; }
      edges := edges[name := asked];
      todo := todo - {name};
    }
  }

  // ----- The fixpoint -----

  /** Every target that asks for one in `s` is in `s`. */
  ghost predicate BackClosed(edges: Graph<string>, s: set<string>) {
    forall n: string :: n in edges && edges[n] * s != {} ==> n in s
  }

  lemma {:induction false} WalkGoesBack(edges: Graph<string>, s: set<string>, p: seq<string>)
    requires BackClosed(edges, s) && IsWalk<string>(edges, p) && p[|p| - 1] in s
    ensures p[0] in s
    decreases |p|
  {
    if |p| > 1 {
      Subwalk(edges, p, 1, |p|);
      WalkGoesBack(edges, s, p[1..]);
      assert p[0 + 1] in Succ<string>(edges, p[0]);
      assert p[1] in edges[p[0]] * s;
    }
  }

  lemma AskerReaches(edges: Graph<string>, direct: set<string>, n: string, goal: string)
    requires n in edges && goal in edges[n] && ReachesDirect(edges, direct, goal)
    ensures ReachesDirect(edges, direct, n)
  {
    var d: string :| d in direct && Reach<string>(edges, goal, d);
    ReachStep<string>(edges, n, goal);
    ReachTrans<string>(edges, n, goal, d);
  }

  ghost predicate AllReach(edges: Graph<string>, direct: set<string>, s: set<string>) {
    forall n: string :: n in s ==> ReachesDirect(edges, direct, n)
  }

  /** One pass over the targets, in any order. */
  method Pass(edges: Graph<string>, ghost direct: set<string>, default0: set<string>) returns (default: set<string>, changed: bool)
    requires AllReach(edges, direct, default0)
    ensures default0 <= default <= default0 + edges.Keys && AllReach(edges, direct, default)
    ensures changed <==> default != default0
    ensures !changed ==> BackClosed(edges, default)
  {
    hide ReachesDirect;
    default, changed := default0, false;
    var todo := edges.Keys;
    while todo != {}
      invariant todo <= edges.Keys && default0 <= default <= default0 + edges.Keys && AllReach(edges, direct, default)
      invariant changed <==> default != default0
      invariant !changed ==> forall n: string :: n in edges && n !in todo && edges[n] * default != {} ==> n in default
      decreases todo
    {
      var name :| name in todo;
      todo := todo - {name};
      if name in default { continue; }
      if edges[name] * default != {} {
        ghost var goal :| goal in edges[name] * default;
        AskerReaches(edges, direct, name, goal);
        default, changed := default + {name}, true;
      }
    }
  }

  lemma DirectReach(edges: Graph<string>, direct: set<string>)
    ensures AllReach(edges, direct, direct)
  {
    forall n: string | n in direct
      ensures ReachesDirect(edges, direct, n)
    {
      ReachRefl<string>(edges, n);
    }
  }

  method Fixpoint(edges: Graph<string>, direct: set<string>) returns (default: set<string>)
    ensures forall n: string :: n in default <==> n in direct + edges.Keys && ReachesDirect(edges, direct, n)
  {
    hide ReachesDirect;
    default := direct;
    DirectReach(edges, direct);
    var changed := true;
    while changed
      invariant direct <= default <= direct + edges.Keys && AllReach(edges, direct, default)
      invariant !changed ==> BackClosed(edges, default)
      decreases (direct + edges.Keys) - default, changed
    {
      default, changed := Pass(edges, direct, default);
    }
    forall n: string | ReachesDirect(edges, direct, n)
      ensures n in default
    {
      ReacherIsIn(edges, direct, default, n);
    }
  }

  lemma ReacherIsIn(edges: Graph<string>, direct: set<string>, s: set<string>, n: string)
    requires BackClosed(edges, s) && direct <= s && ReachesDirect(edges, direct, n)
    ensures n in s
  {
    var d: string :| d in direct && Reach<string>(edges, n, d);
    var p :| IsWalkFrom<string>(edges, p, n, d);
    WalkGoesBack(edges, s, p);
  }

  /** THE TARGETS THAT REACH A DIRECT ONE, and no others, whatever order the targets are taken in;
      the kernel's own goals are left out. */
  method Defaults(recipes: map<string, seq<Invocation>>) returns (r: set<string>)
    ensures forall n: string :: n in r <==>
              n in recipes && n !in KERNEL_GOALS && ReachesDirect(Edges(recipes), Directs(recipes), n)
  {
    assert Edges(recipes).Keys == recipes.Keys;
    hide ReachesDirect, Edges, IsDirect;
    var direct, edges := ReadRecipes(recipes);
    var default := Fixpoint(edges, direct);
    return default - KERNEL_GOALS;
  }
}
