/** Revocation: the mark-and-sweep of rust/src/capability.rs over every capability space,
    which finds the descendants of a capability by marking them in place, and the count of
    the pipe ends it removes. */
module Revocation {
  import opened Graphs
  import opened Capabilities

  const MARK_NEW: nat := 0xFFFF_FFFF
  const MARK_DONE: nat := 0xFFFF_FFFE
  const PIPE_TALLY_CELLS: nat := 3
  const PIPE_TALLY_GEN_MIXED: nat := 0xFFFF_FFFF
  const U32_MAX: nat := 0xFFFF_FFFF
  const TWO_32: nat := 0x1_0000_0000

  predicate IsMark(typ: nat) {
    typ == MARK_NEW || typ == MARK_DONE
  }

  /** No slot carries a sentinel: true whenever no sweep is under way. */
  ghost predicate Unmarked(t: Table) {
    forall s: nat, i: nat :: Slot(t, s, i) ==> !IsMark(t[s][i].typ)
  }

  // ----- The derivation graph a table records -----

  /** A capability that names its parent. */
  predicate HasParent(c: Cap) {
    Live(c) && c.badge != 0
  }

  ghost function Children(t: Table, x: nat): set<nat> {
    set s: nat, i: nat | s < |t| && i < |t[s]| && Slot(t, s, i) && HasParent(t[s][i]) && t[s][i].badge == x
      :: t[s][i].serial
  }

  /** An edge from a parent's serial to each of its children's. */
  ghost function Edges(t: Table): Graph<nat> {
    map x | x in (set s: nat, i: nat | s < |t| && i < |t[s]| && Slot(t, s, i) :: t[s][i].badge) :: Children(t, x)
  }

  lemma EdgeOf(t: Table, s: nat, i: nat)
    requires Slot(t, s, i) && HasParent(t[s][i])
    ensures t[s][i].serial in Succ(Edges(t), t[s][i].badge)
  {
    assert t[s][i].badge in Edges(t);
  }

  lemma EdgeHasSlot(t: Table, x: nat, y: nat) returns (s: nat, i: nat)
    requires y in Succ(Edges(t), x)
    ensures Slot(t, s, i) && HasParent(t[s][i]) && t[s][i].badge == x && t[s][i].serial == y
  {
    s, i :| s < |t| && i < |t[s]| && Slot(t, s, i) && HasParent(t[s][i]) && t[s][i].badge == x && t[s][i].serial == y;
  }

  /** `c` descends from the capability with serial `root` in `t`: its chain of parents
      leads there. */
  ghost predicate Derived(t: Table, root: nat, c: Cap) {
    HasParent(c) && Reach(Edges(t), root, c.badge)
  }

  /** What a sweep for `root` must empty. Without a serial to start from, everything naming
      the object. */
  ghost predicate Hit(t: Table, root: nat, obj: nat, c: Cap) {
    && c.typ != CAP_NULL
    && (if root != 0 then Derived(t, root, c) || c.serial == root else obj != 0 && c.obj == obj)
  }

  // ----- Pipe ends -----

  function PipeIndex(c: Cap): nat {
    c.obj % TWO_32
  }

  function Writer(c: Cap): nat {
    if c.rights & CAP_RIGHT_WRITE != 0 then 1 else 0
  }

  /** Count `c` in the tally if it is a pipe end of a pipe the tally has cells for. */
  function Note(cells: seq<nat>, c: Cap): seq<nat> {
    if c.typ != CAP_PIPE || PipeIndex(c) >= |cells| / PIPE_TALLY_CELLS then cells
    else
      var base := PipeIndex(c) * PIPE_TALLY_CELLS;
      var k := base + Writer(c);
      var counted := cells[k := if cells[k] < U32_MAX then cells[k] + 1 else U32_MAX];
      var generation := c.obj / TWO_32;
      var seen := counted[base + 2];
      if seen == 0 then counted[base + 2 := generation]
      else if seen != generation then counted[base + 2 := PIPE_TALLY_GEN_MIXED]
      else counted
  }

  /** Ends of a pipe in one direction, or of one generation of it. */
  datatype Kind = Towards(pipe: nat, writer: nat) | Named(pipe: nat, generation: nat)

  /** 1 when `c` is an end of that kind. */
  function EndOf(c: Cap, kind: Kind): nat {
    if && c.typ == CAP_PIPE && PipeIndex(c) == kind.pipe
       && (match kind case Towards(_, writer) => Writer(c) == writer case Named(_, generation) => c.obj / TWO_32 == generation)
    then 1 else 0
  }

  function EndsIn(space: seq<Cap>, n: nat, kind: Kind): nat
    requires n <= |space|
  {
    if n == 0 then 0 else EndsIn(space, n - 1, kind) + EndOf(space[n - 1], kind)
  }

  function EndsUpTo(t: Table, n: nat, kind: Kind): nat
    requires n <= |t|
  {
    if n == 0 then 0
    else EndsUpTo(t, n - 1, kind) + EndsIn(t[n - 1], |t[n - 1]|, kind)
  }

  /** How many slots hold an end of that kind. */
  function Ends(t: Table, kind: Kind): nat {
    EndsUpTo(t, |t|, kind)
  }

  lemma {:induction false} EndsInUpdate(space: seq<Cap>, n: nat, i: nat, c: Cap, kind: Kind)
    requires n <= |space| && i < |space|
    ensures EndsIn(space[i := c], n, kind) + (if i < n then EndOf(space[i], kind) else 0)
         == EndsIn(space, n, kind) + (if i < n then EndOf(c, kind) else 0)
    decreases n
  {
    hide EndOf;
    if n > 0 {
      EndsInUpdate(space, n - 1, i, c, kind);
    }
  }

  lemma {:induction false} EndsUpToUpdate(t: Table, n: nat, s: nat, i: nat, c: Cap, kind: Kind)
    requires n <= |t| && Slot(t, s, i)
    ensures EndsUpTo(Put(t, s, i, c), n, kind) + (if s < n then EndOf(t[s][i], kind) else 0)
         == EndsUpTo(t, n, kind) + (if s < n then EndOf(c, kind) else 0)
    decreases n
  {
    hide EndOf;
    if n > 0 {
      EndsUpToUpdate(t, n - 1, s, i, c, kind);
      if s == n - 1 {
        EndsInUpdate(t[s], |t[s]|, i, c, kind);
      }
    }
  }

  /** Replacing one slot moves the count of ends by that slot alone. */
  lemma EndsUpdate(t: Table, s: nat, i: nat, c: Cap, kind: Kind)
    requires Slot(t, s, i)
    ensures Ends(Put(t, s, i, c), kind) + EndOf(t[s][i], kind) == Ends(t, kind) + EndOf(c, kind)
  {
    hide EndOf;
    EndsUpToUpdate(t, |t|, s, i, c, kind);
  }

  /** Ends in slots plus ends counted out: what a revocation conserves. */
  function EndsAccounted(t: Table, cells: seq<nat>, pipe: nat, writer: nat): nat
    requires pipe < |cells| / PIPE_TALLY_CELLS && writer < 2
  {
    Ends(t, Towards(pipe, writer)) + cells[pipe * PIPE_TALLY_CELLS + writer]
  }

  /** The generation cell of a pipe: 0 until an end is counted, then its generation, and the
      mixed mark for good once two differ. */
  function GenerationOf(cells: seq<nat>, pipe: nat): nat
    requires pipe < |cells| / PIPE_TALLY_CELLS
  {
    cells[pipe * PIPE_TALLY_CELLS + 2]
  }

  /** Between `t, cells` and `t', cells'` every pipe end is still in a slot or has been counted,
      as long as there are fewer than 2^32 of them. */
  ghost predicate Counts(t: Table, cells: seq<nat>, t': Table, cells': seq<nat>) {
    && |cells'| == |cells|
    && forall pipe: nat, writer: nat ::
         pipe < |cells| / PIPE_TALLY_CELLS && writer < 2 && EndsAccounted(t, cells, pipe, writer) <= U32_MAX ==>
         EndsAccounted(t', cells', pipe, writer) == EndsAccounted(t, cells, pipe, writer)
  }

  /** And a pipe's tally names one generation only if no end of another one left its slot. */
  ghost predicate TellsGenerations(t: Table, cells: seq<nat>, t': Table, cells': seq<nat>) {
    && |cells'| == |cells|
    && forall pipe: nat :: pipe < |cells| / PIPE_TALLY_CELLS ==> TellsGeneration(t, cells, t', cells', pipe)
  }

  ghost predicate TellsGeneration(t: Table, cells: seq<nat>, t': Table, cells': seq<nat>, pipe: nat)
    requires |cells'| == |cells| && pipe < |cells| / PIPE_TALLY_CELLS
  {
    var was, told := GenerationOf(cells, pipe), GenerationOf(cells', pipe);
    && (told == was || was == 0 || told == PIPE_TALLY_GEN_MIXED)
    && forall g: nat :: g != 0 && g != told && told != PIPE_TALLY_GEN_MIXED ==> Ends(t', Named(pipe, g)) == Ends(t, Named(pipe, g))
  }

  ghost predicate Conserves(t: Table, cells: seq<nat>, t': Table, cells': seq<nat>) {
    Counts(t, cells, t', cells') && TellsGenerations(t, cells, t', cells')
  }

  lemma TellsTrans(t: Table, cells: seq<nat>, t': Table, cells': seq<nat>, t'': Table, cells'': seq<nat>, pipe: nat)
    requires |cells''| == |cells'| == |cells| && pipe < |cells| / PIPE_TALLY_CELLS
    requires TellsGeneration(t, cells, t', cells', pipe) && TellsGeneration(t', cells', t'', cells'', pipe)
    ensures TellsGeneration(t, cells, t'', cells'', pipe)
  {
    hide Ends, GenerationOf;
  }

  lemma ConservesTrans(t: Table, cells: seq<nat>, t': Table, cells': seq<nat>, t'': Table, cells'': seq<nat>)
    requires Conserves(t, cells, t', cells') && Conserves(t', cells', t'', cells'')
    ensures Conserves(t, cells, t'', cells'')
  {
    hide TellsGeneration, EndsAccounted;
    forall pipe: nat | pipe < |cells| / PIPE_TALLY_CELLS
      ensures TellsGeneration(t, cells, t'', cells'', pipe)
    {
      TellsTrans(t, cells, t', cells', t'', cells'', pipe);
    }
  }

  lemma NoteCounts(cells: seq<nat>, c: Cap, pipe: nat, writer: nat)
    requires pipe < |cells| / PIPE_TALLY_CELLS && writer < 2
    ensures |Note(cells, c)| == |cells|
    ensures var k := pipe * PIPE_TALLY_CELLS + writer;
            cells[k] + EndOf(c, Towards(pipe, writer)) <= U32_MAX ==>
            Note(cells, c)[k] == cells[k] + EndOf(c, Towards(pipe, writer))
  {
  }

  lemma NoteTells(cells: seq<nat>, c: Cap, pipe: nat)
    requires pipe < |cells| / PIPE_TALLY_CELLS
    ensures |Note(cells, c)| == |cells|
    ensures var was, told := GenerationOf(cells, pipe), GenerationOf(Note(cells, c), pipe);
            && (told == was || was == 0 || told == PIPE_TALLY_GEN_MIXED)
            && forall g: nat :: g != 0 && g != told && told != PIPE_TALLY_GEN_MIXED ==> EndOf(c, Named(pipe, g)) == 0
  {
  }

  /** Taking a capability out of a slot, counted in the same step. */
  lemma NoteConserves(t: Table, cells: seq<nat>, s: nat, i: nat, c: Cap)
    requires Slot(t, s, i) && c.typ != CAP_PIPE
    ensures Conserves(t, cells, Put(t, s, i, c), Note(cells, t[s][i]))
  {
    hide EndOf, Note, Ends, GenerationOf;
    forall pipe: nat, writer: nat |
      pipe < |cells| / PIPE_TALLY_CELLS && writer < 2 && EndsAccounted(t, cells, pipe, writer) <= U32_MAX
      ensures |Note(cells, t[s][i])| == |cells|
      ensures EndsAccounted(Put(t, s, i, c), Note(cells, t[s][i]), pipe, writer) == EndsAccounted(t, cells, pipe, writer)
    {
      EndsUpdate(t, s, i, c, Towards(pipe, writer));
      NoteCounts(cells, t[s][i], pipe, writer);
      NoEndOf(c, Towards(pipe, writer));
    }
    NoteLength(cells, t[s][i]);
    forall pipe: nat | pipe < |cells| / PIPE_TALLY_CELLS
      ensures TellsGeneration(t, cells, Put(t, s, i, c), Note(cells, t[s][i]), pipe)
    {
      NoteTells(cells, t[s][i], pipe);
      forall g: nat
        ensures Ends(Put(t, s, i, c), Named(pipe, g)) + EndOf(t[s][i], Named(pipe, g)) == Ends(t, Named(pipe, g))
      {
        EndsUpdate(t, s, i, c, Named(pipe, g));
        NoEndOf(c, Named(pipe, g));
      }
    }
  }

  lemma NoEndOf(c: Cap, kind: Kind)
    requires c.typ != CAP_PIPE
    ensures EndOf(c, kind) == 0
  {
  }

  lemma NoteLength(cells: seq<nat>, c: Cap)
    ensures |Note(cells, c)| == |cells|
  {
  }

  // ----- Marking -----

  ghost predicate SameShape(t: Table, u: Table) {
    |t| == |u| && forall s: nat :: s < |t| ==> |t[s]| == |u[s]|
  }

  /** A child of `parent` that no mark has reached yet. */
  predicate ChildOf(c: Cap, parent: nat) {
    c.typ != CAP_NULL && !IsMark(c.typ) && c.serial != 0 && c.badge != 0 && c.badge == parent
  }

  function MarkCap(c: Cap, parent: nat): Cap {
    if ChildOf(c, parent) then c.(typ := MARK_NEW) else c
  }

  /** Slots are visited space by space, in order. */
  predicate Before(s: nat, i: nat, s': nat, i': nat) {
    s < s' || (s == s' && i < i')
  }

  /** The children of `parent` in the slots before `(s, i)` are marked; nothing else differs. */
  ghost predicate MarkedBefore(t: Table, u: Table, parent: nat, s: nat, i: nat) {
    && SameShape(t, u)
    && forall s': nat, i': nat :: s' < |t| && i' < |t[s']| ==>
         u[s'][i'] == if Slot(t, s', i') && Before(s', i', s, i) then MarkCap(t[s'][i'], parent) else t[s'][i']
  }

  ghost predicate MarkedAll(t: Table, u: Table, parent: nat) {
    MarkedBefore(t, u, parent, |t|, 0)
  }

  lemma MarkNext(t: Table, u: Table, parent: nat, s: nat, i: nat)
    requires MarkedBefore(t, u, parent, s, i) && Slot(t, s, i)
    ensures Slot(u, s, i) && u[s][i] == t[s][i]
    ensures MarkedBefore(t, Put(u, s, i, MarkCap(t[s][i], parent)), parent, s, i + 1)
  {
  }

  lemma MarkRow(t: Table, u: Table, parent: nat, s: nat, i: nat)
    requires s < |t| && MarkedBefore(t, u, parent, s, i) && (i >= |t[s]| || i >= CNODE_SIZE)
    ensures MarkedBefore(t, u, parent, s + 1, 0)
  {
  }

  function Limit(space: seq<Cap>): nat {
    if |space| > CNODE_SIZE then CNODE_SIZE else |space|
  }

  lemma PutSame(t: Table, s: nat, i: nat)
    requires Slot(t, s, i)
    ensures Put(t, s, i, t[s][i]) == t
  {
    assert t[s][i := t[s][i]] == t[s];
  }

  lemma ConservesRefl(t: Table, cells: seq<nat>)
    ensures Conserves(t, cells, t, cells)
  {
  }

  class Sweep {
    var table: Table
    var cells: seq<nat>

    constructor (table: Table, cells: seq<nat>)
      ensures this.table == table && this.cells == cells
    {
      this.table, this.cells := table, cells;
    }

    /** Mark every unmarked child of `parent`, counting the pipe ends among them. */
    method MarkChildrenOf(parent: nat)
      modifies this
      ensures MarkedAll(old(table), table, parent)
      ensures Conserves(old(table), old(cells), table, cells)
    {
      hide MarkedBefore, Conserves;
      ghost var t, cells0 := table, cells;
      ConservesRefl(t, cells0);
      if parent == 0 {
        MarkZero(t);
        return;
      }
      MarkNone(t, parent);
      for s := 0 to |table|
        invariant |table| == |t| && MarkedBefore(t, table, parent, s, 0)
        invariant Conserves(t, cells0, table, cells)
      {
        MarkShape(t, table, parent, s, 0);
        for i := 0 to Limit(table[s])
          invariant |table| == |t| && |table[s]| == |t[s]| && MarkedBefore(t, table, parent, s, i)
          invariant Conserves(t, cells0, table, cells)
        {
          MarkNext(t, table, parent, s, i);
          var c := table[s][i];
          if ChildOf(c, parent) {
            NoteConserves(table, cells, s, i, c.(typ := MARK_NEW));
            ConservesTrans(t, cells0, table, cells, Put(table, s, i, c.(typ := MARK_NEW)), Note(cells, c));
            cells := Note(cells, c);
            table := Put(table, s, i, c.(typ := MARK_NEW));
          } else {
            PutSame(table, s, i);
          }
        }
        MarkRow(t, table, parent, s, Limit(table[s]));
      }
    }

    /** Mark every descendant of `root`, and nothing else. */
    method MarkDescendants(root: nat)
      requires root != 0 && Unmarked(table)
      modifies this
      ensures Marking(old(table), table, root) && DoneExpanded(old(table), table, root) && NoNew(table, |table|, 0)
      ensures Conserves(old(table), old(cells), table, cells)
    {
      hide Unmarked, MarkedAll, Marking, DoneExpanded, Conserves, NoNew, Reach;
      ghost var t, cells0 := table, cells;
      MarkChildrenOf(root);
      MarkSeeds(t, table, root);
      while true
        invariant Marking(t, table, root) && SameShape(t, table) && DoneExpanded(t, table, root)
        invariant Conserves(t, cells0, table, cells)
        decreases NotDone(table)
      {
        var progress := false;
        ghost var start := table;
        NoneYet(table);
        for s := 0 to |table|
          invariant Marking(t, table, root) && SameShape(t, table) && DoneExpanded(t, table, root)
          invariant Conserves(t, cells0, table, cells)
          invariant if progress then NotDone(table) < NotDone(start) else table == start && NoNew(table, s, 0)
        {
          for i := 0 to Limit(table[s])
            invariant Marking(t, table, root) && SameShape(t, table) && DoneExpanded(t, table, root)
            invariant Conserves(t, cells0, table, cells)
            invariant if progress then NotDone(table) < NotDone(start) else table == start && NoNew(table, s, i)
          {
            var c := table[s][i];
            if c.typ != MARK_NEW {
              NoNewNext(table, s, i);
              continue;
            }
            ghost var u, before := table, cells;
            table := Put(table, s, i, c.(typ := MARK_DONE));
            ghost var u1 := table;
            PromoteConserves(u, before, s, i);
            MarkChildrenOf(c.serial);
            PromoteStep(t, u, table, root, s, i);
            ConservesTrans(t, cells0, u, before, u1, before);
            ConservesTrans(t, cells0, u1, before, table, cells);
            progress := true;
          }
          NoNewRow(table, s);
        }
        if !progress { break; }
      }
    }

    /** Empty every marked slot, every slot holding the root's own serial and, without a
        serial, every slot naming the object. */
    method Empty(root: nat, obj: nat)
      modifies this
      ensures SweptBefore(old(table), table, root, obj, |old(table)|, 0)
      ensures Conserves(old(table), old(cells), table, cells)
    {
      hide SweptBefore, Conserves;
      ghost var t, cells0 := table, cells;
      ConservesRefl(t, cells0);
      SweepNone(t, root, obj);
      for s := 0 to |table|
        invariant |table| == |t| && SweptBefore(t, table, root, obj, s, 0)
        invariant Conserves(t, cells0, table, cells)
      {
        SweepShape(t, table, root, obj, s, 0);
        for i := 0 to Limit(table[s])
          invariant |table| == |t| && |table[s]| == |t[s]| && SweptBefore(t, table, root, obj, s, i)
          invariant Conserves(t, cells0, table, cells)
        {
          SweepNext(t, table, root, obj, s, i);
          var c := table[s][i];
          if Sweepable(c, root, obj) {
            NoteConserves(table, cells, s, i, NULL_CAP);
            ConservesTrans(t, cells0, table, cells, Put(table, s, i, NULL_CAP), Note(cells, c));
            cells := Note(cells, c);
            table := Put(table, s, i, NULL_CAP);
          } else {
            PutSame(table, s, i);
          }
        }
        SweepRow(t, table, root, obj, s, Limit(table[s]));
      }
    }

    /** REVOCATION IS EXACT: it empties the slots of the root's descendants and of the root
        itself, leaves every other slot as it was, and counts every pipe end it empties. */
    method RevokeSubtree(root: nat, obj: nat)
      requires Unmarked(table)
      modifies this
      ensures Revoked(old(table), table, root, obj)
      ensures Conserves(old(table), old(cells), table, cells)
    {
      hide Unmarked, Marking, DoneExpanded, Conserves, NoNew, SweptBefore, Revoked;
      ghost var t, cells0 := table, cells;
      if root != 0 {
        MarkDescendants(root);
      } else {
        ConservesRefl(t, cells0);
      }
      ghost var u, cells1 := table, cells;
      Empty(root, obj);
      ConservesTrans(t, cells0, u, cells1, table, cells);
      if root != 0 {
        SweepOfMarksIsExact(t, u, table, root, obj);
      } else {
        SweepByObject(t, table, obj);
      }
    }

    /** Revoke the capability in a slot, in every space. False is a refusal: a slot out of
        range, or one of the kernel's own roots. */
    method RevokeGlobal(s: nat, i: nat) returns (ok: bool)
      requires Unmarked(table) && s < |table|
      modifies this
      ensures ok <==> Slot(old(table), s, i) && !PrimordialRoot(i, old(table)[s][i])
      ensures !ok ==> table == old(table) && cells == old(cells)
      ensures ok ==> RevokedAt(old(table), table, s, i)
      ensures Conserves(old(table), old(cells), table, cells)
    {
      hide Unmarked, Conserves, Revoked, RevokedAt;
      ghost var t, cells0 := table, cells;
      ConservesRefl(t, cells0);
      if i >= |table[s]| || i >= CNODE_SIZE { return false; }
      if PrimordialRoot(i, table[s][i]) { return false; }
      var target := table[s][i];
      if target.typ == CAP_NULL {
        RevokeNothing(t, s, i);
        return true;
      }
      NoteConserves(table, cells, s, i, NULL_CAP);
      cells := Note(cells, target);
      table := Put(table, s, i, NULL_CAP);
      ghost var t1, cells1 := table, cells;
      NullKeepsUnmarked(t, s, i);
      RevokeSubtree(target.serial, target.obj);
      ConservesTrans(t, cells0, t1, cells1, table, cells);
      TargetThenSubtree(t, table, s, i);
      return true;
    }
  }

  /** One of the kernel's own roots, which are never revoked: a reserved slot whose serial
      carries the tag 0xC0DE in bits 16 to 31. */
  predicate PrimordialRoot(i: nat, c: Cap) {
    i < KERNEL_RESERVED_CAPS && 0xC0DE_0000 <= c.serial <= 0xC0DE_FFFF
  }

  /** What revoking slot `(s, i)` does: that slot and every slot its subtree asks for are
      emptied, all others are as they were. An empty slot revokes nothing. */
  ghost predicate RevokedAt(t: Table, v: Table, s: nat, i: nat)
    requires Slot(t, s, i)
  {
    var target := t[s][i];
    && SameShape(t, v)
    && (target.typ == CAP_NULL ==> v == t)
    && (target.typ != CAP_NULL ==>
          forall s': nat, i': nat {:trigger v[s'][i']} :: s' < |t| && i' < |t[s']| ==>
            v[s'][i'] == if Slot(t, s', i') && ((s' == s && i' == i) || Hit(t, target.serial, target.obj, t[s'][i']))
                         then NULL_CAP else t[s'][i'])
  }

  lemma RevokeNothing(t: Table, s: nat, i: nat)
    requires Slot(t, s, i) && t[s][i].typ == CAP_NULL
    ensures RevokedAt(t, t, s, i)
  {
  }

  lemma NullKeepsUnmarked(t: Table, s: nat, i: nat)
    requires Slot(t, s, i) && Unmarked(t)
    ensures Unmarked(Put(t, s, i, NULL_CAP))
  {
  }

  /** Emptying the target first takes away only the edge into it, which no path below it
      needs. */
  lemma {:induction false} PathsBelowTarget(t: Table, s: nat, i: nat, p: seq<nat>)
    requires Slot(t, s, i) && IsWalk(Edges(t), p) && p[0] == t[s][i].serial
    ensures Reach(Edges(Put(t, s, i, NULL_CAP)), p[0], p[|p| - 1])
    decreases |p|
  {
    var t1, root := Put(t, s, i, NULL_CAP), p[0];
    if j: nat :| 0 < j < |p| && p[j] == root {
      Subwalk(Edges(t), p, j, |p|);
      PathsBelowTarget(t, s, i, p[j..]);
    } else {
      forall n | 0 <= n < |p| - 1
        ensures p[n + 1] in Succ(Edges(t1), p[n])
      {
        var s', i' := EdgeHasSlot(t, p[n], p[n + 1]);
        assert t1[s'][i'] == t[s'][i'];
        EdgeOf(t1, s', i');
      }
      assert IsWalkFrom(Edges(t1), p, root, p[|p| - 1]);
    }
  }

  lemma FewerEdges(t: Table, s: nat, i: nat, a: nat, b: nat)
    requires Slot(t, s, i) && Reach(Edges(Put(t, s, i, NULL_CAP)), a, b)
    ensures Reach(Edges(t), a, b)
  {
    var t1 := Put(t, s, i, NULL_CAP);
    var p :| IsWalkFrom(Edges(t1), p, a, b);
    forall n | 0 <= n < |p| - 1
      ensures p[n + 1] in Succ(Edges(t), p[n])
    {
      var s', i' := EdgeHasSlot(t1, p[n], p[n + 1]);
      EdgeOf(t, s', i');
    }
    assert IsWalkFrom(Edges(t), p, a, b);
  }

  lemma DerivedBelowTarget(t: Table, s: nat, i: nat, c: Cap)
    requires Slot(t, s, i)
    ensures Derived(Put(t, s, i, NULL_CAP), t[s][i].serial, c) <==> Derived(t, t[s][i].serial, c)
  {
    var root := t[s][i].serial;
    if Derived(t, root, c) {
      var p :| IsWalkFrom(Edges(t), p, root, c.badge);
      PathsBelowTarget(t, s, i, p);
    }
    if Derived(Put(t, s, i, NULL_CAP), root, c) {
      FewerEdges(t, s, i, root, c.badge);
    }
  }

  lemma TargetThenSubtree(t: Table, v: Table, s: nat, i: nat)
    requires Slot(t, s, i) && t[s][i].typ != CAP_NULL
    requires Revoked(Put(t, s, i, NULL_CAP), v, t[s][i].serial, t[s][i].obj)
    ensures RevokedAt(t, v, s, i)
  {
    hide Derived;
    forall s': nat, i': nat | s' < |t| && i' < |t[s']|
      ensures v[s'][i'] == if Slot(t, s', i') && ((s' == s && i' == i) || Hit(t, t[s][i].serial, t[s][i].obj, t[s'][i']))
                           then NULL_CAP else t[s'][i']
    {
      DerivedBelowTarget(t, s, i, t[s'][i']);
    }
  }

  /** Exactly the slots that `Hit` asks for are emptied. */
  ghost predicate Revoked(t: Table, v: Table, root: nat, obj: nat) {
    && SameShape(t, v)
    && forall s: nat, i: nat {:trigger v[s][i]} :: s < |t| && i < |t[s]| ==>
         v[s][i] == if Slot(t, s, i) && Hit(t, root, obj, t[s][i]) then NULL_CAP else t[s][i]
  }

  /** The test the sweep makes of one slot. */
  predicate Sweepable(c: Cap, root: nat, obj: nat) {
    && c.typ != CAP_NULL
    && (IsMark(c.typ) || (root != 0 && c.serial == root) || (root == 0 && obj != 0 && c.obj == obj))
  }

  ghost predicate SweptBefore(t: Table, u: Table, root: nat, obj: nat, s: nat, i: nat) {
    && SameShape(t, u)
    && forall s': nat, i': nat {:trigger u[s'][i']} :: s' < |t| && i' < |t[s']| ==>
         u[s'][i'] == if Slot(t, s', i') && Before(s', i', s, i) && Sweepable(t[s'][i'], root, obj) then NULL_CAP
                      else t[s'][i']
  }

  lemma SweepNone(t: Table, root: nat, obj: nat)
    ensures SweptBefore(t, t, root, obj, 0, 0)
  {
  }

  lemma SweepShape(t: Table, u: Table, root: nat, obj: nat, s: nat, i: nat)
    requires SweptBefore(t, u, root, obj, s, i)
    ensures SameShape(t, u)
  {
  }

  lemma SweepNext(t: Table, u: Table, root: nat, obj: nat, s: nat, i: nat)
    requires SweptBefore(t, u, root, obj, s, i) && Slot(t, s, i)
    ensures Slot(u, s, i) && u[s][i] == t[s][i]
    ensures SweptBefore(t, Put(u, s, i, if Sweepable(t[s][i], root, obj) then NULL_CAP else t[s][i]), root, obj, s, i + 1)
  {
  }

  lemma SweepRow(t: Table, u: Table, root: nat, obj: nat, s: nat, i: nat)
    requires s < |t| && SweptBefore(t, u, root, obj, s, i) && (i >= |t[s]| || i >= CNODE_SIZE)
    ensures SweptBefore(t, u, root, obj, s + 1, 0)
  {
  }

  lemma SweepOfMarksIsExact(t: Table, u: Table, v: Table, root: nat, obj: nat)
    requires root != 0 && Unmarked(t) && Marking(t, u, root) && DoneExpanded(t, u, root) && NoNew(u, |u|, 0)
    requires SweptBefore(u, v, root, obj, |u|, 0)
    ensures Revoked(t, v, root, obj)
  {
    hide Reach, NoNew, DoneExpanded;
    forall s: nat, i: nat | s < |t| && i < |t[s]|
      ensures v[s][i] == if Slot(t, s, i) && Hit(t, root, obj, t[s][i]) then NULL_CAP else t[s][i]
    {
      assert u[s][i] == t[s][i] || (Slot(t, s, i) && MarkOf(t, root, t[s][i], u[s][i]));
      if Slot(t, s, i) && Derived(t, root, t[s][i]) {
        MarksAreComplete(t, u, root, s, i);
      }
    }
  }

  lemma SweepByObject(t: Table, v: Table, obj: nat)
    requires Unmarked(t) && SweptBefore(t, v, 0, obj, |t|, 0)
    ensures Revoked(t, v, 0, obj)
  {
  }

  /** The slots whose capability is not yet done with. */
  ghost function NotDone(u: Table): set<(nat, nat)> {
    set s: nat, i: nat | s < |u| && i < |u[s]| && u[s][i].typ != MARK_DONE :: (s, i)
  }

  lemma MarkSeeds(t: Table, u: Table, root: nat)
    requires Unmarked(t) && MarkedAll(t, u, root)
    ensures Marking(t, u, root) && SameShape(t, u) && DoneExpanded(t, u, root)
  {
    ReachRefl(Edges(t), root);
    assert Marking(t, t, root);
    MarkKeepsMarking(t, t, u, root, root);
    MarkExpands(t, t, u, root, root);
  }

  lemma NoneYet(u: Table)
    ensures NoNew(u, 0, 0)
  {
  }

  lemma NoNewNext(u: Table, s: nat, i: nat)
    requires s < |u| && i < |u[s]| && u[s][i].typ != MARK_NEW
    ensures NoNew(u, s, i) ==> NoNew(u, s, i + 1)
  {
  }

  lemma NoNewRow(u: Table, s: nat)
    requires s < |u|
    ensures NoNew(u, s, Limit(u[s])) ==> NoNew(u, s + 1, 0)
  {
  }

  lemma PromoteConserves(u: Table, cells: seq<nat>, s: nat, i: nat)
    requires Slot(u, s, i) && u[s][i].typ == MARK_NEW
    ensures Conserves(u, cells, Put(u, s, i, u[s][i].(typ := MARK_DONE)), cells)
  {
    NoteConserves(u, cells, s, i, u[s][i].(typ := MARK_DONE));
  }

  lemma PromoteMarking(t: Table, u: Table, root: nat, s: nat, i: nat)
    requires Unmarked(t) && Marking(t, u, root) && Slot(t, s, i) && u[s][i].typ == MARK_NEW
    ensures Slot(u, s, i) && Marking(t, Put(u, s, i, u[s][i].(typ := MARK_DONE)), root)
    ensures u[s][i].serial == t[s][i].serial && Reach(Edges(t), root, t[s][i].serial)
  {
    assert u[s][i] == t[s][i] || (Slot(t, s, i) && MarkOf(t, root, t[s][i], u[s][i]));
    EdgeOf(t, s, i);
    ReachStep(Edges(t), t[s][i].badge, t[s][i].serial);
    ReachTrans(Edges(t), root, t[s][i].badge, t[s][i].serial);
  }

  /** Promoting a mark and marking that capability's children keeps the marks sound and the
      done ones expanded, and leaves one slot fewer to do. */
  lemma PromoteStep(t: Table, u: Table, v: Table, root: nat, s: nat, i: nat)
    requires Unmarked(t) && Marking(t, u, root) && SameShape(t, u) && DoneExpanded(t, u, root)
    requires Slot(t, s, i) && Slot(u, s, i) && u[s][i].typ == MARK_NEW
    requires MarkedAll(Put(u, s, i, u[s][i].(typ := MARK_DONE)), v, u[s][i].serial)
    ensures Marking(t, v, root) && SameShape(t, v) && DoneExpanded(t, v, root)
    ensures NotDone(v) < NotDone(u)
  {
    var u1 := Put(u, s, i, u[s][i].(typ := MARK_DONE));
    PromoteMarking(t, u, root, s, i);
    MarkKeepsMarking(t, u1, v, root, t[s][i].serial);
    MarkExpands(t, u1, v, root, t[s][i].serial);
    PromoteExpands(t, u, u1, v, root, s, i);
    FewerNotDone(u, u1, v, s, i);
  }

  lemma PromoteExpands(t: Table, u: Table, u1: Table, v: Table, root: nat, s: nat, i: nat)
    requires SameShape(t, u) && DoneExpanded(t, u, root) && Slot(t, s, i) && Slot(u, s, i) && u[s][i].typ == MARK_NEW
    requires u1 == Put(u, s, i, u[s][i].(typ := MARK_DONE)) && SameShape(t, u1) && SameShape(t, v)
    requires Expanded(t, v, t[s][i].serial)
    requires forall x :: Expanded(t, u1, x) ==> Expanded(t, v, x)
    requires forall s': nat, i': nat {:trigger v[s'][i']} :: Slot(t, s', i') ==> (v[s'][i'].typ == MARK_DONE <==> u1[s'][i'].typ == MARK_DONE)
    ensures DoneExpanded(t, v, root)
  {
    forall x | Expanded(t, u, x)
      ensures Expanded(t, v, x)
    {
      assert Expanded(t, u1, x);
    }
    forall s': nat, i': nat | Slot(t, s', i') && v[s'][i'].typ == MARK_DONE
      ensures Expanded(t, v, t[s'][i'].serial)
    {
      if s' != s || i' != i {
        assert u[s'][i'].typ == MARK_DONE;
      }
    }
  }

  lemma FewerNotDone(u: Table, u1: Table, v: Table, s: nat, i: nat)
    requires Slot(u, s, i) && u[s][i].typ == MARK_NEW && u1 == Put(u, s, i, u[s][i].(typ := MARK_DONE))
    requires MarkedAll(u1, v, u[s][i].serial)
    ensures NotDone(v) < NotDone(u)
  {
    forall s': nat, i': nat | s' < |u| && i' < |u[s']|
      ensures v[s'][i'].typ == MARK_DONE <==> u1[s'][i'].typ == MARK_DONE
    {
    }
    assert (s, i) in NotDone(u) && (s, i) !in NotDone(v);
  }

  lemma MarkNone(t: Table, parent: nat)
    ensures MarkedBefore(t, t, parent, 0, 0)
  {
  }

  lemma MarkShape(t: Table, u: Table, parent: nat, s: nat, i: nat)
    requires MarkedBefore(t, u, parent, s, i)
    ensures SameShape(t, u)
  {
  }

  lemma MarkZero(t: Table)
    ensures MarkedAll(t, t, 0)
  {
  }

  // ----- Marking to a fixpoint -----

  /** `u` is `t` with some descendants of `root` marked: a mark replaces only the type, and
      only a descendant of `root` carries one. */
  ghost predicate Marking(t: Table, u: Table, root: nat) {
    && SameShape(t, u)
    && forall s: nat, i: nat {:trigger u[s][i]} :: s < |t| && i < |t[s]| ==>
         u[s][i] == t[s][i] || (Slot(t, s, i) && MarkOf(t, root, t[s][i], u[s][i]))
  }

  ghost predicate MarkOf(t: Table, root: nat, c: Cap, d: Cap) {
    IsMark(d.typ) && d == c.(typ := d.typ) && Derived(t, root, c)
  }

  /** Every child of `x` is marked. */
  ghost predicate Expanded(t: Table, u: Table, x: nat)
    requires SameShape(t, u)
  {
    forall s: nat, i: nat {:trigger u[s][i]} :: Slot(t, s, i) && HasParent(t[s][i]) && t[s][i].badge == x ==> IsMark(u[s][i].typ)
  }

  /** The root and every capability marked as done have all their children marked. */
  ghost predicate DoneExpanded(t: Table, u: Table, root: nat)
    requires SameShape(t, u)
  {
    && Expanded(t, u, root)
    && forall s: nat, i: nat {:trigger u[s][i]} :: Slot(t, s, i) && u[s][i].typ == MARK_DONE ==> Expanded(t, u, t[s][i].serial)
  }

  ghost predicate NoNew(u: Table, s: nat, i: nat) {
    forall s': nat, i': nat {:trigger u[s'][i']} :: Slot(u, s', i') && Before(s', i', s, i) ==> u[s'][i'].typ != MARK_NEW
  }

  /** When nothing is newly marked, the marks are closed, so they are all of the descendants. */
  lemma MarksAreComplete(t: Table, u: Table, root: nat, s: nat, i: nat)
    requires Unmarked(t) && Marking(t, u, root) && DoneExpanded(t, u, root) && NoNew(u, |u|, 0)
    requires Slot(t, s, i) && Derived(t, root, t[s][i])
    ensures IsMark(u[s][i].typ)
  {
    var m := {root} + set s': nat, i': nat | s' < |t| && i' < |t[s']| && Slot(t, s', i') && IsMark(u[s'][i'].typ) :: t[s'][i'].serial;
    forall x, y | x in m && y in Succ(Edges(t), x)
      ensures y in m
    {
      var s', i' := EdgeHasSlot(t, x, y);
      assert IsMark(u[s'][i'].typ) by { MarkedParent(t, u, root, m, x, s', i'); }
    }
    ReachStaysIn(Edges(t), m, root, t[s][i].badge);
    MarkedParent(t, u, root, m, t[s][i].badge, s, i);
  }

  lemma MarkedParent(t: Table, u: Table, root: nat, m: set<nat>, x: nat, s: nat, i: nat)
    requires SameShape(t, u) && DoneExpanded(t, u, root) && NoNew(u, |u|, 0)
    requires forall y :: y in m && y != root ==>
               exists s': nat, i': nat :: Slot(t, s', i') && IsMark(u[s'][i'].typ) && t[s'][i'].serial == y
    requires x in m && Slot(t, s, i) && HasParent(t[s][i]) && t[s][i].badge == x
    ensures IsMark(u[s][i].typ)
  {
    if x != root {
      var s': nat, i': nat :| Slot(t, s', i') && IsMark(u[s'][i'].typ) && t[s'][i'].serial == x;
      assert Slot(u, s', i') && Before(s', i', |u|, 0);
      assert Expanded(t, u, x);
    }
  }

  /** Marking the children of the root, or of a marked capability, keeps all of this. */
  lemma MarkKeepsMarking(t: Table, u: Table, v: Table, root: nat, parent: nat)
    requires Unmarked(t) && Marking(t, u, root) && MarkedAll(u, v, parent)
    requires Reach(Edges(t), root, parent)
    ensures Marking(t, v, root)
  {
    forall s: nat, i: nat | s < |t| && i < |t[s]|
      ensures v[s][i] == t[s][i] || (Slot(t, s, i) && MarkOf(t, root, t[s][i], v[s][i]))
    {
      if v[s][i] != u[s][i] {
        assert u[s][i] == t[s][i];
        assert Derived(t, root, t[s][i]);
      }
    }
  }

  lemma MarkExpands(t: Table, u: Table, v: Table, root: nat, parent: nat)
    requires Marking(t, u, root) && MarkedAll(u, v, parent)
    ensures SameShape(t, v) && Expanded(t, v, parent)
    ensures forall x :: Expanded(t, u, x) ==> Expanded(t, v, x)
    ensures forall s: nat, i: nat {:trigger v[s][i]} :: Slot(t, s, i) ==> (v[s][i].typ == MARK_DONE <==> u[s][i].typ == MARK_DONE)
  {
    forall s: nat, i: nat | Slot(t, s, i)
      ensures IsMark(u[s][i].typ) ==> IsMark(v[s][i].typ)
      ensures v[s][i].typ == MARK_DONE <==> u[s][i].typ == MARK_DONE
      ensures HasParent(t[s][i]) && t[s][i].badge == parent ==> IsMark(v[s][i].typ)
    {
      assert Slot(u, s, i) && Before(s, i, |u|, 0);
      assert v[s][i] == MarkCap(u[s][i], parent);
    }
  }
}
