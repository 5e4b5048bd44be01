/** Whole runs of the capability operations: what holds in every state they reach. */
module CapabilityRuns {
  import opened Capabilities
  import opened Revocation
  import opened Lineage
  import opened Overwriting
  import opened Reparenting

  datatype Op =
    | DeriveOp(edge: Edge, kind: Derivation)
    | InstallOp(space: nat, slot: nat, cap: Cap)
    | DropOp(space: nat, slot: nat)
    | RevokeOp(space: nat, slot: nat)
    | DeathOp(space: nat)

  /** A root the kernel puts in a slot itself, with a serial of its own. */
  predicate NewRoot(st: State, c: Cap) {
    Live(c) && !IsMark(c.typ) && c.badge == 0 && c.token == 0 && FreshSerial(st.next) != 0 && c.serial == FreshSerial(st.next)
  }

  /** One operation that is not refused. */
  ghost predicate Step(st: State, op: Op, st': State) {
    match op
    case DeriveOp(e, d) => Derive(st, e, d) == (true, st')
    case InstallOp(s, i, c) => Slot(st.table, s, i) && NewRoot(st, c) && st' == Place(st, s, i, c)
    case DropOp(s, i) => Slot(st.table, s, i) && st' == Place(st, s, i, NULL_CAP)
    case RevokeOp(s, i) =>
      && Slot(st.table, s, i) && !PrimordialRoot(i, st.table[s][i])
      && RevokedAt(st.table, st'.table, s, i) && st' == st.(table := st'.table)
    case DeathOp(d) =>
      d >= KERNEL_SPACES &&
      exists dying :: DyingOf(st.table, d, dying) && Died(st.table, st'.table, d, dying) && st' == st.(table := st'.table)
  }

  /** What an operation writes, and where; a revocation or a death writes no capability. */
  ghost predicate Writes(st: State, op: Op, s: nat, i: nat, c: Cap) {
    match op
    case DeriveOp(e, d) =>
      && Slot(st.table, e.srcSpace, e.srcSlot) && s == e.destSpace && i == e.destSlot
      && c == Child(st.table[e.srcSpace][e.srcSlot], d, FreshSerial(st.next))
    case InstallOp(s', i', c') => s == s' && i == i' && c == c'
    case DropOp(s', i') => s == s' && i == i' && c == NULL_CAP
    case RevokeOp(_, _) => false
    case DeathOp(_) => false
  }

  /** The operation leaves nobody naming a capability it writes over. */
  ghost predicate SparesNames(st: State, op: Op) {
    forall s: nat, i: nat, c {:trigger Writes(st, op, s, i, c)} ::
      Writes(st, op, s, i, c) && Slot(st.table, s, i) ==> !Severs(st.table, s, i, c)
  }

  /** The operation leaves nobody naming a capability it writes over that had a living ancestor. */
  ghost predicate SparesLineage(st: State, op: Op) {
    forall s: nat, i: nat, c {:trigger Writes(st, op, s, i, c)} ::
      Writes(st, op, s, i, c) && Slot(st.table, s, i) ==> !Orphans(st, s, i, c)
  }

  lemma StepIsPlace(st: State, op: Op, st': State, s: nat, i: nat, c: Cap)
    requires WellFormed(st) && Step(st, op, st') && Writes(st, op, s, i, c)
    ensures Slot(st.table, s, i) && Arrives(st, c) && st' == Place(st, s, i, c)
  {
    hide WellFormed, Derive, Child;
    if op.DeriveOp? {
      DeriveIsPlace(st, op.edge, op.kind);
    } else {
      RootArrives(st, c);
    }
  }

  lemma RootArrives(st: State, c: Cap)
    requires c == NULL_CAP || NewRoot(st, c)
    ensures Arrives(st, c)
  {
  }

  lemma StepWrites(st: State, op: Op, st': State) returns (s: nat, i: nat, c: Cap)
    requires Step(st, op, st')
    ensures !op.RevokeOp? && !op.DeathOp? ==> Writes(st, op, s, i, c)
  {
    s, i, c := 0, 0, NULL_CAP;
    match op {
      case DeriveOp(e, d) => s, i, c := e.destSpace, e.destSlot, Child(st.table[e.srcSpace][e.srcSlot], d, FreshSerial(st.next));
      case InstallOp(s', i', c') => s, i, c := s', i', c';
      case DropOp(s', i') => s, i := s', i';
      case RevokeOp(_, _) =>
      case DeathOp(_) =>
    }
  }

  lemma StepKeepsWellFormed(st: State, op: Op, st': State)
    requires WellFormed(st) && Step(st, op, st')
    ensures WellFormed(st') && st.next <= st'.next
  {
    hide WellFormed, RevokedAt, DyingOf, Died, Writes, Derive;
    var s, i, c := StepWrites(st, op, st');
    match op {
      case RevokeOp(s', i') => RevokeKeepsWellFormed(st, st'.table, s', i');
      case DeathOp(d) =>
        var dying :| DyingOf(st.table, d, dying) && Died(st.table, st'.table, d, dying);
        DeathKeepsWellFormed(st, st'.table, d, dying);
      case _ =>
        StepIsPlace(st, op, st', s, i, c);
        PlaceKeepsWellFormed(st, s, i, c);
    }
  }

  /** A step keeps every capability naming its nearest surviving ancestor exactly when it leaves
      nobody naming what it writes over; a revocation and a death always do. */
  lemma StepLinkedExactly(st: State, op: Op, st': State)
    requires WellFormed(st) && Linked(st) && Step(st, op, st')
    ensures Linked(st') <==> SparesNames(st, op)
  {
    hide WellFormed, Linked, Severs, RevokedAt, Died, DyingOf, Arrives, Place, Derive, Child;
    var s, i, c := StepWrites(st, op, st');
    match op {
      case RevokeOp(s', i') => RevokeKeepsLinked(st, st'.table, s', i');
      case DeathOp(d) =>
        var dying :| DyingOf(st.table, d, dying) && Died(st.table, st'.table, d, dying);
        DeathKeepsLinked(st, st'.table, d, dying);
      case _ =>
        StepIsPlace(st, op, st', s, i, c);
        PlaceLinkedExactly(st, s, i, c);
    }
  }

  /** THE PROMISE, STEP BY STEP: while every revocation would reach everything derived from its
      target, a step keeps it so exactly when it leaves nobody naming a capability it writes
      over that had a living ancestor. */
  lemma StepCompleteExactly(st: State, op: Op, st': State)
    requires WellFormed(st) && Complete(st) && Step(st, op, st')
    ensures Complete(st') <==> SparesLineage(st, op)
  {
    hide WellFormed, Complete, Orphans, RevokedAt, Died, DyingOf, Arrives, Place, Derive, Child;
    var s, i, c := StepWrites(st, op, st');
    match op {
      case RevokeOp(s', i') => RevokeKeepsComplete(st, st'.table, s', i');
      case DeathOp(d) =>
        var dying :| DyingOf(st.table, d, dying) && Died(st.table, st'.table, d, dying);
        DeathKeepsComplete(st, st'.table, d, dying);
      case _ =>
        StepIsPlace(st, op, st', s, i, c);
        PlaceCompleteExactly(st, s, i, c);
    }
  }

  /** A step puts a capability in a slot only under a new serial: one with an older serial
      was already in that slot, with the same type, rights, object and token. */
  lemma OlderWasThere(st: State, op: Op, st': State, s: nat, i: nat)
    requires WellFormed(st) && Step(st, op, st')
    requires Slot(st'.table, s, i) && Live(st'.table[s][i]) && st'.table[s][i].serial <= Top(st.next)
    ensures Slot(st.table, s, i) && Live(st.table[s][i])
    ensures st.table[s][i].(badge := st'.table[s][i].badge) == st'.table[s][i]
  {
    match op {
      case DeriveOp(e, d) =>
        var c := Child(st.table[e.srcSpace][e.srcSlot], d, FreshSerial(st.next));
        PutReads(st.table, e.destSpace, e.destSlot, c, s, i);
      case InstallOp(s', i', c) => PutReads(st.table, s', i', c, s, i);
      case DropOp(s', i') => PutReads(st.table, s', i', NULL_CAP, s, i);
      case RevokeOp(_, _) =>
      case DeathOp(_) =>
    }
  }

  /** The birth records only grow. */
  lemma OlderIsRecorded(st: State, op: Op, st': State, x: nat)
    requires WellFormed(st) && Step(st, op, st') && x <= Top(st.next)
    ensures x in st'.born <==> x in st.born
    ensures x in st.born ==> st'.born[x] == st.born[x]
  {
  }

  lemma {:induction false} OlderAncestors(st: State, op: Op, st': State, a: nat, x: nat)
    requires WellFormed(st) && Step(st, op, st') && x <= Top(st.next)
    ensures Ancestor(st'.born, a, x) <==> Ancestor(st.born, a, x)
    decreases x
  {
    OlderIsRecorded(st, op, st', x);
    if x in st.born && st.born[x].badge != 0 {
      OlderAncestors(st, op, st', a, st.born[x].badge);
    }
  }

  // ----- Runs -----

  ghost predicate IsRun(states: seq<State>, ops: seq<Op>) {
    && |states| == |ops| + 1
    && forall k :: 0 <= k < |ops| ==> Step(states[k], ops[k], states[k + 1])
  }

  lemma {:induction false} RunIsWellFormed(states: seq<State>, ops: seq<Op>, k: nat)
    requires IsRun(states, ops) && WellFormed(states[0]) && k < |states|
    ensures WellFormed(states[k])
  {
    if k > 0 {
      RunIsWellFormed(states, ops, k - 1);
      StepKeepsWellFormed(states[k - 1], ops[k - 1], states[k - 1 + 1]);
    }
  }

  lemma {:induction false} CounterNeverFalls(states: seq<State>, ops: seq<Op>, j: nat, k: nat)
    requires IsRun(states, ops) && WellFormed(states[0]) && j <= k < |states|
    ensures states[j].next <= states[k].next
    decreases k
  {
    if j < k {
      CounterNeverFalls(states, ops, j, k - 1);
      RunIsWellFormed(states, ops, k - 1);
      StepKeepsWellFormed(states[k - 1], ops[k - 1], states[k - 1 + 1]);
    }
  }

  /** In every state of every run, whatever was written over, a capability has the type of every
      capability it descends from and no right that one was born without; it names the same
      object unless objects of that type are split. */
  lemma AuthorityNeverWidens(states: seq<State>, ops: seq<Op>, k: nat, s: nat, i: nat, a: nat)
    requires IsRun(states, ops) && WellFormed(states[0]) && k < |states|
    requires Slot(states[k].table, s, i) && Live(states[k].table[s][i])
    requires Ancestor(states[k].born, a, states[k].table[s][i].serial)
    ensures a in states[k].born && Within(states[k].table[s][i].rights, states[k].born[a].rights)
    ensures states[k].table[s][i].typ == states[k].born[a].typ
    ensures states[k].table[s][i].obj == states[k].born[a].obj || Splits(states[k].born[a].typ)
  {
    hide Within, Splits;
    RunIsWellFormed(states, ops, k);
    DescendantIsWithin(states[k].next, states[k].born, a, states[k].table[s][i].serial);
  }

  // ----- Which object a lineage names -----

  /** Serial `x` was issued to a split, one of the first `k` steps of the run. */
  ghost predicate SplitBefore(states: seq<State>, ops: seq<Op>, k: nat, x: nat) {
    exists n {:trigger ops[n]} :: 0 <= n < k && n < |ops| && n + 1 < |states| &&
      ops[n].DeriveOp? && IsSplit(ops[n].kind) && states[n + 1].next == x
  }

  /** Every child names its parent's object, but for the splits. */
  ghost predicate ObjectsFollow(states: seq<State>, ops: seq<Op>, k: nat)
    requires k < |states|
  {
    forall x {:trigger x in states[k].born} :: x in states[k].born && states[k].born[x].badge != 0 ==>
      || SplitBefore(states, ops, k, x)
      || (states[k].born[x].badge in states[k].born && states[k].born[x].obj == states[k].born[states[k].born[x].badge].obj)
  }

  /** Every child names its parent's object. */
  ghost predicate SameObjects(born: map<nat, Cap>) {
    forall x {:trigger x in born} :: x in born && born[x].badge != 0 ==>
      born[x].badge in born && born[x].obj == born[born[x].badge].obj
  }

  lemma SplitStays(states: seq<State>, ops: seq<Op>, k: nat, x: nat)
    requires SplitBefore(states, ops, k, x)
    ensures SplitBefore(states, ops, k + 1, x)
  {
  }

  lemma StepKeepsObjects(states: seq<State>, ops: seq<Op>, k: nat)
    requires IsRun(states, ops) && k < |ops| && WellFormed(states[k]) && ObjectsFollow(states, ops, k)
    ensures ObjectsFollow(states, ops, k + 1)
  {
    hide Within, ChildRights, SplitBefore, OneSlot, Tidy, Truthful;
    var st, op, st' := states[k], ops[k], states[k + 1];
    assert Step(st, op, st');
    forall x | x in st'.born && st'.born[x].badge != 0
      ensures SplitBefore(states, ops, k + 1, x) ||
              (st'.born[x].badge in st'.born && st'.born[x].obj == st'.born[st'.born[x].badge].obj)
    {
      if x <= Top(st.next) {
        OlderIsRecorded(st, op, st', x);
        if SplitBefore(states, ops, k, x) {
          SplitStays(states, ops, k, x);
        } else {
          OlderIsRecorded(st, op, st', st.born[x].badge);
        }
      } else {
        NewRecord(st, op, st', x);
        if IsSplit(op.kind) {
          IsSplitNow(states, ops, k, x);
        }
      }
    }
  }

  lemma IsSplitNow(states: seq<State>, ops: seq<Op>, k: nat, x: nat)
    requires |states| == |ops| + 1 && k < |ops| && ops[k].DeriveOp? && IsSplit(ops[k].kind) && states[k + 1].next == x
    ensures SplitBefore(states, ops, k + 1, x)
  {
  }

  /** A record a step adds is a root's, or the child of a derivation. */
  lemma NewRecord(st: State, op: Op, st': State, x: nat)
    requires WellFormed(st) && Step(st, op, st') && x in st'.born && x > Top(st.next) && st'.born[x].badge != 0
    ensures op.DeriveOp? && st'.next == x
    ensures IsSplit(op.kind) || (st'.born[x].badge in st'.born && st'.born[x].obj == st'.born[st'.born[x].badge].obj)
  {
    hide Within, ChildRights, OneSlot, Truthful;
    assert x !in st.born;
    if op.DeriveOp? {
      var src := st.table[op.edge.srcSpace][op.edge.srcSlot];
      assert st.born[src.serial].(badge := src.badge) == src;
    }
  }

  lemma {:induction false} RunKeepsObjects(states: seq<State>, ops: seq<Op>, k: nat)
    requires IsRun(states, ops) && WellFormed(states[0]) && SameObjects(states[0].born) && k < |states|
    ensures ObjectsFollow(states, ops, k)
  {
    if k > 0 {
      RunKeepsObjects(states, ops, k - 1);
      RunIsWellFormed(states, ops, k - 1);
      StepKeepsObjects(states, ops, k - 1);
    }
  }

  /** No serial on the way from `a` down to `x` was issued to a split. */
  ghost predicate Unsplit(states: seq<State>, ops: seq<Op>, k: nat, a: nat, x: nat)
    requires k < |states|
  {
    forall y {:trigger Ancestor(states[k].born, a, y)} ::
      Ancestor(states[k].born, a, y) && (y == x || Ancestor(states[k].born, y, x)) ==> !SplitBefore(states, ops, k, y)
  }

  /** A LINEAGE WITHOUT A SPLIT NAMES ONE OBJECT, in every state of every run. */
  lemma {:induction false} LineageNamesOneObject(states: seq<State>, ops: seq<Op>, k: nat, a: nat, x: nat)
    requires IsRun(states, ops) && WellFormed(states[0]) && SameObjects(states[0].born) && k < |states|
    requires Ancestor(states[k].born, a, x) && Unsplit(states, ops, k, a, x)
    ensures a in states[k].born && x in states[k].born && states[k].born[x].obj == states[k].born[a].obj
    decreases x
  {
    hide SplitBefore, WellFormed, Step;
    RunKeepsObjects(states, ops, k);
    var born := states[k].born;
    var p := born[x].badge;
    if a != p {
      forall y | Ancestor(born, a, y) && (y == p || Ancestor(born, y, p))
        ensures !SplitBefore(states, ops, k, y)
      {
        assert Ancestor(born, p, x);
        if y != p {
          AncestorTrans(born, y, p, x);
        }
      }
      LineageNamesOneObject(states, ops, k, a, p);
    }
  }

  /** A SNAPSHOT IS CHECKED BY ITS SERIAL: if a slot holds, at a later state of a run, a
      serial issued before an earlier one, then it held that capability at the earlier
      one, with the same type, rights, object and token. So an emptied serial never returns. */
  lemma {:induction false} SerialIsIdentity(states: seq<State>, ops: seq<Op>, j: nat, k: nat, s: nat, i: nat)
    requires IsRun(states, ops) && WellFormed(states[0]) && j <= k < |states|
    requires Slot(states[k].table, s, i) && Live(states[k].table[s][i]) && states[k].table[s][i].serial <= Top(states[j].next)
    ensures Slot(states[j].table, s, i) && Live(states[j].table[s][i])
    ensures states[j].table[s][i].(badge := states[k].table[s][i].badge) == states[k].table[s][i]
    decreases k
  {
    hide WellFormed, Step;
    if j < k {
      RunIsWellFormed(states, ops, k - 1);
      CounterNeverFalls(states, ops, j, k - 1);
      assert Step(states[k - 1], ops[k - 1], states[k - 1 + 1]);
      OlderWasThere(states[k - 1], ops[k - 1], states[k], s, i);
      SerialIsIdentity(states, ops, j, k - 1, s, i);
    }
  }

  /** Neither `x` nor anything derived from it is in a slot. */
  ghost predicate Gone(st: State, x: nat) {
    forall s: nat, i: nat {:trigger st.table[s][i]} :: Slot(st.table, s, i) && Live(st.table[s][i]) ==>
      st.table[s][i].serial != x && !Ancestor(st.born, x, st.table[s][i].serial)
  }

  lemma NewcomerIsNoDescendant(st: State, op: Op, st': State, s: nat, i: nat, x: nat)
    requires WellFormed(st) && Step(st, op, st') && Gone(st, x) && 0 < x <= Top(st.next)
    requires Slot(st'.table, s, i) && Live(st'.table[s][i]) && st'.table[s][i].serial > Top(st.next)
    ensures !Ancestor(st'.born, x, st'.table[s][i].serial)
  {
    StepKeepsWellFormed(st, op, st');
    match op {
      case DeriveOp(e, d) =>
        var src := st.table[e.srcSpace][e.srcSlot];
        var c := Child(src, d, FreshSerial(st.next));
        PutReads(st.table, e.destSpace, e.destSlot, c, s, i);
        assert src.serial <= Top(st.next);
        OlderAncestors(st, op, st', x, src.serial);
      case InstallOp(s', i', c) => PutReads(st.table, s', i', c, s, i);
      case DropOp(s', i') => PutReads(st.table, s', i', NULL_CAP, s, i);
      case RevokeOp(_, _) =>
      case DeathOp(_) =>
    }
  }

  lemma StaysGone(st: State, op: Op, st': State, x: nat)
    requires WellFormed(st) && Step(st, op, st') && Gone(st, x) && 0 < x <= Top(st.next)
    ensures Gone(st', x)
  {
    forall s: nat, i: nat | Slot(st'.table, s, i) && Live(st'.table[s][i])
      ensures st'.table[s][i].serial != x && !Ancestor(st'.born, x, st'.table[s][i].serial)
    {
      if st'.table[s][i].serial <= Top(st.next) {
        OlderWasThere(st, op, st', s, i);
        OlderAncestors(st, op, st', x, st'.table[s][i].serial);
      } else {
        NewcomerIsNoDescendant(st, op, st', s, i, x);
      }
    }
  }

  /** Everything in a slot that descends from `x` is found by following the table's edges. */
  ghost predicate Reached(st: State, x: nat) {
    forall s: nat, i: nat {:trigger st.table[s][i]} ::
      Slot(st.table, s, i) && Live(st.table[s][i]) && Ancestor(st.born, x, st.table[s][i].serial) ==>
      Derived(st.table, x, st.table[s][i])
  }

  /** A revocation leaves nothing of its target's lineage exactly when the edges led to all of it. */
  lemma RevokedIsGone(st: State, s: nat, i: nat, st': State)
    requires WellFormed(st) && Step(st, RevokeOp(s, i), st') && Live(st.table[s][i])
    ensures Gone(st', st.table[s][i].serial) <==> Reached(st, st.table[s][i].serial)
  {
    hide Derived, OneSlot, Recorded, Truthful, History;
    var x := st.table[s][i].serial;
    forall s': nat, i': nat | Slot(st.table, s', i') && Live(st.table[s'][i'])
      ensures Slot(st'.table, s', i')
      ensures st'.table[s'][i'] == if st.table[s'][i'].serial == x || Derived(st.table, x, st.table[s'][i'])
                                   then NULL_CAP else st.table[s'][i']
      ensures Ancestor(st.born, x, st.table[s'][i'].serial) ==> st.table[s'][i'].serial != x
    {
      if Ancestor(st.born, x, st.table[s'][i'].serial) {
        AncestorIsOlder(st.next, st.born, x, st.table[s'][i'].serial);
      }
    }
  }

  lemma {:induction false} GoneForGood(states: seq<State>, ops: seq<Op>, j: nat, k: nat, x: nat)
    requires IsRun(states, ops) && WellFormed(states[0]) && j <= k < |states|
    requires Gone(states[j], x) && 0 < x <= Top(states[j].next)
    ensures Gone(states[k], x)
    decreases k
  {
    hide Step, Gone, WellFormed;
    if j < k {
      GoneForGood(states, ops, j, k - 1, x);
      RunIsWellFormed(states, ops, k - 1);
      CounterNeverFalls(states, ops, j, k - 1);
      assert Step(states[k - 1], ops[k - 1], states[k - 1 + 1]);
      StaysGone(states[k - 1], ops[k - 1], states[k], x);
    }
  }

  /** REVOKED IS REVOKED FOR GOOD: in every state after a revocation, whatever is done next,
      neither the revoked capability nor anything ever derived from it is in any slot of any
      space, if and only if the edges led to all of it when it was revoked. */
  lemma RevokedForGoodExactly(states: seq<State>, ops: seq<Op>, r: nat)
    requires IsRun(states, ops) && WellFormed(states[0]) && r < |ops| && ops[r].RevokeOp?
    requires Slot(states[r].table, ops[r].space, ops[r].slot) && Live(states[r].table[ops[r].space][ops[r].slot])
    ensures var x := states[r].table[ops[r].space][ops[r].slot].serial;
            (forall k {:trigger states[k]} :: r < k < |states| ==> Gone(states[k], x)) <==> Reached(states[r], x)
  {
    hide Step, Gone, Reached, OneSlot, Recorded, Truthful;
    var x := states[r].table[ops[r].space][ops[r].slot].serial;
    RunIsWellFormed(states, ops, r);
    SerialInRange(states[r], ops[r].space, ops[r].slot);
    assert Step(states[r], ops[r], states[r + 1]);
    assert ops[r] == RevokeOp(ops[r].space, ops[r].slot);
    RevokedIsGone(states[r], ops[r].space, ops[r].slot, states[r + 1]);
    if Reached(states[r], x) {
      CounterNeverFalls(states, ops, r, r + 1);
      forall k {:trigger states[k]} | r < k < |states|
        ensures Gone(states[k], x)
      {
        GoneForGood(states, ops, r + 1, k, x);
      }
    }
  }

  /** And so it is whenever every step before the revocation spared lineages. */
  lemma RevokedForGood(states: seq<State>, ops: seq<Op>, r: nat, k: nat)
    requires IsRun(states, ops) && WellFormed(states[0]) && Complete(states[0])
    requires r < k < |states| && ops[r].RevokeOp?
    requires forall n :: 0 <= n < r ==> SparesLineage(states[n], ops[n])
    requires Slot(states[r].table, ops[r].space, ops[r].slot) && Live(states[r].table[ops[r].space][ops[r].slot])
    ensures Gone(states[k], states[r].table[ops[r].space][ops[r].slot].serial)
  {
    hide Step, SparesLineage, Gone, WellFormed, Derived;
    RunCompleteExactly(states, ops, r);
    assert Complete(states[r]);
    assert LiveSerial(states[r].table, states[r].table[ops[r].space][ops[r].slot].serial);
    RevokedForGoodExactly(states, ops, r);
  }

  /** THE PROMISE, OVER WHOLE RUNS: at every point of a run every revocation would reach everything
      derived from its target, if and only if every step spared lineages. */
  lemma {:induction false} RunCompleteExactly(states: seq<State>, ops: seq<Op>, k: nat)
    requires IsRun(states, ops) && WellFormed(states[0]) && Complete(states[0]) && k < |states|
    ensures (forall n :: 0 <= n <= k ==> Complete(states[n])) <==> (forall n :: 0 <= n < k ==> SparesLineage(states[n], ops[n]))
  {
    hide Step, SparesLineage, WellFormed, Complete;
    if k > 0 {
      RunCompleteExactly(states, ops, k - 1);
      RunIsWellFormed(states, ops, k - 1);
      if Complete(states[k - 1]) {
        assert Step(states[k - 1], ops[k - 1], states[k - 1 + 1]);
        StepCompleteExactly(states[k - 1], ops[k - 1], states[k]);
      }
    }
  }

  lemma {:induction false} RunLinkedExactly(states: seq<State>, ops: seq<Op>, k: nat)
    requires IsRun(states, ops) && WellFormed(states[0]) && Linked(states[0]) && k < |states|
    ensures (forall n :: 0 <= n <= k ==> Linked(states[n])) <==> (forall n :: 0 <= n < k ==> SparesNames(states[n], ops[n]))
  {
    hide Step, SparesNames, WellFormed, Linked;
    if k > 0 {
      RunLinkedExactly(states, ops, k - 1);
      RunIsWellFormed(states, ops, k - 1);
      if Linked(states[k - 1]) {
        assert Step(states[k - 1], ops[k - 1], states[k - 1 + 1]);
        StepLinkedExactly(states[k - 1], ops[k - 1], states[k]);
      }
    }
  }

  // ----- Tokens -----

  /** No capability was born with both a token and the right to receive. */
  ghost predicate TokensOnlySend(born: map<nat, Cap>) {
    forall x {:trigger born[x]} :: x in born && born[x].token != 0 ==> born[x].rights & CAP_RIGHT_READ == 0
  }

  lemma NarrowerCannotReceive(a: bv32, b: bv32)
    requires Within(a, b) && b & CAP_RIGHT_READ == 0
    ensures a & CAP_RIGHT_READ == 0
  {
    assert a & CAP_RIGHT_READ == a & (b & CAP_RIGHT_READ);
  }

  lemma StepKeepsTokens(st: State, op: Op, st': State)
    requires WellFormed(st) && Step(st, op, st') && TokensOnlySend(st.born)
    ensures TokensOnlySend(st'.born)
  {
    hide Within, ChildRights;
    if op.DeriveOp? {
      var e, d := op.edge, op.kind;
      DeriveIsPlace(st, e, d);
      var src := st.table[e.srcSpace][e.srcSlot];
      var c := Child(src, d, FreshSerial(st.next));
      ChildIsAttenuated(src, d, FreshSerial(st.next));
      assert st.born[src.serial].(badge := src.badge) == src;
      if c.token != 0 && c.token == src.token {
        NarrowerCannotReceive(c.rights, src.rights);
      }
    }
  }

  /** A TOKEN IS A CLIENT'S IDENTITY: in every state of every run a capability that carries one
      cannot receive on its endpoint. */
  lemma {:induction false} TokenedNeverReceives(states: seq<State>, ops: seq<Op>, k: nat, s: nat, i: nat)
    requires IsRun(states, ops) && WellFormed(states[0]) && TokensOnlySend(states[0].born) && k < |states|
    requires Slot(states[k].table, s, i) && Live(states[k].table[s][i]) && states[k].table[s][i].token != 0
    ensures states[k].table[s][i].rights & CAP_RIGHT_READ == 0
  {
    RunKeepsTokens(states, ops, k);
    RunIsWellFormed(states, ops, k);
    assert states[k].born[states[k].table[s][i].serial].(badge := states[k].table[s][i].badge) == states[k].table[s][i];
  }

  lemma {:induction false} RunKeepsTokens(states: seq<State>, ops: seq<Op>, k: nat)
    requires IsRun(states, ops) && WellFormed(states[0]) && TokensOnlySend(states[0].born) && k < |states|
    ensures TokensOnlySend(states[k].born)
  {
    if k > 0 {
      RunKeepsTokens(states, ops, k - 1);
      RunIsWellFormed(states, ops, k - 1);
      StepKeepsTokens(states[k - 1], ops[k - 1], states[k - 1 + 1]);
    }
  }

  // ----- The kernel's first state -----

  /** What a slot of the kernel's root node is given at boot. */
  datatype Root = Root(typ: nat, rights: bv32, obj: nat)

  /** The slots of the root node that boot fills, each with its own kind; the network device's
      is filled only if there is one. */
  ghost predicate BootSlots(roots: map<nat, Root>) {
    && 8 in roots && 9 in roots
    && forall i {:trigger i in roots} :: i in roots ==>
         (i < 4 || 6 <= i <= 24) && roots[i].typ != CAP_NULL && !IsMark(roots[i].typ)
  }

  function RootCap(r: Root, i: nat): Cap {
    Cap(r.typ, r.rights, r.obj, 0, if i < 4 then 0xC0DE_0001 + i else 0xC0DE_0000 + i, 0)
  }

  function BootSlot(roots: map<nat, Root>, s: nat, i: nat): Cap {
    if i in roots && (s == 0 || (s == 1 && (i == 8 || i == 9))) then RootCap(roots[i], i) else NULL_CAP
  }

  /** The root node, task 0's space with its copies of the console's and the store's roots, and
      the empty spaces of the tasks to come. No serial has been issued yet. */
  ghost function Boot(roots: map<nat, Root>, tasks: nat): State
    requires BootSlots(roots)
  {
    State(seq(KERNEL_SPACES + tasks, s requires s >= 0 => seq(CNODE_SIZE, i requires i >= 0 => BootSlot(roots, s, i))), 0,
          map i | i in roots :: RootCap(roots[i], i).serial := RootCap(roots[i], i))
  }

  lemma BootReads(roots: map<nat, Root>, tasks: nat, s: nat, i: nat)
    requires BootSlots(roots) && Slot(Boot(roots, tasks).table, s, i)
    ensures Boot(roots, tasks).table[s][i] == BootSlot(roots, s, i)
  {
  }

  lemma BootRecords(roots: map<nat, Root>, tasks: nat)
    requires BootSlots(roots)
    ensures var st := Boot(roots, tasks);
            History(st.next, st.born) && forall x :: x in st.born ==> st.born[x].badge == 0 && st.born[x].token == 0
  {
  }

  lemma BootOneSlot(roots: map<nat, Root>, tasks: nat)
    requires BootSlots(roots)
    ensures OneSlot(Boot(roots, tasks).table)
  {
    hide Boot;
    var t: Table := Boot(roots, tasks).table;
    forall s: nat, i: nat | Slot(t, s, i)
      ensures t[s][i] == BootSlot(roots, s, i)
    {
      BootReads(roots, tasks, s, i);
    }
  }

  lemma BootTable(roots: map<nat, Root>, tasks: nat, s: nat, i: nat)
    requires BootSlots(roots) && Slot(Boot(roots, tasks).table, s, i)
    ensures var st := Boot(roots, tasks);
            && st.table[s][i].badge == 0
            && (st.table[s][i] == NULL_CAP ||
                (&& Live(st.table[s][i]) && !IsMark(st.table[s][i].typ)
                 && st.table[s][i].serial in st.born && st.born[st.table[s][i].serial] == st.table[s][i]))
  {
    BootReads(roots, tasks, s, i);
    if i in roots {
      assert RootCap(roots[i], i).serial in Boot(roots, tasks).born;
    }
  }

  /** THE KERNEL STARTS WELL: the first state is well formed, every capability in it names its
      nearest surviving ancestor, none with a token may receive, and every lineage in it names
      one object; so the theorems above hold of every run from boot. */
  lemma BootIsSound(roots: map<nat, Root>, tasks: nat)
    requires BootSlots(roots)
    ensures var st := Boot(roots, tasks);
            WellFormed(st) && Linked(st) && Complete(st) && TokensOnlySend(st.born) && SameObjects(st.born)
  {
    hide BootSlots, Boot, Complete, OneSlot;
    var st: State := Boot(roots, tasks);
    BootRecords(roots, tasks);
    BootOneSlot(roots, tasks);
    forall s: nat, i: nat | Slot(st.table, s, i)
      ensures st.table[s][i].badge == 0
      ensures st.table[s][i] == NULL_CAP ||
              (&& Live(st.table[s][i]) && !IsMark(st.table[s][i].typ)
               && st.table[s][i].serial in st.born && st.born[st.table[s][i].serial] == st.table[s][i])
    {
      BootTable(roots, tasks, s, i);
    }
    LinkedIsComplete(st);
  }
}
