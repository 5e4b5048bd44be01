/** When a revocation's promise survives a write to an occupied slot. The derivations check
    their source, and only two of them check that their destination is empty; the kernel's own
    installs do not look at what is there; and a slot is dropped whoever names what it holds. */
module Overwriting {
  import opened Graphs
  import opened Capabilities
  import opened Revocation
  import opened Lineage

  /** Something is left naming the capability written over, and one that it descended from is
      still in a slot: what a caller can see before the write. */
  ghost predicate Orphans(st: State, s: nat, i: nat, c: Cap)
    requires Slot(st.table, s, i)
  {
    Severs(st.table, s, i, c) &&
    exists a {:trigger Ancestor(st.born, a, st.table[s][i].serial)} ::
      LiveSerial(st.table, a) && Ancestor(st.born, a, st.table[s][i].serial)
  }

  // ----- An orphan with a living ancestor: the promise is lost -----

  lemma UnreachableSerial(t: Table, a: nat, y: nat)
    requires a != y && !LiveSerial(t, y)
    ensures !Reach(Edges(t), a, y)
  {
    if Reach(Edges(t), a, y) {
      var p :| IsWalkFrom(Edges(t), p, a, y);
      assert p[|p| - 2 + 1] in Succ(Edges(t), p[|p| - 2]);
      var s, i := EdgeHasSlot(t, p[|p| - 2], y);
    }
  }

  lemma MissedIsIncomplete(st: State, a: nat, s: nat, i: nat)
    requires Slot(st.table, s, i) && Live(st.table[s][i]) && LiveSerial(st.table, a)
    requires Ancestor(st.born, a, st.table[s][i].serial) && !Derived(st.table, a, st.table[s][i])
    ensures !Complete(st)
  {
  }

  lemma OlderIn(st: State, a: nat, x: nat)
    requires WellFormed(st) && Ancestor(st.born, a, x)
    ensures 0 < a < x <= Top(st.next)
  {
    AncestorIsOlder(st.next, st.born, a, x);
  }

  lemma AncestorOfOrphan(st: State, s: nat, i: nat, c: Cap, a: nat, s': nat, i': nat)
    requires WellFormed(st) && Slot(st.table, s, i) && Arrives(st, c)
    requires Live(st.table[s][i]) && Ancestor(st.born, a, st.table[s][i].serial)
    requires Slot(st.table, s', i') && Live(Put(st.table, s, i, c)[s'][i'])
    requires Put(st.table, s, i, c)[s'][i'].badge == st.table[s][i].serial
    ensures Ancestor(Place(st, s, i, c).born, a, Put(st.table, s, i, c)[s'][i'].serial)
  {
    var y := st.table[s][i].serial;
    PutReads(st.table, s, i, c, s', i');
    if s' == s && i' == i {
      AncestorSame(st, s, i, c, a, y);
    } else {
      var z := st.table[s'][i'];
      AncestorTrans(st.born, a, y, z.serial);
      AncestorSame(st, s, i, c, a, z.serial);
    }
  }

  lemma OrphanIsMissed(st: State, s: nat, i: nat, c: Cap)
    requires WellFormed(st) && Slot(st.table, s, i) && Arrives(st, c) && Orphans(st, s, i, c)
    ensures !Complete(Place(st, s, i, c))
  {
    hide Complete, WellFormed, Ancestor;
    var t: Table, st' := st.table, Place(st, s, i, c);
    var u: Table, y := st'.table, t[s][i].serial;
    var a :| LiveSerial(t, a) && Ancestor(st.born, a, y);
    OlderIn(st, a, y);
    LiveAfterPlace(st, s, i, c, a);
    LiveAfterPlace(st, s, i, c, y);
    UnreachableSerial(u, a, y);
    var s': nat, i': nat :| Slot(t, s', i') && Live(u[s'][i']) && u[s'][i'].badge == y;
    AncestorOfOrphan(st, s, i, c, a, s', i');
    MissedIsIncomplete(st', a, s', i');
  }

  // ----- Otherwise it is kept -----

  lemma ParentedIsSole(st: State, s: nat, i: nat)
    requires WellFormed(st) && Slot(st.table, s, i) && HasParent(st.table[s][i])
    ensures Sole(st.table, s, i)
  {
  }

  /** A walk that does not enter the capability written over is still there. */
  lemma WalkSurvives(t: Table, s: nat, i: nat, c: Cap, p: seq<nat>)
    requires Slot(t, s, i) && IsWalk(Edges(t), p)
    requires HasParent(t[s][i]) ==> forall n :: 0 < n < |p| ==> p[n] != t[s][i].serial
    ensures IsWalk(Edges(Put(t, s, i, c)), p)
  {
    var u := Put(t, s, i, c);
    forall n | 0 <= n < |p| - 1
      ensures p[n + 1] in Succ(Edges(u), p[n])
    {
      var s', i' := EdgeHasSlot(t, p[n], p[n + 1]);
      PutReads(t, s, i, c, s', i');
      EdgeOf(u, s', i');
    }
  }

  /** One that enters it has a next step, or an end, that is left naming it. */
  lemma WalkIsSevered(st: State, s: nat, i: nat, c: Cap, p: seq<nat>, n: nat, s': nat, i': nat)
    requires WellFormed(st) && Slot(st.table, s, i) && HasParent(st.table[s][i])
    requires IsWalk(Edges(st.table), p) && 0 < n < |p| && p[n] == st.table[s][i].serial
    requires Slot(st.table, s', i') && HasParent(Put(st.table, s, i, c)[s'][i'])
    requires Put(st.table, s, i, c)[s'][i'].badge == p[|p| - 1]
    ensures Severs(st.table, s, i, c)
  {
    hide OneSlot, Truthful, History;
    ParentedIsSole(st, s, i);
    var t: Table, u: Table := st.table, Put(st.table, s, i, c);
    if n < |p| - 1 {
      var s1, i1 := EdgeHasSlot(t, p[n], p[n + 1]);
      PutReads(t, s, i, c, s1, i1);
      assert u[s1][i1] == t[s1][i1];
    } else {
      assert u[s'][i'].badge == t[s][i].serial;
    }
  }

  lemma ReachSurvives(st: State, s: nat, i: nat, c: Cap, a: nat, s': nat, i': nat)
    requires WellFormed(st) && Slot(st.table, s, i) && !Orphans(st, s, i, c) && LiveSerial(st.table, a)
    requires Slot(st.table, s', i') && HasParent(Put(st.table, s, i, c)[s'][i'])
    requires Reach(Edges(st.table), a, Put(st.table, s, i, c)[s'][i'].badge)
    ensures Derived(Put(st.table, s, i, c), a, Put(st.table, s, i, c)[s'][i'])
  {
    hide WellFormed, Severs, LiveSerial;
    var t: Table, b := st.table, Put(st.table, s, i, c)[s'][i'].badge;
    var p :| IsWalkFrom(Edges(t), p, a, b);
    if HasParent(t[s][i]) && exists n :: 0 < n < |p| && p[n] == t[s][i].serial {
      var n :| 0 < n < |p| && p[n] == t[s][i].serial;
      WalkIsSevered(st, s, i, c, p, n, s', i');
      Subwalk(Edges(t), p, 0, n + 1);
      WalkIsLineage(st, p[0..n + 1]);
      assert false;
    }
    WalkSurvives(t, s, i, c, p);
    assert IsWalkFrom(Edges(Put(t, s, i, c)), p, a, b);
  }

  /** A living ancestor of a capability in a slot reaches it. */
  lemma ReachesSlot(st: State, x: nat, b: nat)
    requires WellFormed(st) && Complete(st) && LiveSerial(st.table, b)
    requires LiveSerial(st.table, x) && (x == b || Ancestor(st.born, x, b))
    ensures Reach(Edges(st.table), x, b)
  {
    hide WellFormed;
    if x == b {
      ReachRefl(Edges(st.table), x);
    } else {
      var s: nat, i: nat :| Slot(st.table, s, i) && Live(st.table[s][i]) && st.table[s][i].serial == b;
      var src: Cap := st.table[s][i];
      assert Derived(st.table, x, src);
      EdgeOf(st.table, s, i);
      ReachStep(Edges(st.table), src.badge, src.serial);
      ReachTrans(Edges(st.table), x, src.badge, src.serial);
    }
  }

  lemma OtherIsFound(st: State, s: nat, i: nat, c: Cap, x: nat, s': nat, i': nat)
    requires WellFormed(st) && Complete(st) && Slot(st.table, s, i) && Arrives(st, c) && !Orphans(st, s, i, c)
    requires Slot(st.table, s', i') && !(s' == s && i' == i) && Live(st.table[s'][i'])
    requires LiveSerial(Put(st.table, s, i, c), x) && Ancestor(Place(st, s, i, c).born, x, st.table[s'][i'].serial)
    ensures Derived(Put(st.table, s, i, c), x, st.table[s'][i'])
  {
    hide WellFormed, Orphans, Severs, Ancestor, Sole;
    var z: Cap := st.table[s'][i'];
    SerialInRange(st, s', i');
    AncestorSame(st, s, i, c, x, z.serial);
    OlderIn(st, x, z.serial);
    LiveAfterPlace(st, s, i, c, x);
    PutReads(st.table, s, i, c, s', i');
    assert Derived(st.table, x, z);
    ReachSurvives(st, s, i, c, x, s', i');
  }

  lemma NewcomerIsFound(st: State, s: nat, i: nat, c: Cap, x: nat)
    requires WellFormed(st) && Complete(st) && Slot(st.table, s, i) && Arrives(st, c) && !Orphans(st, s, i, c) && Live(c)
    requires LiveSerial(Put(st.table, s, i, c), x) && Ancestor(Place(st, s, i, c).born, x, c.serial)
    ensures Derived(Put(st.table, s, i, c), x, c)
  {
    hide Complete, Orphans, Severs, Sole, OneSlot, Recorded, Truthful;
    assert c.badge != 0;
    AncestorSame(st, s, i, c, x, c.badge);
    if x != c.badge {
      OlderIn(st, x, c.badge);
    }
    LiveAfterPlace(st, s, i, c, x);
    PutReads(st.table, s, i, c, s, i);
    ReachesSlot(st, x, c.badge);
    ReachSurvives(st, s, i, c, x, s, i);
  }

  /** THE EXACT CONDITION, FOR EVERY WRITE: a derivation, an install or a drop leaves every
      revocation reaching everything derived from its target, if and only if it leaves nobody
      naming the capability it writes over or nothing that one descended from is in a slot. */
  lemma PlaceCompleteExactly(st: State, s: nat, i: nat, c: Cap)
    requires WellFormed(st) && Complete(st) && Slot(st.table, s, i) && Arrives(st, c)
    ensures Complete(Place(st, s, i, c)) <==> !Orphans(st, s, i, c)
  {
    hide WellFormed, Orphans, Derived, Arrives;
    var st' := Place(st, s, i, c);
    if Orphans(st, s, i, c) {
      OrphanIsMissed(st, s, i, c);
    } else {
      forall s': nat, i': nat, x | Slot(st'.table, s', i') && Live(st'.table[s'][i']) && LiveSerial(st'.table, x) &&
                                   Ancestor(st'.born, x, st'.table[s'][i'].serial)
        ensures Derived(st'.table, x, st'.table[s'][i'])
      {
        PutReads(st.table, s, i, c, s', i');
        if s' == s && i' == i {
          NewcomerIsFound(st, s, i, c, x);
        } else {
          OtherIsFound(st, s, i, c, x, s', i');
        }
      }
    }
  }

  /** While every capability names its nearest surviving ancestor, a living ancestor of the one
      written over is simply a parent it names. */
  lemma LinkedOrphans(st: State, s: nat, i: nat, c: Cap)
    requires WellFormed(st) && Linked(st) && Slot(st.table, s, i)
    ensures Orphans(st, s, i, c) <==> Severs(st.table, s, i, c) && st.table[s][i].badge != 0
  {
    hide WellFormed;
    if Live(st.table[s][i]) {
      NearestOf(st, s, i);
    }
  }

  /** So while the table is linked, a write loses the promise exactly when it takes a capability out
      of the middle: one that has a parent and that something is left naming. */
  lemma LinkedPlaceCompleteExactly(st: State, s: nat, i: nat, c: Cap)
    requires WellFormed(st) && Linked(st) && Slot(st.table, s, i) && Arrives(st, c)
    ensures Complete(Place(st, s, i, c)) <==> !(Severs(st.table, s, i, c) && st.table[s][i].badge != 0)
  {
    hide Complete, Linked, Arrives, WellFormed, Orphans, Severs;
    LinkedIsComplete(st);
    LinkedOrphans(st, s, i, c);
    PlaceCompleteExactly(st, s, i, c);
  }

  /** For a derivation the caller reads it off the destination. */
  lemma DeriveCompleteExactly(st: State, e: Edge, d: Derivation)
    requires WellFormed(st) && Linked(st) && Derive(st, e, d).0
    ensures Slot(st.table, e.destSpace, e.destSlot)
    ensures Complete(Derive(st, e, d).1) <==>
            !(DestinationIsNamed(st.table, e) && st.table[e.destSpace][e.destSlot].badge != 0)
  {
    hide Complete, Linked, Arrives, WellFormed, Severs;
    DeriveIsPlace(st, e, d);
    var c := Child(st.table[e.srcSpace][e.srcSlot], d, FreshSerial(st.next));
    NamedIsSevered(st, e, c);
    LinkedPlaceCompleteExactly(st, e.destSpace, e.destSlot, c);
  }

  /** A drop loses the promise exactly when it takes a capability out of the middle: it has a
      parent, it is held nowhere else, and another capability names it. */
  lemma DropCompleteExactly(st: State, s: nat, i: nat)
    requires WellFormed(st) && Linked(st) && Slot(st.table, s, i)
    ensures Complete(Place(st, s, i, NULL_CAP)) <==>
            !(&& HasParent(st.table[s][i])
              && exists s': nat, i': nat {:trigger st.table[s'][i']} ::
                   Slot(st.table, s', i') && Live(st.table[s'][i']) && st.table[s'][i'].badge == st.table[s][i].serial)
  {
    hide Complete, Linked;
    LinkedPlaceCompleteExactly(st, s, i, NULL_CAP);
    var t: Table, u: Table := st.table, Put(st.table, s, i, NULL_CAP);
    forall s': nat, i': nat | Slot(t, s', i')
      ensures u[s'][i'] == if s' == s && i' == i then NULL_CAP else t[s'][i']
    {
      PutReads(t, s, i, NULL_CAP, s', i');
    }
    if HasParent(t[s][i]) {
      ParentedIsSole(st, s, i);
    }
  }

  // ----- Two concrete runs -----

  const ORIGINAL := Cap(CAP_ENDPOINT, 0x1F, 7, 0, 0x1_0000_0001, 0)

  /** A root in slot 4 of space 0, and an empty space 1. */
  function Start(): State {
    State([[NULL_CAP, NULL_CAP, NULL_CAP, NULL_CAP, ORIGINAL], [NULL_CAP, NULL_CAP, NULL_CAP, NULL_CAP, NULL_CAP]],
          0x1_0000_0001, map[0x1_0000_0001 := ORIGINAL])
  }

  /** A grant into space 1, then a transfer there from slot 4 onto itself: the transferred
      capability descends from the root, and a sweep for the root does not find it. */
  lemma TransferOntoItself()
    ensures var granted := Derive(Start(), Edge(0, 4, 1, 4), GrantInto(0xFFFF_FFFF));
            var moved := Derive(granted.1, Edge(1, 4, 1, 4), Transfer);
            && granted.0 && moved.0
            && Live(moved.1.table[1][4]) && Ancestor(moved.1.born, ORIGINAL.serial, moved.1.table[1][4].serial)
            && LiveSerial(moved.1.table, ORIGINAL.serial)
            && !Derived(moved.1.table, ORIGINAL.serial, moved.1.table[1][4])
  {
    var granted := Derive(Start(), Edge(0, 4, 1, 4), GrantInto(0xFFFF_FFFF));
    var moved := Derive(granted.1, Edge(1, 4, 1, 4), Transfer);
    var t: Table := moved.1.table;
    assert granted.1.table[1][4].serial == 0x1_0000_0002;
    assert t[1][4].badge == 0x1_0000_0002 && t[1][4].serial == 0x1_0000_0003;
    assert t[0][4] == ORIGINAL;
    assert Ancestor(moved.1.born, ORIGINAL.serial, 0x1_0000_0002);
    forall s: nat, i: nat | Slot(t, s, i)
      ensures t[s][i].serial != 0x1_0000_0002
    {
    }
    UnreachableSerial(t, ORIGINAL.serial, 0x1_0000_0002);
  }

  const PIPE_END := Cap(CAP_PIPE, 0x1F, 3, 0, 0x1_0000_0001, 0)

  /** One end of a pipe in slot 15 of space 2, and two spaces of spawned children. */
  function Spawned(): State {
    State([[], [], Bare()[15 := PIPE_END], Bare(), Bare()], 0x1_0000_0001, map[0x1_0000_0001 := PIPE_END])
  }

  function Bare(): seq<Cap> {
    seq(16, _ => NULL_CAP)
  }

  /** A task hands its pipe end to a child, the child to a child of its own, and the one in the
      middle closes it: the last end descends from the first, and a sweep for the first does
      not find it. */
  lemma MiddleEndClosed()
    ensures var first := Derive(Spawned(), Edge(2, 15, 3, 15), ChildPipeEnd(CAP_RIGHT_WRITE));
            var second := Derive(first.1, Edge(3, 15, 4, 15), ChildPipeEnd(CAP_RIGHT_WRITE));
            && first.0 && second.0
            && var closed := Place(second.1, 3, 15, NULL_CAP);
               && Live(closed.table[4][15]) && Ancestor(closed.born, PIPE_END.serial, closed.table[4][15].serial)
               && LiveSerial(closed.table, PIPE_END.serial)
               && !Derived(closed.table, PIPE_END.serial, closed.table[4][15])
  {
    var end1 := Cap(CAP_PIPE, CAP_RIGHT_WRITE, 3, 0x1_0000_0001, 0x1_0000_0002, 0);
    var end2 := Cap(CAP_PIPE, CAP_RIGHT_WRITE, 3, 0x1_0000_0002, 0x1_0000_0003, 0);
    var first := Derive(Spawned(), Edge(2, 15, 3, 15), ChildPipeEnd(CAP_RIGHT_WRITE));
    assert Within(CAP_RIGHT_WRITE, PIPE_END.rights) && Within(CAP_RIGHT_WRITE, CAP_RIGHT_WRITE);
    assert first.1.table[3][15] == end1;
    var second := Derive(first.1, Edge(3, 15, 4, 15), ChildPipeEnd(CAP_RIGHT_WRITE));
    assert second.1.table[4][15] == end2;
    var t: Table := Place(second.1, 3, 15, NULL_CAP).table;
    assert t[2][15] == PIPE_END && t[4][15] == end2;
    assert Ancestor(second.1.born, PIPE_END.serial, end1.serial);
    forall s: nat, i: nat | Slot(t, s, i)
      ensures t[s][i].serial != end1.serial
    {
    }
    UnreachableSerial(t, PIPE_END.serial, end1.serial);
  }
}
