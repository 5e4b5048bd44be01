/** What a capability's history says, over every run of the kernel's capability operations:
    serials are never reused, authority never widens, and a revocation reaches everything
    ever derived from its target and nothing else. */
module Lineage {
  import opened Graphs
  import opened Capabilities
  import opened Revocation

  /** A slot is empty, or holds a capability a lookup accepts. */
  ghost predicate Tidy(t: Table) {
    forall s: nat, i: nat {:trigger t[s][i]} :: Slot(t, s, i) ==>
      t[s][i] == NULL_CAP || (Live(t[s][i]) && !IsMark(t[s][i].typ))
  }

  /** The spaces of the kernel itself: the root node, and that of task 0. */
  const KERNEL_SPACES: nat := 2

  /** A primordial root, which the kernel keeps in the same slot of both its spaces. */
  predicate Twins(c: Cap, s: nat, s': nat) {
    c.badge == 0 && c.serial < MIN_DERIVED_SERIAL && s < KERNEL_SPACES && s' < KERNEL_SPACES && s != s'
  }

  /** One serial, one slot, but for the kernel's own primordial roots. */
  ghost predicate OneSlot(t: Table) {
    forall s: nat, i: nat, s': nat, i': nat {:trigger t[s][i], t[s'][i']} ::
      Slot(t, s, i) && Slot(t, s', i') && Live(t[s][i]) && t[s][i].serial == t[s'][i'].serial ==>
      (s == s' && i == i') || Twins(t[s][i], s, s')
  }

  /** A child holds nothing its parent did not: no right and no other type, another object only
      where objects of that type are split, and no token but an endpoint's, which is never
      shed and, when it is new, costs the right to receive. */
  predicate Attenuates(c: Cap, p: Cap) {
    && Within(c.rights, p.rights) && c.typ == p.typ && (c.obj == p.obj || Splits(c.typ))
    && (c.token == p.token || (c.token != 0 && c.rights & CAP_RIGHT_READ == 0))
  }

  /** The birth records: serials are not above the counter, parents are older than their
      children, only endpoints have tokens, and every child is an attenuation of its parent. */
  ghost predicate History(next: nat, born: map<nat, Cap>) {
    forall x {:trigger x in born} {:trigger born[x]} :: x in born ==>
      && born[x].serial == x && 0 < x <= Top(next) && born[x].badge < x
      && (born[x].token != 0 ==> born[x].typ == CAP_ENDPOINT)
      && (born[x].badge != 0 ==> born[x].badge in born && Attenuates(born[x], born[born[x].badge]))
  }

  /** A capability in a slot is the one its birth record describes, but for the edge to its
      parent, which a death may have moved to an older one. */
  ghost predicate Recorded(t: Table, born: map<nat, Cap>) {
    forall s: nat, i: nat {:trigger t[s][i]} :: Slot(t, s, i) && Live(t[s][i]) ==>
      && t[s][i].serial in born && t[s][i].badge < t[s][i].serial
      && born[t[s][i].serial].(badge := t[s][i].badge) == t[s][i]
  }

  /** `a` is a proper ancestor of `x`: `x` was derived from it, directly or not. */
  ghost predicate Ancestor(born: map<nat, Cap>, a: nat, x: nat)
    decreases x
  {
    && x in born && born[x].badge != 0 && born[x].badge < x
    && (a == born[x].badge || Ancestor(born, a, born[x].badge))
  }

  /** The edges in the table are true: a capability names only a capability it descends from. */
  ghost predicate Truthful(t: Table, born: map<nat, Cap>) {
    forall s: nat, i: nat {:trigger t[s][i]} :: Slot(t, s, i) && HasParent(t[s][i]) ==>
      Ancestor(born, t[s][i].badge, t[s][i].serial)
  }

  ghost predicate WellFormed(st: State) {
    && Tidy(st.table) && OneSlot(st.table) && History(st.next, st.born)
    && Recorded(st.table, st.born) && Truthful(st.table, st.born)
  }

  ghost predicate LiveSerial(t: Table, x: nat) {
    exists s: nat, i: nat {:trigger t[s][i]} :: Slot(t, s, i) && Live(t[s][i]) && t[s][i].serial == x
  }

  /** `c` names the nearest of its ancestors that is still in a slot, or is a root when none is. */
  ghost predicate NamesNearest(st: State, c: Cap) {
    && (c.badge != 0 ==> LiveSerial(st.table, c.badge) && Ancestor(st.born, c.badge, c.serial))
    && forall a {:trigger Ancestor(st.born, a, c.serial)} ::
         Ancestor(st.born, a, c.serial) && LiveSerial(st.table, a) ==>
         c.badge != 0 && (a == c.badge || Ancestor(st.born, a, c.badge))
  }

  ghost predicate Linked(st: State) {
    forall s: nat, i: nat {:trigger NamesNearest(st, st.table[s][i])} ::
      Slot(st.table, s, i) && Live(st.table[s][i]) ==> NamesNearest(st, st.table[s][i])
  }

  // ----- Ancestors -----

  lemma {:induction false} AncestorTrans(born: map<nat, Cap>, a: nat, b: nat, x: nat)
    requires Ancestor(born, a, b) && Ancestor(born, b, x)
    ensures Ancestor(born, a, x)
    decreases x
  {
    if b != born[x].badge {
      AncestorTrans(born, a, b, born[x].badge);
    }
  }

  lemma {:induction false} AncestorIsOlder(next: nat, born: map<nat, Cap>, a: nat, x: nat)
    requires History(next, born) && Ancestor(born, a, x)
    ensures 0 < a < x && a in born && x in born
    decreases x
  {
    if a != born[x].badge {
      AncestorIsOlder(next, born, a, born[x].badge);
    }
  }

  /** A new birth record leaves the ancestors of older serials alone. */
  lemma {:induction false} AncestorUnchanged(next: nat, born: map<nat, Cap>, c: Cap, a: nat, x: nat)
    requires History(next, born) && c.serial > Top(next) && x != c.serial
    ensures Ancestor(born[c.serial := c], a, x) <==> Ancestor(born, a, x)
    decreases x
  {
    if x in born && born[x].badge != 0 {
      AncestorUnchanged(next, born, c, a, born[x].badge);
    }
  }

  /** AUTHORITY NEVER WIDENS, however long the chain: a capability has the type of every capability
      it descends from, no right that one did not have, the same object unless objects of
      its type are split, and a token if that one had one. */
  lemma {:induction false} DescendantIsWithin(next: nat, born: map<nat, Cap>, a: nat, x: nat)
    requires History(next, born) && Ancestor(born, a, x)
    ensures a in born && x in born && Within(born[x].rights, born[a].rights) && born[x].typ == born[a].typ
    ensures born[x].obj == born[a].obj || Splits(born[a].typ)
    ensures born[a].token != 0 ==> born[x].token != 0
    decreases x
  {
    hide Within, Splits;
    var p := born[x].badge;
    assert Attenuates(born[x], born[p]);
    if a != p {
      DescendantIsWithin(next, born, a, p);
      WithinTrans(born[x].rights, born[p].rights, born[a].rights);
    }
  }

  // ----- The table's edges and the history agree -----

  lemma {:induction false} WalkIsLineage(st: State, p: seq<nat>)
    requires WellFormed(st) && IsWalk(Edges(st.table), p)
    ensures |p| == 1 || Ancestor(st.born, p[0], p[|p| - 1])
    decreases |p|
  {
    if |p| > 1 {
      var q := p[..|p| - 1];
      Subwalk(Edges(st.table), p, 0, |p| - 1);
      WalkIsLineage(st, q);
      assert p[|p| - 2 + 1] in Succ(Edges(st.table), p[|p| - 2]);
      var s, i := EdgeHasSlot(st.table, p[|p| - 2], p[|p| - 1]);
      assert Ancestor(st.born, st.table[s][i].badge, st.table[s][i].serial);
      if |q| > 1 {
        AncestorTrans(st.born, p[0], p[|p| - 2], p[|p| - 1]);
      }
    }
  }

  /** What a sweep finds in the table descends from its root, whatever was written over. */
  lemma DerivedIsDescendant(st: State, root: nat, s: nat, i: nat)
    requires WellFormed(st) && Slot(st.table, s, i) && Live(st.table[s][i])
    requires Derived(st.table, root, st.table[s][i])
    ensures Ancestor(st.born, root, st.table[s][i].serial)
  {
    var c := st.table[s][i];
    var p :| IsWalkFrom(Edges(st.table), p, root, c.badge);
    WalkIsLineage(st, p);
    assert Ancestor(st.born, c.badge, c.serial);
    if |p| > 1 {
      AncestorTrans(st.born, root, c.badge, c.serial);
    }
  }

  lemma {:induction false} DescendantIsDerived(st: State, root: nat, s: nat, i: nat)
    requires WellFormed(st) && Linked(st) && Slot(st.table, s, i) && Live(st.table[s][i])
    requires LiveSerial(st.table, root) && Ancestor(st.born, root, st.table[s][i].serial)
    ensures Derived(st.table, root, st.table[s][i])
    decreases st.table[s][i].serial
  {
    var t, c := st.table, st.table[s][i];
    assert NamesNearest(st, c);
    if root == c.badge {
      ReachRefl(Edges(t), root);
    } else {
      var s': nat, i': nat :| Slot(t, s', i') && Live(t[s'][i']) && t[s'][i'].serial == c.badge;
      DescendantIsDerived(st, root, s', i');
      EdgeOf(t, s', i');
      ReachStep(Edges(t), t[s'][i'].badge, c.badge);
      ReachTrans(Edges(t), root, t[s'][i'].badge, c.badge);
    }
  }

  /** The promise: a sweep for any capability in a slot finds everything in a slot that was
      ever derived from it. */
  ghost predicate Complete(st: State) {
    forall s: nat, i: nat, x {:trigger Ancestor(st.born, x, st.table[s][i].serial)} ::
      Slot(st.table, s, i) && Live(st.table[s][i]) && LiveSerial(st.table, x) && Ancestor(st.born, x, st.table[s][i].serial) ==>
      Derived(st.table, x, st.table[s][i])
  }

  lemma LinkedIsComplete(st: State)
    requires WellFormed(st) && Linked(st)
    ensures Complete(st)
  {
    forall s: nat, i: nat, x | Slot(st.table, s, i) && Live(st.table[s][i]) && LiveSerial(st.table, x) &&
                               Ancestor(st.born, x, st.table[s][i].serial)
      ensures Derived(st.table, x, st.table[s][i])
    {
      DescendantIsDerived(st, x, s, i);
    }
  }

  /** The subtree a sweep finds in the table is the set of all descendants in the history. */
  lemma DerivedExactly(st: State, root: nat, s: nat, i: nat)
    requires WellFormed(st) && Complete(st) && Slot(st.table, s, i) && Live(st.table[s][i]) && LiveSerial(st.table, root)
    ensures Derived(st.table, root, st.table[s][i]) <==> Ancestor(st.born, root, st.table[s][i].serial)
  {
    hide WellFormed, Derived;
    if Derived(st.table, root, st.table[s][i]) {
      DerivedIsDescendant(st, root, s, i);
    }
  }

  lemma SerialInRange(st: State, s: nat, i: nat)
    requires WellFormed(st) && Slot(st.table, s, i) && Live(st.table[s][i])
    ensures 0 < st.table[s][i].serial <= Top(st.next)
  {
  }

  // ----- Writing one slot -----

  /** A capability that may be put in a slot: nothing, a root with a new serial, or a child
      of a capability that is in some slot. */
  ghost predicate Arrives(st: State, c: Cap) {
    c == NULL_CAP ||
    (&& Live(c) && !IsMark(c.typ) && c.serial > Top(st.next) && c.badge < c.serial
     && (c.token != 0 ==> c.typ == CAP_ENDPOINT)
     && (c.badge != 0 ==> LiveSerial(st.table, c.badge) && c.badge in st.born && Attenuates(c, st.born[c.badge])))
  }

  /** Put `c` in a slot, whatever is there; a new capability gets its birth record. */
  function Place(st: State, s: nat, i: nat, c: Cap): State
    requires Slot(st.table, s, i)
  {
    if c == NULL_CAP then st.(table := Put(st.table, s, i, c))
    else State(Put(st.table, s, i, c), c.serial, st.born[c.serial := c])
  }

  lemma PlaceKeepsHistory(st: State, s: nat, i: nat, c: Cap)
    requires Slot(st.table, s, i) && History(st.next, st.born) && Arrives(st, c)
    ensures History(Place(st, s, i, c).next, Place(st, s, i, c).born)
  {
  }

  lemma PlaceKeepsTable(st: State, s: nat, i: nat, c: Cap)
    requires Slot(st.table, s, i) && WellFormed(st) && Arrives(st, c)
    ensures Tidy(Put(st.table, s, i, c)) && OneSlot(Put(st.table, s, i, c))
    ensures Recorded(Put(st.table, s, i, c), Place(st, s, i, c).born)
  {
    forall s': nat, i': nat | Slot(st.table, s', i')
      ensures Put(st.table, s, i, c)[s'][i'] == if s' == s && i' == i then c else st.table[s'][i']
      ensures Live(st.table[s'][i']) ==> st.table[s'][i'].serial <= Top(st.next)
    {
      PutReads(st.table, s, i, c, s', i');
    }
  }

  lemma PlaceKeepsWellFormed(st: State, s: nat, i: nat, c: Cap)
    requires Slot(st.table, s, i) && WellFormed(st) && Arrives(st, c)
    ensures WellFormed(Place(st, s, i, c))
  {
    PlaceKeepsHistory(st, s, i, c);
    PlaceKeepsTable(st, s, i, c);
    PlaceKeepsTruth(st, s, i, c);
  }

  lemma PlaceKeepsTruth(st: State, s: nat, i: nat, c: Cap)
    requires Slot(st.table, s, i) && WellFormed(st) && Arrives(st, c)
    ensures Truthful(Put(st.table, s, i, c), Place(st, s, i, c).born)
  {
    hide OneSlot, Attenuates;
    var u := Put(st.table, s, i, c);
    forall s': nat, i': nat | Slot(u, s', i') && HasParent(u[s'][i'])
      ensures Ancestor(Place(st, s, i, c).born, u[s'][i'].badge, u[s'][i'].serial)
    {
      PutReads(st.table, s, i, c, s', i');
      if !(s' == s && i' == i) {
        SerialInRange(st, s', i');
        AncestorSame(st, s, i, c, u[s'][i'].badge, u[s'][i'].serial);
      }
    }
  }

  /** No other slot holds the serial of slot `(s, i)`. */
  ghost predicate Sole(t: Table, s: nat, i: nat)
    requires Slot(t, s, i)
  {
    forall s': nat, i': nat {:trigger t[s'][i']} ::
      Slot(t, s', i') && Live(t[s'][i']) && t[s'][i'].serial == t[s][i].serial ==> s' == s && i' == i
  }

  /** Writing `c` over slot `(s, i)` leaves a capability that names the one that was there and
      is nowhere else. */
  ghost predicate Severs(t: Table, s: nat, i: nat, c: Cap)
    requires Slot(t, s, i)
  {
    Live(t[s][i]) && Sole(t, s, i) && exists s': nat, i': nat {:trigger Put(t, s, i, c)[s'][i']} ::
      Slot(t, s', i') && Live(Put(t, s, i, c)[s'][i']) && Put(t, s, i, c)[s'][i'].badge == t[s][i].serial
  }

  lemma LiveAfterPlace(st: State, s: nat, i: nat, c: Cap, x: nat)
    requires Slot(st.table, s, i) && WellFormed(st) && Arrives(st, c)
    ensures LiveSerial(Put(st.table, s, i, c), x) <==>
            || (Live(c) && x == c.serial)
            || (LiveSerial(st.table, x) && !(Live(st.table[s][i]) && x == st.table[s][i].serial && Sole(st.table, s, i)))
  {
    var t, u := st.table, Put(st.table, s, i, c);
    if LiveSerial(u, x) {
      var s': nat, i': nat :| Slot(u, s', i') && Live(u[s'][i']) && u[s'][i'].serial == x;
      PutReads(t, s, i, c, s', i');
      assert (s' == s && i' == i) || t[s'][i'] == u[s'][i'];
    }
    if Live(c) && x == c.serial {
      assert u[s][i] == c;
    }
    if LiveSerial(t, x) && !(Live(t[s][i]) && x == t[s][i].serial && Sole(t, s, i)) {
      var s': nat, i': nat :| Slot(t, s', i') && Live(t[s'][i']) && t[s'][i'].serial == x && !(s' == s && i' == i);
      PutReads(t, s, i, c, s', i');
      assert u[s'][i'] == t[s'][i'];
    }
  }

  lemma SeveredIsLost(st: State, s: nat, i: nat, c: Cap)
    requires Slot(st.table, s, i) && WellFormed(st) && Arrives(st, c) && Severs(st.table, s, i, c)
    ensures !Linked(Place(st, s, i, c))
  {
    var t, u := st.table, Put(st.table, s, i, c);
    var s': nat, i': nat :| Slot(t, s', i') && Live(u[s'][i']) && u[s'][i'].badge == t[s][i].serial;
    LiveAfterPlace(st, s, i, c, t[s][i].serial);
    assert !NamesNearest(Place(st, s, i, c), u[s'][i']);
  }

  lemma NewcomerNames(st: State, s: nat, i: nat, c: Cap)
    requires Slot(st.table, s, i) && WellFormed(st) && Arrives(st, c) && Live(c)
    requires !(Live(st.table[s][i]) && Sole(st.table, s, i) && c.badge == st.table[s][i].serial)
    ensures NamesNearest(Place(st, s, i, c), c)
  {
    if c.badge != 0 {
      LiveAfterPlace(st, s, i, c, c.badge);
    }
  }

  lemma OthersStillName(st: State, s: nat, i: nat, c: Cap, d: Cap)
    requires Slot(st.table, s, i) && WellFormed(st) && Arrives(st, c) && NamesNearest(st, d) && 0 < d.serial <= Top(st.next)
    requires !(Live(st.table[s][i]) && Sole(st.table, s, i) && d.badge == st.table[s][i].serial)
    ensures NamesNearest(Place(st, s, i, c), d)
  {
    var st' := Place(st, s, i, c);
    if d.badge != 0 {
      LiveAfterPlace(st, s, i, c, d.badge);
      AncestorSame(st, s, i, c, d.badge, d.serial);
      AncestorIsOlder(st.next, st.born, d.badge, d.serial);
    }
    forall a | Ancestor(st'.born, a, d.serial) && LiveSerial(st'.table, a)
      ensures d.badge != 0 && (a == d.badge || Ancestor(st'.born, a, d.badge))
    {
      AncestorSame(st, s, i, c, a, d.serial);
      AncestorIsOlder(st.next, st.born, a, d.serial);
      LiveAfterPlace(st, s, i, c, a);
      AncestorSame(st, s, i, c, a, d.badge);
    }
  }

  lemma AncestorSame(st: State, s: nat, i: nat, c: Cap, a: nat, x: nat)
    requires Slot(st.table, s, i) && WellFormed(st) && Arrives(st, c) && x <= Top(st.next)
    ensures Ancestor(Place(st, s, i, c).born, a, x) <==> Ancestor(st.born, a, x)
  {
    if c != NULL_CAP {
      AncestorUnchanged(st.next, st.born, c, a, x);
    }
  }

  /** A write keeps every capability naming its nearest surviving ancestor exactly when no
      capability names the one written over. */
  lemma PlaceLinkedExactly(st: State, s: nat, i: nat, c: Cap)
    requires Slot(st.table, s, i) && WellFormed(st) && Linked(st) && Arrives(st, c)
    ensures Linked(Place(st, s, i, c)) <==> !Severs(st.table, s, i, c)
  {
    var st', u := Place(st, s, i, c), Put(st.table, s, i, c);
    if Severs(st.table, s, i, c) {
      SeveredIsLost(st, s, i, c);
    } else {
      forall s': nat, i': nat | Slot(u, s', i') && Live(u[s'][i'])
        ensures NamesNearest(st', u[s'][i'])
      {
        PutReads(st.table, s, i, c, s', i');
        if s' == s && i' == i {
          NewcomerNames(st, s, i, c);
        } else {
          assert NamesNearest(st, st.table[s'][i']);
          OthersStillName(st, s, i, c, st.table[s'][i']);
        }
      }
    }
  }

  // ----- Derivations -----

  lemma ChildArrives(st: State, e: Edge, d: Derivation)
    requires WellFormed(st) && Permits(st.table, e, d) && FreshSerial(st.next) != 0
    ensures Arrives(st, Child(st.table[e.srcSpace][e.srcSlot], d, FreshSerial(st.next)))
  {
    hide Within, ChildRights;
    var src := st.table[e.srcSpace][e.srcSlot];
    ChildIsAttenuated(src, d, FreshSerial(st.next));
    assert LiveSerial(st.table, src.serial);
    assert st.born[src.serial].(badge := src.badge) == src;
  }

  lemma DeriveIsPlace(st: State, e: Edge, d: Derivation)
    requires WellFormed(st) && Derive(st, e, d).0
    ensures Permits(st.table, e, d) && FreshSerial(st.next) != 0
    ensures var c := Child(st.table[e.srcSpace][e.srcSlot], d, FreshSerial(st.next));
            Derive(st, e, d).1 == Place(st, e.destSpace, e.destSlot, c) && Arrives(st, c)
  {
    ChildArrives(st, e, d);
  }

  /** The destination holds, alone, a capability that another one names as its parent, or is
      the source itself: what a caller can see in the table before it derives. */
  ghost predicate DestinationIsNamed(t: Table, e: Edge)
    requires Slot(t, e.destSpace, e.destSlot)
  {
    var was := t[e.destSpace][e.destSlot];
    && Live(was) && Sole(t, e.destSpace, e.destSlot)
    && (|| (e.srcSpace == e.destSpace && e.srcSlot == e.destSlot)
        || exists s: nat, i: nat {:trigger t[s][i]} ::
             Slot(t, s, i) && !(s == e.destSpace && i == e.destSlot) && Live(t[s][i]) && t[s][i].badge == was.serial)
  }

  lemma NamedIsSevered(st: State, e: Edge, c: Cap)
    requires WellFormed(st) && Slot(st.table, e.srcSpace, e.srcSlot) && Slot(st.table, e.destSpace, e.destSlot)
    requires Live(st.table[e.srcSpace][e.srcSlot]) && Live(c) && c.badge == st.table[e.srcSpace][e.srcSlot].serial
    ensures Severs(st.table, e.destSpace, e.destSlot, c) <==> DestinationIsNamed(st.table, e)
  {
    var t, u := st.table, Put(st.table, e.destSpace, e.destSlot, c);
    if Severs(t, e.destSpace, e.destSlot, c) {
      var s: nat, i: nat :| Slot(t, s, i) && Live(u[s][i]) && u[s][i].badge == t[e.destSpace][e.destSlot].serial;
      PutReads(t, e.destSpace, e.destSlot, c, s, i);
      assert !(s == e.destSpace && i == e.destSlot) ==> t[s][i] == u[s][i];
    }
    if DestinationIsNamed(t, e) {
      if e.srcSpace == e.destSpace && e.srcSlot == e.destSlot {
        assert u[e.destSpace][e.destSlot] == c;
      } else {
        var s: nat, i: nat :| Slot(t, s, i) && !(s == e.destSpace && i == e.destSlot) && Live(t[s][i]) &&
                              t[s][i].badge == t[e.destSpace][e.destSlot].serial;
        PutReads(t, e.destSpace, e.destSlot, c, s, i);
        assert u[s][i] == t[s][i];
      }
    }
  }

  /** A derivation keeps the table well formed always, and keeps every capability naming its
      nearest surviving ancestor exactly when nothing named its destination. */
  lemma DeriveLinkedExactly(st: State, e: Edge, d: Derivation)
    requires WellFormed(st) && Linked(st) && Derive(st, e, d).0
    ensures WellFormed(Derive(st, e, d).1)
    ensures Linked(Derive(st, e, d).1) <==> !DestinationIsNamed(st.table, e)
  {
    DeriveIsPlace(st, e, d);
    var c := Child(st.table[e.srcSpace][e.srcSlot], d, FreshSerial(st.next));
    PlaceKeepsWellFormed(st, e.destSpace, e.destSlot, c);
    PlaceLinkedExactly(st, e.destSpace, e.destSlot, c);
    NamedIsSevered(st, e, c);
  }

  // ----- Revocation -----

  /** REVOCATION REACHES THE WHOLE HISTORY: the slots it empties are those of the target and
      of everything ever derived from it, through however many links and spaces; every
      other slot, an ancestor's, a sibling's or a peer's on the same object, is untouched. */
  lemma RevokeReachesHistory(st: State, v: Table, s: nat, i: nat, s': nat, i': nat)
    requires WellFormed(st) && Complete(st) && Slot(st.table, s, i) && Live(st.table[s][i])
    requires RevokedAt(st.table, v, s, i) && Slot(st.table, s', i')
    ensures v[s'][i'] ==
            if Live(st.table[s'][i']) && (st.table[s'][i'].serial == st.table[s][i].serial
                                          || Ancestor(st.born, st.table[s][i].serial, st.table[s'][i'].serial))
            then NULL_CAP else st.table[s'][i']
  {
    hide Derived, Complete;
    var t: Table := st.table;
    assert LiveSerial(t, t[s][i].serial);
    if Live(t[s'][i']) {
      DerivedExactly(st, t[s][i].serial, s', i');
    }
  }

  lemma RevokeKeepsWellFormed(st: State, v: Table, s: nat, i: nat)
    requires WellFormed(st) && Slot(st.table, s, i) && RevokedAt(st.table, v, s, i)
    ensures WellFormed(st.(table := v))
  {
    hide Hit;
    forall s': nat, i': nat | Slot(v, s', i')
      ensures Slot(st.table, s', i') && (v[s'][i'] == NULL_CAP || v[s'][i'] == st.table[s'][i'])
    {
    }
  }

  lemma SurvivorNames(st: State, v: Table, s: nat, i: nat, s': nat, i': nat)
    requires WellFormed(st) && Linked(st) && Slot(st.table, s, i) && Live(st.table[s][i])
    requires RevokedAt(st.table, v, s, i) && Slot(st.table, s', i') && Live(v[s'][i'])
    ensures NamesNearest(st.(table := v), v[s'][i'])
  {
    hide RevokedAt, Linked, Complete;
    var t: Table, x := st.table, st.table[s][i].serial;
    LinkedIsComplete(st);
    RevokeReachesHistory(st, v, s, i, s', i');
    var c: Cap := t[s'][i'];
    NearestOf(st, s', i');
    if c.badge != 0 {
      var s1: nat, i1: nat :| Slot(t, s1, i1) && Live(t[s1][i1]) && t[s1][i1].serial == c.badge;
      RevokeReachesHistory(st, v, s, i, s1, i1);
      if x == c.badge {
        assert false;
      } else if Ancestor(st.born, x, c.badge) {
        AncestorTrans(st.born, x, c.badge, c.serial);
      }
      RevokedShape(t, v, s, i);
      assert v[s1][i1] == t[s1][i1];
    }
    forall a | LiveSerial(v, a)
      ensures LiveSerial(t, a)
    {
      var s2: nat, i2: nat :| Slot(v, s2, i2) && Live(v[s2][i2]) && v[s2][i2].serial == a;
      RevokedShape(t, v, s, i);
      RevokeReachesHistory(st, v, s, i, s2, i2);
      assert t[s2][i2] == v[s2][i2];
    }
  }

  lemma NearestOf(st: State, s: nat, i: nat)
    requires Linked(st) && Slot(st.table, s, i) && Live(st.table[s][i])
    ensures NamesNearest(st, st.table[s][i])
  {
  }

  lemma RevokedShape(t: Table, v: Table, s: nat, i: nat)
    requires Slot(t, s, i) && RevokedAt(t, v, s, i)
    ensures SameShape(t, v)
  {
  }

  lemma RevokeKeepsLinked(st: State, v: Table, s: nat, i: nat)
    requires WellFormed(st) && Linked(st) && Slot(st.table, s, i) && RevokedAt(st.table, v, s, i)
    ensures WellFormed(st.(table := v)) && Linked(st.(table := v))
  {
    RevokeKeepsWellFormed(st, v, s, i);
    if Live(st.table[s][i]) {
      forall s': nat, i': nat | Slot(v, s', i') && Live(v[s'][i'])
        ensures NamesNearest(st.(table := v), v[s'][i'])
      {
        SurvivorNames(st, v, s, i, s', i');
      }
    } else {
      RevokeOfNothing(st, v, s, i);
    }
  }

  lemma SurvivingEdge(st: State, v: Table, s: nat, i: nat, x: nat, y: nat)
    requires WellFormed(st) && Complete(st) && Slot(st.table, s, i) && Live(st.table[s][i])
    requires RevokedAt(st.table, v, s, i) && y in Succ(Edges(st.table), x)
    requires y != st.table[s][i].serial && !Ancestor(st.born, st.table[s][i].serial, y)
    ensures y in Succ(Edges(v), x)
  {
    hide RevokedAt, Complete, WellFormed;
    var s', i' := EdgeHasSlot(st.table, x, y);
    RevokeReachesHistory(st, v, s, i, s', i');
    RevokedShape(st.table, v, s, i);
    EdgeOf(v, s', i');
  }

  lemma SurvivorIsFound(st: State, v: Table, s: nat, i: nat, a: nat, s': nat, i': nat)
    requires WellFormed(st) && Complete(st) && Slot(st.table, s, i) && Live(st.table[s][i])
    requires RevokedAt(st.table, v, s, i) && Slot(st.table, s', i') && Live(st.table[s'][i'])
    requires !Ancestor(st.born, st.table[s][i].serial, st.table[s'][i'].serial) && Derived(st.table, a, st.table[s'][i'])
    ensures Derived(v, a, st.table[s'][i'])
  {
    hide RevokedAt, Complete;
    var t: Table, x := st.table, st.table[s][i].serial;
    var c: Cap := t[s'][i'];
    var p :| IsWalkFrom(Edges(t), p, a, c.badge);
    forall n | 0 <= n < |p| - 1
      ensures p[n + 1] in Succ(Edges(v), p[n])
    {
      Subwalk(Edges(t), p, n + 1, |p|);
      WalkIsLineage(st, p[n + 1..|p|]);
      if p[n + 1] != c.badge {
        AncestorTrans(st.born, p[n + 1], c.badge, c.serial);
      }
      if Ancestor(st.born, x, p[n + 1]) {
        AncestorTrans(st.born, x, p[n + 1], c.serial);
      }
      SurvivingEdge(st, v, s, i, p[n], p[n + 1]);
    }
    assert IsWalkFrom(Edges(v), p, a, c.badge);
  }

  lemma RevokeKeepsComplete(st: State, v: Table, s: nat, i: nat)
    requires WellFormed(st) && Complete(st) && Slot(st.table, s, i) && RevokedAt(st.table, v, s, i)
    ensures Complete(st.(table := v))
  {
    hide RevokedAt, Derived, WellFormed;
    if Live(st.table[s][i]) {
      RevokedShape(st.table, v, s, i);
      forall s': nat, i': nat | Slot(v, s', i') && Live(v[s'][i'])
        ensures v[s'][i'] == st.table[s'][i'] && !Ancestor(st.born, st.table[s][i].serial, v[s'][i'].serial)
      {
        RevokeReachesHistory(st, v, s, i, s', i');
      }
      forall s': nat, i': nat, a | Slot(v, s', i') && Live(v[s'][i']) && LiveSerial(v, a) && Ancestor(st.born, a, v[s'][i'].serial)
        ensures Derived(v, a, v[s'][i'])
      {
        var s1: nat, i1: nat :| Slot(v, s1, i1) && Live(v[s1][i1]) && v[s1][i1].serial == a;
        assert v[s1][i1] == st.table[s1][i1];
        SurvivorIsFound(st, v, s, i, a, s', i');
      }
    } else {
      RevokeOfNothing(st, v, s, i);
    }
  }

  lemma RevokeOfNothing(st: State, v: Table, s: nat, i: nat)
    requires WellFormed(st) && Slot(st.table, s, i) && RevokedAt(st.table, v, s, i) && !Live(st.table[s][i])
    ensures v == st.table
  {
    assert st.table[s][i] == NULL_CAP;
  }
}
