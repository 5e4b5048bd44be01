/** A task's death (rust/src/capability.rs, `rust_cap_reparent_dying`, and the emptying of
    its space in src/kernel/capability.c): every capability derived from one of the dying
    task's is given the nearest ancestor outside the dying space, before that is emptied. */
module Reparenting {
  import opened Wrappers
  import opened Graphs
  import opened Capabilities
  import opened Revocation
  import opened Lineage

  /** A dying capability's serial and the serial it names as its parent. */
  datatype Pair = Pair(serial: nat, badge: nat)

  /** The pairs of the first `n` slots, as many as there is room for. */
  function Collected(space: seq<Cap>, n: nat, room: nat): seq<Pair>
    requires n <= |space|
  {
    if n == 0 then []
    else
      var rest := Collected(space, n - 1, room);
      if |rest| < room && Live(space[n - 1]) then rest + [Pair(space[n - 1].serial, space[n - 1].badge)] else rest
  }

  ghost predicate Sorted(pairs: seq<Pair>) {
    forall a, b :: 0 <= a < b < |pairs| ==> pairs[a].serial <= pairs[b].serial
  }

  method Collect(space: seq<Cap>, room: nat) returns (pairs: seq<Pair>)
    ensures pairs == Collected(space, Limit(space), room)
  {
    pairs := [];
    for i := 0 to Limit(space)
      invariant pairs == Collected(space, i, room)
    {
      if |pairs| >= room { continue; }
      if Live(space[i]) {
        pairs := pairs + [Pair(space[i].serial, space[i].badge)];
      }
    }
  }

  /** `key` has been lifted out of position `j` of a stretch that is otherwise in order. */
  ghost predicate Lifted(s: seq<Pair>, j: nat, i: nat, key: Pair) {
    && j <= i < |s|
    && (forall a, b :: 0 <= a < b <= i && a != j && b != j ==> s[a].serial <= s[b].serial)
    && (forall b :: j < b <= i ==> key.serial < s[b].serial)
  }

  lemma LiftStep(s: seq<Pair>, j: nat, i: nat, key: Pair)
    requires Lifted(s, j, i, key) && j > 0 && key.serial < s[j - 1].serial
    ensures Lifted(s[j := s[j - 1]], j - 1, i, key)
    ensures multiset(s[j := s[j - 1]][j - 1 := key]) == multiset(s[j := key])
  {
    var u := s[j := s[j - 1]];
    assert multiset(u[j - 1 := key]) == multiset(u) - multiset{s[j - 1]} + multiset{key};
    assert multiset(u) == multiset(s) - multiset{s[j]} + multiset{s[j - 1]};
    assert multiset(s[j := key]) == multiset(s) - multiset{s[j]} + multiset{key};
  }

  lemma Dropped(s: seq<Pair>, j: nat, i: nat, key: Pair)
    requires Lifted(s, j, i, key) && (j == 0 || s[j - 1].serial <= key.serial)
    ensures Sorted(s[j := key][..i + 1])
  {
    var u := s[j := key];
    forall a, b | 0 <= a < b < i + 1
      ensures u[a].serial <= u[b].serial
    {
      if b == j && a < j - 1 {
        assert s[a].serial <= s[j - 1].serial;
      }
    }
  }

  lemma PickedUp(s: seq<Pair>, i: nat)
    requires i < |s| && Sorted(s[..i])
    ensures Lifted(s, i, i, s[i])
  {
    forall a, b | 0 <= a < b <= i && a != i && b != i
      ensures s[a].serial <= s[b].serial
    {
      assert s[..i][a].serial <= s[..i][b].serial;
    }
  }

  /** Insertion sort by serial. */
  method SortPairs(pairs: seq<Pair>) returns (s: seq<Pair>)
    ensures Sorted(s) && multiset(s) == multiset(pairs)
  {
    s := pairs;
    var i := 1;
    while i < |s|
      invariant |s| == |pairs| && multiset(s) == multiset(pairs)
      invariant 1 <= i && (i <= |s| ==> Sorted(s[..i])) && (i > |s| ==> |s| == 0)
    {
      hide Sorted, Lifted;
      PickedUp(s, i);
      var key := s[i];
      var j := i;
      assert s[j := key] == s;
      while j > 0 && s[j - 1].serial > key.serial
        invariant 0 <= j <= i && |s| == |pairs| && Lifted(s, j, i, key)
        invariant multiset(s[j := key]) == multiset(pairs)
      {
        LiftStep(s, j, i, key);
        s := s[j := s[j - 1]];
        j := j - 1;
      }
      Dropped(s, j, i, key);
      s := s[j := key];
      i := i + 1;
    }
    assert s[..|s|] == s;
  }

  /** Binary search for a serial. */
  method Find(pairs: seq<Pair>, serial: nat) returns (r: Option<nat>)
    requires Sorted(pairs)
    ensures r.Some? ==> r.value < |pairs| && pairs[r.value].serial == serial
    ensures r.None? ==> forall k :: 0 <= k < |pairs| ==> pairs[k].serial != serial
  {
    var lo, hi := 0, |pairs|;
    while lo < hi
      invariant 0 <= lo <= hi <= |pairs|
      invariant forall k :: 0 <= k < lo ==> pairs[k].serial < serial
      invariant forall k :: hi <= k < |pairs| ==> serial < pairs[k].serial
    {
      var mid := lo + (hi - lo) / 2;
      var v := pairs[mid].serial;
      if v == serial { return Some(mid); }
      if v < serial { lo := mid + 1; } else { hi := mid; }
    }
    return None;
  }

  // ----- Climbing out of the dying space -----

  /** Each dying serial and its parent; parents are older. */
  ghost predicate Describes(pairs: seq<Pair>, dying: map<nat, nat>) {
    && (forall k :: 0 <= k < |pairs| ==> pairs[k].serial in dying && dying[pairs[k].serial] == pairs[k].badge)
    && (forall x :: x in dying ==> exists k :: 0 <= k < |pairs| && pairs[k].serial == x)
  }

  ghost predicate Older(dying: map<nat, nat>) {
    forall x :: x in dying ==> dying[x] < x
  }

  /** The first serial on the chain of parents from `b` that is not dying, or 0. */
  ghost function Up(dying: map<nat, nat>, b: nat): nat
    decreases b
  {
    if b in dying && dying[b] < b then Up(dying, dying[b]) else b
  }

  lemma {:induction false} KeysFit(pairs: seq<Pair>, keys: set<nat>)
    requires forall x :: x in keys ==> exists k :: 0 <= k < |pairs| && pairs[k].serial == x
    ensures |keys| <= |pairs|
    decreases |pairs|
  {
    if |pairs| == 0 {
      assert keys == {};
    } else {
      var init, last := pairs[..|pairs| - 1], pairs[|pairs| - 1].serial;
      forall x | x in keys - {last}
        ensures exists k :: 0 <= k < |init| && init[k].serial == x
      {
        var k :| 0 <= k < |pairs| && pairs[k].serial == x;
        assert init[k].serial == x;
      }
      KeysFit(init, keys - {last});
      if last !in keys {
        assert keys - {last} == keys;
      }
    }
  }

  lemma Dying(pairs: seq<Pair>, dying: map<nat, nat>, k: nat)
    requires Describes(pairs, dying) && Older(dying) && k < |pairs|
    ensures pairs[k].serial in dying && dying[pairs[k].serial] == pairs[k].badge < pairs[k].serial
    ensures Up(dying, pairs[k].serial) == Up(dying, pairs[k].badge)
  {
  }

  lemma NotDying(pairs: seq<Pair>, dying: map<nat, nat>, x: nat)
    requires Describes(pairs, dying) && forall k :: 0 <= k < |pairs| ==> pairs[k].serial != x
    ensures x !in dying && Up(dying, x) == x
  {
  }

  lemma SeenFits(pairs: seq<Pair>, dying: map<nat, nat>, seen: set<nat>)
    requires Describes(pairs, dying) && seen <= dying.Keys
    ensures |seen| <= |pairs|
  {
    KeysFit(pairs, seen);
  }

  /** The parent a capability naming `badge` is given; `None` leaves it as it is. */
  method Climb(pairs: seq<Pair>, ghost dying: map<nat, nat>, badge: nat) returns (r: Option<nat>)
    requires Sorted(pairs) && Describes(pairs, dying) && Older(dying) && 0 !in dying
    ensures r == if badge in dying then Some(Up(dying, badge)) else None
  {
    hide Sorted, Describes, Older, Up;
    var idx := Find(pairs, badge);
    if idx.None? {
      NotDying(pairs, dying, badge);
      return None;
    }
    Dying(pairs, dying, idx.value);
    var parent := pairs[idx.value].badge;
    var steps := 1;
    ghost var seen := {badge};
    while parent != 0 && steps <= |pairs|
      invariant Up(dying, parent) == Up(dying, badge)
      invariant |seen| == steps && seen <= dying.Keys && forall x :: x in seen ==> parent < x
      invariant steps <= |pairs|
      decreases parent
    {
      var next := Find(pairs, parent);
      if next.None? {
        NotDying(pairs, dying, parent);
        break;
      }
      Dying(pairs, dying, next.value);
      seen := seen + {parent};
      SeenFits(pairs, dying, seen);
      parent := pairs[next.value].badge;
      steps := steps + 1;
    }
    UpZero(dying);
    if steps > |pairs| { return None; }
    return Some(parent);
  }

  lemma UpZero(dying: map<nat, nat>)
    ensures Up(dying, 0) == 0
  {
  }

  // ----- The dying space as a map -----

  ghost predicate DistinctSerials(pairs: seq<Pair>) {
    forall a, b :: 0 <= a < b < |pairs| ==> pairs[a].serial != pairs[b].serial
  }

  ghost function PairMap(pairs: seq<Pair>): map<nat, nat> {
    if pairs == [] then map[]
    else PairMap(pairs[..|pairs| - 1])[pairs[|pairs| - 1].serial := pairs[|pairs| - 1].badge]
  }

  lemma {:induction false} PairMapDescribes(pairs: seq<Pair>)
    requires DistinctSerials(pairs)
    ensures Describes(pairs, PairMap(pairs))
  {
    if pairs != [] {
      var init := pairs[..|pairs| - 1];
      PairMapDescribes(init);
      forall x | x in PairMap(pairs)
        ensures exists k :: 0 <= k < |pairs| && pairs[k].serial == x
      {
        if x == pairs[|pairs| - 1].serial {
          assert pairs[|pairs| - 1].serial == x;
        } else {
          var k :| 0 <= k < |init| && init[k].serial == x;
          assert pairs[k].serial == x;
        }
      }
      forall k | 0 <= k < |pairs|
        ensures pairs[k].serial in PairMap(pairs) && PairMap(pairs)[pairs[k].serial] == pairs[k].badge
      {
        if k < |init| {
          assert init[k] == pairs[k] && pairs[k].serial != pairs[|pairs| - 1].serial;
        }
      }
    }
  }

  lemma DescribesAnyOrder(pairs: seq<Pair>, s: seq<Pair>, dying: map<nat, nat>)
    requires Describes(pairs, dying) && multiset(s) == multiset(pairs)
    ensures Describes(s, dying)
  {
    forall k | 0 <= k < |s|
      ensures s[k].serial in dying && dying[s[k].serial] == s[k].badge
    {
      assert s[k] in multiset(pairs);
    }
    forall x | x in dying
      ensures exists k :: 0 <= k < |s| && s[k].serial == x
    {
      var j :| 0 <= j < |pairs| && pairs[j].serial == x;
      assert pairs[j] in multiset(s);
      var k :| 0 <= k < |s| && s[k] == pairs[j];
    }
  }

  /** The pairs are those of live slots, and of all of them with room for every slot. */
  lemma {:induction false} CollectedPairs(space: seq<Cap>, n: nat, room: nat)
    requires n <= |space|
    ensures |Collected(space, n, room)| <= n
    ensures forall k :: 0 <= k < |Collected(space, n, room)| ==>
              exists i :: 0 <= i < n && Live(space[i]) && Collected(space, n, room)[k] == Pair(space[i].serial, space[i].badge)
    ensures n <= room ==> forall i :: 0 <= i < n && Live(space[i]) ==>
              Pair(space[i].serial, space[i].badge) in Collected(space, n, room)
  {
    if n > 0 {
      CollectedPairs(space, n - 1, room);
      var rest, all := Collected(space, n - 1, room), Collected(space, n, room);
      forall k | 0 <= k < |all|
        ensures exists i :: 0 <= i < n && Live(space[i]) && all[k] == Pair(space[i].serial, space[i].badge)
      {
        if k < |rest| {
          assert all[k] == rest[k];
          var i :| 0 <= i < n - 1 && Live(space[i]) && rest[k] == Pair(space[i].serial, space[i].badge);
        } else {
          assert Live(space[n - 1]);
        }
      }
    }
  }

  lemma {:induction false} CollectedDistinct(space: seq<Cap>, n: nat, room: nat)
    requires n <= |space|
    requires forall i, j :: 0 <= i < j < n && Live(space[i]) && Live(space[j]) ==> space[i].serial != space[j].serial
    ensures DistinctSerials(Collected(space, n, room))
  {
    if n > 0 {
      CollectedDistinct(space, n - 1, room);
      CollectedPairs(space, n - 1, room);
    }
  }

  /** `dying` are the serials of the live capabilities of space `d`, each with its parent. */
  ghost predicate DyingOf(t: Table, d: nat, dying: map<nat, nat>) {
    && d < |t|
    && (forall i: nat {:trigger t[d][i]} :: Slot(t, d, i) && Live(t[d][i]) ==>
          t[d][i].serial in dying && dying[t[d][i].serial] == t[d][i].badge)
    && (forall x {:trigger x in dying} :: x in dying ==>
          exists i: nat {:trigger t[d][i]} :: Slot(t, d, i) && Live(t[d][i]) && t[d][i].serial == x)
  }

  /** In space `d` every capability is younger than the one it names. */
  ghost predicate NamesOlder(t: Table, d: nat) {
    d < |t| && forall i: nat {:trigger t[d][i]} :: Slot(t, d, i) && Live(t[d][i]) ==> t[d][i].badge < t[d][i].serial
  }

  lemma CollectedDescribes(t: Table, d: nat, room: nat)
    requires OneSlot(t) && NamesOlder(t, d)
    ensures var pairs := Collected(t[d], Limit(t[d]), room);
            Describes(pairs, PairMap(pairs)) && Older(PairMap(pairs)) && 0 !in PairMap(pairs)
  {
    var space, n := t[d], Limit(t[d]);
    var pairs := Collected(space, n, room);
    forall i, j | 0 <= i < j < n && Live(space[i]) && Live(space[j])
      ensures space[i].serial != space[j].serial
    {
      assert Slot(t, d, i) && Slot(t, d, j);
    }
    CollectedDistinct(space, n, room);
    CollectedPairs(space, n, room);
    PairMapDescribes(pairs);
    forall x | x in PairMap(pairs)
      ensures PairMap(pairs)[x] < x && x != 0
    {
      var k :| 0 <= k < |pairs| && pairs[k].serial == x;
      var i: nat :| i < n && Live(space[i]) && pairs[k] == Pair(space[i].serial, space[i].badge);
      assert Slot(t, d, i);
    }
  }

  lemma CollectedIsDying(t: Table, d: nat, room: nat)
    requires OneSlot(t) && NamesOlder(t, d) && room >= Limit(t[d])
    ensures DyingOf(t, d, PairMap(Collected(t[d], Limit(t[d]), room)))
  {
    hide OneSlot, Older, Collected, PairMap;
    var space, n := t[d], Limit(t[d]);
    var pairs := Collected(space, n, room);
    CollectedDescribes(t, d, room);
    CollectedPairs(space, n, room);
    forall i: nat | Slot(t, d, i) && Live(t[d][i])
      ensures t[d][i].serial in PairMap(pairs) && PairMap(pairs)[t[d][i].serial] == t[d][i].badge
    {
      var k :| 0 <= k < |pairs| && pairs[k] == Pair(space[i].serial, space[i].badge);
    }
    forall x | x in PairMap(pairs)
      ensures exists i: nat {:trigger t[d][i]} :: Slot(t, d, i) && Live(t[d][i]) && t[d][i].serial == x
    {
      var k :| 0 <= k < |pairs| && pairs[k].serial == x;
      var i: nat :| i < n && Live(space[i]) && pairs[k] == Pair(space[i].serial, space[i].badge);
      assert Slot(t, d, i);
    }
  }

  // ----- The pass over every other space -----

  ghost function NewParent(dying: map<nat, nat>, c: Cap): Cap {
    if c.typ != CAP_NULL && c.badge in dying then c.(badge := Up(dying, c.badge)) else c
  }

  ghost predicate MovedBefore(t: Table, u: Table, d: nat, dying: map<nat, nat>, s: nat, i: nat) {
    && SameShape(t, u)
    && forall s': nat, i': nat {:trigger u[s'][i']} :: s' < |t| && i' < |t[s']| ==>
         u[s'][i'] == if s' != d && Slot(t, s', i') && Before(s', i', s, i) then NewParent(dying, t[s'][i']) else t[s'][i']
  }

  lemma MovedNone(t: Table, d: nat, dying: map<nat, nat>)
    ensures MovedBefore(t, t, d, dying, 0, 0)
  {
  }

  lemma MovedShape(t: Table, u: Table, d: nat, dying: map<nat, nat>, s: nat, i: nat)
    requires MovedBefore(t, u, d, dying, s, i)
    ensures SameShape(t, u)
  {
  }

  lemma MovedNext(t: Table, u: Table, d: nat, dying: map<nat, nat>, s: nat, i: nat)
    requires MovedBefore(t, u, d, dying, s, i) && Slot(t, s, i) && s != d
    ensures Slot(u, s, i) && u[s][i] == t[s][i]
    ensures MovedBefore(t, Put(u, s, i, NewParent(dying, t[s][i])), d, dying, s, i + 1)
  {
  }

  lemma MovedRow(t: Table, u: Table, d: nat, dying: map<nat, nat>, s: nat, i: nat)
    requires s < |t| && MovedBefore(t, u, d, dying, s, i) && (s == d || i >= |t[s]| || i >= CNODE_SIZE)
    ensures MovedBefore(t, u, d, dying, s + 1, 0)
  {
  }

  class Teardown {
    var table: Table

    constructor (table: Table)
      ensures this.table == table
    {
      this.table := table;
    }

    /** The same in one table, that of task `s`. */
    method ReparentRow(ghost t: Table, sorted: seq<Pair>, ghost dying: map<nat, nat>, d: nat, s: nat)
      requires Sorted(sorted) && Describes(sorted, dying) && Older(dying) && 0 !in dying
      requires |table| == |t| && s < |t| && s != d && MovedBefore(t, table, d, dying, s, 0)
      modifies this
      ensures |table| == |t| && MovedBefore(t, table, d, dying, s + 1, 0)
    {
      hide Sorted, MovedBefore, Describes, Older;
      MovedShape(t, table, d, dying, s, 0);
      for i := 0 to Limit(table[s])
        invariant |table| == |t| && |table[s]| == |t[s]| && MovedBefore(t, table, d, dying, s, i)
      {
        MovedNext(t, table, d, dying, s, i);
        PutSame(table, s, i);
        var c := table[s][i];
        if c.typ == CAP_NULL || c.badge == 0 { continue; }
        var parent := Climb(sorted, dying, c.badge);
        if parent.None? { continue; }
        table := Put(table, s, i, c.(badge := parent.value));
      }
      MovedRow(t, table, d, dying, s, Limit(table[s]));
    }

    /** Give every capability that names a dying one its first ancestor that is not dying;
        with scratch space for `room` pairs, the dying ones are the first `room` of space `d`. */
    method ReparentDying(d: nat, room: nat) returns (ghost dying: map<nat, nat>)
      requires OneSlot(table) && NamesOlder(table, d)
      modifies this
      ensures dying == PairMap(Collected(old(table[d]), Limit(old(table[d])), room))
      ensures room >= Limit(old(table[d])) ==> DyingOf(old(table), d, dying)
      ensures MovedBefore(old(table), table, d, dying, |old(table)|, 0)
    {
      hide Sorted, MovedBefore, Describes, Older, DyingOf, OneSlot, NamesOlder;
      ghost var t: Table := table;
      InTable(t, d);
      var pairs := Collect(table[d], room);
      dying := PairMap(pairs);
      CollectedDescribes(t, d, room);
      if room >= Limit(t[d]) {
        CollectedIsDying(t, d, room);
      }
      var sorted := SortPairs(pairs);
      DescribesAnyOrder(pairs, sorted, dying);
      MovedNone(t, d, dying);
      for s := 0 to |table|
        invariant |table| == |t| && MovedBefore(t, table, d, dying, s, 0)
      {
        if s == d {
          MovedRow(t, table, d, dying, s, 0);
          continue;
        }
        ReparentRow(t, sorted, dying, d, s);
      }
    }

    /** The end of a task: its children are passed on, then its space is emptied. */
    method Release(d: nat) returns (ghost dying: map<nat, nat>)
      requires OneSlot(table) && NamesOlder(table, d)
      modifies this
      ensures DyingOf(old(table), d, dying) && Died(old(table), table, d, dying)
    {
      hide MovedBefore, OneSlot, DyingOf, Died, NamesOlder;
      InTable(table, d);
      ghost var t := table;
      dying := ReparentDying(d, CNODE_SIZE);
      ghost var u := table;
      MovedShape(t, u, d, dying, |t|, 0);
      for i := 0 to Limit(table[d])
        invariant |table| == |u| && |table[d]| == |u[d]| && forall s: nat {:trigger table[s]} :: s < |u| && s != d ==> table[s] == u[s]
        invariant forall i': nat {:trigger table[d][i']} :: i' < |u[d]| ==> table[d][i'] == if i' < i then NULL_CAP else u[d][i']
      {
        table := Put(table, d, i, NULL_CAP);
      }
      EmptiedIsDead(t, u, table, d, dying);
    }
  }

  lemma InTable(t: Table, d: nat)
    requires NamesOlder(t, d)
    ensures d < |t|
  {
  }

  /** Space `d` is empty, and every other capability that named one of its capabilities names
      that one's nearest ancestor outside it. */
  ghost predicate Died(t: Table, v: Table, d: nat, dying: map<nat, nat>) {
    && SameShape(t, v)
    && forall s: nat, i: nat {:trigger v[s][i]} :: Slot(t, s, i) ==>
         v[s][i] == if s == d then NULL_CAP else NewParent(dying, t[s][i])
  }

  lemma EmptiedIsDead(t: Table, u: Table, v: Table, d: nat, dying: map<nat, nat>)
    requires MovedBefore(t, u, d, dying, |t|, 0) && d < |u|
    requires |v| == |u| && |v[d]| == |u[d]| && forall s: nat {:trigger v[s]} :: s < |u| && s != d ==> v[s] == u[s]
    requires forall i: nat {:trigger v[d][i]} :: i < |u[d]| ==> v[d][i] == if i < Limit(u[d]) then NULL_CAP else u[d][i]
    ensures Died(t, v, d, dying)
  {
    assert SameShape(t, v);
    forall s: nat, i: nat | Slot(t, s, i)
      ensures v[s][i] == if s == d then NULL_CAP else NewParent(dying, t[s][i])
    {
      if s != d {
        assert v[s] == u[s];
      }
    }
  }

  // ----- A death keeps every lineage -----

  /** Climbing from a live serial ends outside the dying space, at the nearest ancestor there. */
  lemma {:induction false} UpIsNearest(st: State, d: nat, dying: map<nat, nat>, b: nat)
    requires WellFormed(st) && Linked(st) && DyingOf(st.table, d, dying) && LiveSerial(st.table, b)
    ensures var u := Up(dying, b);
            && u !in dying && (u == b || u == 0 || Ancestor(st.born, u, b)) && u <= b
            && (u != 0 ==> LiveSerial(st.table, u))
    ensures forall a :: LiveSerial(st.table, a) && a !in dying && (a == b || Ancestor(st.born, a, b)) ==>
              Up(dying, b) != 0 && (a == Up(dying, b) || Ancestor(st.born, a, Up(dying, b)))
    decreases b
  {
    hide Linked;
    if b in dying {
      var i: nat :| Slot(st.table, d, i) && Live(st.table[d][i]) && st.table[d][i].serial == b;
      var c := st.table[d][i];
      NearestOf(st, d, i);
      UpZero(dying);
      ZeroIsNotDying(st, d, dying);
      if c.badge != 0 {
        UpIsNearest(st, d, dying, c.badge);
        var u := Up(dying, c.badge);
        assert Up(dying, b) == u;
        if u != 0 && u != c.badge {
          AncestorTrans(st.born, u, c.badge, b);
        }
      }
    }
  }

  lemma ZeroIsNotDying(st: State, d: nat, dying: map<nat, nat>)
    requires DyingOf(st.table, d, dying)
    ensures 0 !in dying
  {
  }

  lemma LiveAfterDeath(st: State, v: Table, d: nat, dying: map<nat, nat>, x: nat)
    requires WellFormed(st) && d >= KERNEL_SPACES && DyingOf(st.table, d, dying) && Died(st.table, v, d, dying)
    ensures LiveSerial(v, x) <==> LiveSerial(st.table, x) && x !in dying
  {
    var t: Table := st.table;
    if LiveSerial(v, x) {
      var s: nat, i: nat :| Slot(v, s, i) && Live(v[s][i]) && v[s][i].serial == x;
      assert s != d && t[s][i].serial == x && Live(t[s][i]);
    }
    if LiveSerial(t, x) && x !in dying {
      var s: nat, i: nat :| Slot(t, s, i) && Live(t[s][i]) && t[s][i].serial == x;
      assert s != d;
      assert v[s][i] == NewParent(dying, t[s][i]);
    }
  }

  lemma SurvivorIsPassedOn(st: State, v: Table, d: nat, dying: map<nat, nat>, s: nat, i: nat)
    requires WellFormed(st) && Linked(st) && d >= KERNEL_SPACES && DyingOf(st.table, d, dying) && Died(st.table, v, d, dying)
    requires Slot(st.table, s, i) && s != d && Live(st.table[s][i])
    ensures NamesNearest(st.(table := v), NewParent(dying, st.table[s][i]))
    ensures NewParent(dying, st.table[s][i]).badge <= st.table[s][i].badge
  {
    hide Linked, Died, DyingOf, WellFormed;
    var c: Cap, st' := st.table[s][i], st.(table := v);
    var c' := NewParent(dying, c);
    NearestOf(st, s, i);
    ZeroIsNotDying(st, d, dying);
    if c.badge != 0 {
      UpIsNearest(st, d, dying, c.badge);
      var u := Up(dying, c.badge);
      assert c'.badge == u;
      if u != 0 {
        LiveAfterDeath(st, v, d, dying, u);
        if u != c.badge {
          AncestorTrans(st.born, u, c.badge, c.serial);
        }
      }
    }
    forall a | Ancestor(st.born, a, c.serial) && LiveSerial(v, a)
      ensures c'.badge != 0 && (a == c'.badge || Ancestor(st.born, a, c'.badge))
    {
      LiveAfterDeath(st, v, d, dying, a);
    }
  }

  lemma {:induction false} UpIsAncestor(st: State, d: nat, dying: map<nat, nat>, b: nat)
    requires WellFormed(st) && DyingOf(st.table, d, dying)
    ensures Up(dying, b) <= b
    ensures Up(dying, b) == b || Up(dying, b) == 0 || Ancestor(st.born, Up(dying, b), b)
    decreases b
  {
    if b in dying && dying[b] < b {
      UpIsAncestor(st, d, dying, dying[b]);
      var i: nat :| Slot(st.table, d, i) && Live(st.table[d][i]) && st.table[d][i].serial == b;
      var u := Up(dying, dying[b]);
      if u != 0 && u != dying[b] {
        AncestorTrans(st.born, u, dying[b], b);
      }
    }
  }

  lemma NewParentIsTrue(st: State, d: nat, dying: map<nat, nat>, s: nat, i: nat)
    requires WellFormed(st) && DyingOf(st.table, d, dying) && Slot(st.table, s, i) && Live(st.table[s][i])
    ensures var b := NewParent(dying, st.table[s][i]).badge;
            b <= st.table[s][i].badge && (b == 0 || Ancestor(st.born, b, st.table[s][i].serial))
  {
    var c := st.table[s][i];
    if c.badge in dying {
      UpIsAncestor(st, d, dying, c.badge);
      var u := Up(dying, c.badge);
      UpZero(dying);
      if u != 0 && u != c.badge {
        AncestorTrans(st.born, u, c.badge, c.serial);
      }
    }
  }

  lemma DeathKeepsWellFormed(st: State, v: Table, d: nat, dying: map<nat, nat>)
    requires WellFormed(st) && DyingOf(st.table, d, dying) && Died(st.table, v, d, dying)
    ensures WellFormed(st.(table := v))
  {
    hide DyingOf, Up;
    forall s: nat, i: nat | Slot(v, s, i)
      ensures v[s][i] == NULL_CAP ||
              (&& Live(st.table[s][i]) && v[s][i] == NewParent(dying, st.table[s][i])
               && v[s][i].badge <= st.table[s][i].badge
               && (v[s][i].badge == 0 || Ancestor(st.born, v[s][i].badge, v[s][i].serial)))
    {
      assert Slot(st.table, s, i);
      if s != d && Live(st.table[s][i]) {
        NewParentIsTrue(st, d, dying, s, i);
      } else if s != d {
        assert st.table[s][i] == NULL_CAP;
      }
    }
  }

  /** A DEATH KEEPS THE SUBTREE WHOLE: afterwards every surviving capability still names its
      nearest surviving ancestor, so a later revocation of any ancestor still reaches it. */
  lemma DeathKeepsLinked(st: State, v: Table, d: nat, dying: map<nat, nat>)
    requires WellFormed(st) && Linked(st) && d >= KERNEL_SPACES && DyingOf(st.table, d, dying) && Died(st.table, v, d, dying)
    ensures WellFormed(st.(table := v)) && Linked(st.(table := v))
  {
    DeathKeepsWellFormed(st, v, d, dying);
    forall s: nat, i: nat | Slot(v, s, i) && Live(v[s][i])
      ensures NamesNearest(st.(table := v), v[s][i])
    {
      SurvivorIsPassedOn(st, v, d, dying, s, i);
    }
  }

  // ----- A death keeps the promise, whatever was lost before -----

  lemma DyingEdge(st: State, d: nat, dying: map<nat, nat>, s: nat, i: nat)
    requires WellFormed(st) && DyingOf(st.table, d, dying) && Slot(st.table, s, i) && HasParent(st.table[s][i])
    ensures st.table[s][i].serial in dying <==> s == d
    ensures s == d ==> dying[st.table[s][i].serial] == st.table[s][i].badge < st.table[s][i].serial
  {
  }

  lemma EdgeAfterDeath(st: State, v: Table, d: nat, dying: map<nat, nat>, x: nat, y: nat)
    requires WellFormed(st) && DyingOf(st.table, d, dying) && Died(st.table, v, d, dying)
    requires y in Succ(Edges(st.table), x) && Up(dying, x) != 0
    ensures Up(dying, y) != 0 && Reach(Edges(v), Up(dying, x), Up(dying, y))
  {
    var s, i := EdgeHasSlot(st.table, x, y);
    DyingEdge(st, d, dying, s, i);
    if s == d {
      ReachRefl(Edges(v), Up(dying, x));
    } else {
      EdgeOf(v, s, i);
      ReachStep(Edges(v), Up(dying, x), y);
    }
  }

  lemma {:induction false} WalkAfterDeath(st: State, v: Table, d: nat, dying: map<nat, nat>, p: seq<nat>)
    requires WellFormed(st) && DyingOf(st.table, d, dying) && Died(st.table, v, d, dying)
    requires IsWalk(Edges(st.table), p) && p[0] != 0 && p[0] !in dying
    ensures Up(dying, p[|p| - 1]) != 0 && Reach(Edges(v), p[0], Up(dying, p[|p| - 1]))
    decreases |p|
  {
    hide WellFormed, DyingOf, Died;
    if |p| == 1 {
      ReachRefl(Edges(v), p[0]);
    } else {
      Subwalk(Edges(st.table), p, 0, |p| - 1);
      WalkAfterDeath(st, v, d, dying, p[..|p| - 1]);
      assert p[|p| - 2 + 1] in Succ(Edges(st.table), p[|p| - 2]);
      EdgeAfterDeath(st, v, d, dying, p[|p| - 2], p[|p| - 1]);
      ReachTrans(Edges(v), p[0], Up(dying, p[|p| - 2]), Up(dying, p[|p| - 1]));
    }
  }

  lemma SurvivorStaysDerived(st: State, v: Table, d: nat, dying: map<nat, nat>, a: nat, s: nat, i: nat)
    requires WellFormed(st) && DyingOf(st.table, d, dying) && Died(st.table, v, d, dying)
    requires Slot(st.table, s, i) && Live(st.table[s][i]) && Derived(st.table, a, st.table[s][i]) && a != 0 && a !in dying
    ensures Derived(v, a, NewParent(dying, st.table[s][i]))
  {
    var c: Cap := st.table[s][i];
    var p :| IsWalkFrom(Edges(st.table), p, a, c.badge);
    WalkAfterDeath(st, v, d, dying, p);
    assert NewParent(dying, c).badge == Up(dying, c.badge);
  }

  lemma DeathKeepsComplete(st: State, v: Table, d: nat, dying: map<nat, nat>)
    requires WellFormed(st) && Complete(st) && d >= KERNEL_SPACES && DyingOf(st.table, d, dying) && Died(st.table, v, d, dying)
    ensures Complete(st.(table := v))
  {
    hide DyingOf, Derived, NewParent;
    forall s: nat, i: nat, a | Slot(v, s, i) && Live(v[s][i]) && LiveSerial(v, a) && Ancestor(st.born, a, v[s][i].serial)
      ensures Derived(v, a, v[s][i])
    {
      LiveAfterDeath(st, v, d, dying, a);
      KeepsItsSerial(dying, st.table[s][i]);
      SurvivorStaysDerived(st, v, d, dying, a, s, i);
    }
  }

  lemma KeepsItsSerial(dying: map<nat, nat>, c: Cap)
    ensures NewParent(dying, c).(badge := c.badge) == c
  {
  }
}
