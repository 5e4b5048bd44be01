/** The capability table of the kernel (rust/src/capability.rs): what a slot holds, how a
    capability is looked up, and every way one capability is derived from another. */
module Capabilities {

  const CAP_NULL: nat := 0
  const CAP_ENDPOINT: nat := 3
  const CAP_USER: nat := 6
  const CAP_PIPE: nat := 13
  const CAP_UNTYPED: nat := 16
  const CAP_SCHED_CONTEXT: nat := 20
  const CAP_RIGHT_READ: bv32 := 1
  const CAP_RIGHT_WRITE: bv32 := 2
  const CAP_RIGHT_MINT: bv32 := 16
  const TOKEN_STRIPPED_RIGHTS: bv32 := CAP_RIGHT_READ
  const CNODE_SIZE: nat := 256
  const KERNEL_RESERVED_CAPS: nat := 4
  const CAPSLOT_USER: nat := 6
  const STDIN_PIPE_SLOT: nat := 14
  const STDOUT_PIPE_SLOT: nat := 15
  const MIN_DERIVED_SERIAL: nat := 0x1_0000_0000
  const SERIAL_LIMIT: nat := 0x1_0000_0000_0000_0000

  /** One slot of a capability space. `badge` is the serial of the capability this one was
      derived from, 0 for a root. */
  datatype Cap = Cap(typ: nat, rights: bv32, obj: nat, badge: nat, serial: nat, token: nat)

  const NULL_CAP := Cap(CAP_NULL, 0, 0, 0, 0, 0)

  /** Every capability space in the system, the kernel's root node among them. */
  type Table = seq<seq<Cap>>

  /** Slots past `CNODE_SIZE` are never looked at. */
  predicate Slot(t: Table, s: nat, i: nat) {
    s < |t| && i < |t[s]| && i < CNODE_SIZE
  }

  /** A slot whose contents a lookup would return. */
  predicate Live(c: Cap) {
    c.typ != CAP_NULL && c.serial != 0
  }

  function Put(t: Table, s: nat, i: nat, c: Cap): Table
    requires Slot(t, s, i)
  {
    t[s := t[s][i := c]]
  }

  lemma PutReads(t: Table, s: nat, i: nat, c: Cap, s': nat, i': nat)
    requires Slot(t, s, i)
    ensures Slot(Put(t, s, i, c), s', i') <==> Slot(t, s', i')
    ensures Slot(t, s', i') ==> Put(t, s, i, c)[s'][i'] == if s' == s && i' == i then c else t[s'][i']
  {
  }

  /** `small` asks for no right that `big` does not hold. */
  predicate Within(small: bv32, big: bv32) {
    small & big == small
  }

  lemma WithinTrans(a: bv32, b: bv32, c: bv32)
    requires Within(a, b) && Within(b, c)
    ensures Within(a, c)
  {
    assert a & c == a & b & c;
  }

  /** No serial issued so far is above this: derived ones count up from 2^32, and the kernel's
      primordial ones are below. */
  function Top(next: nat): nat {
    if next < MIN_DERIVED_SERIAL then MIN_DERIVED_SERIAL else next
  }

  /** The next serial, or 0 exactly when none is left. Never one handed out before, never one
      of the primordial range below 2^32, and never a wrap. */
  function FreshSerial(next: nat): (r: nat)
    ensures r == 0 <==> Top(next) + 1 >= SERIAL_LIMIT
    ensures r != 0 ==> Top(next) < r < SERIAL_LIMIT && next < r
  {
    var base := if next < MIN_DERIVED_SERIAL then MIN_DERIVED_SERIAL else next;
    if base + 1 < SERIAL_LIMIT then base + 1 else 0
  }

  /** The table, the serial counter, and the birth record of every serial ever issued:
      `born[x]` is the capability as it was installed, its `badge` its parent then. */
  datatype State = State(table: Table, next: nat, born: map<nat, Cap>)

  /** Where a derivation reads from and writes to. */
  datatype Edge = Edge(srcSpace: nat, srcSlot: nat, destSpace: nat, destSlot: nat)

  /** The derivations the kernel has. A mint or a transfer stays inside one space; a grant
      crosses spaces; the two token forms give an endpoint capability its identity. The last
      four are the kernel's own: a region carved out of untyped memory, a share carved out of
      a scheduling context, the pipe end a spawned child is wired to, and the right to
      administer users that a child inherits. */
  datatype Derivation =
    | Mint(rights: bv32)
    | Transfer
    | GrantInto(rights: bv32)
    | GrantFromUser(rights: bv32)
    | MintToken(rights: bv32, token: nat)
    | ReplyMint(rights: bv32, token: nat)
    | UntypedChild(obj: nat)
    | SchedSplit(rights: bv32, obj: nat)
    | ChildPipeEnd(rights: bv32)
    | ChildAdmin

  /** What each derivation demands of its source, its destination and its arguments. */
  predicate Permits(t: Table, e: Edge, d: Derivation) {
    && Slot(t, e.srcSpace, e.srcSlot) && Slot(t, e.destSpace, e.destSlot)
    && var src := t[e.srcSpace][e.srcSlot];
       Live(src) &&
       match d
       case Mint(_) => WithinSpace(e) && src.typ != CAP_PIPE
       case Transfer => WithinSpace(e) && src.typ != CAP_PIPE
       case GrantInto(_) => true
       case GrantFromUser(_) => src.typ != CAP_PIPE
       case MintToken(_, token) =>
         && token != 0 && WithinSpace(e) && e.srcSlot != e.destSlot
         && src.typ == CAP_ENDPOINT && src.rights & CAP_RIGHT_MINT != 0 && src.token == 0
       case ReplyMint(_, token) =>
         && token != 0 && e.destSlot >= KERNEL_RESERVED_CAPS
         && src.typ == CAP_ENDPOINT && t[e.destSpace][e.destSlot].typ == CAP_NULL
       case UntypedChild(_) => WithinSpace(e) && src.typ == CAP_UNTYPED && src.rights & CAP_RIGHT_WRITE != 0
       case SchedSplit(_, _) => WithinSpace(e) && e.srcSlot != e.destSlot && src.typ == CAP_SCHED_CONTEXT
       case ChildPipeEnd(rights) =>
         && src.typ == CAP_PIPE && Within(rights, src.rights) && t[e.destSpace][e.destSlot].typ == CAP_NULL
         && (e.destSlot == STDIN_PIPE_SLOT || e.destSlot == STDOUT_PIPE_SLOT)
       case ChildAdmin => e.destSlot == CAPSLOT_USER && src.typ == CAP_USER && src.rights == 0xFFFF_FFFF
  }

  predicate WithinSpace(e: Edge) {
    e.srcSpace == e.destSpace && e.destSlot >= KERNEL_RESERVED_CAPS
  }

  /** The rights a derivation asks for. */
  function Asked(d: Derivation): bv32 {
    match d
    case Transfer => 0xFFFF_FFFF
    case Mint(rights) => rights
    case GrantInto(rights) => rights
    case GrantFromUser(rights) => rights
    case MintToken(rights, _) => rights
    case ReplyMint(rights, _) => rights
    case UntypedChild(_) => 0xFFFF_FFFF
    case SchedSplit(rights, _) => rights
    case ChildPipeEnd(rights) => rights
    case ChildAdmin => 0xFFFF_FFFF
  }

  /** The derivations that make a new object out of the source's: everything else names the
      source's own. */
  predicate IsSplit(d: Derivation) {
    d.UntypedChild? || d.SchedSplit? || d.ChildAdmin?
  }

  /** The types a split can be made of. */
  predicate Splits(typ: nat) {
    typ == CAP_UNTYPED || typ == CAP_SCHED_CONTEXT || typ == CAP_USER
  }

  function ChildObject(src: Cap, d: Derivation): nat {
    match d
    case UntypedChild(obj) => obj
    case SchedSplit(_, obj) => obj
    case ChildAdmin => 0
    case _ => src.obj
  }

  function ChildToken(src: Cap, d: Derivation): nat {
    if d.MintToken? || d.ReplyMint? then d.token
    else if IsSplit(d) || d.ChildPipeEnd? then 0
    else src.token
  }

  /** Asking only narrows, and a new token costs the right to receive. */
  function ChildRights(asked: bv32, held: bv32, tokened: bool): bv32 {
    if tokened then asked & held & !TOKEN_STRIPPED_RIGHTS else asked & held
  }

  lemma AndIsWithin(asked: bv32, held: bv32)
    ensures Within(asked & held, held) && Within(asked & held, asked)
  {
  }

  lemma StrippedIsWithin(asked: bv32, held: bv32)
    ensures Within(asked & held & !TOKEN_STRIPPED_RIGHTS, held)
    ensures Within(asked & held & !TOKEN_STRIPPED_RIGHTS, asked)
    ensures asked & held & !TOKEN_STRIPPED_RIGHTS & CAP_RIGHT_READ == 0
  {
  }

  lemma ChildRightsNarrow(asked: bv32, held: bv32, tokened: bool)
    ensures Within(ChildRights(asked, held, tokened), held) && Within(ChildRights(asked, held, tokened), asked)
    ensures tokened ==> ChildRights(asked, held, tokened) & CAP_RIGHT_READ == 0
  {
    hide Within;
    if tokened {
      StrippedIsWithin(asked, held);
    } else {
      AndIsWithin(asked, held);
    }
  }

  /** The capability a derivation installs. */
  function Child(src: Cap, d: Derivation, serial: nat): Cap {
    var tokened := d.MintToken? || d.ReplyMint?;
    Cap(if tokened then CAP_ENDPOINT else src.typ,
        ChildRights(Asked(d), src.rights, tokened),
        ChildObject(src, d), src.serial, serial, ChildToken(src, d))
  }

  /** A derivation is refused without a trace exactly when something it demands does not hold or
      no serial is left. */
  function Derive(st: State, e: Edge, d: Derivation): (r: (bool, State))
    ensures r.0 <==> Permits(st.table, e, d) && FreshSerial(st.next) != 0
    ensures !r.0 ==> r.1 == st
  {
    var serial := FreshSerial(st.next);
    if Permits(st.table, e, d) && serial != 0 then
      var child := Child(st.table[e.srcSpace][e.srcSlot], d, serial);
      (true, State(Put(st.table, e.destSpace, e.destSlot, child), serial, st.born[serial := child]))
    else (false, st)
  }

  /** A derivation writes its destination and no other slot: a live child of the source, under a
      serial never used before, recorded at birth. */
  lemma DeriveWrites(st: State, e: Edge, d: Derivation)
    requires Derive(st, e, d).0
    ensures var st' := Derive(st, e, d).1;
            && Slot(st'.table, e.destSpace, e.destSlot)
            && var src, c := st.table[e.srcSpace][e.srcSlot], st'.table[e.destSpace][e.destSlot];
               && Live(c) && c.badge == src.serial && c.typ == src.typ && Top(st.next) < c.serial == st'.next
               && st'.born == st.born[c.serial := c] && (IsSplit(d) || c.obj == src.obj)
    ensures forall s: nat, i: nat :: Slot(st.table, s, i) && !(s == e.destSpace && i == e.destSlot) ==>
              Slot(Derive(st, e, d).1.table, s, i) && Derive(st, e, d).1.table[s][i] == st.table[s][i]
  {
    hide Within, ChildRights, FreshSerial;
    var c := Child(st.table[e.srcSpace][e.srcSlot], d, FreshSerial(st.next));
    forall s: nat, i: nat | Slot(st.table, s, i)
      ensures Slot(Put(st.table, e.destSpace, e.destSlot, c), s, i)
      ensures Put(st.table, e.destSpace, e.destSlot, c)[s][i] == if s == e.destSpace && i == e.destSlot then c else st.table[s][i]
    {
      PutReads(st.table, e.destSpace, e.destSlot, c, s, i);
    }
  }

  /** DELEGATION CANNOT WIDEN AUTHORITY: whatever is asked for, the child has its source's type and
      holds no right its source does not; it names the same object unless it is a split; and if
      it carries a token it did not inherit, it cannot receive. No endpoint sheds its token. */
  lemma ChildIsAttenuated(src: Cap, d: Derivation, serial: nat)
    requires d.MintToken? || d.ReplyMint? ==> src.typ == CAP_ENDPOINT && d.token != 0
    requires IsSplit(d) || d.ChildPipeEnd? ==> src.typ != CAP_ENDPOINT
    ensures var c := Child(src, d, serial);
            && Within(c.rights, src.rights) && Within(c.rights, Asked(d))
            && c.typ == src.typ && c.badge == src.serial && c.serial == serial
            && (IsSplit(d) || c.obj == src.obj)
            && (c.token == src.token || (src.typ != CAP_ENDPOINT && c.token == 0) || (c.token != 0 && c.rights & CAP_RIGHT_READ == 0))
  {
    hide Within, ChildRights;
    ChildRightsNarrow(Asked(d), src.rights, d.MintToken? || d.ReplyMint?);
  }
}
