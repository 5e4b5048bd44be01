/** A walk request (include/fs_proto.h): the client packs names into one buffer, and the file
    server splits and checks them again (userspace/fs_server.c). */
module FsWalk {
  import opened Bytes
  import opened Wrappers

  type Name = seq<Byte>

  const WALK_BYTES := 176
  const DIRENT_NAME := 24
  const ERR_RANGE := -34
  const ERR_INVAL := -22
  const ERR_NOENT := -2
  const TYPE_DIR := 2

  /** A C string's bytes hold no NUL. */
  predicate NoNul(n: Name) {
    forall i :: 0 <= i < |n| ==> n[i] != 0
  }

  predicate NoNuls(names: seq<Name>) {
    forall i :: 0 <= i < |names| ==> NoNul(names[i])
  }

  // ----- Packing -----

  /** The names one after another, each with a NUL behind it. */
  function Packed(names: seq<Name>): seq<Byte> {
    if names == [] then [] else Packed(names[..|names| - 1]) + (names[|names| - 1] + [0])
  }

  lemma {:induction false} PackedSplits(names: seq<Name>, i: nat)
    requires i <= |names|
    ensures Packed(names) == Packed(names[..i]) + Packed(names[i..])
    decreases |names|
  {
    if i == |names| {
      assert names[..i] == names && names[i..] == [];
    } else {
      var init := names[..|names| - 1];
      PackedSplits(init, i);
      assert init[..i] == names[..i] && names[i..][..|names| - i - 1] == init[i..];
    }
  }

  /** The room the names take: their lengths and one more each. */
  function Total(names: seq<Name>): nat {
    if names == [] then 0 else Total(names[..|names| - 1]) + |names[|names| - 1]| + 1
  }

  lemma {:induction false} PackedLength(names: seq<Name>)
    ensures |Packed(names)| == Total(names)
    decreases |names|
  {
    if names != [] {
      PackedLength(names[..|names| - 1]);
    }
  }

  /** Write the names into `data`, byte by byte, stopping where it ends. */
  method Pack(data: array<Byte>, len0: nat, names: seq<Name>) returns (rc: int, len: nat)
    requires data.Length == WALK_BYTES && NoNuls(names)
    modifies data
    ensures rc == if Total(names) <= WALK_BYTES then 0 else ERR_RANGE
    ensures rc == 0 ==> len == Total(names) && data[..len] == Packed(names) && data[len..] == old(data[len..])
    ensures rc != 0 ==> len == len0 && WALK_BYTES <= |Packed(names)| && data[..] == Packed(names)[..WALK_BYTES]
  {
    hide Packed, Total;
    PackedLength(names);
    var at := 0;
    assert names[..0] == [];
    NoNames([]);
    for i := 0 to |names|
      invariant at <= WALK_BYTES && data[..at] == Packed(names[..i])
      invariant forall k :: at <= k < WALK_BYTES ==> data[k] == old(data[k])
    {
      PackedNext(names, i);
      var s := names[i] + [0];
      ghost var before := Packed(names[..i]);
      var j := 0;
      while true
        invariant j < |s| && at == |before| + j && at <= WALK_BYTES
        invariant data[..at] == before + s[..j]
        invariant forall k :: at <= k < WALK_BYTES ==> data[k] == old(data[k])
        decreases |s| - j
      {
        if at >= WALK_BYTES {
          CutPacked(names, i, before + s[..j], s, j);
          return ERR_RANGE, len0;
        }
        ghost var had := data[..at];
        data[at] := s[j];
        assert data[..at + 1] == had + [s[j]];
        MoreOf(before, s, j);
        at := at + 1;
        j := j + 1;
        if s[j - 1] == 0 { break; }
      }
      EndsAtNul(names[i], j);
      assert s[..j] == s;
    }
    assert names[..|names|] == names;
    return 0, at;
  }

  lemma PackedNext(names: seq<Name>, i: nat)
    requires i < |names|
    ensures Packed(names[..i + 1]) == Packed(names[..i]) + (names[i] + [0])
  {
    assert names[..i + 1][..i] == names[..i];
  }

  lemma MoreOf(before: seq<Byte>, s: seq<Byte>, j: nat)
    requires j < |s|
    ensures (before + s[..j]) + [s[j]] == before + s[..j + 1]
  {
  }

  lemma EndsAtNul(n: Name, j: nat)
    requires NoNul(n) && 0 < j <= |n| + 1 && (n + [0])[j - 1] == 0
    ensures j == |n| + 1
  {
    assert forall k :: 0 <= k < |n| ==> (n + [0])[k] == n[k];
  }

  /** A full buffer with a byte still to come holds the front of what did not fit. */
  lemma CutPacked(names: seq<Name>, i: nat, full: seq<Byte>, s: seq<Byte>, j: nat)
    requires i < |names| && s == names[i] + [0] && j < |s| && |full| == WALK_BYTES
    requires full == Packed(names[..i]) + s[..j]
    ensures |Packed(names)| > WALK_BYTES && Packed(names)[..WALK_BYTES] == full
  {
    PackedSplits(names, i + 1);
    assert names[..i + 1][..i] == names[..i];
    Regrouped(Packed(names[..i]), s, j, Packed(names[i + 1..]));
  }

  lemma Regrouped(a: seq<Byte>, s: seq<Byte>, j: nat, b: seq<Byte>)
    requires j < |s|
    ensures |(a + s) + b| > |a + s[..j]| && ((a + s) + b)[..|a + s[..j]|] == a + s[..j]
  {
    var k := |a| + j;
    assert ((a + s) + b)[..k] == (a + s)[..k];
  }

  // ----- Splitting -----

  /** Where the name that starts at `at` ends. */
  function NameEnd(s: seq<Byte>, at: nat): (e: nat)
    requires at <= |s|
    ensures at <= e <= |s| && (e < |s| ==> s[e] == 0) && forall k :: at <= k < e ==> s[k] != 0
    decreases |s| - at
  {
    if at == |s| || s[at] == 0 then at else NameEnd(s, at + 1)
  }

  /** The names of `s` from `at` on, each up to its NUL. */
  function SplitFrom(s: seq<Byte>, at: nat): seq<Name>
    requires at <= |s|
    decreases |s| - at
  {
    if at == |s| then []
    else
      var e := NameEnd(s, at);
      [s[at..e]] + if e == |s| then [] else SplitFrom(s, e + 1)
  }

  function Split(s: seq<Byte>): seq<Name> {
    SplitFrom(s, 0)
  }

  lemma NameEndIs(s: seq<Byte>, at: nat, e: nat)
    requires at <= e < |s| && s[e] == 0 && forall k :: at <= k < e ==> s[k] != 0
    ensures NameEnd(s, at) == e
  {
  }

  lemma PackedHead(names: seq<Name>)
    requires names != []
    ensures Packed(names) == names[0] + [0] + Packed(names[1..])
  {
    PackedSplits(names, 1);
    assert names[..1][..0] == [];
  }

  lemma NameAt(a: seq<Byte>, n: Name, b: seq<Byte>)
    ensures var s := a + (n + [0] + b);
            && s[|a|..|a| + |n|] == n && s[|a| + |n|] == 0 && s == (a + n + [0]) + b
            && forall k :: |a| <= k < |a| + |n| ==> s[k] == n[k - |a|]
  {
  }

  lemma OneName(a: seq<Byte>, n: Name, b: seq<Byte>)
    requires NoNul(n)
    ensures NameEnd(a + (n + [0] + b), |a|) == |a| + |n|
  {
    hide NameEnd;
    NameAt(a, n, b);
    NameEndIs(a + (n + [0] + b), |a|, |a| + |n|);
  }

  lemma SplitName(s: seq<Byte>, at: nat, e: nat)
    requires at < |s| && NameEnd(s, at) == e < |s|
    ensures SplitFrom(s, at) == [s[at..e]] + SplitFrom(s, e + 1)
  {
    hide NameEnd;
  }

  lemma {:induction false} SplitsBack(a: seq<Byte>, names: seq<Name>)
    requires NoNuls(names)
    ensures SplitFrom(a + Packed(names), |a|) == names
    decreases |names|
  {
    hide Packed, NoNul, NameEnd, SplitFrom;
    var s := a + Packed(names);
    if names == [] {
      NoNames(a);
    } else {
      var n, rest := names[0], names[1..];
      PackedHead(names);
      NameAt(a, n, Packed(rest));
      OneName(a, n, Packed(rest));
      SplitName(s, |a|, |a| + |n|);
      SplitsBack(a + n + [0], rest);
      assert [n] + rest == names;
    }
  }

  /** No names are nothing packed, nothing to split and nothing wrong. */
  lemma NoNames(a: seq<Byte>)
    ensures Packed([]) == [] && SplitFrom(a, |a|) == [] && SplitFrom(a + Packed([]), |a|) == [] && AllOk([])
  {
    assert a + [] == a;
  }

  /** WHAT IS PACKED IS WHAT IS SPLIT: splitting at the NULs gives the names, in order. */
  lemma PackedSplitsBack(names: seq<Name>)
    requires NoNuls(names)
    ensures Split(Packed(names)) == names
  {
    SplitsBack([], names);
    assert [] + Packed(names) == Packed(names);
  }

  // ----- The server -----

  /** A name the server walks: not empty, not `.` or `..`, without `/`, and short enough. */
  predicate NameOk(n: Name) {
    && n != [] && n != [0x2E] && n != [0x2E, 0x2E] && |n| < DIRENT_NAME
    && forall i :: 0 <= i < |n| ==> n[i] != 0x2F
  }

  predicate AllOk(names: seq<Name>) {
    forall i :: 0 <= i < |names| ==> NameOk(names[i])
  }

  /** A request the server walks. */
  predicate Acceptable(d: seq<Byte>, len: nat)
    requires |d| == WALK_BYTES
  {
    0 < len <= WALK_BYTES && d[len - 1] == 0 && AllOk(Split(d[..len]))
  }

  lemma NameEndInside(d: seq<Byte>, len: nat, at: nat)
    requires at < len <= |d| && d[len - 1] == 0
    ensures NameEnd(d[..len], at) < len
    ensures NameEnd(d, at) == NameEnd(d[..len], at)
  {
    var e := NameEnd(d[..len], at);
    assert forall k :: at <= k < len ==> d[..len][k] == d[k];
    NameEndIs(d, at, e);
  }

  /** The length of the C string at `at`. */
  method Uslen(d: seq<Byte>, at: nat) returns (l: nat)
    requires at <= |d| && NameEnd(d, at) < |d|
    ensures at + l == NameEnd(d, at)
  {
    l := 0;
    while d[at + l] != 0
      invariant at + l <= NameEnd(d, at)
      decreases NameEnd(d, at) - l
    {
      l := l + 1;
    }
  }

  /** Whether the C string at `at` is a name, apart from its length. */
  method NameCheck(d: seq<Byte>, at: nat) returns (ok: bool)
    requires at <= |d| && NameEnd(d, at) < |d|
    ensures var n := d[at..NameEnd(d, at)];
            ok <==> n != [] && n != [0x2E] && n != [0x2E, 0x2E] && forall i :: 0 <= i < |n| ==> n[i] != 0x2F
  {
    ghost var e := NameEnd(d, at);
    ghost var n := d[at..e];
    if d[at] == 0 { return false; }
    if d[at] == 0x2E && (d[at + 1] == 0 || (d[at + 1] == 0x2E && d[at + 2] == 0)) {
      return false;
    }
    var i := at;
    while d[i] != 0
      invariant at <= i <= e
      invariant forall k :: at <= k < i ==> d[k] != 0x2F
      decreases e - i
    {
      if d[i] == 0x2F {
        assert n[i - at] == 0x2F;
        return false;
      }
      i := i + 1;
    }
    return true;
  }

  /** Check every name before any is looked up. */
  method CheckWalk(d: seq<Byte>, len: nat) returns (rc: int)
    requires |d| == WALK_BYTES
    ensures rc == if Acceptable(d, len) then 0 else ERR_INVAL
  {
    hide NameOk, AllOk, NameEnd, SplitFrom;
    if len == 0 || len > WALK_BYTES || d[len - 1] != 0 { return ERR_INVAL; }
    var at := 0;
    ghost var s := d[..len];
    while at < len
      invariant at <= len
      invariant AllOk(Split(s)) <==> AllOk(SplitFrom(s, at))
      decreases len - at
    {
      NameEndInside(d, len, at);
      var l := Uslen(d, at);
      var ok := NameCheck(d, at);
      SameSlice(d, len, at, at + l);
      SplitStep(s, at);
      if l >= DIRENT_NAME || !ok {
        assert !NameOk(s[at..at + l]) by { NameOkIs(s[at..at + l]); }
        return ERR_INVAL;
      }
      assert NameOk(s[at..at + l]) by { NameOkIs(s[at..at + l]); }
      at := at + l + 1;
    }
    NoNames(s);
    return 0;
  }

  lemma NameOkIs(n: Name)
    ensures NameOk(n) <==> n != [] && n != [0x2E] && n != [0x2E, 0x2E] && |n| < DIRENT_NAME && forall i :: 0 <= i < |n| ==> n[i] != 0x2F
  {
  }

  lemma SplitStep(s: seq<Byte>, at: nat)
    requires at < |s| && NameEnd(s, at) < |s|
    ensures var e := NameEnd(s, at);
            SplitFrom(s, at) == [s[at..e]] + SplitFrom(s, e + 1) && (AllOk(SplitFrom(s, at)) <==> NameOk(s[at..e]) && AllOk(SplitFrom(s, e + 1)))
  {
    hide NameOk, AllOk, NameEnd, SplitFrom;
    var e := NameEnd(s, at);
    SplitName(s, at, e);
    AllOkCons(s[at..e], SplitFrom(s, e + 1));
  }

  lemma AllOkCons(n: Name, rest: seq<Name>)
    ensures AllOk([n] + rest) <==> NameOk(n) && AllOk(rest)
  {
    hide NameOk;
    var all := [n] + rest;
    assert all[0] == n && forall i :: 0 <= i < |rest| ==> rest[i] == all[i + 1];
  }

  lemma SameSlice(d: seq<Byte>, len: nat, at: nat, e: nat)
    requires at <= e <= len <= |d|
    ensures d[at..e] == d[..len][at..e]
  {
  }

  // ----- The walk -----

  /** What a lookup answers: a code, and the entry's inode and type when that is 0. */
  datatype Reply = Reply(rc: int, ino: nat, typ: nat)

  /** Everything a step asks: whether a name is the hidden store's, whether it is the session's
      own `/tmp` at its place in the policy, the inode of that (0 for none), the directory
      itself, and where the policy goes from there, if it lets the session see the name. */
  datatype Server = Server(
    hidden: (nat, Name) -> bool, private: (int, Name) -> bool, tmp: nat,
    lookup: (nat, Name) -> Reply, policy: (int, Name, nat) -> Option<int>)

  /** How far a walk came: refused, or at an entry and a place in the policy. */
  datatype Outcome = Refused(rc: int) | At(node: int, ino: nat, typ: nat)

  function Entry(srv: Server, node: int, dir: nat, name: Name): Reply {
    if srv.private(node, name) then Reply(if srv.tmp == 0 then ERR_NOENT else 0, srv.tmp, TYPE_DIR)
    else srv.lookup(dir, name)
  }

  /** One step. What the session may not see is answered as what is not there. */
  function Step(srv: Server, node: int, dir: nat, name: Name): Outcome {
    if srv.hidden(dir, name) then Refused(ERR_NOENT)
    else
      var e := Entry(srv, node, dir, name);
      if e.rc != 0 then Refused(e.rc)
      else
        var next := srv.policy(node, name, e.typ);
        if next.None? then Refused(ERR_NOENT) else At(next.value, e.ino, e.typ)
  }

  /** The names from `here` on, one after another, up to the first that is refused. */
  function WalkFrom(srv: Server, here: Outcome, names: seq<Name>): Outcome
    decreases |names|
  {
    if names == [] || here.Refused? then here
    else WalkFrom(srv, Step(srv, here.node, here.ino, names[0]), names[1..])
  }

  method TakeStep(srv: Server, node: int, dir: nat, name: Name) returns (r: Outcome)
    ensures r == Step(srv, node, dir, name)
  {
    if srv.hidden(dir, name) { return Refused(ERR_NOENT); }
    var ino, typ;
    if srv.private(node, name) {
      if srv.tmp == 0 { return Refused(ERR_NOENT); }
      ino, typ := srv.tmp, TYPE_DIR;
    } else {
      var e := srv.lookup(dir, name);
      if e.rc != 0 { return Refused(e.rc); }
      ino, typ := e.ino, e.typ;
    }
    var next := srv.policy(node, name, typ);
    if next.None? { return Refused(ERR_NOENT); }
    return At(next.value, ino, typ);
  }

  /** A request: every name is checked before the first step, and the walk stops where one is refused. */
  method Walk(srv: Server, node: int, from: nat, d: seq<Byte>, len: nat) returns (r: Outcome)
    requires |d| == WALK_BYTES
    ensures r == if Acceptable(d, len) then WalkFrom(srv, At(node, from, TYPE_DIR), Split(d[..len])) else Refused(ERR_INVAL)
  {
    hide NameOk, AllOk, NameEnd, SplitFrom, Step;
    var rc := CheckWalk(d, len);
    if rc != 0 { return Refused(ERR_INVAL); }
    r := At(node, from, TYPE_DIR);
    var at := 0;
    ghost var s := d[..len];
    while at < len
      invariant at <= len && r.At?
      invariant WalkFrom(srv, r, SplitFrom(s, at)) == WalkFrom(srv, At(node, from, TYPE_DIR), Split(s))
      decreases len - at
    {
      NameEndInside(d, len, at);
      SplitStep(s, at);
      var l := Uslen(d, at);
      SameSlice(d, len, at, at + l);
      WalkNext(srv, r, d[at..at + l], SplitFrom(s, at + l + 1));
      r := TakeStep(srv, r.node, r.ino, d[at..at + l]);
      if r.Refused? { return; }
      at := at + l + 1;
    }
    NoNames(s);
  }

  lemma WalkNext(srv: Server, here: Outcome, n: Name, rest: seq<Name>)
    requires here.At?
    ensures WalkFrom(srv, here, [n] + rest) == WalkFrom(srv, Step(srv, here.node, here.ino, n), rest)
  {
    assert ([n] + rest)[1..] == rest;
  }

  /** A WALK IS A RUN OF LOOKUPS: asking for all the names at once answers what asking for some of
      them, and then for the others from there, does. */
  lemma {:induction false} WalkInTurns(srv: Server, here: Outcome, names: seq<Name>, more: seq<Name>)
    ensures WalkFrom(srv, here, names + more) == WalkFrom(srv, WalkFrom(srv, here, names), more)
    decreases |names|
  {
    if names == [] {
      assert names + more == more;
    } else if here.At? {
      assert (names + more)[1..] == names[1..] + more && (names + more)[0] == names[0];
      WalkInTurns(srv, Step(srv, here.node, here.ino, names[0]), names[1..], more);
    }
  }

  /** The names before the `k`-th lead somewhere, and from there that one is refused with `rc`. */
  predicate RefusesAt(srv: Server, here: Outcome, names: seq<Name>, k: nat, rc: int)
    requires k < |names|
  {
    var there := WalkFrom(srv, here, names[..k]);
    there.At? && Step(srv, there.node, there.ino, names[k]) == Refused(rc)
  }

  lemma RefusesLater(srv: Server, here: Outcome, names: seq<Name>, k: nat, rc: int)
    requires here.At? && k + 1 < |names|
    ensures RefusesAt(srv, here, names, k + 1, rc) <==> RefusesAt(srv, Step(srv, here.node, here.ino, names[0]), names[1..], k, rc)
  {
    assert names[..k + 1] == [names[0]] + names[1..][..k];
    WalkNext(srv, here, names[0], names[1..][..k]);
  }

  /** A walk is refused exactly when one of its names is, reached by those before it, and with
      that one's code. */
  lemma {:induction false} RefusedAtOneName(srv: Server, here: Outcome, names: seq<Name>, rc: int)
    requires here.At?
    ensures WalkFrom(srv, here, names) == Refused(rc) <==>
            exists k: nat {:trigger RefusesAt(srv, here, names, k, rc)} :: k < |names| && RefusesAt(srv, here, names, k, rc)
    decreases |names|
  {
    hide Step;
    if names != [] {
      var next := Step(srv, here.node, here.ino, names[0]);
      assert names[..0] == [];
      assert RefusesAt(srv, here, names, 0, rc) <==> next == Refused(rc);
      if next.At? {
        RefusedAtOneName(srv, next, names[1..], rc);
        if k: nat :| k < |names[1..]| && RefusesAt(srv, next, names[1..], k, rc) {
          RefusesLater(srv, here, names, k, rc);
        }
      }
      if k: nat :| k < |names| && k > 0 && RefusesAt(srv, here, names, k, rc) {
        RefusesLater(srv, here, names, k - 1, rc);
      }
    }
  }

  /** A WALK REACHES THE SERVER AS IT WAS ASKED: names that fit are walked exactly when there is one,
      and every one is a name the server walks; it then walks those names in that order. */
  lemma PackedIsWalked(names: seq<Name>, d: seq<Byte>)
    requires NoNuls(names) && |d| == WALK_BYTES && Total(names) <= WALK_BYTES && d[..Total(names)] == Packed(names)
    ensures Acceptable(d, Total(names)) <==> names != [] && AllOk(names)
    ensures Split(d[..Total(names)]) == names
  {
    hide NameOk;
    PackedLength(names);
    PackedSplitsBack(names);
    if names != [] {
      var s := Packed(names);
      assert s[|s| - 1] == 0;
      assert d[..|s|][|s| - 1] == d[|s| - 1];
    }
  }
}
