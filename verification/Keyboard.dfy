/** What the keyboard reader of include/ps2_scancode.h does with every stream of bytes: it is a
    machine over keystrokes, with the prefix byte folded away. */
module Keyboard {
  import opened Wrappers
  import opened Ps2

  /** One keystroke: a byte by itself, or a byte after the prefix. */
  datatype Token = Plain(code: Code) | Extended(code: Code)

  datatype Mods = Mods(shift: bool, ctrl: bool, altgr: bool, caps: bool)

  const ZERO := Mods(false, false, false, false)

  datatype Modifier = Shift | Ctrl | AltGr

  /** The modifier a keystroke presses or releases. A shift code after the prefix is neither. */
  function Event(t: Token): Option<(Modifier, bool)> {
    match t
    case Plain(c) =>
      if c == LSHIFT || c == RSHIFT then Some((Shift, true))
      else if c == LSHIFT + 0x80 || c == RSHIFT + 0x80 then Some((Shift, false))
      else if c == LCTRL then Some((Ctrl, true))
      else if c == LCTRL + 0x80 then Some((Ctrl, false))
      else None
    case Extended(c) =>
      if c == LCTRL then Some((Ctrl, true))
      else if c == LCTRL + 0x80 then Some((Ctrl, false))
      else if c == LALT then Some((AltGr, true))
      else if c == LALT + 0x80 then Some((AltGr, false))
      else None
  }

  function After(m: Mods, t: Token): Mods {
    match Event(t)
    case Some((Shift, down)) => m.(shift := down)
    case Some((Ctrl, down)) => m.(ctrl := down)
    case Some((AltGr, down)) => m.(altgr := down)
    case None => if t == Plain(CAPS) then m.(caps := !m.caps) else m
  }

  // ----- What a keystroke types -----

  function LevelChar(m: Mods, ly: Layout, c: Code): char
    requires Wide(ly) && c <= SC_MAX
  {
    if m.altgr && ly.altgr.Some? then ly.altgr.value[c] else if m.shift then ly.upper[c] else ly.lower[c]
  }

  function SwapCase(c: char): char {
    if IsLower(c) then (c as int - 'a' as int + 'A' as int) as char
    else if IsUpper(c) then (c as int - 'A' as int + 'a' as int) as char
    else c
  }

  /** A letter with control is its ordinal, and nothing else goes with control. Otherwise caps lock
      swaps the case, which changes letters only. */
  function Typed(m: Mods, c: char): nat {
    if c == '\0' then KEY_NONE
    else if m.ctrl then (if IsLetter(c) then Ordinal(c) else KEY_NONE)
    else (if m.caps then SwapCase(c) else c) as int
  }

  function Named(c: Code): nat {
    if c == 0x53 then 0x7F
    else if c == 0x48 then KEY_UP
    else if c == 0x50 then KEY_DOWN
    else if c == 0x4D then KEY_RIGHT
    else if c == 0x4B then KEY_LEFT
    else if c == 0x47 then KEY_HOME
    else if c == 0x4F then KEY_END
    else KEY_NONE
  }

  function Key(m: Mods, ly: Layout, t: Token): nat
    requires Wide(ly)
  {
    if Event(t).Some? || t == Plain(CAPS) then KEY_NONE
    else if t.Extended? then Named(t.code)
    else if t.code > SC_MAX then KEY_NONE
    else Typed(m, LevelChar(m, ly, t.code))
  }

  // ----- The reader -----

  datatype State = State(mods: Mods, e0: bool)

  /** One byte: the second half of a prefixed keystroke, a prefix, or a keystroke. */
  function Fed(st: State, ly: Layout, sc: Code): (State, nat)
    requires Wide(ly)
  {
    if st.e0 then (State(After(st.mods, Extended(sc)), false), Key(st.mods, ly, Extended(sc)))
    else if sc == E0 then (State(st.mods, true), KEY_NONE)
    else (State(After(st.mods, Plain(sc)), false), Key(st.mods, ly, Plain(sc)))
  }

  class Reader {
    var shift: bool
    var ctrl: bool
    var altgr: bool
    var caps: bool
    var e0: bool
    var layout: Option<Layout>

    constructor ()
      ensures Abstract() == State(ZERO, false) && layout == None
    {
      shift, ctrl, altgr, caps, e0, layout := false, false, false, false, false, None;
    }

    function Abstract(): State
      reads this
    {
      State(Mods(shift, ctrl, altgr, caps), e0)
    }

    method Prefixed(sc: Code) returns (key: nat)
      requires e0
      modifies this`ctrl, this`altgr, this`e0
      ensures Abstract() == State(After(old(Abstract()).mods, Extended(sc)), false)
      ensures key == if Event(Extended(sc)).Some? then KEY_NONE else Named(sc)
    {
      e0 := false;
      if sc == LCTRL { ctrl := true; return KEY_NONE; }
      if sc == LCTRL + 0x80 { ctrl := false; return KEY_NONE; }
      if sc == LALT { altgr := true; return KEY_NONE; }
      if sc == LALT + 0x80 { altgr := false; return KEY_NONE; }
      match sc {
        case 0x53 => return 0x7F;
        case 0x48 => return KEY_UP;
        case 0x50 => return KEY_DOWN;
        case 0x4D => return KEY_RIGHT;
        case 0x4B => return KEY_LEFT;
        case 0x47 => return KEY_HOME;
        case 0x4F => return KEY_END;
        case _ => return KEY_NONE;
      }
    }

    /** The character of a key in the table. */
    method Look(ly: Layout, sc: Code) returns (key: nat)
      requires Wide(ly) && sc <= SC_MAX
      ensures key == var m := Abstract().mods; Typed(m, LevelChar(m, ly, sc))
    {
      var c;
      if altgr && ly.altgr.Some? {
        c := ly.altgr.value[sc];
      } else {
        c := if shift then ly.upper[sc] else ly.lower[sc];
      }
      if c == '\0' { return KEY_NONE; }
      if caps && 'a' <= c <= 'z' {
        c := (c as int - 'a' as int + 'A' as int) as char;
      } else if caps && 'A' <= c <= 'Z' {
        c := (c as int - 'A' as int + 'a' as int) as char;
      }
      var k := c as int;
      if ctrl {
        if 'a' <= c <= 'z' {
          k := c as int - 'a' as int + 1;
        } else if 'A' <= c <= 'Z' {
          k := c as int - 'A' as int + 1;
        } else {
          return KEY_NONE;
        }
      }
      return k;
    }

    /** Feed one byte. `dflt` is the layout the build selects by name. */
    method Feed(sc: Code, dflt: string) returns (key: nat)
      requires layout.Some? ==> Wide(layout.value)
      modifies this`shift, this`ctrl, this`altgr, this`caps, this`e0
      ensures Wide(UsedLayout(layout, dflt))
      ensures (Abstract(), key) == Fed(old(Abstract()), UsedLayout(layout, dflt), sc)
    {
      UsIsRegular();
      UkIsRegular();
      hide Wide, Typed, LevelChar, Named;
      if e0 {
        key := Prefixed(sc);
        return;
      }
      if sc == E0 { e0 := true; return KEY_NONE; }
      if sc == LSHIFT || sc == RSHIFT { shift := true; return KEY_NONE; }
      if sc == LSHIFT + 0x80 || sc == RSHIFT + 0x80 { shift := false; return KEY_NONE; }
      if sc == LCTRL { ctrl := true; return KEY_NONE; }
      if sc == LCTRL + 0x80 { ctrl := false; return KEY_NONE; }
      if sc == CAPS { caps := !caps; return KEY_NONE; }
      if sc >= 0x80 { return KEY_NONE; }
      if sc > SC_MAX { return KEY_NONE; }
      var ly: Layout;
      if layout.Some? { ly := layout.value; } else { ly := LayoutByName(Some(dflt)); }
      key := Look(ly, sc);
    }
  }

  function UsedLayout(layout: Option<Layout>, dflt: string): Layout {
    if layout.Some? then layout.value else ByName(Some(dflt))
  }

  // ----- Streams -----

  function Deliver(key: nat): seq<nat> {
    if key == KEY_NONE then [] else [key]
  }

  /** The state after a stream of bytes, and the keys delivered on the way. */
  function Run(st: State, ly: Layout, bs: seq<Code>): (State, seq<nat>)
    requires Wide(ly)
    decreases |bs|
  {
    if bs == [] then (st, [])
    else
      var (st1, key) := Fed(st, ly, bs[0]);
      var (st2, keys) := Run(st1, ly, bs[1..]);
      (st2, Deliver(key) + keys)
  }

  /** The keystrokes of a stream; a prefix at the end waits for its second half. */
  function Tokens(bs: seq<Code>): seq<Token> {
    if bs == [] then []
    else if bs[0] != E0 then [Plain(bs[0])] + Tokens(bs[1..])
    else if |bs| == 1 then []
    else [Extended(bs[1])] + Tokens(bs[2..])
  }

  function RunTokens(m: Mods, ly: Layout, ts: seq<Token>): (Mods, seq<nat>)
    requires Wide(ly)
    decreases |ts|
  {
    if ts == [] then (m, [])
    else
      var (m1, keys) := RunTokens(After(m, ts[0]), ly, ts[1..]);
      (m1, Deliver(Key(m, ly, ts[0])) + keys)
  }

  /** How many prefix bytes a stream ends in. */
  function TrailingPrefixes(bs: seq<Code>): nat {
    if bs == [] || bs[|bs| - 1] != E0 then 0 else 1 + TrailingPrefixes(bs[..|bs| - 1])
  }

  lemma {:induction false} RunSnoc(st: State, ly: Layout, bs: seq<Code>, b: Code)
    requires Wide(ly)
    ensures Run(st, ly, bs + [b]).0 == Fed(Run(st, ly, bs).0, ly, b).0
    decreases |bs|
  {
    hide Wide, Key, After;
    if bs == [] {
      assert (bs + [b])[1..] == [];
    } else {
      assert (bs + [b])[1..] == bs[1..] + [b];
      RunSnoc(Fed(st, ly, bs[0]).0, ly, bs[1..], b);
    }
  }

  /** The prefix flag is the parity of the prefix bytes the stream ends in. */
  lemma {:induction false} PrefixIsParity(ly: Layout, bs: seq<Code>, m: Mods)
    requires Wide(ly)
    ensures Run(State(m, false), ly, bs).0.e0 <==> TrailingPrefixes(bs) % 2 == 1
    decreases |bs|
  {
    hide Wide, Key, After;
    if bs != [] {
      var init, b := bs[..|bs| - 1], bs[|bs| - 1];
      assert bs == init + [b];
      PrefixIsParity(ly, init, m);
      RunSnoc(State(m, false), ly, init, b);
    }
  }

  /** BYTES REFINE KEYSTROKES: for every stream of bytes the reader's modifiers and the keys it
      delivers are those of the stream's keystrokes. */
  lemma {:induction false} BytesRefineTokens(m: Mods, ly: Layout, bs: seq<Code>)
    requires Wide(ly)
    ensures var (st, keys) := Run(State(m, false), ly, bs);
            (st.mods, keys) == RunTokens(m, ly, Tokens(bs))
    decreases |bs|
  {
    hide Wide, Key, After;
    if bs == [] {
    } else if bs[0] != E0 {
      BytesRefineTokens(After(m, Plain(bs[0])), ly, bs[1..]);
      TokensHead(m, ly, Plain(bs[0]), Tokens(bs[1..]));
    } else if |bs| > 1 {
      var t := Extended(bs[1]);
      assert bs[1..][1..] == bs[2..];
      BytesRefineTokens(After(m, t), ly, bs[2..]);
      TokensHead(m, ly, t, Tokens(bs[2..]));
      TwoBytes(m, ly, bs);
    } else {
      OneByte(m, ly, bs);
    }
  }

  lemma TokensHead(m: Mods, ly: Layout, t: Token, ts: seq<Token>)
    requires Wide(ly)
    ensures var (m1, keys) := RunTokens(After(m, t), ly, ts);
            RunTokens(m, ly, [t] + ts) == (m1, Deliver(Key(m, ly, t)) + keys)
  {
    hide Wide, Key, After;
    assert ([t] + ts)[1..] == ts;
  }

  lemma OneByte(m: Mods, ly: Layout, bs: seq<Code>)
    requires Wide(ly) && |bs| == 1 && bs[0] == E0
    ensures Run(State(m, false), ly, bs) == (State(m, true), [])
  {
    hide Wide, Key, After;
    assert bs[1..] == [];
    var (st, keys) := Run(State(m, true), ly, bs[1..]);
    assert st == State(m, true) && Deliver(KEY_NONE) + keys == [];
  }

  lemma TwoBytes(m: Mods, ly: Layout, bs: seq<Code>)
    requires Wide(ly) && |bs| > 1 && bs[0] == E0
    ensures var (st, keys) := Run(State(After(m, Extended(bs[1])), false), ly, bs[2..]);
            Run(State(m, false), ly, bs) == (st, Deliver(Key(m, ly, Extended(bs[1]))) + keys)
  {
    hide Wide, Key, After;
    var rest := bs[1..];
    assert rest[0] == bs[1] && rest[1..] == bs[2..];
    var (st, keys) := Run(State(After(m, Extended(bs[1])), false), ly, bs[2..]);
    assert Run(State(m, true), ly, rest) == (st, Deliver(Key(m, ly, Extended(bs[1]))) + keys);
    assert [] + (Deliver(Key(m, ly, Extended(bs[1]))) + keys) == Deliver(Key(m, ly, Extended(bs[1]))) + keys;
  }

  // ----- What the modifiers remember -----

  /** The last keystroke of `ts` that has to do with the modifier `x`. */
  ghost predicate LastOf(ts: seq<Token>, x: Modifier, i: nat) {
    && i < |ts| && Event(ts[i]).Some? && Event(ts[i]).value.0 == x
    && forall j :: i < j < |ts| && Event(ts[j]).Some? ==> Event(ts[j]).value.0 != x
  }

  /** The last that was heard of the modifier `x` is that it was pressed. */
  ghost predicate Pressed(ts: seq<Token>, x: Modifier) {
    exists i: nat :: LastOf(ts, x, i) && Event(ts[i]).value.1
  }

  function CapsMakes(ts: seq<Token>): nat {
    if ts == [] then 0 else CapsMakes(ts[..|ts| - 1]) + if ts[|ts| - 1] == Plain(CAPS) then 1 else 0
  }

  lemma {:induction false} RunTokensSnoc(m: Mods, ly: Layout, ts: seq<Token>, t: Token)
    requires Wide(ly)
    ensures RunTokens(m, ly, ts + [t]).0 == After(RunTokens(m, ly, ts).0, t)
    decreases |ts|
  {
    hide Wide, Key, After;
    if ts == [] {
      assert (ts + [t])[1..] == [];
    } else {
      assert (ts + [t])[1..] == ts[1..] + [t];
      RunTokensSnoc(After(m, ts[0]), ly, ts[1..], t);
    }
  }

  lemma PressedSnoc(ts: seq<Token>, t: Token, x: Modifier)
    ensures Pressed(ts + [t], x)
       <==> if Event(t).Some? && Event(t).value.0 == x then Event(t).value.1 else Pressed(ts, x)
  {
    hide Event;
    var us := ts + [t];
    if Event(t).Some? && Event(t).value.0 == x {
      assert us[|ts|] == t;
      assert LastOf(us, x, |ts|);
    } else {
      forall i: nat
        ensures LastOf(us, x, i) <==> LastOf(ts, x, i)
      {
        if LastOf(ts, x, i) {
          assert us[i] == ts[i] && us[|ts|] == t;
        }
        if LastOf(us, x, i) {
          assert us[|ts|] == t;
          assert forall j :: i < j < |ts| ==> us[j] == ts[j];
        }
      }
      assert forall i: nat :: i < |ts| ==> us[i] == ts[i];
    }
  }

  /** EVERY STREAM LEAVES THE MODIFIERS ITS HISTORY SAYS: shift, control and right alt are each on
      when the last that was heard of them is a press; caps lock counts its presses. */
  lemma {:induction false} ModifiersFollowHistory(ly: Layout, ts: seq<Token>)
    requires Wide(ly)
    ensures var m := RunTokens(ZERO, ly, ts).0;
            && (m.shift <==> Pressed(ts, Shift)) && (m.ctrl <==> Pressed(ts, Ctrl)) && (m.altgr <==> Pressed(ts, AltGr))
            && (m.caps <==> CapsMakes(ts) % 2 == 1)
    decreases |ts|
  {
    hide Wide, Key, Pressed;
    if ts == [] {
      NothingPressed();
    } else {
      var init, t := ts[..|ts| - 1], ts[|ts| - 1];
      assert ts == init + [t];
      ModifiersFollowHistory(ly, init);
      RunTokensSnoc(ZERO, ly, init, t);
      PressedSnoc(init, t, Shift);
      PressedSnoc(init, t, Ctrl);
      PressedSnoc(init, t, AltGr);
    }
  }

  lemma NothingPressed()
    ensures forall x :: !Pressed([], x)
  {
  }

  /** The same for a stream of bytes, from the zero state. */
  lemma StreamFollowsHistory(ly: Layout, bs: seq<Code>)
    requires Wide(ly)
    ensures var st, ts := Run(State(ZERO, false), ly, bs).0, Tokens(bs);
            && (st.mods.shift <==> Pressed(ts, Shift)) && (st.mods.ctrl <==> Pressed(ts, Ctrl))
            && (st.mods.altgr <==> Pressed(ts, AltGr)) && (st.mods.caps <==> CapsMakes(ts) % 2 == 1)
            && (st.e0 <==> TrailingPrefixes(bs) % 2 == 1)
  {
    hide *;
    BytesRefineTokens(ZERO, ly, bs);
    ModifiersFollowHistory(ly, Tokens(bs));
    PrefixIsParity(ly, bs, ZERO);
  }

  // ----- Two keys and one flag -----

  /** The two keys that set one flag: both shift keys, or both control keys. */
  function LeftKey(x: Modifier): Token {
    if x == Shift then Plain(LSHIFT) else Plain(LCTRL)
  }

  function RightKey(x: Modifier): Token {
    if x == Shift then Plain(RSHIFT) else Extended(LCTRL)
  }

  function Release(make: Token): Token
    requires make.code < 0x80
  {
    match make
    case Plain(c) => Plain(c + 0x80)
    case Extended(c) => Extended(c + 0x80)
  }

  /** A key is down: the last that was heard of it is its make code. */
  ghost predicate Down(ts: seq<Token>, make: Token)
    requires make.code < 0x80
  {
    exists i: nat :: i < |ts| && ts[i] == make && forall j :: i < j < |ts| ==> ts[j] != Release(make)
  }

  ghost predicate SomeDown(ts: seq<Token>, x: Modifier) {
    Down(ts, LeftKey(x)) || Down(ts, RightKey(x))
  }

  /** One of the keys was let go last, and the other is still down. */
  ghost predicate OneOfTwoReleased(ts: seq<Token>, x: Modifier) {
    exists i: nat :: LastOf(ts, x, i) &&
      ((ts[i] == Release(LeftKey(x)) && Down(ts, RightKey(x))) || (ts[i] == Release(RightKey(x)) && Down(ts, LeftKey(x))))
  }

  lemma KeyEvents(t: Token, x: Modifier)
    requires x != AltGr
    ensures t == LeftKey(x) || t == RightKey(x) <==> Event(t) == Some((x, true))
    ensures t == Release(LeftKey(x)) || t == Release(RightKey(x)) <==> Event(t) == Some((x, false))
  {
  }

  lemma PressedIsDown(ts: seq<Token>, x: Modifier, i: nat)
    requires x != AltGr && LastOf(ts, x, i) && Event(ts[i]).value.1
    ensures SomeDown(ts, x)
  {
    hide Event;
    KeyEvents(ts[i], x);
    var make := ts[i];
    forall j | i < j < |ts|
      ensures ts[j] != Release(make)
    {
      KeyEvents(ts[j], x);
    }
    assert Down(ts, make);
  }

  lemma ReleasedIsUp(ts: seq<Token>, x: Modifier, i: nat, make: Token)
    requires x != AltGr && LastOf(ts, x, i) && (make == LeftKey(x) || make == RightKey(x)) && ts[i] == Release(make)
    ensures !Down(ts, make)
  {
    hide Event;
    forall k: nat | k < |ts| && ts[k] == make
      ensures k <= i
    {
      KeyEvents(ts[k], x);
    }
    KeyEvents(ts[i], x);
    KeyEvents(make, x);
  }

  lemma {:induction false} SomeEventIsLast(ts: seq<Token>, x: Modifier, k: nat)
    requires k < |ts| && Event(ts[k]).Some? && Event(ts[k]).value.0 == x
    ensures exists i: nat :: LastOf(ts, x, i)
    decreases |ts| - k
  {
    hide Event;
    if j: nat :| k < j < |ts| && Event(ts[j]).Some? && Event(ts[j]).value.0 == x {
      SomeEventIsLast(ts, x, j);
    } else {
      assert LastOf(ts, x, k);
    }
  }

  /** The shift and control flags do not always say that one of their keys is down, as their
      description has it. A flag is wrong exactly after one of two held keys was let go. */
  lemma FlagExactly(ts: seq<Token>, x: Modifier)
    requires x != AltGr
    ensures Pressed(ts, x) ==> SomeDown(ts, x)
    ensures (Pressed(ts, x) <==> SomeDown(ts, x)) <==> !OneOfTwoReleased(ts, x)
  {
    assert Release(LeftKey(x)) != Release(RightKey(x));
    hide Event, Down, Release;
    if i: nat :| LastOf(ts, x, i) {
      LastIsUnique(ts, x, i);
      KeyEvents(ts[i], x);
      if Event(ts[i]).value.1 {
        PressedIsDown(ts, x, i);
      } else if ts[i] == Release(LeftKey(x)) {
        ReleasedIsUp(ts, x, i, LeftKey(x));
      } else {
        ReleasedIsUp(ts, x, i, RightKey(x));
      }
    } else {
      NoEventIsUp(ts, x);
    }
  }

  lemma LastIsUnique(ts: seq<Token>, x: Modifier, i: nat)
    requires LastOf(ts, x, i)
    ensures forall j: nat :: LastOf(ts, x, j) ==> j == i
  {
    hide Event;
  }

  lemma NoEventIsUp(ts: seq<Token>, x: Modifier)
    requires x != AltGr && forall i: nat :: !LastOf(ts, x, i)
    ensures !SomeDown(ts, x)
  {
    hide LastOf, Event;
    forall k: nat | k < |ts|
      ensures ts[k] != LeftKey(x) && ts[k] != RightKey(x)
    {
      KeyEvents(ts[k], x);
      if ts[k] == LeftKey(x) || ts[k] == RightKey(x) {
        SomeEventIsLast(ts, x, k);
      }
    }
  }

  /** Keystroke `k` lets one key of the modifier go while the other is down. */
  ghost predicate ReleasedUnderOther(ts: seq<Token>, x: Modifier, k: nat)
    requires k < |ts|
  {
    || (ts[k] == Release(LeftKey(x)) && Down(ts[..k], RightKey(x)))
    || (ts[k] == Release(RightKey(x)) && Down(ts[..k], LeftKey(x)))
  }

  lemma DownStays(ts: seq<Token>, k: nat, make: Token)
    requires k < |ts| && make.code < 0x80 && Down(ts[..k], make) && ts[k] != Release(make)
    ensures Down(ts[..k + 1], make)
  {
    var us, vs := ts[..k], ts[..k + 1];
    var i: nat :| i < |us| && us[i] == make && forall j :: i < j < |us| ==> us[j] != Release(make);
    assert vs[i] == make;
    forall j | i < j < |vs|
      ensures vs[j] != Release(make)
    {
      if j < k {
        assert vs[j] == us[j];
      }
    }
  }

  lemma ReleaseTurnsOff(ts: seq<Token>, x: Modifier, k: nat)
    requires x != AltGr && k < |ts| && ReleasedUnderOther(ts, x, k)
    ensures OneOfTwoReleased(ts[..k + 1], x)
  {
    assert Release(LeftKey(x)) != Release(RightKey(x));
    hide Event, Down, Release;
    KeyEvents(ts[k], x);
    assert ts[..k + 1][k] == ts[k] && LastOf(ts[..k + 1], x, k);
    if ts[k] == Release(LeftKey(x)) {
      DownStays(ts, k, RightKey(x));
    } else {
      DownStays(ts, k, LeftKey(x));
    }
  }

  lemma DownBefore(ts: seq<Token>, x: Modifier, i: nat, make: Token)
    requires x != AltGr && LastOf(ts, x, i) && !Event(ts[i]).value.1
    requires (make == LeftKey(x) || make == RightKey(x)) && Down(ts, make)
    ensures Down(ts[..i], make)
  {
    hide Event;
    var j: nat :| j < |ts| && ts[j] == make && forall m :: j < m < |ts| ==> ts[m] != Release(make);
    KeyEvents(ts[j], x);
    assert j < i;
    var us := ts[..i];
    assert us[j] == make && forall m :: j < m < |us| ==> us[m] == ts[m];
  }

  lemma WrongSinceARelease(ts: seq<Token>, x: Modifier) returns (k: nat)
    requires x != AltGr && OneOfTwoReleased(ts, x)
    ensures k < |ts| && ReleasedUnderOther(ts, x, k)
  {
    hide Event, Down, Release;
    k :| LastOf(ts, x, k) &&
      ((ts[k] == Release(LeftKey(x)) && Down(ts, RightKey(x))) || (ts[k] == Release(RightKey(x)) && Down(ts, LeftKey(x))));
    KeyEvents(ts[k], x);
    if ts[k] == Release(LeftKey(x)) && Down(ts, RightKey(x)) {
      DownBefore(ts, x, k, RightKey(x));
    } else {
      DownBefore(ts, x, k, LeftKey(x));
    }
  }

  /** THE FLAG IS RIGHT ALL ALONG, after every keystroke of a stream, exactly when no key of the
      modifier is let go while the other is down. */
  lemma FlagAlwaysRightExactly(ts: seq<Token>, x: Modifier)
    requires x != AltGr
    ensures (forall n {:trigger ts[..n]} :: 0 <= n <= |ts| ==> (Pressed(ts[..n], x) <==> SomeDown(ts[..n], x))) <==>
            (forall k: nat {:trigger ReleasedUnderOther(ts, x, k)} :: k < |ts| ==> !ReleasedUnderOther(ts, x, k))
  {
    hide Pressed, SomeDown, OneOfTwoReleased, ReleasedUnderOther;
    forall n {:trigger ts[..n]} | 0 <= n <= |ts|
      ensures (Pressed(ts[..n], x) <==> SomeDown(ts[..n], x)) <==> !OneOfTwoReleased(ts[..n], x)
    {
      FlagExactly(ts[..n], x);
    }
    if k: nat :| k < |ts| && ReleasedUnderOther(ts, x, k) {
      ReleaseTurnsOff(ts, x, k);
    }
    if n: nat :| n <= |ts| && OneOfTwoReleased(ts[..n], x) {
      var k := WrongSinceARelease(ts[..n], x);
      SameBefore(ts, n, x, k);
    }
  }

  lemma SameBefore(ts: seq<Token>, n: nat, x: Modifier, k: nat)
    requires k < n <= |ts| && ReleasedUnderOther(ts[..n], x, k)
    ensures ReleasedUnderOther(ts, x, k)
  {
    assert ts[..n][..k] == ts[..k] && ts[..n][k] == ts[k];
  }

  /** Both shift keys pressed, then the left one let go. */
  lemma FlagCanBeWrong()
    ensures var ts := [Plain(LSHIFT), Plain(RSHIFT), Plain(LSHIFT + 0x80)];
            SomeDown(ts, Shift) && !Pressed(ts, Shift)
  {
    var ts := [Plain(LSHIFT), Plain(RSHIFT), Plain(LSHIFT + 0x80)];
    assert ts[1] == Plain(RSHIFT) && ts[2] == Plain(LSHIFT + 0x80);
    assert Down(ts, Plain(RSHIFT));
    assert LastOf(ts, Shift, 2);
    LastIsUnique(ts, Shift, 2);
  }

  // ----- What can be typed -----

  /** Every result is nothing, a character, or a named key with an escape sequence. */
  lemma ResultsAreKeys(m: Mods, ly: Layout, t: Token)
    requires Regular(ly)
    ensures var k := Key(m, ly, t);
            k == KEY_NONE || 1 <= k <= 0x7F || KeyEscape(k).Some?
  {
  }

  /** Without control, caps lock swaps the case of what is typed, which leaves all but letters. */
  lemma CapsSwapsCase(m: Mods, ly: Layout, c: Code)
    requires Wide(ly) && !m.ctrl
    ensures var on, off := Key(m.(caps := true), ly, Plain(c)), Key(m.(caps := false), ly, Plain(c));
            if 'a' as int <= off <= 'z' as int then on == off - 32
            else if 'A' as int <= off <= 'Z' as int then on == off + 32
            else on == off
  {
  }

  /** Caps lock and shift together give a letter key its plain letter. */
  lemma CapsAndShiftCancel(m: Mods, ly: Layout, c: Code)
    requires Regular(ly) && !m.ctrl && !(m.altgr && ly.altgr.Some?) && c <= SC_MAX && IsLetter(ly.lower[c])
    ensures Key(m.(caps := true, shift := true), ly, Plain(c)) == Key(m.(caps := false, shift := false), ly, Plain(c))
  {
    assert Pair(ly.lower[c], ly.upper[c]);
  }

  /** With control a key gives nothing or a control character of a letter, and shift and caps lock
      have no say in it. */
  lemma ControlIgnoresShiftAndCaps(m: Mods, ly: Layout, c: Code, shift: bool, caps: bool)
    requires Regular(ly) && m.ctrl
    ensures 0 <= Key(m, ly, Plain(c)) <= 26
    ensures Key(m.(shift := shift, caps := caps), ly, Plain(c)) == Key(m, ly, Plain(c))
  {
    if c <= SC_MAX {
      assert Pair(ly.lower[c], ly.upper[c]);
    }
  }

  // ----- Escape sequences -----

  /** The escape sequence a terminal sends for a named key. */
  function KeyEscape(key: int): Option<string> {
    if key == KEY_UP then Some("\U{1b}[A")
    else if key == KEY_DOWN then Some("\U{1b}[B")
    else if key == KEY_RIGHT then Some("\U{1b}[C")
    else if key == KEY_LEFT then Some("\U{1b}[D")
    else if key == KEY_HOME then Some("\U{1b}[H")
    else if key == KEY_END then Some("\U{1b}[F")
    else None
  }

  /** No two named keys share an escape sequence. */
  lemma EscapesAreDistinct(j: int, k: int)
    requires KeyEscape(j).Some? && KeyEscape(j) == KeyEscape(k)
    ensures j == k
  {
    assert KeyEscape(j).value[2] == KeyEscape(k).value[2];
  }
}
