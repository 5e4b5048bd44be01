/** From the keyboard to a full-screen program: the console server sends a named key as an escape
    sequence (userspace/console_server.c), and the program's decoder turns bytes back into keys
    (userspace/tui.c). */
module TerminalKeys {
  import opened Wrappers
  import opened Ps2
  import opened Keyboard

  const TUI_NONE := 0x100
  const TUI_UP := 0x101
  const TUI_DOWN := 0x102
  const TUI_LEFT := 0x103
  const TUI_RIGHT := 0x104
  const TUI_ENTER := 0x105
  const TUI_ESC := 0x106
  const TUI_BACKSP := 0x107
  const TUI_HOME := 0x108
  const TUI_END := 0x109
  const TUI_TAB := 0x10A

  const ESC := 0x1B
  const BRACKET := 0x5B
  const LETTER_O := 0x4F

  // ----- Sending -----

  predicate IsKey(k: nat) {
    1 <= k <= 0x7F || KEY_UP <= k <= KEY_END
  }

  function FinalLetter(k: nat): nat {
    if k == KEY_UP then 'A' as int
    else if k == KEY_DOWN then 'B' as int
    else if k == KEY_RIGHT then 'C' as int
    else if k == KEY_LEFT then 'D' as int
    else if k == KEY_HOME then 'H' as int
    else 'F' as int
  }

  /** The bytes the console server hands on for a key. */
  function Sent(k: nat): (r: seq<nat>)
    requires IsKey(k)
    ensures r != []
  {
    if k <= 0x7F then [k] else [ESC, BRACKET, FinalLetter(k)]
  }

  /** They are the key's escape sequence, if it has one. */
  lemma SentIsEscape(k: nat)
    requires IsKey(k)
    ensures KeyEscape(k).Some? <==> k > 0x7F
    ensures KeyEscape(k).Some? ==> |KeyEscape(k).value| == |Sent(k)| && forall i :: 0 <= i < |Sent(k)| ==> Sent(k)[i] == KeyEscape(k).value[i] as int
  {
  }

  // ----- Decoding -----

  predicate IsDigit(b: nat) {
    0x30 <= b <= 0x39
  }

  /** The number that starts with `n`, kept in eight bits, and how many digits it took. */
  function Digits(s: seq<nat>, i: nat, n: nat): (nat, nat)
    requires i <= |s|
    decreases |s| - i
  {
    if i < |s| && IsDigit(s[i]) then Digits(s, i + 1, (n * 10 + (s[i] - 0x30)) % 256) else (n, i)
  }

  function Letter(b: nat): Option<nat> {
    if b == 'A' as int then Some(TUI_UP)
    else if b == 'B' as int then Some(TUI_DOWN)
    else if b == 'C' as int then Some(TUI_RIGHT)
    else if b == 'D' as int then Some(TUI_LEFT)
    else if b == 'H' as int then Some(TUI_HOME)
    else if b == 'F' as int then Some(TUI_END)
    else None
  }

  /** A numeric sequence whose first digit is `s[2]`. */
  function Numeric(s: seq<nat>): (nat, nat)
    requires |s| > 2 && IsDigit(s[2])
  {
    var (n, i) := Digits(s, 3, s[2] - 0x30);
    if i < |s| && s[i] == 0x7E then
      (if n == 1 || n == 7 then TUI_HOME else if n == 4 || n == 8 then TUI_END else TUI_ESC, i + 1)
    else (TUI_ESC, i)
  }

  /** The first key of a burst of bytes, and how many of them it takes. */
  function Decoded(s: seq<nat>): (nat, nat)
    requires s != []
  {
    if s[0] == 0x0D || s[0] == 0x0A then (TUI_ENTER, 1)
    else if s[0] == 0x7F || s[0] == 0x08 then (TUI_BACKSP, 1)
    else if s[0] == 0x09 then (TUI_TAB, 1)
    else if s[0] != ESC then (if s[0] < 0x20 then TUI_NONE else s[0], 1)
    else if |s| < 2 || (s[1] != BRACKET && s[1] != LETTER_O) then (TUI_ESC, 1)
    else if |s| < 3 then (TUI_ESC, 2)
    else if Letter(s[2]).Some? then (Letter(s[2]).value, 3)
    else if IsDigit(s[2]) then Numeric(s)
    else (TUI_ESC, 3)
  }

  lemma {:induction false} DigitsStay(s: seq<nat>, i: nat, n: nat)
    requires i <= |s|
    ensures i <= Digits(s, i, n).1 <= |s|
    decreases |s| - i
  {
    if i < |s| && IsDigit(s[i]) {
      DigitsStay(s, i + 1, (n * 10 + (s[i] - 0x30)) % 256);
    }
  }

  lemma DecodedTakesSome(s: seq<nat>)
    requires s != []
    ensures 1 <= Decoded(s).1 <= |s|
  {
    if |s| > 2 && IsDigit(s[2]) {
      DigitsStay(s, 3, s[2] - 0x30);
    }
  }

  lemma {:induction false} DigitsShift(s: seq<nat>, k: nat, i: nat, n: nat)
    requires k + i <= |s|
    ensures Digits(s[k..], i, n) == var (v, e) := Digits(s, k + i, n); (v, e - k)
    ensures Digits(s, k + i, n).1 >= k + i
    decreases |s| - i
  {
    if k + i < |s| && IsDigit(s[k + i]) {
      DigitsShift(s, k, i + 1, (n * 10 + (s[k + i] - 0x30)) % 256);
    }
  }

  /** The burst being read. */
  class Burst {
    var kbuf: seq<nat>
    var kpos: nat

    constructor ()
      ensures kbuf == [] && kpos == 0
    {
      kbuf, kpos := [], 0;
    }

    /** One key. `refill` is what a read returns when the burst is used up, nothing if it fails. */
    method GetKey(refill: seq<nat>) returns (k: nat)
      requires kpos <= |kbuf|
      modifies this
      ensures kpos <= |kbuf|
      ensures var pending := if old(kpos) < |old(kbuf)| then old(kbuf)[old(kpos)..] else refill;
              if pending == [] then k == TUI_NONE && kbuf[kpos..] == []
              else k == Decoded(pending).0 && Decoded(pending).1 <= |pending| && kbuf[kpos..] == pending[Decoded(pending).1..]
    {
      if kpos >= |kbuf| {
        if refill == [] { return TUI_NONE; }
        kbuf, kpos := refill, 0;
      }
      ghost var at, s := kpos, kbuf[kpos..];
      var b := kbuf[kpos];
      kpos := kpos + 1;
      if b == 0x0D || b == 0x0A { return TUI_ENTER; }
      if b == 0x7F || b == 0x08 { return TUI_BACKSP; }
      if b == 0x09 { return TUI_TAB; }
      if b != ESC {
        if b < 0x20 { return TUI_NONE; }
        return b;
      }
      if kpos >= |kbuf| { return TUI_ESC; }
      var c1 := kbuf[kpos];
      if c1 != BRACKET && c1 != LETTER_O { return TUI_ESC; }
      kpos := kpos + 1;
      if kpos >= |kbuf| { return TUI_ESC; }
      var c2 := kbuf[kpos];
      kpos := kpos + 1;
      assert s[0] == b && s[1] == c1 && s[2] == c2;
      if Letter(c2).Some? { return Letter(c2).value; }
      if IsDigit(c2) {
        DecodedTakesSome(s);
        k := Number(at, c2 - 0x30);
        return;
      }
      return TUI_ESC;
    }

    /** The rest of a numeric sequence that starts at `at`. */
    method Number(ghost at: nat, first: nat) returns (k: nat)
      requires kpos == at + 3 <= |kbuf| && IsDigit(kbuf[at + 2]) && first == kbuf[at + 2] - 0x30
      modifies this`kpos
      ensures kpos <= |kbuf|
      ensures (k, kpos - at) == Numeric(kbuf[at..])
    {
      hide Letter;
      ghost var s := kbuf[at..];
      var n := first;
      DigitsShift(kbuf, at, 3, n);
      while kpos < |kbuf| && IsDigit(kbuf[kpos])
        invariant at + 3 <= kpos <= |kbuf|
        invariant Digits(kbuf, kpos, n) == Digits(kbuf, at + 3, first)
      {
        n := (n * 10 + (kbuf[kpos] - 0x30)) % 256;
        kpos := kpos + 1;
      }
      if kpos < |kbuf| && kbuf[kpos] == 0x7E {
        kpos := kpos + 1;
        if n == 1 || n == 7 { return TUI_HOME; }
        if n == 4 || n == 8 { return TUI_END; }
      }
      return TUI_ESC;
    }
  }

  // ----- The round trip -----

  /** What a full-screen program should see for a key. */
  function Seen(k: nat): nat {
    if k == KEY_UP then TUI_UP
    else if k == KEY_DOWN then TUI_DOWN
    else if k == KEY_RIGHT then TUI_RIGHT
    else if k == KEY_LEFT then TUI_LEFT
    else if k == KEY_HOME then TUI_HOME
    else if k == KEY_END then TUI_END
    else if k == 0x0D || k == 0x0A then TUI_ENTER
    else if k == 0x7F || k == 0x08 then TUI_BACKSP
    else if k == 0x09 then TUI_TAB
    else if k == ESC then TUI_ESC
    else if k < 0x20 then TUI_NONE
    else k
  }

  /** The Escape key with a bracket or an O right behind it looks like a sequence. */
  predicate LooksLikeSequence(k: nat, rest: seq<nat>) {
    k == ESC && rest != [] && (rest[0] == BRACKET || rest[0] == LETTER_O)
  }

  /** ONE KEY COMES BACK, and takes its own bytes and no more, whatever follows in the burst,
      except exactly when it is the Escape key and what follows makes it look like a sequence. */
  lemma KeyComesBack(k: nat, rest: seq<nat>)
    requires IsKey(k)
    ensures Decoded(Sent(k) + rest) == (Seen(k), |Sent(k)|) <==> !LooksLikeSequence(k, rest)
  {
    hide Numeric;
    var s := Sent(k) + rest;
    DecodedTakesSome(s);
    if k <= 0x7F {
      assert s[0] == k;
      if rest != [] { assert s[1] == rest[0]; }
      if LooksLikeSequence(k, rest) {
        SequenceTakesMore(s);
      }
    } else {
      assert s[0] == ESC && s[1] == BRACKET && s[2] == FinalLetter(k);
    }
  }

  lemma SequenceTakesMore(s: seq<nat>)
    requires |s| > 1 && s[0] == ESC && (s[1] == BRACKET || s[1] == LETTER_O)
    ensures Decoded(s).1 >= 2
  {
    if |s| > 2 && IsDigit(s[2]) {
      DigitsStay(s, 3, s[2] - 0x30);
    }
  }

  function SentAll(keys: seq<nat>): seq<nat>
    requires forall i :: 0 <= i < |keys| ==> IsKey(keys[i])
  {
    if keys == [] then [] else Sent(keys[0]) + SentAll(keys[1..])
  }

  function DecodedAll(s: seq<nat>): seq<nat>
    decreases |s|
  {
    if s == [] then []
    else
      DecodedTakesSome(s);
      [Decoded(s).0] + DecodedAll(s[Decoded(s).1..])
  }

  /** No Escape is directly followed by a bracket or an O. */
  predicate NoLookalike(keys: seq<nat>) {
    forall i :: 0 <= i < |keys| - 1 && keys[i] == ESC ==> keys[i + 1] != BRACKET && keys[i + 1] != LETTER_O
  }

  lemma SentAllStart(keys: seq<nat>)
    requires forall i :: 0 <= i < |keys| ==> IsKey(keys[i])
    ensures keys == [] <==> SentAll(keys) == []
    ensures keys != [] ==> SentAll(keys)[0] == if keys[0] <= 0x7F then keys[0] else ESC
  {
  }

  /** What the program should read for a burst of keys. */
  function SeenAll(keys: seq<nat>): seq<nat> {
    seq(|keys|, i requires 0 <= i < |keys| => Seen(keys[i]))
  }

  lemma {:induction false} WithoutLookalike(keys: seq<nat>)
    requires (forall i :: 0 <= i < |keys| ==> IsKey(keys[i])) && NoLookalike(keys)
    ensures DecodedAll(SentAll(keys)) == SeenAll(keys)
  {
    hide Decoded, Sent, Seen;
    if keys != [] {
      var rest := SentAll(keys[1..]);
      var s := SentAll(keys);
      SentAllStart(keys[1..]);
      if |keys| > 1 { assert keys[1..][0] == keys[1]; }
      KeyComesBack(keys[0], rest);
      assert s[|Sent(keys[0])|..] == rest;
      assert NoLookalike(keys[1..]) by {
        assert forall i :: 0 <= i < |keys| - 1 ==> keys[1..][i] == keys[i + 1];
      }
      WithoutLookalike(keys[1..]);
      assert s != [];
      DecodedTakesSome(s);
    }
  }

  // ----- And only then -----

  predicate AreBytes(s: seq<nat>) {
    forall i :: 0 <= i < |s| ==> s[i] <= 0xFF
  }

  /** Whatever the bytes, reading a key takes as many of them as sending it does. */
  lemma TakesItsOwn(s: seq<nat>, k: nat)
    requires s != [] && AreBytes(s) && IsKey(k) && Decoded(s).0 == Seen(k)
    ensures Decoded(s).1 >= |Sent(k)|
  {
    DecodedTakesSome(s);
    if k > 0x7F && s[0] == ESC && |s| > 2 && IsDigit(s[2]) {
      DigitsStay(s, 3, s[2] - 0x30);
    }
  }

  lemma {:induction false} SentAllBytes(keys: seq<nat>)
    requires forall i :: 0 <= i < |keys| ==> IsKey(keys[i])
    ensures AreBytes(SentAll(keys))
  {
    if keys != [] {
      SentAllBytes(keys[1..]);
    }
  }

  lemma SeenAllTail(keys: seq<nat>)
    requires keys != []
    ensures SeenAll(keys)[0] == Seen(keys[0]) && SeenAll(keys)[1..] == SeenAll(keys[1..])
  {
  }

  lemma {:induction false} TakeTheirOwn(s: seq<nat>, keys: seq<nat>)
    requires AreBytes(s) && (forall i :: 0 <= i < |keys| ==> IsKey(keys[i])) && DecodedAll(s) == SeenAll(keys)
    ensures |s| >= |SentAll(keys)|
    decreases |keys|
  {
    hide Decoded, Sent, Seen;
    if keys != [] {
      SeenAllTail(keys);
      assert s != [];
      DecodedTakesSome(s);
      TakesItsOwn(s, keys[0]);
      var later := s[Decoded(s).1..];
      assert DecodedAll(s)[1..] == DecodedAll(later);
      TakeTheirOwn(later, keys[1..]);
    }
  }

  lemma {:induction false} OnlyWithoutLookalike(keys: seq<nat>)
    requires (forall i :: 0 <= i < |keys| ==> IsKey(keys[i])) && DecodedAll(SentAll(keys)) == SeenAll(keys)
    ensures NoLookalike(keys)
    decreases |keys|
  {
    hide Decoded, Sent, Seen;
    if keys != [] {
      var s, rest := SentAll(keys), SentAll(keys[1..]);
      SeenAllTail(keys);
      assert s != [];
      DecodedTakesSome(s);
      SentAllBytes(keys);
      TakesItsOwn(s, keys[0]);
      var later := s[Decoded(s).1..];
      assert DecodedAll(s)[1..] == DecodedAll(later);
      TakeTheirOwn(later, keys[1..]);
      assert Decoded(s).1 == |Sent(keys[0])| && later == rest;
      KeyComesBack(keys[0], rest);
      OnlyWithoutLookalike(keys[1..]);
      SentAllStart(keys[1..]);
      forall i | 0 <= i < |keys| - 1 && keys[i] == ESC
        ensures keys[i + 1] != BRACKET && keys[i + 1] != LETTER_O
      {
        if i > 0 {
          assert keys[1..][i - 1] == keys[i] && keys[1..][i - 1 + 1] == keys[i + 1];
        } else {
          assert keys[1..][0] == keys[1];
        }
      }
    }
  }

  /** A WHOLE BURST COMES BACK: the keys typed, named and plain, are the keys the program reads, if
      and only if no Escape is directly followed by a bracket or an O. */
  lemma KeysComeBack(keys: seq<nat>)
    requires forall i :: 0 <= i < |keys| ==> IsKey(keys[i])
    ensures DecodedAll(SentAll(keys)) == SeenAll(keys) <==> NoLookalike(keys)
  {
    hide DecodedAll, SentAll, SeenAll, NoLookalike;
    if NoLookalike(keys) {
      WithoutLookalike(keys);
    }
    if DecodedAll(SentAll(keys)) == SeenAll(keys) {
      OnlyWithoutLookalike(keys);
    }
  }
}
