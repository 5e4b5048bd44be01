/** One line saying why a task died (include/exit_reason.h), and that nothing printed in it is
    lost. */
module ExitReason {
  import opened Wrappers

  const U32 := 0x1_0000_0000
  const U64 := 0x1_0000_0000_0000_0000

  /** The fields of a death record that a line can show. */
  datatype ExitInfo = ExitInfo(reason: int, detail: nat, err: nat, rip: nat, addr: nat)

  predicate InRange(e: ExitInfo) {
    -0x8000_0000 <= e.reason < 0x8000_0000 && e.detail < U32 && e.err < U32 && e.rip < U64 && e.addr < U64
  }

  // ----- Numbers -----

  function Digit(d: nat): char
    requires d < 16
  {
    if d < 10 then '0' + d as char else 'a' + (d - 10) as char
  }

  /** `v` in base `b`, without leading zeros. */
  function Digits(v: nat, b: nat): (s: string)
    requires 2 <= b <= 16
    ensures s != ""
  {
    if v < b then [Digit(v)] else Digits(v / b, b) + [Digit(v % b)]
  }

  function Power(b: nat, k: nat): nat {
    if k == 0 then 1 else b * Power(b, k - 1)
  }

  lemma Quotient(v: nat, b: nat, p: nat)
    requires b > 0 && v < b * p
    ensures v / b < p
  {
    if p <= v / b {
      Monotone(b, p, v / b);
    }
  }

  lemma Monotone(b: nat, x: nat, y: nat)
    requires x <= y
    ensures b * x <= b * y
  {
  }

  lemma {:induction false} DigitsFit(v: nat, b: nat, k: nat)
    requires 2 <= b <= 16 && k > 0 && v < Power(b, k)
    ensures |Digits(v, b)| <= k
    decreases k
  {
    assert Power(b, 1) == b * Power(b, 0) == b;
    if v >= b {
      Quotient(v, b, Power(b, k - 1));
      DigitsFit(v / b, b, k - 1);
    }
  }

  lemma PowerStep(b: nat, k: nat, p: nat)
    requires Power(b, k) == p
    ensures Power(b, k + 1) == b * p
  {
  }

  lemma TenTo20()
    ensures Power(10, 10) == 10_000_000_000 && Power(10, 20) == 100_000_000_000_000_000_000
  {
    assert Power(10, 0) == 1;
    PowerStep(10, 0, 1); PowerStep(10, 1, 10); PowerStep(10, 2, 100); PowerStep(10, 3, 1000); PowerStep(10, 4, 10_000);
    PowerStep(10, 5, 100_000); PowerStep(10, 6, 1_000_000); PowerStep(10, 7, 10_000_000); PowerStep(10, 8, 100_000_000);
    PowerStep(10, 9, 1_000_000_000);
    PowerStep(10, 10, 10_000_000_000); PowerStep(10, 11, 100_000_000_000); PowerStep(10, 12, 1_000_000_000_000);
    PowerStep(10, 13, 10_000_000_000_000); PowerStep(10, 14, 100_000_000_000_000); PowerStep(10, 15, 1_000_000_000_000_000);
    PowerStep(10, 16, 10_000_000_000_000_000); PowerStep(10, 17, 100_000_000_000_000_000);
    PowerStep(10, 18, 1_000_000_000_000_000_000); PowerStep(10, 19, 10_000_000_000_000_000_000);
  }

  lemma SixteenTo16()
    ensures Power(16, 8) == U32 && Power(16, 16) == U64
  {
    assert Power(16, 0) == 1;
    PowerStep(16, 0, 1); PowerStep(16, 1, 0x10); PowerStep(16, 2, 0x100); PowerStep(16, 3, 0x1000); PowerStep(16, 4, 0x1_0000);
    PowerStep(16, 5, 0x10_0000); PowerStep(16, 6, 0x100_0000); PowerStep(16, 7, 0x1000_0000);
    PowerStep(16, 8, 0x1_0000_0000); PowerStep(16, 9, 0x10_0000_0000); PowerStep(16, 10, 0x100_0000_0000);
    PowerStep(16, 11, 0x1000_0000_0000); PowerStep(16, 12, 0x1_0000_0000_0000); PowerStep(16, 13, 0x10_0000_0000_0000);
    PowerStep(16, 14, 0x100_0000_0000_0000); PowerStep(16, 15, 0x1000_0000_0000_0000);
  }

  /** How long the numbers of a record can be. */
  lemma NumberLengths(v: nat)
    ensures v < U64 ==> |Digits(v, 10)| <= 20 && |Digits(v, 16)| <= 16
    ensures v < U32 ==> |Digits(v, 10)| <= 10 && |Digits(v, 16)| <= 8
  {
    hide Digits, Power;
    TenTo20();
    SixteenTo16();
    if v < U64 {
      DigitsFit(v, 10, 20);
      DigitsFit(v, 16, 16);
    }
    if v < U32 {
      DigitsFit(v, 10, 10);
      DigitsFit(v, 16, 8);
    }
  }

  // ----- Writing into a buffer -----

  function Reversed(s: string): (r: string)
    ensures |r| == |s|
  {
    if s == "" then "" else Reversed(s[1..]) + [s[0]]
  }

  lemma {:induction false} ReversedSnoc(s: string, c: char)
    ensures Reversed(s + [c]) == [c] + Reversed(s)
  {
    if s == "" {
      assert "" + [c] == [c];
    } else {
      assert (s + [c])[1..] == s[1..] + [c];
      ReversedSnoc(s[1..], c);
    }
  }

  /** The digits of what is left of a number; none when nothing is. */
  function Front(v: nat, b: nat): string
    requires 2 <= b <= 16
  {
    if v == 0 then "" else Digits(v, b)
  }

  lemma FrontStep(v: nat, b: nat)
    requires (b == 10 || b == 16) && v > 0
    ensures Front(v, b) == Front(v / b, b) + [Digit(v % b)] && |Front(v, b)| > 0
  {
    if v < b {
      assert v / b == 0 && v % b == v;
    } else {
      Quotient(v, b, v);
    }
  }

  /** The digits of `v0`, last first, in 24 bytes of scratch. */
  method CollectDigits(v0: nat, base: nat) returns (tmp: array<char>, n: nat)
    requires (base == 10 || base == 16) && v0 < U64
    ensures fresh(tmp) && n <= tmp.Length == 24 && Reversed(tmp[..n]) == Digits(v0, base)
  {
    hide Digits, Reversed;
    tmp := new char[24];
    n := 0;
    var v := v0;
    ghost var digits := Digits(v0, base);
    NumberLengths(v0);
    ZeroDigit(base);
    assert tmp[..0] == "";
    if v == 0 {
      tmp[n] := '0';
      n := n + 1;
      assert tmp[..1] == "0";
    }
    while v != 0
      invariant 0 <= n <= |digits| <= 20 && v >= 0
      invariant digits == Front(v, base) + Reversed(tmp[..n])
      decreases v
    {
      FrontStep(v, base);
      var d := v % base;
      ghost var had := tmp[..n];
      tmp[n] := if d < 10 then '0' + d as char else 'a' + (d - 10) as char;
      assert tmp[..n + 1] == had + [Digit(d)];
      ReversedSnoc(had, Digit(d));
      OneDigitMore(Front(v / base, base), Digit(d), Reversed(had));
      n := n + 1;
      Quotient(v, base, v);
      v := v / base;
    }
  }

  lemma OneDigitMore(a: string, c: char, b: string)
    ensures (a + [c]) + b == a + ([c] + b)
  {
  }

  /** Append `v` in base 10 or 16. */
  method AppendNum(buf: array<char>, pos: nat, v: nat, base: nat) returns (end: nat)
    requires (base == 10 || base == 16) && v < U64 && pos + |Digits(v, base)| < buf.Length
    modifies buf
    ensures end == pos + |Digits(v, base)| && buf[end] == '\0'
    ensures buf[..end] == old(buf[..pos]) + Digits(v, base)
  {
    hide Digits, Reversed;
    var tmp, n := CollectDigits(v, base);
    end := CopyBackwards(buf, pos, tmp, n);
  }

  lemma ZeroDigit(b: nat)
    requires 2 <= b <= 16
    ensures Digits(0, b) == "0" && Reversed("0") == "0" && Reversed("") == ""
  {
    assert "0"[1..] == "";
  }

  /** Copy the first `n` characters of `tmp` in reverse order. */
  method CopyBackwards(buf: array<char>, pos: nat, tmp: array<char>, n0: nat) returns (end: nat)
    requires n0 <= tmp.Length && pos + n0 < buf.Length && buf != tmp
    modifies buf
    ensures end == pos + n0 && buf[end] == '\0' && buf[..end] == old(buf[..pos]) + Reversed(tmp[..n0])
  {
    var n := n0;
    end := pos;
    assert tmp[n0..n0] == "";
    while n > 0
      invariant 0 <= n <= n0 && end == pos + n0 - n
      invariant buf[..end] == old(buf[..pos]) + Reversed(tmp[n..n0])
      decreases n
    {
      n := n - 1;
      assert tmp[n..n0][1..] == tmp[n + 1..n0];
      buf[end] := tmp[n];
      end := end + 1;
    }
    buf[end] := '\0';
    assert tmp[0..n0] == tmp[..n0];
  }

  method AppendStr(buf: array<char>, pos: nat, s: string) returns (end: nat)
    requires pos + |s| < buf.Length
    modifies buf
    ensures end == pos + |s| && buf[end] == '\0' && buf[..end] == old(buf[..pos]) + s
  {
    end := pos;
    var i := 0;
    while i < |s|
      invariant 0 <= i <= |s| && end == pos + i
      invariant buf[..end] == old(buf[..pos]) + s[..i]
    {
      buf[end] := s[i];
      i, end := i + 1, end + 1;
    }
    assert s[..i] == s;
    buf[end] := '\0';
  }

  // ----- The line -----

  const NORMAL := "normal exit"
  const KILLED := "killed by task "
  const SIGNAL := "uncaught signal "
  const FAULT := "faulted, trap vector "
  const AT_RIP := " at rip=0x"
  const PAGEFAULT := "faulted on memory access at addr=0x"
  const RIP := " rip=0x"
  const ERR := " err=0x"
  const OTHER := "reason not recorded (code "
  const CLOSE := ")"

  /** A reason code as the unsigned number that is printed. */
  function Unsigned(reason: int): nat
    requires -0x8000_0000 <= reason < 0x8000_0000
  {
    if reason < 0 then reason + U32 else reason
  }

  /** What a record has to say: its reason, and the fields that go with it. */
  datatype Cause =
    | Normal
    | Killed(task: nat)
    | Signal(signum: nat)
    | Fault(vector: nat, rip: nat)
    | PageFault(addr: nat, rip: nat, err: nat)
    | Unrecorded(code: nat)

  function CauseOf(e: ExitInfo): Cause
    requires InRange(e)
  {
    if e.reason == 1 then Normal
    else if e.reason == 2 then Killed(e.detail)
    else if e.reason == 3 then Signal(e.detail)
    else if e.reason == 4 then Fault(e.detail, e.rip)
    else if e.reason == 5 then PageFault(e.addr, e.rip, e.err)
    else Unrecorded(Unsigned(e.reason))
  }

  function Text(c: Cause): string {
    match c
    case Normal => NORMAL
    case Killed(t) => KILLED + Digits(t, 10)
    case Signal(n) => SIGNAL + Digits(n, 10)
    case Fault(v, rip) => FAULT + Digits(v, 10) + AT_RIP + Digits(rip, 16)
    case PageFault(addr, rip, err) => PAGEFAULT + Digits(addr, 16) + RIP + Digits(rip, 16) + ERR + Digits(err, 16)
    case Unrecorded(code) => OTHER + Digits(code, 10) + CLOSE
  }

  /** A line with its NUL is at most 90 bytes. */
  lemma TextFits(e: ExitInfo)
    requires InRange(e)
    ensures |Text(CauseOf(e))| < 90
  {
    hide Digits;
    NumberLengths(e.detail);
    NumberLengths(e.err);
    NumberLengths(e.rip);
    NumberLengths(e.addr);
    NumberLengths(Unsigned(e.reason));
  }

  method FormatFault(buf: array<char>, v: nat, rip: nat) returns (p: nat)
    requires buf.Length >= 160 && v < U32 && rip < U64
    modifies buf
    ensures p < buf.Length && buf[..p] == Text(Fault(v, rip)) && buf[p] == '\0'
  {
    hide Digits, FAULT, AT_RIP;
    Labels();
    NumberLengths(v);
    NumberLengths(rip);
    p := AppendStr(buf, 0, FAULT);
    p := AppendNum(buf, p, v, 10);
    p := AppendStr(buf, p, AT_RIP);
    p := AppendNum(buf, p, rip, 16);
  }

  method FormatPageFault(buf: array<char>, addr: nat, rip: nat, err: nat) returns (p: nat)
    requires buf.Length >= 160 && addr < U64 && rip < U64 && err < U32
    modifies buf
    ensures p < buf.Length && buf[..p] == Text(PageFault(addr, rip, err)) && buf[p] == '\0'
  {
    hide Digits, PAGEFAULT, RIP, ERR;
    Labels();
    NumberLengths(addr);
    NumberLengths(rip);
    NumberLengths(err);
    p := AppendBoth(buf, 0, PAGEFAULT, addr, 16);
    p := AppendBoth(buf, p, RIP, rip, 16);
    p := AppendBoth(buf, p, ERR, err, 16);
    assert buf[..p] == ([] + (PAGEFAULT + Digits(addr, 16))) + (RIP + Digits(rip, 16)) + (ERR + Digits(err, 16));
    Regroup(PAGEFAULT, Digits(addr, 16), RIP, Digits(rip, 16), ERR, Digits(err, 16));
  }

  lemma Regroup(a: string, b: string, c: string, d: string, e: string, f: string)
    ensures ([] + (a + b)) + (c + d) + (e + f) == a + b + c + d + e + f
  {
  }

  /** A label and a number. */
  method AppendBoth(buf: array<char>, pos: nat, s: string, v: nat, base: nat) returns (end: nat)
    requires (base == 10 || base == 16) && v < U64 && pos + |s| + |Digits(v, base)| < buf.Length
    modifies buf
    ensures end == pos + |s| + |Digits(v, base)| && buf[end] == '\0' && buf[..end] == old(buf[..pos]) + (s + Digits(v, base))
  {
    hide Digits;
    end := AppendStr(buf, pos, s);
    end := AppendNum(buf, end, v, base);
    assert old(buf[..pos]) + s + Digits(v, base) == old(buf[..pos]) + (s + Digits(v, base));
  }

  /** The labels' lengths, and the characters that tell them apart. */
  lemma Labels()
    ensures |NORMAL| == 11 && |KILLED| == 15 && |SIGNAL| == 16 && |FAULT| == 21 && |AT_RIP| == 10
    ensures |PAGEFAULT| == 35 && |RIP| == 7 && |ERR| == 7 && |OTHER| == 26 && |CLOSE| == 1
    ensures NORMAL[0] == 'n' && KILLED[0] == 'k' && SIGNAL[0] == 'u' && FAULT[0] == 'f' && FAULT[7] == ','
    ensures PAGEFAULT[0] == 'f' && PAGEFAULT[7] == ' ' && OTHER[0] == 'r'
    ensures AT_RIP[0] == ' ' && RIP[0] == ' ' && ERR[0] == ' ' && CLOSE[0] == ')'
  {
  }

  /** The line for a record, in a buffer of 160 bytes, of which it uses at most 90. */
  method FormatExitReason(buf: array<char>, e: ExitInfo) returns (p: nat)
    requires buf.Length >= 160 && InRange(e)
    modifies buf
    ensures p < 90 && buf[..p] == Text(CauseOf(e)) && buf[p] == '\0'
  {
    hide Digits, NORMAL, KILLED, SIGNAL, FAULT, AT_RIP, PAGEFAULT, RIP, ERR, OTHER, CLOSE;
    Labels();
    p := 0;
    buf[0] := '\0';
    TextFits(e);
    NumberLengths(e.detail);
    assert buf[..0] == "";
    match e.reason {
      case 1 =>
        p := AppendStr(buf, p, NORMAL);
      case 2 =>
        p := AppendStr(buf, p, KILLED);
        p := AppendNum(buf, p, e.detail, 10);
      case 3 =>
        p := AppendStr(buf, p, SIGNAL);
        p := AppendNum(buf, p, e.detail, 10);
      case 4 =>
        p := FormatFault(buf, e.detail, e.rip);
      case 5 =>
        p := FormatPageFault(buf, e.addr, e.rip, e.err);
      case _ =>
        NumberLengths(Unsigned(e.reason));
        p := AppendStr(buf, p, OTHER);
        p := AppendNum(buf, p, Unsigned(e.reason), 10);
        p := AppendStr(buf, p, CLOSE);
    }
  }

  // ----- Reading the line back -----

  predicate IsDigit(c: char, b: nat) {
    '0' <= c <= '9' || (b == 16 && 'a' <= c <= 'f')
  }

  function DigitValue(c: char): nat
    requires IsDigit(c, 16)
  {
    if c <= '9' then c as int - '0' as int else c as int - 'a' as int + 10
  }

  /** The number at the front of `s`, after `acc`, and what follows it. */
  function ReadNumber(s: string, b: nat, acc: nat): (nat, string) {
    if s != "" && IsDigit(s[0], b) then ReadNumber(s[1..], b, acc * b + DigitValue(s[0])) else (acc, s)
  }

  lemma DigitReads(d: nat, b: nat)
    requires (b == 10 || b == 16) && d < b
    ensures IsDigit(Digit(d), b) && DigitValue(Digit(d)) == d
  {
  }

  lemma {:induction false} NumberReads(v: nat, b: nat, rest: string)
    requires b == 10 || b == 16
    ensures ReadNumber(Digits(v, b) + rest, b, 0) == ReadNumber(rest, b, v)
    decreases v
  {
    hide IsDigit, DigitValue, Digit;
    DigitReads(v % b, b);
    if v < b {
      assert ([Digit(v)] + rest)[1..] == rest;
    } else {
      Quotient(v, b, v);
      var d := [Digit(v % b)];
      assert Digits(v, b) + rest == Digits(v / b, b) + (d + rest);
      NumberReads(v / b, b, d + rest);
      assert (d + rest)[1..] == rest;
    }
  }

  /** A number read up to something that is not a digit. */
  lemma NumberStops(v: nat, b: nat, rest: string)
    requires (b == 10 || b == 16) && (rest != "" ==> !IsDigit(rest[0], b))
    ensures ReadNumber(Digits(v, b) + rest, b, 0) == (v, rest)
  {
    hide Digits, IsDigit;
    NumberReads(v, b, rest);
  }

  function Drop(s: string, prefix: string): Option<string> {
    if prefix <= s then Some(s[|prefix|..]) else None
  }

  lemma DropGives(prefix: string, rest: string)
    ensures Drop(prefix + rest, prefix) == Some(rest)
  {
  }

  function ParseOne(rest: string, b: nat): Option<nat> {
    var (v, tail) := ReadNumber(rest, b, 0);
    if tail == "" then Some(v) else None
  }

  /** A number, then `sep`: the number and what follows the separator. */
  function ParseThen(rest: string, b: nat, sep: string): Option<(nat, string)> {
    var (v, tail) := ReadNumber(rest, b, 0);
    var after := Drop(tail, sep);
    if after.Some? then Some((v, after.value)) else None
  }

  function ParseFault(rest: string): Option<Cause> {
    match ParseThen(rest, 10, AT_RIP)
    case None => None
    case Some((v, tail)) =>
      match ParseOne(tail, 16)
      case None => None
      case Some(rip) => Some(Fault(v, rip))
  }

  function ParsePageFault(rest: string): Option<Cause> {
    match ParseThen(rest, 16, RIP)
    case None => None
    case Some((addr, tail)) =>
      match ParseThen(tail, 16, ERR)
      case None => None
      case Some((rip, last)) =>
        match ParseOne(last, 16)
        case None => None
        case Some(err) => Some(PageFault(addr, rip, err))
  }

  /** The cause a line states. */
  function Parse(s: string): Option<Cause> {
    if s == NORMAL then Some(Normal)
    else if Drop(s, KILLED).Some? then
      var n := ParseOne(Drop(s, KILLED).value, 10);
      if n.Some? then Some(Killed(n.value)) else None
    else if Drop(s, SIGNAL).Some? then
      var n := ParseOne(Drop(s, SIGNAL).value, 10);
      if n.Some? then Some(Signal(n.value)) else None
    else if Drop(s, FAULT).Some? then ParseFault(Drop(s, FAULT).value)
    else if Drop(s, PAGEFAULT).Some? then ParsePageFault(Drop(s, PAGEFAULT).value)
    else if Drop(s, OTHER).Some? then
      var n := ParseThen(Drop(s, OTHER).value, 10, CLOSE);
      if n.Some? && n.value.1 == "" then Some(Unrecorded(n.value.0)) else None
    else None
  }

  lemma OneParses(v: nat, b: nat)
    requires b == 10 || b == 16
    ensures ParseOne(Digits(v, b), b) == Some(v)
  {
    hide Digits;
    NumberStops(v, b, "");
    assert Digits(v, b) + "" == Digits(v, b);
  }

  lemma ThenParses(v: nat, b: nat, sep: string, rest: string)
    requires (b == 10 || b == 16) && sep != "" && !IsDigit(sep[0], b)
    ensures ParseThen(Digits(v, b) + (sep + rest), b, sep) == Some((v, rest))
  {
    hide Digits;
    NumberStops(v, b, sep + rest);
    DropGives(sep, rest);
  }

  lemma FaultParses(v: nat, rip: nat)
    ensures ParseFault(Digits(v, 10) + AT_RIP + Digits(rip, 16)) == Some(Fault(v, rip))
  {
    hide Digits, ParseOne, ParseThen, AT_RIP;
    Labels();
    assert Digits(v, 10) + AT_RIP + Digits(rip, 16) == Digits(v, 10) + (AT_RIP + Digits(rip, 16));
    ThenParses(v, 10, AT_RIP, Digits(rip, 16));
    OneParses(rip, 16);
  }

  lemma Regroup5(a: string, b: string, c: string, d: string, e: string)
    ensures a + b + c + d + e == a + (b + (c + (d + e)))
  {
    assert a + b + c + d + e == a + (b + c + d + e);
    assert b + c + d + e == b + (c + d + e);
    assert c + d + e == c + (d + e);
  }

  lemma PageFaultParses(addr: nat, rip: nat, err: nat)
    ensures ParsePageFault(Digits(addr, 16) + RIP + Digits(rip, 16) + ERR + Digits(err, 16)) == Some(PageFault(addr, rip, err))
  {
    hide Digits, ParseOne, ParseThen, RIP, ERR;
    Labels();
    var last := Digits(err, 16);
    var tail := Digits(rip, 16) + (ERR + last);
    Regroup5(Digits(addr, 16), RIP, Digits(rip, 16), ERR, last);
    ThenParses(addr, 16, RIP, tail);
    ThenParses(rip, 16, ERR, last);
    OneParses(err, 16);
  }

  lemma OtherParses(code: nat)
    ensures ParseThen(Digits(code, 10) + CLOSE, 10, CLOSE) == Some((code, ""))
  {
    hide Digits, ParseThen;
    assert CLOSE + "" == CLOSE;
    ThenParses(code, 10, CLOSE, "");
  }

  /** `s` starts with the prefix that has `c` first, so with no prefix that starts otherwise. */
  lemma OnlyPrefix(prefix: string, rest: string, other: string, i: nat)
    requires i < |prefix| && i < |other| && prefix[i] != other[i]
    ensures Drop(prefix + rest, other) == None
  {
    assert (prefix + rest)[i] == prefix[i];
  }

  /** NOTHING PRINTED IS LOST: the reason and every field in a line can be read back from it. */
  lemma TextParses(c: Cause)
    ensures Parse(Text(c)) == Some(c)
  {
    hide Digits, ParseOne, ParseThen, ParseFault, ParsePageFault, Drop, NORMAL, KILLED, SIGNAL, FAULT, PAGEFAULT, OTHER, CLOSE, AT_RIP, RIP, ERR;
    Labels();
    match c
    case Normal =>
    case Killed(t) =>
      ParseKilled(t);
    case Signal(n) =>
      ParseSignal(n);
    case Fault(v, rip) =>
      ParseFaultLine(v, rip);
    case PageFault(addr, rip, err) =>
      ParsePageFaultLine(addr, rip, err);
    case Unrecorded(code) =>
      ParseOther(code);
  }

  lemma NotNormal(prefix: string, rest: string)
    requires prefix != "" && prefix[0] != 'n'
    ensures prefix + rest != NORMAL
  {
    assert (prefix + rest)[0] == prefix[0] && NORMAL[0] == 'n';
  }

  lemma ParseKilled(t: nat)
    ensures Parse(KILLED + Digits(t, 10)) == Some(Killed(t))
  {
    hide Digits, ParseOne, ParseThen, ParseFault, ParsePageFault, Drop, NORMAL, KILLED, SIGNAL, FAULT, PAGEFAULT, OTHER;
    Labels();
    NotNormal(KILLED, Digits(t, 10));
    DropGives(KILLED, Digits(t, 10));
    OneParses(t, 10);
  }

  lemma ParseSignal(n: nat)
    ensures Parse(SIGNAL + Digits(n, 10)) == Some(Signal(n))
  {
    hide Digits, ParseOne, ParseThen, ParseFault, ParsePageFault, Drop, NORMAL, KILLED, SIGNAL, FAULT, PAGEFAULT, OTHER;
    Labels();
    NotNormal(SIGNAL, Digits(n, 10));
    OnlyPrefix(SIGNAL, Digits(n, 10), KILLED, 0);
    DropGives(SIGNAL, Digits(n, 10));
    OneParses(n, 10);
  }

  lemma ParseFaultLine(v: nat, rip: nat)
    ensures Parse(FAULT + Digits(v, 10) + AT_RIP + Digits(rip, 16)) == Some(Fault(v, rip))
  {
    hide Digits, ParseOne, ParseThen, ParseFault, ParsePageFault, Drop, NORMAL, KILLED, SIGNAL, FAULT, PAGEFAULT, OTHER, AT_RIP;
    Labels();
    var rest := Digits(v, 10) + AT_RIP + Digits(rip, 16);
    assert FAULT + Digits(v, 10) + AT_RIP + Digits(rip, 16) == FAULT + rest;
    NotNormal(FAULT, rest);
    OnlyPrefix(FAULT, rest, KILLED, 0);
    OnlyPrefix(FAULT, rest, SIGNAL, 0);
    DropGives(FAULT, rest);
    FaultParses(v, rip);
  }

  lemma ParsePageFaultLine(addr: nat, rip: nat, err: nat)
    ensures Parse(PAGEFAULT + Digits(addr, 16) + RIP + Digits(rip, 16) + ERR + Digits(err, 16)) == Some(PageFault(addr, rip, err))
  {
    hide Digits, ParseOne, ParseThen, ParseFault, ParsePageFault, Drop, NORMAL, KILLED, SIGNAL, FAULT, PAGEFAULT, OTHER, RIP, ERR;
    Labels();
    var rest := Digits(addr, 16) + RIP + Digits(rip, 16) + ERR + Digits(err, 16);
    assert PAGEFAULT + Digits(addr, 16) + RIP + Digits(rip, 16) + ERR + Digits(err, 16) == PAGEFAULT + rest;
    NotNormal(PAGEFAULT, rest);
    OnlyPrefix(PAGEFAULT, rest, KILLED, 0);
    OnlyPrefix(PAGEFAULT, rest, SIGNAL, 0);
    OnlyPrefix(PAGEFAULT, rest, FAULT, 7);
    DropGives(PAGEFAULT, rest);
    PageFaultParses(addr, rip, err);
  }

  lemma ParseOther(code: nat)
    ensures Parse(OTHER + Digits(code, 10) + CLOSE) == Some(Unrecorded(code))
  {
    hide Digits, ParseOne, ParseThen, ParseFault, ParsePageFault, Drop, NORMAL, KILLED, SIGNAL, FAULT, PAGEFAULT, OTHER, CLOSE;
    Labels();
    var rest := Digits(code, 10) + CLOSE;
    assert OTHER + Digits(code, 10) + CLOSE == OTHER + rest;
    NotNormal(OTHER, rest);
    OnlyPrefix(OTHER, rest, KILLED, 0);
    OnlyPrefix(OTHER, rest, SIGNAL, 0);
    OnlyPrefix(OTHER, rest, FAULT, 0);
    OnlyPrefix(OTHER, rest, PAGEFAULT, 0);
    DropGives(OTHER, rest);
    OtherParses(code);
  }

  /** Two records with the same line agree on the reason and on every field it shows. */
  lemma SameLineSameCause(e: ExitInfo, f: ExitInfo)
    requires InRange(e) && InRange(f) && Text(CauseOf(e)) == Text(CauseOf(f))
    ensures CauseOf(e) == CauseOf(f) && e.reason == f.reason
  {
    hide Text, Parse;
    TextParses(CauseOf(e));
    TextParses(CauseOf(f));
  }
}
