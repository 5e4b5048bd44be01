/** The PS/2 keyboard reader (include/ps2_scancode.h): scancode bytes in, characters and named
    keys out. */
module Ps2 {
  import opened Wrappers

  type Code = n: int | 0 <= n < 256

  const LCTRL: Code := 0x1D
  const LSHIFT: Code := 0x2A
  const RSHIFT: Code := 0x36
  const LALT: Code := 0x38
  const CAPS: Code := 0x3A
  const E0: Code := 0xE0
  const SC_MAX: Code := 0x56

  const KEY_NONE := 0
  const KEY_UP := 0x101
  const KEY_DOWN := 0x102
  const KEY_RIGHT := 0x103
  const KEY_LEFT := 0x104
  const KEY_HOME := 0x105
  const KEY_END := 0x106

  // ----- Layouts -----

  datatype Layout = Layout(name: string, lower: string, upper: string, altgr: Option<string>)

  /** Every level covers the codes 0 to SC_MAX. */
  predicate Wide(ly: Layout) {
    |ly.lower| == SC_MAX + 1 && |ly.upper| == SC_MAX + 1 && (ly.altgr.Some? ==> |ly.altgr.value| == SC_MAX + 1)
  }

  const GAP: string := "\0\0\0\0\0\0\0\0\0\0" + "\0\0\0\0\0\0\0\0\0\0" + "\0\0\0\0\0\0\0\0"

  function Level(digits: string, top: string, home: string, bottom: string, iso: string): string {
    "\0\U{1b}" + digits + top + home + bottom + GAP + iso
  }

  const US_LOWER: string := Level("1234567890-=\U{8}\t", "qwertyuiop[]\n\0", "asdfghjkl;'`\0\\", "zxcvbnm,./\0*\0 ", "\0")
  const US_UPPER: string := Level("!@#$%^&*()_+\U{8}\t", "QWERTYUIOP{}\n\0", "ASDFGHJKL:\"~\0|", "ZXCVBNM<>?\0*\0 ", "\0")
  const UK_LOWER: string := Level("1234567890-=\U{8}\t", "qwertyuiop[]\n\0", "asdfghjkl;'`\0#", "zxcvbnm,./\0*\0 ", "\\")
  const UK_UPPER: string := Level("!\"\0$%^&*()_+\U{8}\t", "QWERTYUIOP{}\n\0", "ASDFGHJKL:@\0\0~", "ZXCVBNM<>?\0*\0 ", "|")

  const US := Layout("us", US_LOWER, US_UPPER, None)
  const UK := Layout("uk", UK_LOWER, UK_UPPER, None)
  const LAYOUTS: seq<Layout> := [US, UK]

  /** The UK layout for its name, and the US layout for any other name and for none. */
  function ByName(name: Option<string>): Layout {
    if name == Some("uk") then UK else US
  }

  method LayoutByName(name: Option<string>) returns (ly: Layout)
    ensures ly == ByName(name)
  {
    hide Level;
    if name.Some? {
      for i := 0 to |LAYOUTS|
        invariant forall k :: 0 <= k < i ==> LAYOUTS[k].name != name.value
      {
        var a, b := LAYOUTS[i].name, name.value;
        var j := 0;
        while j < |a| && j < |b| && a[j] == b[j]
          invariant j <= |a| && j <= |b| && a[..j] == b[..j]
        {
          j := j + 1;
        }
        if j == |a| && j == |b| {
          assert a == a[..j] && b == b[..j];
          return LAYOUTS[i];
        }
      }
      assert LAYOUTS[1].name != name.value;
    }
    return LAYOUTS[0];
  }

  // ----- What the tables hold -----

  predicate IsLower(c: char) {
    'a' <= c <= 'z'
  }

  predicate IsUpper(c: char) {
    'A' <= c <= 'Z'
  }

  predicate IsLetter(c: char) {
    IsLower(c) || IsUpper(c)
  }

  /** The place of a letter in the alphabet, from 1. */
  function Ordinal(c: char): int
    requires IsLetter(c)
  {
    if IsLower(c) then c as int - 'a' as int + 1 else c as int - 'A' as int + 1
  }

  /** A key's two characters: ASCII, and either a letter in its two cases or no letter. */
  predicate Pair(a: char, b: char) {
    && a < '\U{80}' && b < '\U{80}' && !IsUpper(a) && !IsLower(b)
    && (IsLower(a) <==> IsUpper(b)) && (IsLower(a) ==> Ordinal(a) == Ordinal(b))
  }

  predicate Paired(a: string, b: string) {
    |a| == |b| && forall i :: 0 <= i < |a| ==> Pair(a[i], b[i])
  }

  lemma PairedConcat(a: string, b: string, c: string, d: string)
    requires Paired(a, b) && Paired(c, d)
    ensures Paired(a + c, b + d)
  {
  }

  lemma EndPaired()
    ensures Paired("\0\U{1b}", "\0\U{1b}") && Paired(GAP, GAP) && Paired("\0", "\0") && Paired("\\", "|")
  {
  }

  lemma LettersPaired()
    ensures Paired("qwertyuiop[]\n\0", "QWERTYUIOP{}\n\0")
    ensures Paired("zxcvbnm,./\0*\0 ", "ZXCVBNM<>?\0*\0 ")
  {
  }

  lemma UsHomeRowPaired()
    ensures Paired("asdfghjkl;'`\0\\", "ASDFGHJKL:\"~\0|")
  {
  }

  lemma UkHomeRowPaired()
    ensures Paired("asdfghjkl;'`\0#", "ASDFGHJKL:@\0\0~")
  {
  }

  lemma DigitsPaired()
    ensures Paired("1234567890-=\U{8}\t", "!@#$%^&*()_+\U{8}\t")
    ensures Paired("1234567890-=\U{8}\t", "!\"\0$%^&*()_+\U{8}\t")
  {
  }

  lemma LevelsPaired(d: string, t: string, h: string, b: string, i: string, D: string, T: string, H: string, B: string, I: string)
    requires Paired(d, D) && Paired(t, T) && Paired(h, H) && Paired(b, B) && Paired(i, I)
    ensures Paired(Level(d, t, h, b, i), Level(D, T, H, B, I))
    ensures |Level(d, t, h, b, i)| == 2 + |d| + |t| + |h| + |b| + 28 + |i| == |Level(D, T, H, B, I)|
  {
    assert |d| == |D| && |t| == |T| && |h| == |H| && |b| == |B| && |i| == |I|;
    hide Paired;
    EndPaired();
    var e := "\0\U{1b}";
    PairedConcat(e, e, d, D);
    PairedConcat(e + d, e + D, t, T);
    PairedConcat(e + d + t, e + D + T, h, H);
    PairedConcat(e + d + t + h, e + D + T + H, b, B);
    PairedConcat(e + d + t + h + b, e + D + T + H + B, GAP, GAP);
    PairedConcat(e + d + t + h + b + GAP, e + D + T + H + B + GAP, i, I);
  }

  /** A layout whose keys each carry one letter in two cases, or none. */
  predicate Regular(ly: Layout) {
    Wide(ly) && Paired(ly.lower, ly.upper) && (ly.altgr.Some? ==> forall i :: 0 <= i < |ly.altgr.value| ==> ly.altgr.value[i] < '\U{80}')
  }

  lemma UsIsRegular()
    ensures Regular(US)
  {
    hide Paired, Level;
    EndPaired();
    LettersPaired();
    UsHomeRowPaired();
    DigitsPaired();
    LevelsPaired("1234567890-=\U{8}\t", "qwertyuiop[]\n\0", "asdfghjkl;'`\0\\", "zxcvbnm,./\0*\0 ", "\0",
                 "!@#$%^&*()_+\U{8}\t", "QWERTYUIOP{}\n\0", "ASDFGHJKL:\"~\0|", "ZXCVBNM<>?\0*\0 ", "\0");
  }

  lemma UkIsRegular()
    ensures Regular(UK)
  {
    hide Paired, Level;
    EndPaired();
    LettersPaired();
    UkHomeRowPaired();
    DigitsPaired();
    LevelsPaired("1234567890-=\U{8}\t", "qwertyuiop[]\n\0", "asdfghjkl;'`\0#", "zxcvbnm,./\0*\0 ", "\\",
                 "!\"\0$%^&*()_+\U{8}\t", "QWERTYUIOP{}\n\0", "ASDFGHJKL:@\0\0~", "ZXCVBNM<>?\0*\0 ", "|");
  }
}
