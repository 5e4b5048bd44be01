/** Why CRC-32 sees every change that lies within 32 consecutive bits. */
module CrcBurst {
  import opened Bytes
  import opened Crc32

  // ----- The register, one bit at a time -----

  function StepBit(crc: bv32, x: bool): bv32 {
    Shift(if x then crc ^ 1 else crc)
  }

  function UpdateBits(crc: bv32, bits: seq<bool>): bv32
    decreases |bits|
  {
    if bits == [] then crc else UpdateBits(StepBit(crc, bits[0]), bits[1..])
  }

  /** The `n` lowest bits of a byte, lowest first. */
  function LowBits(b: Byte, n: nat): (r: seq<bool>)
    ensures |r| == n
    decreases n
  {
    if n == 0 then [] else [b & 1 == 1] + LowBits(b >> 1, n - 1)
  }

  function Bits(data: seq<Byte>): seq<bool> {
    if data == [] then [] else LowBits(data[0], 8) + Bits(data[1..])
  }

  function Xor(a: bv32, b: bv32): bv32 {
    a ^ b
  }

  function Half(a: bv32): bv32 {
    a >> 1
  }

  function Wide(b: Byte): bv32 {
    b as bv32
  }

  /** Shifting goes bit by bit: what is above the bit shifted out only moves. */
  lemma EvenMoves(a: bv32, r: bv32)
    requires r & 1 == 0
    ensures Shift(a ^ r) == Shift(a) ^ (r >> 1)
  {
  }

  lemma OddMoves(a: bv32, r: bv32)
    requires r & 1 == 1
    ensures Shift(a ^ r) == Shift(a ^ 1) ^ (r >> 1)
  {
  }

  lemma XorIs(a: bv32, r: bv32, t: bv32)
    ensures Xor(a, r) == a ^ r && Xor(t, Half(r)) == t ^ (r >> 1)
  {
  }

  lemma StepIs(a: bv32)
    ensures StepBit(a, false) == Shift(a) && StepBit(a, true) == Shift(a ^ 1)
  {
    hide Shift;
  }

  lemma ShiftOfEven(a: bv32, r: bv32)
    requires r & 1 == 0
    ensures Shift(Xor(a, r)) == Xor(StepBit(a, false), Half(r))
  {
    hide Shift, Xor, Half, StepBit;
    StepIs(a);
    EvenMoves(a, r);
    XorIs(a, r, Shift(a));
  }

  lemma ShiftOfOdd(a: bv32, r: bv32)
    requires r & 1 == 1
    ensures Shift(Xor(a, r)) == Xor(StepBit(a, true), Half(r))
  {
    hide Shift, Xor, Half, StepBit;
    StepIs(a);
    OddMoves(a, r);
    XorIs(a, r, Shift(a ^ 1));
  }

  lemma MixIsXor(c: bv32, b: Byte)
    ensures Mix(c, b) == Xor(c, Wide(b)) && Half(Wide(b)) == Wide(b >> 1)
    ensures Wide(b) & 1 == if b & 1 == 1 then 1 else 0
  {
  }

  lemma ShiftOfMix(c: bv32, b: Byte)
    ensures Shift(Mix(c, b)) == Mix(StepBit(c, b & 1 == 1), b >> 1)
  {
    hide Shift, Mix, StepBit, Wide, Xor, Half;
    MixIsXor(c, b);
    MixIsXor(StepBit(c, b & 1 == 1), b >> 1);
    if b & 1 == 1 {
      ShiftOfOdd(c, Wide(b));
    } else {
      ShiftOfEven(c, Wide(b));
    }
  }

  function ShiftedOn(crc: bv32, k: nat): bv32
    decreases k
  {
    if k == 0 then crc else ShiftedOn(Shift(crc), k - 1)
  }

  lemma {:induction false} ShiftedEitherWay(crc: bv32, k: nat)
    ensures ShiftedOn(Shift(crc), k) == Shift(ShiftedOn(crc, k)) && ShiftedOn(crc, k) == Shifted(crc, k)
    decreases k
  {
    hide Shift;
    if k > 0 {
      ShiftedEitherWay(Shift(crc), k - 1);
      ShiftedEitherWay(crc, k - 1);
    }
  }

  function Halved(b: Byte, n: nat): Byte
    decreases n
  {
    if n == 0 then b else Halved(b >> 1, n - 1)
  }

  lemma {:induction false} MixedBits(c: bv32, b: Byte, n: nat)
    ensures ShiftedOn(Mix(c, b), n) == Mix(UpdateBits(c, LowBits(b, n)), Halved(b, n))
    decreases n
  {
    hide Shift, Mix, StepBit;
    if n > 0 {
      ShiftOfMix(c, b);
      MixedBits(StepBit(c, b & 1 == 1), b >> 1, n - 1);
      assert LowBits(b, n)[1..] == LowBits(b >> 1, n - 1);
    }
  }

  lemma HalvedAway(b: Byte)
    ensures Halved(b, 8) == 0
  {
    HalvedTwice(b, 4, 4);
    HalvedFour(b);
    HalvedFour(Halved(b, 4));
    FourAndFour(b);
  }

  lemma {:induction false} HalvedTwice(b: Byte, m: nat, n: nat)
    ensures Halved(b, m + n) == Halved(Halved(b, m), n)
    decreases m
  {
    if m > 0 {
      HalvedTwice(b >> 1, m - 1, n);
    }
  }

  lemma HalvedFour(b: Byte)
    ensures Halved(b, 4) == b >> 4
  {
    var b1 := b >> 1;
    var b2 := b1 >> 1;
    var b3 := b2 >> 1;
    assert Halved(b3, 1) == Halved(b3 >> 1, 0) == b3 >> 1;
    assert Halved(b2, 2) == Halved(b3, 1);
    assert Halved(b1, 3) == Halved(b2, 2);
    FourShifts(b);
  }

  lemma FourShifts(b: Byte)
    ensures b >> 1 >> 1 >> 1 >> 1 == b >> 4
  {
  }

  lemma FourAndFour(b: Byte)
    ensures b >> 4 >> 4 == 0
  {
  }

  /** A byte is fed as its eight bits are. */
  lemma FeedIsBits(c: bv32, b: Byte)
    ensures Feed(c, b) == UpdateBits(c, LowBits(b, 8))
  {
    hide Shift, StepBit, UpdateBits, LowBits, Halved;
    MixedBits(c, b, 8);
    HalvedAway(b);
    ShiftedEitherWay(Mix(c, b), 8);
    MixNothing(UpdateBits(c, LowBits(b, 8)));
  }

  lemma MixNothing(c: bv32)
    ensures Mix(c, 0) == c
  {
  }

  lemma {:induction false} UpdateBitsConcat(c: bv32, s: seq<bool>, t: seq<bool>)
    ensures UpdateBits(c, s + t) == UpdateBits(UpdateBits(c, s), t)
    decreases |s|
  {
    hide StepBit;
    if s == [] {
      assert s + t == t;
    } else {
      assert (s + t)[1..] == s[1..] + t && (s + t)[0] == s[0];
      UpdateBitsConcat(StepBit(c, s[0]), s[1..], t);
    }
  }

  lemma {:induction false} UpdateIsBits(c: bv32, data: seq<Byte>)
    ensures Update(c, data) == UpdateBits(c, Bits(data))
    decreases |data|
  {
    hide Feed, UpdateBits, LowBits;
    if data == [] {
      NoBits(c);
    } else {
      FeedIsBits(c, data[0]);
      UpdateIsBits(Feed(c, data[0]), data[1..]);
      UpdateBitsConcat(c, LowBits(data[0], 8), Bits(data[1..]));
    }
  }

  lemma NoBits(c: bv32)
    ensures UpdateBits(c, []) == c
  {
  }

  // ----- The bits are the bytes -----

  lemma LowBitsTell(a: Byte, b: Byte)
    requires a & 1 == 1 <==> b & 1 == 1
    requires a >> 1 == b >> 1
    ensures a == b
  {
  }

  lemma {:induction false} SameLowBits(a: Byte, b: Byte, n: nat)
    requires LowBits(a, n) == LowBits(b, n) && Halved(a, n) == Halved(b, n)
    ensures a == b
    decreases n
  {
    if n > 0 {
      assert LowBits(a, n)[0] == LowBits(b, n)[0];
      assert LowBits(a, n)[1..] == LowBits(a >> 1, n - 1) && LowBits(b, n)[1..] == LowBits(b >> 1, n - 1);
      SameLowBits(a >> 1, b >> 1, n - 1);
      LowBitsTell(a, b);
    }
  }

  lemma {:induction false} SameBits(s: seq<Byte>, t: seq<Byte>)
    requires |s| == |t| && Bits(s) == Bits(t)
    ensures s == t
    decreases |s|
  {
    hide LowBits, Halved;
    if s != [] {
      var b, c := LowBits(s[0], 8), LowBits(t[0], 8);
      assert Bits(s)[..8] == b && Bits(t)[..8] == c && Bits(s)[8..] == Bits(s[1..]) && Bits(t)[8..] == Bits(t[1..]);
      HalvedAway(s[0]);
      HalvedAway(t[0]);
      SameLowBits(s[0], t[0], 8);
      SameBits(s[1..], t[1..]);
    }
  }

  // ----- Registers apart -----

  lemma StepBitIsInjective(a: bv32, b: bv32, x: bool)
    requires StepBit(a, x) == StepBit(b, x)
    ensures a == b
  {
  }

  lemma {:induction false} SameTail(a: bv32, b: bv32, bits: seq<bool>)
    requires UpdateBits(a, bits) == UpdateBits(b, bits)
    ensures a == b
    decreases |bits|
  {
    hide StepBit;
    if bits != [] {
      SameTail(StepBit(a, bits[0]), StepBit(b, bits[0]), bits[1..]);
      StepBitIsInjective(a, b, bits[0]);
    }
  }

  /** The `n` lowest bits. */
  function Mask(n: nat): bv32 {
    if n == 0 then 0 else (Mask(n - 1) << 1) | 1
  }

  predicate Below(d: bv32, mask: bv32) {
    d & !mask == 0
  }

  lemma {:induction false} MaskGrows(n: nat)
    ensures Below(Mask(n), Mask(n + 1))
  {
    if n > 0 {
      MaskGrows(n - 1);
      BelowShifted(Mask(n - 1), Mask(n));
    }
  }

  lemma BelowShifted(a: bv32, b: bv32)
    requires Below(a, b)
    ensures Below((a << 1) | 1, (b << 1) | 1)
  {
  }

  lemma BelowTrans(a: bv32, b: bv32, c: bv32)
    requires Below(a, b) && Below(b, c)
    ensures Below(a, c)
  {
    assert a & !c == (a & !b & !c) | (a & b & !c);
  }

  lemma Mask31()
    ensures Mask(31) == 0x7FFF_FFFF
  {
    assert Mask(4) == 0xF;
    assert Mask(8) == 0xFF;
    assert Mask(12) == 0xFFF;
    assert Mask(16) == 0xFFFF;
    assert Mask(20) == 0xF_FFFF;
    assert Mask(24) == 0xFF_FFFF;
    assert Mask(28) == 0xFFF_FFFF;
    assert Mask(31) == 0x7FFF_FFFF;
  }

  lemma {:induction false} MaskIsShort(n: nat)
    requires n <= 31
    ensures Below(Mask(n), 0x7FFF_FFFF)
    decreases 31 - n
  {
    hide Mask, Below;
    Mask31();
    if n == 31 {
      BelowItself(0x7FFF_FFFF);
    } else {
      MaskIsShort(n + 1);
      MaskGrows(n);
      BelowTrans(Mask(n), Mask(n + 1), 0x7FFF_FFFF);
    }
  }

  lemma BelowItself(d: bv32)
    ensures Below(d, d)
  {
  }

  /** If the registers differ only in low bits after a step, they did before it, in one bit more:
      had the bits shifted out differed, the top bit of the polynomial would show. */
  lemma StepBack(a: bv32, b: bv32, x: bool, y: bool, mask: bv32)
    requires Below(StepBit(a, x) ^ StepBit(b, y), mask) && Below(mask, 0x7FFF_FFFF)
    ensures Below(a ^ b, (mask << 1) | 1)
  {
  }

  lemma StepBackOnce(a: bv32, b: bv32, x: bool, y: bool, n: nat)
    requires Below(Xor(StepBit(a, x), StepBit(b, y)), Mask(n)) && Below(Mask(n), 0x7FFF_FFFF)
    ensures Below(Xor(a, b), Mask(n + 1))
  {
    hide StepBit, Below, Shift;
    StepBack(a, b, x, y, Mask(n));
  }

  lemma {:induction false} Backwards(a: bv32, b: bv32, u: seq<bool>, v: seq<bool>)
    requires |u| == |v| <= 32 && UpdateBits(a, u) == UpdateBits(b, v)
    ensures Below(Xor(a, b), Mask(|u|))
    decreases |u|
  {
    hide StepBit, Below, Shift, Xor, Mask;
    MaskZero();
    if u == [] {
      SameIsBelow(a);
    } else {
      Backwards(StepBit(a, u[0]), StepBit(b, v[0]), u[1..], v[1..]);
      MaskIsShort(|u| - 1);
      StepBackOnce(a, b, u[0], v[0], |u| - 1);
    }
  }

  lemma MaskZero()
    ensures Mask(0) == 0
  {
  }

  lemma SameIsBelow(a: bv32)
    ensures Below(Xor(a, a), 0)
  {
  }

  /** A first bit that differs leaves the polynomial behind, whose top bit is set. */
  lemma FirstBitShows(c: bv32)
    ensures Xor(StepBit(c, true), StepBit(c, false)) == POLY && Xor(StepBit(c, false), StepBit(c, true)) == POLY
    ensures !Below(POLY, 0x7FFF_FFFF)
  {
  }

  lemma {:induction false} WindowIsSeen(c: bv32, u: seq<bool>, v: seq<bool>)
    requires |u| == |v| <= 32 && UpdateBits(c, u) == UpdateBits(c, v)
    ensures u == v
    decreases |u|
  {
    hide StepBit, Below, Shift, Mask, Xor;
    if u != [] {
      if u[0] == v[0] {
        WindowIsSeen(StepBit(c, u[0]), u[1..], v[1..]);
        assert u == [u[0]] + u[1..] && v == [v[0]] + v[1..];
      } else {
        FirstBitShows(c);
        Backwards(StepBit(c, u[0]), StepBit(c, v[0]), u[1..], v[1..]);
        MaskIsShort(|u| - 1);
        BelowTrans(POLY, Mask(|u| - 1), 0x7FFF_FFFF);
        assert false;
      }
    }
  }

  /** The two bit strings are the same outside the 32 bits that start at `p`. */
  predicate SameOutside(s: seq<bool>, t: seq<bool>, p: nat) {
    && |s| == |t| && p <= |s| && s[..p] == t[..p]
    && (p + 32 <= |s| ==> s[p + 32..] == t[p + 32..])
  }

  lemma {:induction false} BitsAreSeen(c: bv32, s: seq<bool>, t: seq<bool>, p: nat)
    requires SameOutside(s, t, p) && UpdateBits(c, s) == UpdateBits(c, t)
    ensures s == t
  {
    hide UpdateBits;
    var e := if p + 32 <= |s| then p + 32 else |s|;
    var mid := UpdateBits(c, s[..p]);
    assert s == s[..p] + (s[p..e] + s[e..]) && t == t[..p] + (t[p..e] + t[e..]) && s[e..] == t[e..];
    UpdateBitsConcat(c, s[..p], s[p..e] + s[e..]);
    UpdateBitsConcat(c, t[..p], t[p..e] + t[e..]);
    UpdateBitsConcat(mid, s[p..e], s[e..]);
    UpdateBitsConcat(mid, t[p..e], t[e..]);
    SameTail(UpdateBits(mid, s[p..e]), UpdateBits(mid, t[p..e]), s[e..]);
    WindowIsSeen(mid, s[p..e], t[p..e]);
  }

  /** EVERY BURST IS SEEN: any change that lies within 32 consecutive bits, of however many bytes,
      changes the CRC. */
  lemma BurstChangesCrc(data: seq<Byte>, changed: seq<Byte>, p: nat)
    requires data != changed && |data| == |changed| && SameOutside(Bits(data), Bits(changed), p)
    ensures Crc(data) != Crc(changed)
  {
    hide Bits, Update, SameOutside;
    var start: bv32 := 0xFFFF_FFFF;
    UpdateIsBits(start, data);
    UpdateIsBits(start, changed);
    NotIsInjective(Update(start, data), Update(start, changed));
    if Update(start, data) == Update(start, changed) {
      BitsAreSeen(start, Bits(data), Bits(changed), p);
      SameBits(data, changed);
    }
  }
}
