/** CRC-32 as section 8 of RFC 1952 defines it, bit by bit over a 32-bit register, and why a
    change of one byte always changes it. */
module Crc32 {
  import opened Bytes

  const POLY: bv32 := 0xEDB8_8320

  function Shift(crc: bv32): bv32 {
    if crc & 1 != 0 then (crc >> 1) ^ POLY else crc >> 1
  }

  function Shifted(crc: bv32, k: nat): bv32 {
    if k == 0 then crc else Shift(Shifted(crc, k - 1))
  }

  function Mix(crc: bv32, b: Byte): bv32 {
    crc ^ (b as bv32)
  }

  function Feed(crc: bv32, b: Byte): bv32 {
    Shifted(Mix(crc, b), 8)
  }

  /** The register after `data`, byte by byte from the front. */
  function Update(crc: bv32, data: seq<Byte>): bv32
    decreases |data|
  {
    if data == [] then crc else Update(Feed(crc, data[0]), data[1..])
  }

  function Crc(data: seq<Byte>): bv32 {
    !Update(0xFFFF_FFFF, data)
  }

  /** The loop form: one byte at a time, eight shifts each. */
  method Compute(crc0: bv32, data: seq<Byte>) returns (crc: bv32)
    ensures crc == Update(crc0, data)
  {
    crc := crc0;
    for i := 0 to |data|
      invariant Update(crc, data[i..]) == Update(crc0, data)
    {
      assert data[i..][0] == data[i] && data[i..][1..] == data[i + 1..];
      crc := Mix(crc, data[i]);
      ghost var mixed := crc;
      for k := 0 to 8
        invariant crc == Shifted(mixed, k)
      {
        hide Shift;
        crc := Shift(crc);
      }
    }
    assert data[|data|..] == [];
  }

  method ComputeCrc(data: seq<Byte>) returns (crc: bv32)
    ensures crc == Crc(data)
  {
    hide Update;
    var register := Compute(0xFFFF_FFFF, data);
    crc := !register;
  }

  /** Shifting the register loses nothing: the polynomial's top bit tells which way it went. */
  lemma ShiftIsInjective(a: bv32, b: bv32)
    requires Shift(a) == Shift(b)
    ensures a == b
  {
  }

  lemma {:induction false} ShiftedIsInjective(a: bv32, b: bv32, k: nat)
    requires Shifted(a, k) == Shifted(b, k)
    ensures a == b
  {
    hide Shift;
    if k > 0 {
      ShiftIsInjective(Shifted(a, k - 1), Shifted(b, k - 1));
      ShiftedIsInjective(a, b, k - 1);
    }
  }

  lemma MixIsInjective(a: bv32, b: bv32, x: Byte)
    requires Mix(a, x) == Mix(b, x)
    ensures a == b
  {
  }

  lemma MixSeesByte(crc: bv32, x: Byte, y: Byte)
    requires Mix(crc, x) == Mix(crc, y)
    ensures x == y
  {
  }

  /** The same byte keeps two registers apart. */
  lemma FeedIsInjective(a: bv32, b: bv32, x: Byte)
    requires Feed(a, x) == Feed(b, x)
    ensures a == b
  {
    hide Shifted, Mix;
    ShiftedIsInjective(Mix(a, x), Mix(b, x), 8);
    MixIsInjective(a, b, x);
  }

  /** Two bytes drive one register apart. */
  lemma FeedSeesByte(a: bv32, x: Byte, y: Byte)
    requires Feed(a, x) == Feed(a, y)
    ensures x == y
  {
    hide Shifted, Mix;
    ShiftedIsInjective(Mix(a, x), Mix(a, y), 8);
    MixSeesByte(a, x, y);
  }

  lemma {:induction false} UpdateKeepsApart(a: bv32, b: bv32, data: seq<Byte>)
    requires Update(a, data) == Update(b, data)
    ensures a == b
    decreases |data|
  {
    hide Feed;
    if data != [] {
      UpdateKeepsApart(Feed(a, data[0]), Feed(b, data[0]), data[1..]);
      FeedIsInjective(a, b, data[0]);
    }
  }

  lemma {:induction false} UpdateConcat(crc: bv32, s: seq<Byte>, t: seq<Byte>)
    ensures Update(crc, s + t) == Update(Update(crc, s), t)
    decreases |s|
  {
    hide Feed;
    if s == [] {
      assert s + t == t;
    } else {
      assert (s + t)[1..] == s[1..] + t && (s + t)[0] == s[0];
      UpdateConcat(Feed(crc, s[0]), s[1..], t);
    }
  }

  /** A CHANGED BYTE IS ALWAYS SEEN: replacing any one byte by a different one changes the CRC. */
  lemma {:induction false} OneByteChangesCrc(data: seq<Byte>, i: nat, b: Byte)
    requires i < |data| && data[i] != b
    ensures Crc(data[i := b]) != Crc(data)
  {
    hide Feed;
    var front, back := data[..i], data[i + 1..];
    var start: bv32 := 0xFFFF_FFFF;
    assert data == front + ([data[i]] + back);
    assert data[i := b] == front + ([b] + back);
    UpdateConcat(start, front, [data[i]] + back);
    UpdateConcat(start, front, [b] + back);
    var mid := Update(start, front);
    assert ([data[i]] + back)[1..] == back && ([b] + back)[1..] == back;
    if Update(mid, [data[i]] + back) == Update(mid, [b] + back) {
      UpdateKeepsApart(Feed(mid, data[i]), Feed(mid, b), back);
      FeedSeesByte(mid, data[i], b);
    }
    NotIsInjective(Update(start, data), Update(start, data[i := b]));
  }

  lemma NotIsInjective(a: bv32, b: bv32)
    ensures !a == !b ==> a == b
  {
  }

  lemma Fed(crc: bv32, x: Byte, next: bv32, rest: seq<Byte>)
    requires Feed(crc, x) == next
    ensures Update(crc, [x] + rest) == Update(next, rest)
  {
    hide Feed;
    assert ([x] + rest)[1..] == rest;
  }

  /** The standard check value: the CRC of the nine digits "123456789". */
  lemma CheckValue()
    ensures Crc([0x31] + ([0x32] + ([0x33] + ([0x34] + ([0x35] + ([0x36] + ([0x37] + ([0x38] + ([0x39] + []))))))))) == 0xCBF4_3926
  {
    Fed(0x651F_2550, 0x39, 0x340B_C6D9, []);
    Fed(0xAFFC_9660, 0x38, 0x651F_2550, [0x39] + []);
    Fed(0xF68D_2C9E, 0x37, 0xAFFC_9660, [0x38] + ([0x39] + []));
    Fed(0x340A_C5E3, 0x36, 0xF68D_2C9E, [0x37] + ([0x38] + ([0x39] + [])));
    Fed(0x641C_1F5C, 0x35, 0x340A_C5E3, [0x36] + ([0x37] + ([0x38] + ([0x39] + []))));
    Fed(0x77B7_9C2D, 0x34, 0x641C_1F5C, [0x35] + ([0x36] + ([0x37] + ([0x38] + ([0x39] + [])))));
    Fed(0xB0AC_BB32, 0x33, 0x77B7_9C2D, [0x34] + ([0x35] + ([0x36] + ([0x37] + ([0x38] + ([0x39] + []))))));
    Fed(0x7C23_1048, 0x32, 0xB0AC_BB32, [0x33] + ([0x34] + ([0x35] + ([0x36] + ([0x37] + ([0x38] + ([0x39] + [])))))));
    Fed(0xFFFF_FFFF, 0x31, 0x7C23_1048,
        [0x32] + ([0x33] + ([0x34] + ([0x35] + ([0x36] + ([0x37] + ([0x38] + ([0x39] + []))))))));
  }
}
