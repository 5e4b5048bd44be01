/** Bytes, little-endian numbers, and slices. */
module Bytes {
  type Byte = bv8

  // ----- Bytes and their values -----

  function ByteOf(x: int): Byte
    requires 0 <= x < 256
  {
    x as Byte
  }

  function ValueOf(b: Byte): (v: int)
    ensures 0 <= v < 256
  {
    b as int
  }

  lemma ValueNext(b: Byte)
    requires b != 255
    ensures ValueOf(b + 1) == ValueOf(b) + 1
  {
  }

  lemma ValueEnds()
    ensures ValueOf(0) == 0 && ValueOf(255) == 255 && ByteOf(0) == 0
  {
  }

  lemma ByteOfValue(b: Byte)
    ensures ByteOf(ValueOf(b)) == b
  {
  }

  lemma {:induction false} ByteRoundTrip(x: int)
    requires 0 <= x < 256
    ensures ValueOf(ByteOf(x)) == x
    decreases x
  {
    hide ByteOf, ValueOf;
    ValueEnds();
    if x > 0 {
      ByteRoundTrip(x - 1);
      var b := ByteOf(x - 1);
      ValueNext(b);
      ByteOfValue(b + 1);
    }
  }

  // ----- Sequences of bytes -----

  function Zeros(n: nat): seq<Byte> {
    seq(n, _ => 0)
  }

  /** `s` padded on the right with zeros to `n` bytes. */
  function PadTo(s: seq<Byte>, n: nat): seq<Byte> {
    if |s| < n then s + Zeros(n - |s|) else s
  }

  function Pow256(n: nat): nat {
    if n == 0 then 1 else 256 * Pow256(n - 1)
  }

  /** The `n` low bytes of `v`, lowest first. */
  function Le(v: nat, n: nat): (s: seq<Byte>)
    ensures |s| == n
  {
    if n == 0 then [] else [ByteOf(v % 256)] + Le(v / 256, n - 1)
  }

  function FromLe(s: seq<Byte>): nat {
    if s == [] then 0 else ValueOf(s[0]) + 256 * FromLe(s[1..])
  }

  lemma {:induction false} LeRoundTrip(v: nat, n: nat)
    requires v < Pow256(n)
    ensures FromLe(Le(v, n)) == v
  {
    hide ByteOf, ValueOf;
    if n > 0 {
      LeRoundTrip(v / 256, n - 1);
      ByteRoundTrip(v % 256);
      assert Le(v, n)[1..] == Le(v / 256, n - 1);
    }
  }

  lemma Pow256Values()
    ensures Pow256(4) == 0x1_0000_0000 && Pow256(8) == 0x1_0000_0000_0000_0000
  {
    assert Pow256(1) == 256 && Pow256(2) == 0x1_0000 && Pow256(3) == 0x100_0000;
    assert Pow256(5) == 0x100_0000_0000 && Pow256(6) == 0x1_0000_0000_0000 && Pow256(7) == 0x100_0000_0000_0000;
  }

  /** The four bytes of a register, lowest first, and back. */
  function Le32(c: bv32): seq<Byte> {
    [(c & 0xFF) as bv8, ((c >> 8) & 0xFF) as bv8, ((c >> 16) & 0xFF) as bv8, ((c >> 24) & 0xFF) as bv8]
  }

  function FromLe32(s: seq<Byte>): bv32
    requires |s| == 4
  {
    (s[0] as bv32) | ((s[1] as bv32) << 8) | ((s[2] as bv32) << 16) | ((s[3] as bv32) << 24)
  }

  lemma Le32RoundTrip(c: bv32)
    ensures FromLe32(Le32(c)) == c
  {
  }
}
