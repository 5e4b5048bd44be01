/** File capability tokens (include/fs_proto.h): five fields in 64 bits. */
module FsToken {
  const VALID: bv64 := 0x8000_0000_0000_0000
  const TRACKED: bv64 := 0x4000_0000_0000_0000
  const GEN_MASK: bv32 := 0x7_FFFF
  const NODE_MASK: bv32 := 0x1F
  const G_MASK: bv32 := 0x3F

  function Or3(a: bv64, b: bv64, c: bv64): bv64 {
    a | b | c
  }

  function Or4(a: bv64, b: bv64, c: bv64, d: bv64): bv64 {
    a | b | c | d
  }

  function Token(ino: bv32, gen: bv32): bv64 {
    Or3(VALID, ((gen & GEN_MASK) as bv64) << 32, ino as bv64)
  }

  function TokenIn(ino: bv32, gen: bv32, g: bv32, node: bv32, tracked: bool): bv64 {
    Or4(Token(ino, gen), ((g & G_MASK) as bv64) << 56, ((node & NODE_MASK) as bv64) << 51, if tracked then TRACKED else 0)
  }

  function Low(t: bv64): bv32 {
    (t & 0xFFFF_FFFF) as bv32
  }

  function Ino(t: bv64): bv32 {
    Low(t)
  }

  function Gen(t: bv64): bv32 {
    Low(t >> 32) & GEN_MASK
  }

  function G(t: bv64): bv32 {
    Low(t >> 56) & G_MASK
  }

  function Node(t: bv64): bv32 {
    Low(t >> 51) & NODE_MASK
  }

  predicate IsTracked(t: bv64) {
    t & TRACKED != 0
  }

  predicate IsValid(t: bv64) {
    t & VALID != 0
  }

  /** The fields of a token, each in its own range. */
  datatype Fields = Fields(ino: bv32, gen: bv32, g: bv32, node: bv32, tracked: bool)

  predicate InRange(f: Fields) {
    f.gen <= GEN_MASK && f.g <= G_MASK && f.node <= NODE_MASK
  }

  function Encode(f: Fields): bv64 {
    TokenIn(f.ino, f.gen, f.g, f.node, f.tracked)
  }

  function Decode(t: bv64): Fields {
    Fields(Ino(t), Gen(t), G(t), Node(t), IsTracked(t))
  }

  lemma FieldsReadBack(f: Fields)
    requires InRange(f)
    ensures Ino(Encode(f)) == f.ino
    ensures Gen(Encode(f)) == f.gen
    ensures G(Encode(f)) == f.g
    ensures Node(Encode(f)) == f.node
    ensures IsTracked(Encode(f)) == f.tracked
    ensures IsValid(Encode(f)) && Encode(f) != 0
  {
  }

  /** Each field, put back in its place, is the token masked there. */
  lemma FieldIsMask(t: bv64)
    ensures Ino(t) as bv64 == t & 0xFFFF_FFFF
    ensures ((Gen(t) & GEN_MASK) as bv64) << 32 == t & 0x0007_FFFF_0000_0000
    ensures ((G(t) & G_MASK) as bv64) << 56 == t & 0x3F00_0000_0000_0000
    ensures ((Node(t) & NODE_MASK) as bv64) << 51 == t & 0x00F8_0000_0000_0000
    ensures (if IsTracked(t) then TRACKED else 0) == t & TRACKED
  {
  }

  lemma PartsMakeWhole(t: bv64)
    requires t & 0x8000_0000_0000_0000 != 0
    ensures Or4(Or3(VALID, t & 0x0007_FFFF_0000_0000, t & 0xFFFF_FFFF), t & 0x3F00_0000_0000_0000,
                t & 0x00F8_0000_0000_0000, t & TRACKED) == t
  {
  }

  lemma Reencodes(t: bv64)
    requires IsValid(t)
    ensures Encode(Decode(t)) == t
  {
    hide Ino, Gen, G, Node, IsTracked, Or3, Or4;
    FieldIsMask(t);
    PartsMakeWhole(t);
  }

  lemma DecodesInRange(t: bv64)
    ensures InRange(Decode(t))
  {
  }

  /** TOKENS ARE A BIJECTION: in-range fields and 64-bit values with the top bit set determine
      each other, and no token is 0. */
  lemma TokensAreABijection(f: Fields, t: bv64)
    requires InRange(f) && IsValid(t)
    ensures InRange(Decode(t)) && IsValid(Encode(f)) && Encode(f) != 0
    ensures Encode(f) == t <==> f == Decode(t)
  {
    hide Encode, InRange, IsValid;
    FieldsReadBack(f);
    Reencodes(t);
    DecodesInRange(t);
  }

  /** Out-of-range values are cut to their fields, and touch no other field. */
  lemma OutOfRangeIsCut(ino: bv32, gen: bv32, g: bv32, node: bv32, tracked: bool)
    ensures Decode(TokenIn(ino, gen, g, node, tracked)) == Fields(ino, gen & GEN_MASK, g & G_MASK, node & NODE_MASK, tracked)
  {
  }
}
