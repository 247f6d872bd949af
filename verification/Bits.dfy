/**
 Bitmaps in memory (include/kmi/bits.h) and the bit trick `ffs` (src/bits.c): reading four bytes as a
 little-endian word and isolating its lowest bit finds the same bit as a scan bit by bit.
 */
module Bits {
  import BitScan

  // ----------------------------------------------------------------- bits of a word

  predicate Bit(v: bv32, k: nat)
    requires k < 32
  {
    (v >> k) & 1 == 1
  }

  predicate ByteBit(b: bv8, r: nat)
    requires r < 8
  {
    (b >> r) & 1 == 1
  }

  /** Bit numbers as numbers and as bit vectors. */
  lemma BitIndex(v: bv32, k: bv8)
    requires k < 32
    ensures (k as nat) < 32 && (Bit(v, k as nat) <==> (v >> k) & 1 == 1)
  {
  }

  lemma SmallIndex(j: nat)
    requires j < 32
    ensures (j as bv8) as nat == j && (j as bv8) < 32 && (j < 8 ==> (j as bv8) < 8)
  {
  }

  lemma IndexOrder(j: nat, k: bv8)
    requires k < 32 && j < k as nat
    ensures (j as bv8) < k && (j as bv8) as nat == j
  {
  }

  // ---------------------------------------------------------------------------- ffs

  /** The index of the only bit of `w`, as `ffs` counts it down. */
  function CountDown(w: bv32): bv8 {
    var c: bv8 := if w != 0 then 31 else 32;
    var c := if w & 0x0000FFFF != 0 then c - 16 else c;
    var c := if w & 0x00FF00FF != 0 then c - 8 else c;
    var c := if w & 0x0F0F0F0F != 0 then c - 4 else c;
    var c := if w & 0x33333333 != 0 then c - 2 else c;
    if w & 0x55555555 != 0 then c - 1 else c
  }

  /** Isolating the lowest bit and counting down finds the lowest bit. */
  lemma LowestBit(v: bv32)
    requires v != 0
    ensures var k := CountDown(v & (0 - v)); k < 32 && v & ((1 << k) - 1) == 0 && (v >> k) & 1 == 1
  {
  }

  lemma NothingBelow(v: bv32, k: bv8, j: bv8)
    requires k < 32 && j < k && v & ((1 << k) - 1) == 0
    ensures (v >> j) & 1 == 0
  {
  }

  lemma LowerBitClear(v: bv32, k: bv8, j: bv8)
    requires k < 32 && j < k && v & ((1 << k) - 1) == 0
    ensures (j as nat) < 32 && !Bit(v, j as nat)
  {
    hide Bit;
    NothingBelow(v, k, j);
    BitIndex(v, j);
  }

  /** If bit `k` is the lowest bit set, the bits before it are clear. */
  lemma LowerBitsClear(v: bv32, k: bv8)
    requires k < 32 && v & ((1 << k) - 1) == 0
    ensures (k as nat) < 32 && forall j :: 0 <= j < k as nat ==> !Bit(v, j)
  {
    hide Bit;
    BitIndex(v, k);
    forall j | 0 <= j < k as nat ensures !Bit(v, j) {
      IndexOrder(j, k);
      LowerBitClear(v, k, j as bv8);
    }
  }

  /** `ffs`: one more than the index of the lowest bit set, or 0. */
  method Ffs(v: bv32) returns (r: nat)
    ensures v == 0 <==> r == 0
    ensures v != 0 ==> r <= 32 && Bit(v, r - 1) && forall j :: 0 <= j < r - 1 ==> !Bit(v, j)
  {
    hide Bit;
    if v == 0 {
      return 0;
    }
    if v == 0x80000000 {
      TopBit();
      return 32;
    }
    var w := v & (0 - v);
    var c: bv8 := 32;
    if w != 0 { c := c - 1; }
    if w & 0x0000FFFF != 0 { c := c - 16; }
    if w & 0x00FF00FF != 0 { c := c - 8; }
    if w & 0x0F0F0F0F != 0 { c := c - 4; }
    if w & 0x33333333 != 0 { c := c - 2; }
    if w & 0x55555555 != 0 { c := c - 1; }
    assert c == CountDown(w);
    LowestBit(v);
    BitIndex(v, c);
    LowerBitsClear(v, c);
    r := c as nat + 1;
  }

  lemma TopBit()
    ensures Bit(0x80000000, 31) && forall j :: 0 <= j < 31 ==> !Bit(0x80000000, j)
  {
    assert (0x80000000 as bv32 >> 31) & 1 == 1;
    LowerBitsClear(0x80000000, 31);
  }

  // --------------------------------------------------------------- words and bytes

  /** Four bytes read as an `int` on a little-endian machine. */
  function Word(b0: bv8, b1: bv8, b2: bv8, b3: bv8): bv32 {
    (b0 as bv32) | ((b1 as bv32) << 8) | ((b2 as bv32) << 16) | ((b3 as bv32) << 24)
  }

  lemma ByteIndex(b: bv8, k: bv8)
    requires k < 8
    ensures (k as nat) < 8 && (ByteBit(b, k as nat) <==> (b >> k) & 1 == 1)
  {
  }

  lemma WordShift(b0: bv8, b1: bv8, b2: bv8, b3: bv8, k: bv8)
    requires k < 8
    ensures var w := Word(b0, b1, b2, b3);
            && ((w >> k) & 1 == 1 <==> (b0 >> k) & 1 == 1)
            && ((w >> (k + 8)) & 1 == 1 <==> (b1 >> k) & 1 == 1)
            && ((w >> (k + 16)) & 1 == 1 <==> (b2 >> k) & 1 == 1)
            && ((w >> (k + 24)) & 1 == 1 <==> (b3 >> k) & 1 == 1)
  {
  }

  lemma IndexSum(k: bv8)
    requires k < 8
    ensures (k as nat) < 8 && (k + 8) as nat == k as nat + 8
    ensures (k + 16) as nat == k as nat + 16 && (k + 24) as nat == k as nat + 24
  {
  }

  /** The bits of the word are the bits of the bytes, in order. */
  lemma WordBits(b0: bv8, b1: bv8, b2: bv8, b3: bv8, r: nat)
    requires r < 8
    ensures var w := Word(b0, b1, b2, b3);
            && (Bit(w, r) <==> ByteBit(b0, r)) && (Bit(w, r + 8) <==> ByteBit(b1, r))
            && (Bit(w, r + 16) <==> ByteBit(b2, r)) && (Bit(w, r + 24) <==> ByteBit(b3, r))
  {
    hide Bit, ByteBit, Word;
    SmallIndex(r);
    WordBitsAt(b0, b1, b2, b3, r as bv8);
    IndexSum(r as bv8);
  }

  lemma WordBitsAt(b0: bv8, b1: bv8, b2: bv8, b3: bv8, k: bv8)
    requires k < 8
    ensures (k as nat) < 8 && ((k + 8) as nat) < 32 && ((k + 16) as nat) < 32 && ((k + 24) as nat) < 32
    ensures var w := Word(b0, b1, b2, b3);
            && (Bit(w, k as nat) <==> ByteBit(b0, k as nat)) && (Bit(w, (k + 8) as nat) <==> ByteBit(b1, k as nat))
            && (Bit(w, (k + 16) as nat) <==> ByteBit(b2, k as nat)) && (Bit(w, (k + 24) as nat) <==>
                ByteBit(b3, k as nat))
  {
    hide Bit, ByteBit, Word;
    var w := Word(b0, b1, b2, b3);
    WordShift(b0, b1, b2, b3, k);
    QuarterBit(w, b0, k, k);
    QuarterBit(w, b1, k, k + 8);
    QuarterBit(w, b2, k, k + 16);
    QuarterBit(w, b3, k, k + 24);
  }

  lemma QuarterBit(w: bv32, b: bv8, k: bv8, at: bv8)
    requires k < 8 && at < 32 && ((w >> at) & 1 == 1 <==> (b >> k) & 1 == 1)
    ensures (k as nat) < 8 && (at as nat) < 32 && (Bit(w, at as nat) <==> ByteBit(b, k as nat))
  {
    hide Bit, ByteBit;
    BitIndex(w, at);
    ByteIndex(b, k);
  }

  /** `~v` */
  function Inverted(v: bv32): bv32 {
    v ^ 0xFFFFFFFF
  }

  lemma InvertedWord(b0: bv8, b1: bv8, b2: bv8, b3: bv8)
    ensures Inverted(Word(b0, b1, b2, b3)) == Word(b0 ^ 0xff, b1 ^ 0xff, b2 ^ 0xff, b3 ^ 0xff)
  {
  }

  lemma ByteNot(b: bv8, k: bv8)
    requires k < 8
    ensures ((b ^ 0xff) >> k) & 1 == 1 <==> (b >> k) & 1 != 1
  {
  }

  lemma InvertedByte(b: bv8, r: nat)
    requires r < 8
    ensures ByteBit(b ^ 0xff, r) <==> !ByteBit(b, r)
  {
    hide ByteBit;
    SmallIndex(r);
    ByteNot(b, r as bv8);
    ByteIndex(b, r as bv8);
    ByteIndex(b ^ 0xff, r as bv8);
  }
}
