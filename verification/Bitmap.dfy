/** The bitmap operations of include/kmi/bits.h on an array of bytes, against sequences of booleans. */
module Bitmap {
  import opened Bits
  import BitScan

  /** The bits of a bitmap, in order. */
  ghost function BitsOf(a: seq<bv8>): (s: seq<bool>)
    ensures |s| == 8 * |a| && forall i :: 0 <= i < |s| ==> s[i] == ByteBit(a[i / 8], i % 8)
  {
    seq(8 * |a|, i requires 0 <= i < 8 * |a| => ByteBit(a[i / 8], i % 8))
  }

  // ------------------------------------------------------------- one bit of a byte

  lemma SetShift(b: bv8, k: bv8, j: bv8)
    requires k < 8 && j < 8
    ensures ((b | (1 << k)) >> j) & 1 == 1 <==> j == k || (b >> j) & 1 == 1
    ensures ((b & ((1 << k) ^ 0xff)) >> j) & 1 == 1 <==> j != k && (b >> j) & 1 == 1
  {
  }

  lemma MaskIndex(r: nat)
    requires r < 8
    ensures (1 as bv8) << r == (1 as bv8) << (r as bv8)
  {
  }

  lemma SameIndex(r: nat, s: nat)
    requires r < 8 && s < 8
    ensures (r as bv8) < 8 && (s as bv8) < 8 && (r as bv8 == s as bv8 <==> r == s)
  {
    SmallIndex(r);
    SmallIndex(s);
  }

  /** `set_nbit` */
  function Raised(b: bv8, r: nat): bv8
    requires r < 8
  {
    b | (1 << r)
  }

  /** `clear_nbit` */
  function Lowered(b: bv8, r: nat): bv8
    requires r < 8
  {
    b & ((1 << r) ^ 0xff)
  }

  lemma UpdateIndex(b: bv8, r: nat)
    requires r < 8
    ensures Raised(b, r) == b | (1 << (r as bv8)) && Lowered(b, r) == b & ((1 << (r as bv8)) ^ 0xff)
  {
    MaskIndex(r);
  }

  lemma ByteUpdateAt(b: bv8, up: bv8, down: bv8, k: bv8, j: bv8)
    requires k < 8 && j < 8 && up == b | (1 << k) && down == b & ((1 << k) ^ 0xff)
    ensures (j as nat) < 8
    ensures ByteBit(up, j as nat) <==> j == k || ByteBit(b, j as nat)
    ensures ByteBit(down, j as nat) <==> j != k && ByteBit(b, j as nat)
  {
    hide ByteBit;
    SetShift(b, k, j);
    ByteIndex(b, j);
    ByteIndex(up, j);
    ByteIndex(down, j);
  }

  /** Both change exactly one bit. */
  lemma ByteUpdate(b: bv8, r: nat, s: nat)
    requires r < 8 && s < 8
    ensures ByteBit(Raised(b, r), s) <==> s == r || ByteBit(b, s)
    ensures ByteBit(Lowered(b, r), s) <==> s != r && ByteBit(b, s)
  {
    hide ByteBit, Raised, Lowered;
    SmallIndex(s);
    SameIndex(r, s);
    UpdateIndex(b, r);
    ByteUpdateAt(b, Raised(b, r), Lowered(b, r), r as bv8, s as bv8);
  }

  lemma UpdatedBits(a: seq<bv8>, n: nat, b: bv8, v: bool)
    requires n < 8 * |a|
    requires forall s :: 0 <= s < 8 ==> ByteBit(b, s) == if s == n % 8 then v else ByteBit(a[n / 8], s)
    ensures BitsOf(a[n / 8 := b]) == BitsOf(a)[n := v]
  {
    hide ByteBit;
    var u := a[n / 8 := b];
    forall i | 0 <= i < 8 * |a| ensures BitsOf(u)[i] == BitsOf(a)[n := v][i] {
      assert i / 8 == n / 8 && i % 8 == n % 8 ==> i == n;
    }
  }

  /** `bitmap_is_set` */
  method IsSet(a: array<bv8>, n: nat) returns (r: bool)
    requires n < 8 * a.Length
    ensures r == BitsOf(a[..])[n]
  {
    var i := n / 8;
    var k := n - i * 8;
    r := (a[i] >> k) & 1 == 1;
  }

  /** `bitmap_set` */
  method Set(a: array<bv8>, n: nat)
    requires n < 8 * a.Length
    modifies a
    ensures BitsOf(a[..]) == old(BitsOf(a[..]))[n := true]
  {
    hide ByteBit, BitsOf, Raised, Lowered;
    var i := n / 8;
    var k := n - i * 8;
    ghost var before, b := a[..], Raised(a[i], k);
    forall s | 0 <= s < 8 ensures ByteBit(b, s) == if s == n % 8 then true else ByteBit(before[n / 8], s) {
      ByteUpdate(before[i], k, s);
    }
    UpdatedBits(before, n, b, true);
    a[i] := Raised(a[i], k);
    assert a[..] == before[i := b];
  }

  /** `bitmap_clear` */
  method Clear(a: array<bv8>, n: nat)
    requires n < 8 * a.Length
    modifies a
    ensures BitsOf(a[..]) == old(BitsOf(a[..]))[n := false]
  {
    hide ByteBit, BitsOf, Raised, Lowered;
    var i := n / 8;
    var k := n - i * 8;
    ghost var before, b := a[..], Lowered(a[i], k);
    forall s | 0 <= s < 8 ensures ByteBit(b, s) == if s == n % 8 then false else ByteBit(before[n / 8], s) {
      ByteUpdate(before[i], k, s);
    }
    UpdatedBits(before, n, b, false);
    a[i] := Lowered(a[i], k);
    assert a[..] == before[i := b];
  }

  lemma ZeroByte(s: nat)
    requires s < 8
    ensures !ByteBit(0, s)
  {
    hide ByteBit;
    SmallIndex(s);
    ByteIndex(0, s as bv8);
    assert (0 as bv8 >> (s as bv8)) & 1 != 1;
  }

  /** `bitmap_clear_all`: the first `n` bits are cleared, the rest of the last byte is kept. */
  method ClearAll(a: array<bv8>, n: nat)
    requires n <= 8 * a.Length
    modifies a
    ensures forall i :: 0 <= i < 8 * a.Length ==> BitsOf(a[..])[i] == (i >= n && old(BitsOf(a[..]))[i])
  {
    hide ByteBit;
    ghost var before := BitsOf(a[..]);
    var i := n / 8;
    var r := n - i * 8;
    for k := 0 to i
      invariant forall j :: 0 <= j < 8 * a.Length ==> BitsOf(a[..])[j] == (j >= 8 * k && before[j])
    {
      ghost var was := a[..];
      a[k] := 0;
      forall j | 0 <= j < 8 * a.Length ensures BitsOf(a[..])[j] == (j >= 8 * (k + 1) && before[j]) {
        if j / 8 == k {
          ZeroByte(j % 8);
        } else {
          assert a[..][j / 8] == was[j / 8];
          assert BitsOf(was)[j] == BitsOf(a[..])[j];
        }
      }
    }
    for k := 0 to r
      invariant forall j :: 0 <= j < 8 * a.Length ==> BitsOf(a[..])[j] == (j >= 8 * i + k && before[j])
    {
      Clear(a, 8 * i + k);
    }
  }

  // ------------------------------------------------------------------ word search

  /** Word `c` of the bitmap, with the bits inverted when unset bits are sought. */
  function Check(a: seq<bv8>, c: nat, want: bool): bv32
    requires 4 * c + 3 < |a|
  {
    var w := Word(a[4 * c], a[4 * c + 1], a[4 * c + 2], a[4 * c + 3]);
    if want then w else Inverted(w)
  }

  lemma CheckQuarter(a: seq<bv8>, c: nat, want: bool, r: nat)
    requires 4 * c + 3 < |a| && r < 8
    ensures var w := Check(a, c, want);
            && (Bit(w, r) <==> ByteBit(a[4 * c], r) == want) && (Bit(w, r + 8) <==> ByteBit(a[4 * c + 1], r) == want)
            && (Bit(w, r + 16) <==> ByteBit(a[4 * c + 2], r) == want) && (Bit(w, r + 24) <==>
                ByteBit(a[4 * c + 3], r) == want)
  {
    hide Bit, ByteBit, Word, Inverted;
    var b0, b1, b2, b3 := a[4 * c], a[4 * c + 1], a[4 * c + 2], a[4 * c + 3];
    if want {
      WordBits(b0, b1, b2, b3, r);
    } else {
      InvertedWord(b0, b1, b2, b3);
      WordBits(b0 ^ 0xff, b1 ^ 0xff, b2 ^ 0xff, b3 ^ 0xff, r);
      InvertedByte(b0, r);
      InvertedByte(b1, r);
      InvertedByte(b2, r);
      InvertedByte(b3, r);
    }
  }

  /** Bit `j` of the checked word says whether bit `32 c + j` of the bitmap is a wanted one. */
  lemma CheckBits(a: seq<bv8>, c: nat, want: bool, j: nat)
    requires 4 * c + 3 < |a| && j < 32
    ensures Bit(Check(a, c, want), j) <==> BitsOf(a)[32 * c + j] == want
  {
    hide Bit, ByteBit, Check;
    CheckQuarter(a, c, want, j % 8);
    assert (32 * c + j) / 8 == 4 * c + j / 8 && (32 * c + j) % 8 == j % 8;
  }

  lemma ZeroWord(j: nat)
    requires j < 32
    ensures !Bit(0, j)
  {
    hide Bit;
    SmallIndex(j);
    BitIndex(0, j as bv8);
    assert (0 as bv32 >> (j as bv8)) & 1 != 1;
  }

  /** A word without a wanted bit. */
  lemma NoneInWord(a: seq<bv8>, c: nat, want: bool)
    requires 4 * c + 3 < |a| && Check(a, c, want) == 0
    ensures forall p :: 32 * c <= p < 32 * c + 32 ==> BitsOf(a)[p] != want
  {
    hide Bit, Check, BitsOf;
    forall p | 32 * c <= p < 32 * c + 32 ensures BitsOf(a)[p] != want {
      CheckBits(a, c, want, p - 32 * c);
      ZeroWord(p - 32 * c);
    }
  }

  /** The lowest bit of the checked word is the first wanted bit of that word. */
  lemma FirstInWord(a: seq<bv8>, c: nat, want: bool, k: nat)
    requires 4 * c + 3 < |a| && k < 32 && Bit(Check(a, c, want), k)
    requires forall j :: 0 <= j < k ==> !Bit(Check(a, c, want), j)
    ensures BitsOf(a)[32 * c + k] == want && forall p :: 32 * c <= p < 32 * c + k ==> BitsOf(a)[p] != want
  {
    hide Bit, Check, BitsOf;
    CheckBits(a, c, want, k);
    forall p | 32 * c <= p < 32 * c + k ensures BitsOf(a)[p] != want {
      CheckBits(a, c, want, p - 32 * c);
    }
  }

  lemma TargetIsZero(w: bv32)
    ensures w != 0xFFFFFFFF <==> Inverted(w) != 0
  {
  }

  /** The first bit equal to `want` is the one the scan bit by bit finds. */
  lemma FirstIsFound(bits: seq<bool>, want: bool, r: nat)
    requires r == |bits| + 1 || (r < |bits| && bits[r] == want)
    requires forall i :: 0 <= i < |bits| && i < r ==> bits[i] != want
    ensures r == BitScan.Find(bits, want)
  {
  }

  /** `bitmap_find_first`: a word at a time, then the remaining bits one by one. */
  method FindFirst(a: array<bv8>, n: nat, want: bool) returns (r: nat)
    requires n <= 8 * a.Length
    ensures r == BitScan.Find(BitsOf(a[..])[..n], want)
  {
    hide Bit, ByteBit, Word, Inverted, BitsOf;
    ghost var bits := BitsOf(a[..])[..n];
    var i := n / 32;
    var c := 0;
    var target: bv32 := if want then 0 else 0xFFFFFFFF;
    while c < i
      invariant 0 <= c <= i
      invariant forall p :: 0 <= p < 32 * c ==> bits[p] != want
    {
      var w := Word(a[4 * c], a[4 * c + 1], a[4 * c + 2], a[4 * c + 3]);
      TargetIsZero(w);
      if w != target {
        break;
      }
      NoneInWord(a[..], c, want);
      c := c + 1;
    }
    var b := c * 32;
    if c != i {
      var w := Word(a[4 * c], a[4 * c + 1], a[4 * c + 2], a[4 * c + 3]);
      TargetIsZero(w);
      var f := Ffs(if want then w else Inverted(w));
      FirstInWord(a[..], c, want, f - 1);
      r := b + f - 1;
      FirstIsFound(bits, want, r);
      return;
    }
    var left := n - i * 32;
    for k := 0 to left
      invariant forall p :: 0 <= p < b + k ==> bits[p] != want
    {
      var bit := IsSet(a, b + k);
      if bit == want {
        r := b + k;
        FirstIsFound(bits, want, r);
        return;
      }
    }
    r := n + 1;
    FirstIsFound(bits, want, r);
  }
}
