/**
 `strstr` of src/string.c: the Boyer-Moore-Horspool search with a table of `char` shifts. Strings are
 sequences of non-zero bytes; the table holds every shift modulo 256.
 */
module Strstr {
  import opened Common

  /** A byte of a string: strings end at the first zero byte. */
  type Byte = b: nat | 0 < b < 256 witness 1

  type Text = seq<Byte>

  predicate OccursAt(h: Text, n: Text, at: nat) {
    at + |n| <= |h| && h[at..at + |n|] == n
  }

  /** `memcmp`, as the search uses it: whether `num` bytes agree. */
  method SameBytes(h: Text, at: nat, n: Text) returns (same: bool)
    requires at + |n| <= |h| && |n| > 0
    ensures same <==> OccursAt(h, n, at)
  {
    var k, num := 0, |n|;
    while true
      invariant 0 <= k < |n| && num == |n| - k && forall i :: 0 <= i < k ==> h[at + i] == n[i]
      decreases num
    {
      if h[at + k] != n[k] {
        assert h[at..at + |n|][k] != n[k];
        return false;
      }
      num := num - 1;
      k := k + 1;
      if num == 0 {
        assert h[at..at + |n|] == n;
        return true;
      }
    }
  }

  /** The last place of `ch` in the needle without its last byte, or -1. */
  ghost function LastPlace(n: Text, ch: Byte, before: nat): (i: int)
    requires before <= |n|
    ensures -1 <= i < before && (i >= 0 ==> n[i] == ch)
    ensures forall j :: i < j < before ==> n[j] != ch
  {
    if before == 0 then -1 else if n[before - 1] == ch then before - 1 else LastPlace(n, ch, before - 1)
  }

  /** How far the needle may move when the byte below its end is `ch`. */
  ghost function Shift(n: Text, ch: Byte): nat
    requires |n| > 0
  {
    |n| - 1 - LastPlace(n, ch, |n| - 1)
  }

  /** Moving by less than the shift cannot produce an occurrence. */
  lemma ShiftIsSafe(h: Text, n: Text, at: nat, d: nat)
    requires |n| > 0 && at + |n| <= |h| && 0 < d < Shift(n, h[at + |n| - 1])
    ensures !OccursAt(h, n, at + d)
  {
    var j := |n| - 1 - d;
    assert n[j] != h[at + |n| - 1];
    assert at + d + |n| <= |h| ==> h[at + d..at + d + |n|][j] == h[at + |n| - 1];
  }

  /** The shift the table really holds. */
  ghost function Stored(n: Text, ch: Byte): nat
    requires |n| > 0
  {
    Shift(n, ch) % 256
  }

  /** No byte has a stored shift of zero. */
  ghost predicate Advances(n: Text)
    requires |n| > 0
  {
    forall ch: Byte :: Stored(n, ch) > 0
  }

  /** Needles of 1 to 255 bytes fit the table. */
  lemma ShortNeedlesAdvance(n: Text)
    requires 1 <= |n| <= 255
    ensures Advances(n)
  {
    forall ch: Byte ensures Stored(n, ch) > 0 { assert 1 <= Shift(n, ch) <= 255; }
  }

  /** Lines 153-158: the table of shifts. */
  method BuildTable(n: Text) returns (table: array<nat>)
    requires |n| > 0
    ensures table.Length == 256 && forall ch: Byte :: table[ch] == Stored(n, ch)
  {
    table := new nat[256](i => 0);
    for i := 0 to 256
      invariant forall ch: Byte :: ch < i ==> table[ch] == |n| % 256
    {
      table[i] := |n| % 256;
    }
    for i := 0 to |n| - 1
      invariant forall ch: Byte :: table[ch] == (|n| - 1 - LastPlace(n, ch, i)) % 256
    {
      table[n[i]] := (|n| - i - 1) % 256;
    }
  }

  /**
   `strstr`: the first occurrence, or none, for every haystack, whenever the needle's table always advances,
   as it does for needles of 1 to 255 bytes.
   */
  method Search(h: Text, n: Text) returns (r: Option<nat>)
    requires |n| > 0 && Advances(n)
    ensures r.Some? ==> OccursAt(h, n, r.value) && forall i :: 0 <= i < r.value ==> !OccursAt(h, n, i)
    ensures r.None? ==> forall i :: 0 <= i ==> !OccursAt(h, n, i)
  {
    var table := BuildTable(n);
    var skip := 0;
    while |h| - skip >= |n|
      invariant 0 <= skip <= |h| && forall ch: Byte :: table[ch] == Stored(n, ch)
      invariant forall i :: 0 <= i < skip ==> !OccursAt(h, n, i)
      decreases |h| - skip
    {
      var same := SameBytes(h, skip, n);
      if same {
        return Some(skip);
      }
      var ch := h[skip + |n| - 1];
      var step := table[ch];
      assert 0 < step <= Shift(n, ch);
      forall i | skip <= i < skip + step ensures !OccursAt(h, n, i) {
        if i > skip { ShiftIsSafe(h, n, skip, i - skip); }
      }
      skip := skip + step;
    }
    return None;
  }

  /** At `at` the needle does not occur and the search would not move on. */
  ghost predicate StuckAt(h: Text, n: Text, at: nat)
    requires |n| > 0
  {
    at + |n| <= |h| && !OccursAt(h, n, at) && Stored(n, h[at + |n| - 1]) == 0
  }

  /** The search can get stuck, already at the start of some text, exactly when a stored shift is zero. */
  lemma StuckIff(n: Text)
    requires |n| > 0
    ensures (exists h: Text :: StuckAt(h, n, 0)) <==> !Advances(n)
  {
    if !Advances(n) {
      var ch: Byte :| Stored(n, ch) == 0;
      assert |n| >= 256 by { if |n| <= 255 { ShortNeedlesAdvance(n); } }
      var other: Byte := if n[0] == 1 then 2 else 1;
      var h: Text := [other] + seq(|n| - 2, i => 1 as Byte) + [ch];
      assert h[|n| - 1] == ch && h[0..|n|][0] != n[0];
      assert StuckAt(h, n, 0);
    }
  }

  /** A needle of 256 bytes: its table holds a zero for every byte it does not contain. */
  lemma LongNeedleSticks(n: Text, ch: Byte)
    requires |n| == 256 && ch !in n
    ensures !Advances(n)
  {
    assert Stored(n, ch) == 0;
  }
}
