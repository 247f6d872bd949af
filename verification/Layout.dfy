/**
 Tilings of an arena of pages into used and free regions (src/regions.c), as values: what carving a
 used region out of a free one and releasing it again do to the tiling.
 */
module Layout {

  /** A region `[start, end)` in pages. */
  datatype Extent = Extent(start: nat, end: nat, used: bool)

  type Tiling = seq<Extent>

  /** No gaps, no overlap, no empty region, and no two neighbouring free regions. */
  ghost predicate Tiles(t: Tiling, start: nat, end: nat) {
    && |t| > 0 && t[0].start == start && t[|t| - 1].end == end
    && (forall i :: 0 <= i < |t| ==> t[i].start < t[i].end)
    && (forall i :: 0 <= i < |t| - 1 ==> Meets(t, i))
  }

  ghost predicate Meets(t: Tiling, i: nat)
    requires i + 1 < |t|
  {
    t[i].end == t[i + 1].start && (t[i].used || t[i + 1].used)
  }

  /** `__partition_region`: a used region of `pages` pages, `align` pages into free region `i`. */
  ghost function Carve(t: Tiling, i: nat, align: nat, pages: nat): Tiling
    requires i < |t|
  {
    var start := t[i].start + align;
    t[..i] + Piece(t[i].start, start) + [Extent(start, start + pages, true)] +
    Piece(start + pages, t[i].end) + t[i + 1..]
  }

  ghost function Piece(start: nat, end: nat): Tiling {
    if start == end then [] else [Extent(start, end, false)]
  }

  /** `free_known_region`: region `i` becomes free and swallows its free neighbours. */
  ghost function Release(t: Tiling, i: nat): Tiling
    requires i < |t|
  {
    var lo, hi := ReleaseFrom(t, i), ReleaseTo(t, i);
    t[..lo] + [Extent(t[lo].start, t[hi].end, false)] + t[hi + 1..]
  }

  /** Regions lie in the order of their addresses. */
  lemma {:induction false} Ascending(t: Tiling, start: nat, end: nat, i: nat, j: nat)
    requires Tiles(t, start, end) && i < j < |t|
    ensures t[i].end <= t[j].start
    decreases j
  {
    assert Meets(t, j - 1);
    if i < j - 1 {
      Ascending(t, start, end, i, j - 1);
    }
  }

  lemma CarveTiles(t: Tiling, start: nat, end: nat, i: nat, align: nat, pages: nat)
    requires Tiles(t, start, end) && i < |t| && !t[i].used && pages > 0
    requires t[i].start + align + pages <= t[i].end
    ensures Tiles(Carve(t, i, align, pages), start, end)
  {
    var s := t[i].start + align;
    var pre, post := Piece(t[i].start, s), Piece(s + pages, t[i].end);
    var u := Carve(t, i, align, pages);
    var k := i + |pre|;
    assert u[k] == Extent(s, s + pages, true);
    forall j | 0 <= j < |u| ensures u[j].start < u[j].end { CarveAt(t, i, align, pages, j); }
    forall j | 0 <= j < |u| - 1 ensures Meets(u, j) {
      if j + 1 <= i { assert Meets(t, j); }
      if j > k + |post| { assert Meets(t, j - |pre| - |post|); }
      if j == k + |post| { assert Meets(t, i); }
    }
    CarveEnds(t, i, align, pages);
  }

  /** The regions of a carved tiling, one by one. */
  lemma CarveAt(t: Tiling, i: nat, align: nat, pages: nat, j: nat)
    requires i < |t| && t[i].start + align + pages <= t[i].end && pages > 0
        && (forall x :: 0 <= x < |t| ==> t[x].start < t[x].end)
    requires j < |Carve(t, i, align, pages)|
    ensures var u, s := Carve(t, i, align, pages), t[i].start + align;
            var pre, post := Piece(t[i].start, s), Piece(s + pages, t[i].end);
            u[j] == if j < i then t[j] else if j < i + |pre| then Extent(t[i].start, s, false)
                    else if j == i + |pre| then Extent(s, s + pages, true)
                    else if j <= i + |pre| + |post| then Extent(s + pages, t[i].end, false) else t[j - |pre| - |post|]
    ensures Carve(t, i, align, pages)[j].start < Carve(t, i, align, pages)[j].end
  {
  }

  lemma CarveEnds(t: Tiling, i: nat, align: nat, pages: nat)
    requires i < |t| && t[i].start + align + pages <= t[i].end && pages > 0
        && (forall x :: 0 <= x < |t| ==> t[x].start < t[x].end)
    ensures var u := Carve(t, i, align, pages); |u| > 0 && u[0].start == t[0].start && u[|u| - 1].end == t[|t| - 1].end
  {
    var u := Carve(t, i, align, pages);
    CarveAt(t, i, align, pages, 0);
    CarveAt(t, i, align, pages, |u| - 1);
  }

  /** The regions that region `i` and its free neighbours span. */
  ghost function ReleaseFrom(t: Tiling, i: nat): (lo: nat)
    requires i < |t|
    ensures lo <= i
  {
    if i > 0 && !t[i - 1].used then i - 1 else i
  }

  ghost function ReleaseTo(t: Tiling, i: nat): (hi: nat)
    requires i < |t|
    ensures i <= hi < |t|
  {
    if i + 1 < |t| && !t[i + 1].used then i + 1 else i
  }

  /**
   Merging neighbouring regions `lo` to `hi` into one free region keeps a tiling a tiling if used regions lie around
   it.
   */
  lemma MergedTiles(t: Tiling, start: nat, end: nat, lo: nat, hi: nat)
    requires Tiles(t, start, end) && lo <= hi < |t|
    requires (lo > 0 ==> t[lo - 1].used) && (hi + 1 < |t| ==> t[hi + 1].used)
    ensures Tiles(t[..lo] + [Extent(t[lo].start, t[hi].end, false)] + t[hi + 1..], start, end)
  {
    var u := t[..lo] + [Extent(t[lo].start, t[hi].end, false)] + t[hi + 1..];
    if lo < hi { Ascending(t, start, end, lo, hi); }
    forall j | 0 <= j < |u| - 1 ensures Meets(u, j) {
      if j < lo { assert Meets(t, j); } else { assert Meets(t, j + hi - lo); }
    }
    forall j | 0 <= j < |u| ensures u[j].start < u[j].end {
      assert j != lo ==> u[j] == t[if j < lo then j else j + hi - lo];
    }
  }

  lemma ReleaseTiles(t: Tiling, start: nat, end: nat, i: nat)
    requires Tiles(t, start, end) && i < |t| && t[i].used
    ensures Tiles(Release(t, i), start, end)
  {
    var lo, hi := ReleaseFrom(t, i), ReleaseTo(t, i);
    if lo > 0 { assert Meets(t, lo - 1); }
    if hi + 1 < |t| { assert Meets(t, hi); }
    MergedTiles(t, start, end, lo, hi);
  }

  lemma Sandwich(a: Tiling, pre: Tiling, e: Extent, post: Tiling, b: Tiling)
    ensures var u, k := a + pre + [e] + post + b, |a| + |pre|;
            && u[k] == e && u[..|a|] == a && u[k + |post| + 1..] == b
            && (forall j :: 0 <= j < |a| ==> u[j] == a[j]) && (forall j :: 0 <= j < |pre| ==> u[|a| + j] == pre[j])
            && (forall j :: 0 <= j < |post| ==> u[k + 1 + j] == post[j])
                && (forall j :: 0 <= j < |b| ==> u[k + |post| + 1 + j] == b[j])
  {
  }

  /** `u` is `t` with free region `i` replaced by `pre`, the region `e` and `post`, the free pieces around it. */
  ghost predicate Replaced(t: Tiling, i: nat, pre: Tiling, e: Extent, post: Tiling, u: Tiling) {
    var k := i + |pre|;
    && i < |t| && |u| == |t| + |pre| + |post| && u[k] == e && u[..i] == t[..i] && u[k + |post| + 1..] == t[i + 1..]
    && (i > 0 ==> u[i - 1] == t[i - 1]) && (i + 1 < |t| ==> u[k + |post| + 1] == t[i + 1])
    && (|pre| > 0 ==> u[i] == pre[0]) && (|post| > 0 ==> u[k + 1] == post[0])
  }

  lemma SandwichReplaces(t: Tiling, i: nat, pre: Tiling, e: Extent, post: Tiling)
    requires i < |t|
    ensures Replaced(t, i, pre, e, post, t[..i] + pre + [e] + post + t[i + 1..])
  {
    Sandwich(t[..i], pre, e, post, t[i + 1..]);
    if i + 1 < |t| { assert t[i + 1..][0] == t[i + 1]; }
    if i > 0 { assert t[..i][i - 1] == t[i - 1]; }
  }

  lemma CarveReplaces(t: Tiling, i: nat, align: nat, pages: nat, s: nat, e: nat)
    requires i < |t| && s == t[i].start + align && e == s + pages
    ensures Replaced(t, i, Piece(t[i].start, s), Extent(s, e, true), Piece(e, t[i].end), Carve(t, i, align, pages))
  {
    SandwichReplaces(t, i, Piece(t[i].start, s), Extent(s, e, true), Piece(e, t[i].end));
  }

  /** Releasing `e` swallows exactly the pieces around it. */
  lemma ReleaseSpan(t: Tiling, start: nat, end: nat, i: nat, pre: Tiling, e: Extent, post: Tiling, u: Tiling)
    requires Tiles(t, start, end) && i < |t| && !t[i].used && Replaced(t, i, pre, e, post, u)
    requires |pre| <= 1 && |post| <= 1 && (|pre| > 0 ==> !pre[0].used) && (|post| > 0 ==> !post[0].used)
    ensures ReleaseFrom(u, i + |pre|) == i && ReleaseTo(u, i + |pre|) == i + |pre| + |post|
  {
    if i > 0 { assert Meets(t, i - 1); }
    if i + 1 < |t| { assert Meets(t, i); }
  }

  /** Freeing what was just allocated restores the tiling. */
  lemma CarveRelease(t: Tiling, start: nat, end: nat, i: nat, align: nat, pages: nat)
    requires Tiles(t, start, end) && i < |t| && !t[i].used && pages > 0
    requires t[i].start + align + pages <= t[i].end
    ensures var k := i + |Piece(t[i].start, t[i].start + align)|;
            var u := Carve(t, i, align, pages);
            k < |u| && u[k] == Extent(t[i].start + align, t[i].start + align + pages, true) && Release(u, k) == t
  {
    hide Carve, Tiles, ReleaseFrom, ReleaseTo, Release;
    var s := t[i].start + align;
    var e := s + pages;
    var u := Carve(t, i, align, pages);
    CarveReplaces(t, i, align, pages, s, e);
    ReleaseSpan(t, start, end, i, Piece(t[i].start, s), Extent(s, e, true), Piece(e, t[i].end), u);
    Restored(t, i, s, e, u);
  }

  lemma Restored(t: Tiling, i: nat, s: nat, e: nat, u: Tiling)
    requires i < |t| && !t[i].used && Replaced(t, i, Piece(t[i].start, s), Extent(s, e, true), Piece(e, t[i].end), u)
    requires var k := i + |Piece(t[i].start, s)|; ReleaseFrom(u, k) == i && ReleaseTo(u, k) == k + |Piece(e, t[i].end)|
    ensures Release(u, i + |Piece(t[i].start, s)|) == t
  {
    hide ReleaseFrom, ReleaseTo;
    var hi := i + |Piece(t[i].start, s)| + |Piece(e, t[i].end)|;
    assert u[i].start == t[i].start && u[hi].end == t[i].end;
    assert t == t[..i] + [t[i]] + t[i + 1..];
  }

  // ------------------------------------------------------------- pages of the arena

  ghost predicate FreePage(t: Tiling, p: nat) {
    exists i :: 0 <= i < |t| && t[i].start <= p < t[i].end && !t[i].used
  }

  /** Every page of the arena lies in a region. */
  lemma {:induction false} Holding(t: Tiling, start: nat, end: nat, p: nat) returns (i: nat)
    requires Tiles(t, start, end) && start <= p < end
    ensures i < |t| && t[i].start <= p < t[i].end
  {
    i := 0;
    while p >= t[i].end
      invariant i < |t| && t[i].start <= p
      decreases |t| - i
    {
      assert Meets(t, i);
      i := i + 1;
    }
  }

  lemma Unique(t: Tiling, start: nat, end: nat, i: nat, j: nat, p: nat)
    requires Tiles(t, start, end) && i < |t| && j < |t|
    requires t[i].start <= p < t[i].end && t[j].start <= p < t[j].end
    ensures i == j
  {
    if i < j { Ascending(t, start, end, i, j); }
    if j < i { Ascending(t, start, end, j, i); }
  }

  /**
   A run of pages starting in region `i` is free and inside the arena exactly when region `i` is free
   and long enough: a longer free run would need two neighbouring free regions.
   */
  lemma RunFreeIff(t: Tiling, start: nat, end: nat, i: nat, ref: nat, pages: nat)
    requires Tiles(t, start, end) && i < |t| && t[i].start <= ref < t[i].end && pages > 0
    ensures (forall p :: ref <= p < ref + pages ==> FreePage(t, p)) <==> !t[i].used && ref + pages <= t[i].end
  {
    if forall p :: ref <= p < ref + pages ==> FreePage(t, p) {
      assert FreePage(t, ref);
      var j :| 0 <= j < |t| && t[j].start <= ref < t[j].end && !t[j].used;
      Unique(t, start, end, i, j, ref);
      if ref + pages > t[i].end {
        var p := t[i].end;
        assert FreePage(t, p);
        var k :| 0 <= k < |t| && t[k].start <= p < t[k].end && !t[k].used;
        if k < i { Ascending(t, start, end, k, i); }
        if i + 1 < k { Ascending(t, start, end, i + 1, k); }
        assert Meets(t, i);
      }
    }
  }

  ghost predicate FreeAt(t: Tiling, p: nat, j: nat)
    ensures FreeAt(t, p, j) ==> FreePage(t, p)
  {
    j < |t| && t[j].start <= p < t[j].end && !t[j].used
  }

  /** Carving takes exactly the pages of the new region away from the free pages. */
  lemma CarveFreePages(t: Tiling, start: nat, end: nat, i: nat, align: nat, pages: nat, p: nat)
    requires Tiles(t, start, end) && i < |t| && !t[i].used && pages > 0
    requires t[i].start + align + pages <= t[i].end
    ensures FreePage(Carve(t, i, align, pages), p) <==>
            FreePage(t, p) && !(t[i].start + align <= p < t[i].start + align + pages)
  {
    hide Carve, Tiles, FreePage;
    if FreePage(Carve(t, i, align, pages), p) { CarveFrees(t, start, end, i, align, pages, p); }
    if FreePage(t, p) { CarveSpares(t, start, end, i, align, pages, p); }
  }

  lemma CarveFrees(t: Tiling, start: nat, end: nat, i: nat, align: nat, pages: nat, p: nat)
    requires Tiles(t, start, end) && i < |t| && !t[i].used && pages > 0
    requires t[i].start + align + pages <= t[i].end && FreePage(Carve(t, i, align, pages), p)
    ensures FreePage(t, p) && !(t[i].start + align <= p < t[i].start + align + pages)
  {
    var s := t[i].start + align;
    var pre, post := Piece(t[i].start, s), Piece(s + pages, t[i].end);
    var u, k := Carve(t, i, align, pages), i + |pre|;
    CarveTiles(t, start, end, i, align, pages);
    CarveAt(t, i, align, pages, k);
    var j :| 0 <= j < |u| && u[j].start <= p < u[j].end && !u[j].used;
    CarveAt(t, i, align, pages, j);
    hide Carve;
    if s <= p < s + pages { Unique(u, start, end, j, k, p); }
    assert FreeAt(t, p, if j < i then j else if j > k + |post| then j - |pre| - |post| else i);
  }

  lemma CarveSpares(t: Tiling, start: nat, end: nat, i: nat, align: nat, pages: nat, p: nat)
    requires Tiles(t, start, end) && i < |t| && !t[i].used && pages > 0
    requires t[i].start + align + pages <= t[i].end && FreePage(t, p)
    ensures t[i].start + align <= p < t[i].start + align + pages || FreePage(Carve(t, i, align, pages), p)
  {
    var s := t[i].start + align;
    var pre, post := Piece(t[i].start, s), Piece(s + pages, t[i].end);
    var u, k := Carve(t, i, align, pages), i + |pre|;
    if !(s <= p < s + pages) {
      var j :| 0 <= j < |t| && t[j].start <= p < t[j].end && !t[j].used;
      var x := if j < i || (j == i && p < s) then j else if j == i then k + 1 else j + |pre| + |post|;
      CarveAt(t, i, align, pages, x);
      hide Carve;
      assert FreeAt(u, p, x);
    }
  }
}
