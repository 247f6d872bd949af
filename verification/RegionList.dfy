/**
 The doubly linked list of regions (src/regions.c) as a value: links and extents of the regions, and
 the list they spell out. Each list operation of the source is a function on such views.
 */
module RegionList {
  import opened Tree
  import opened Layout

  datatype Info = Info(start: nat, end: nat, used: bool, prev: Region?, next: Region?)

  datatype View = View(info: map<Region, Info>, list: seq<Region>)

  ghost function Shot(nodes: set<Region>): (m: map<Region, Info>)
    reads nodes`start, nodes`end, nodes`used, nodes`prev, nodes`next
    ensures m.Keys == nodes
  {
    map x | x in nodes :: Info(x.start, x.end, x.used, x.prev, x.next)
  }

  ghost function Elems(s: seq<Region>): set<Region> {
    set x | x in s
  }

  ghost predicate LinkOk(v: View, i: nat)
    requires i < |v.list|
  {
    && v.list[i] in v.info
    && v.info[v.list[i]].prev == (if i == 0 then null else v.list[i - 1])
    && v.info[v.list[i]].next == (if i + 1 == |v.list| then null else v.list[i + 1])
  }

  ghost predicate Distinct(s: seq<Region>) {
    forall i, j :: 0 <= i < j < |s| ==> s[i] != s[j]
  }

  /** The list visits every region once, and its links run both ways. */
  ghost predicate Chained(v: View) {
    && v.info.Keys == Elems(v.list)
    && (forall i :: 0 <= i < |v.list| ==> LinkOk(v, i))
  }

  /** A list whose links run both ways cannot visit a region twice. */
  lemma {:induction false} VisitsOnce(v: View, i: nat, j: nat)
    requires Chained(v) && i < j < |v.list|
    ensures v.list[i] != v.list[j]
    decreases i
  {
    assert LinkOk(v, i) && LinkOk(v, j);
    if i > 0 { VisitsOnce(v, i - 1, j - 1); }
  }

  lemma AllDistinct(v: View)
    requires Chained(v)
    ensures Distinct(v.list)
  {
    forall i, j | 0 <= i < j < |v.list| ensures v.list[i] != v.list[j] { VisitsOnce(v, i, j); }
  }

  ghost function ExtentOf(i: Info): Extent {
    Extent(i.start, i.end, i.used)
  }

  ghost function TilingOf(v: View): (t: Tiling)
    requires Chained(v)
    ensures |t| == |v.list|
    ensures forall i :: 0 <= i < |v.list| ==> t[i] == ExtentOf(v.info[v.list[i]])
  {
    seq(|v.list|, i requires 0 <= i < |v.list| => assert LinkOk(v, i); ExtentOf(v.info[v.list[i]]))
  }

  ghost function WithNext(m: map<Region, Info>, x: Region?, n: Region?): map<Region, Info>
    requires x != null ==> x in m
  {
    if x == null then m else m[x := m[x].(next := n)]
  }

  ghost function WithPrev(m: map<Region, Info>, x: Region?, p: Region?): map<Region, Info>
    requires x != null ==> x in m
  {
    if x == null then m else m[x := m[x].(prev := p)]
  }

  lemma Grown(t: Tiling, u: Tiling, k: nat, e: Extent)
    requires k <= |t| && |u| == |t| + 1
    requires (forall j :: 0 <= j < k ==> u[j] == t[j]) && u[k] == e && (forall j :: k < j < |u| ==> u[j] == t[j - 1])
    ensures u == t[..k] + [e] + t[k..]
  {
    assert forall j :: k < j < |u| ==> u[j] == (t[..k] + [e] + t[k..])[j];
  }

  lemma Shrunk(t: Tiling, u: Tiling, k: nat, l: nat, e: Extent)
    requires l == k + 2 <= |t| && |u| == |t| - 1
    requires (forall j :: 0 <= j < k ==> u[j] == t[j]) && u[k] == e && (forall j :: k < j < |u| ==> u[j] == t[j + 1])
    ensures u == t[..k] + [e] + t[l..]
  {
    assert forall j :: k < j < |u| ==> u[j] == (t[..k] + [e] + t[l..])[j];
  }

  // ------------------------------------------------- growing the list around region i

  /** Lines 436-440: a new region in front of region `i`. */
  ghost function AddBefore(v: View, i: nat, n: Region, start: nat, end: nat): View
    requires Chained(v) && i < |v.list| && n !in v.info
  {
    assert LinkOk(v, i);
    var m := v.list[i];
    var p := v.info[m].prev;
    assert p != null ==> LinkOk(v, i - 1);
    var info := WithPrev(v.info[n := Info(start, end, false, p, m)], m, n);
    View(WithNext(info, p, n), v.list[..i] + [n] + v.list[i..])
  }

  /** Lines 446-450: a new region behind region `i`. */
  ghost function AddAfter(v: View, i: nat, n: Region, start: nat, end: nat): View
    requires Chained(v) && i < |v.list| && n !in v.info
  {
    assert LinkOk(v, i);
    var m := v.list[i];
    var x := v.info[m].next;
    assert x != null ==> LinkOk(v, i + 1);
    var info := WithNext(v.info[n := Info(start, end, false, m, x)], m, n);
    View(WithPrev(info, x, n), v.list[..i + 1] + [n] + v.list[i + 1..])
  }

  lemma AddBeforeLink(v: View, i: nat, n: Region, start: nat, end: nat, j: nat)
    requires Chained(v) && i < |v.list| && n !in v.info && j <= |v.list|
    ensures var w := AddBefore(v, i, n, start, end);
            && w.list[j] == (if j < i then v.list[j] else if j == i then n else v.list[j - 1]) && LinkOk(w, j)
            && ExtentOf(w.info[w.list[j]]) == (if j == i then Extent(start, end, false)
                else ExtentOf(v.info[w.list[j]]))
  {
    AllDistinct(v);
    assert LinkOk(v, i) && n !in v.list;
    if i > 0 { assert LinkOk(v, i - 1); }
    if j < i { assert LinkOk(v, j); }
    if j > i { assert LinkOk(v, j - 1); }
  }

  lemma AddBeforeKeys(v: View, i: nat, n: Region, start: nat, end: nat)
    requires Chained(v) && i < |v.list| && n !in v.info
    ensures AddBefore(v, i, n, start, end).info.Keys == v.info.Keys + {n}
  {
    assert LinkOk(v, i) && (i > 0 ==> LinkOk(v, i - 1));
  }

  lemma AddBeforeChained(v: View, i: nat, n: Region, start: nat, end: nat)
    requires Chained(v) && i < |v.list| && n !in v.info
    ensures Chained(AddBefore(v, i, n, start, end))
  {
    forall j | 0 <= j < |AddBefore(v, i, n, start, end).list| ensures LinkOk(AddBefore(v, i, n, start, end), j) {
      AddBeforeLink(v, i, n, start, end, j);
    }
    Inserted(v.list, i, n);
    AddBeforeKeys(v, i, n, start, end);
  }

  lemma AddBeforeOk(v: View, i: nat, n: Region, start: nat, end: nat)
    requires Chained(v) && i < |v.list| && n !in v.info
    ensures var w, t := AddBefore(v, i, n, start, end), TilingOf(v);
            && Chained(w)
            && TilingOf(w) == t[..i] + [Extent(start, end, false)] + t[i..]
  {
    AddBeforeChained(v, i, n, start, end);
    var w := AddBefore(v, i, n, start, end);
    var t, u := TilingOf(v), TilingOf(w);
    forall j | 0 <= j < i ensures u[j] == t[j] { AddBeforeLink(v, i, n, start, end, j); }
    forall j | i < j < |u| ensures u[j] == t[j - 1] { AddBeforeLink(v, i, n, start, end, j); }
    AddBeforeLink(v, i, n, start, end, i);
    Grown(t, u, i, Extent(start, end, false));
  }

  lemma AddAfterLink(v: View, i: nat, n: Region, start: nat, end: nat, j: nat)
    requires Chained(v) && i < |v.list| && n !in v.info && j <= |v.list|
    ensures var w := AddAfter(v, i, n, start, end);
            && w.list[j] == (if j <= i then v.list[j] else if j == i + 1 then n else v.list[j - 1]) && LinkOk(w, j)
            && ExtentOf(w.info[w.list[j]]) == (if j == i + 1 then Extent(start, end, false)
                else ExtentOf(v.info[w.list[j]]))
  {
    AllDistinct(v);
    assert LinkOk(v, i) && n !in v.list;
    if i + 1 < |v.list| { assert LinkOk(v, i + 1); }
    if j <= i { assert LinkOk(v, j); }
    if j > i + 1 { assert LinkOk(v, j - 1); }
    var w := AddAfter(v, i, n, start, end);
    ListAfter(v.list, i, n, j);
    if j > 0 { ListAfter(v.list, i, n, j - 1); }
    if j < |v.list| { ListAfter(v.list, i, n, j + 1); }
    AddAfterInfo(v, i, n, start, end, w.list[j]);
    hide AddAfter;
  }

  lemma ListAfter(list: seq<Region>, i: nat, n: Region, j: nat)
    requires i < |list| && j <= |list|
    ensures (list[..i + 1] + [n] + list[i + 1..])[j] == if j <= i then list[j] else if j == i + 1 then n
        else list[j - 1]
  {
  }

  lemma AddAfterInfo(v: View, i: nat, n: Region, start: nat, end: nat, x: Region)
    requires Chained(v) && i < |v.list| && n !in v.info && (x == n || x in v.info) && v.list[i] in v.info
    requires v.info[v.list[i]].next != null ==> v.info[v.list[i]].next in v.info && v.info[v.list[i]].next != v.list[i]
    ensures var w, m := AddAfter(v, i, n, start, end).info, v.list[i];
            var b := v.info[m].next;
            && x in w
            && w[x] == if x == n then Info(start, end, false, m, b) else if x == b then v.info[x].(prev := n)
                       else if x == m then v.info[x].(next := n) else v.info[x]
  {
  }

  lemma AddAfterKeys(v: View, i: nat, n: Region, start: nat, end: nat)
    requires Chained(v) && i < |v.list| && n !in v.info
    ensures AddAfter(v, i, n, start, end).info.Keys == v.info.Keys + {n}
  {
    assert LinkOk(v, i) && (i + 1 < |v.list| ==> LinkOk(v, i + 1));
  }

  lemma AddAfterChained(v: View, i: nat, n: Region, start: nat, end: nat)
    requires Chained(v) && i < |v.list| && n !in v.info
    ensures Chained(AddAfter(v, i, n, start, end))
  {
    forall j | 0 <= j < |AddAfter(v, i, n, start, end).list| ensures LinkOk(AddAfter(v, i, n, start, end), j) {
      AddAfterLink(v, i, n, start, end, j);
    }
    Inserted(v.list, i + 1, n);
    AddAfterKeys(v, i, n, start, end);
  }

  lemma AddAfterOk(v: View, i: nat, n: Region, start: nat, end: nat)
    requires Chained(v) && i < |v.list| && n !in v.info
    ensures var w, t := AddAfter(v, i, n, start, end), TilingOf(v);
            && Chained(w)
            && TilingOf(w) == t[..i + 1] + [Extent(start, end, false)] + t[i + 1..]
  {
    hide Chained, LinkOk, AddAfter, TilingOf;
    AddAfterChained(v, i, n, start, end);
    var w := AddAfter(v, i, n, start, end);
    var t, u := TilingOf(v), TilingOf(w);
    AddAfterTile(v, i, n, start, end, i + 1);
    forall j | 0 <= j < |u| && j != i + 1 ensures u[j] == t[if j < i + 1 then j else j - 1] {
      AddAfterTile(v, i, n, start, end, j);
    }
    Grown(t, u, i + 1, Extent(start, end, false));
  }

  lemma AddAfterTile(v: View, i: nat, n: Region, start: nat, end: nat, j: nat)
    requires Chained(v) && i < |v.list| && n !in v.info && Chained(AddAfter(v, i, n, start, end)) && j <= |v.list|
    ensures var t, u := TilingOf(v), TilingOf(AddAfter(v, i, n, start, end));
            && |t| == |v.list| && |u| == |t| + 1
            && u[j] == if j < i + 1 then t[j] else if j == i + 1 then Extent(start, end, false) else t[j - 1]
  {
    AddAfterLink(v, i, n, start, end, j);
  }

  lemma Inserted(s: seq<Region>, k: nat, n: Region)
    requires k <= |s| && n !in s
    ensures Elems(s[..k] + [n] + s[k..]) == Elems(s) + {n}
  {
    var u := s[..k] + [n] + s[k..];
    assert u[k] == n;
    forall x | x in s ensures x in u {
      var i :| 0 <= i < |s| && s[i] == x;
      assert u[if i < k then i else i + 1] == x;
    }
    forall i | 0 <= i < |u| ensures u[i] == n || u[i] in s {
      assert i != k ==> u[i] == s[if i < k then i else i - 1];
    }
  }

  // ------------------------------------------------------------- merging neighbours

  /** Lines 551-555: region `i` swallows the region in front of it. */
  ghost function MergePrev(v: View, i: nat): View
    requires Chained(v) && 0 < i < |v.list|
  {
    assert LinkOk(v, i) && LinkOk(v, i - 1);
    var m, p := v.list[i], v.list[i - 1];
    var pp := v.info[p].prev;
    assert pp != null ==> LinkOk(v, i - 2);
    var info := v.info[m := v.info[m].(start := v.info[p].start, prev := pp)];
    View(WithNext(info, pp, m) - {p}, v.list[..i - 1] + v.list[i..])
  }

  /** Lines 580-584: region `i` swallows the region behind it. */
  ghost function MergeNext(v: View, i: nat): View
    requires Chained(v) && i + 1 < |v.list|
  {
    assert LinkOk(v, i) && LinkOk(v, i + 1);
    var m, x := v.list[i], v.list[i + 1];
    var xx := v.info[x].next;
    assert xx != null ==> LinkOk(v, i + 2);
    var info := v.info[m := v.info[m].(end := v.info[x].end, next := xx)];
    View(WithPrev(info, xx, m) - {x}, v.list[..i + 1] + v.list[i + 2..])
  }

  lemma MergePrevLink(v: View, i: nat, j: nat)
    requires Chained(v) && 0 < i < |v.list| && j + 1 < |v.list|
    ensures var w := MergePrev(v, i);
            && w.list[j] == v.list[if j < i - 1 then j else j + 1] && LinkOk(w, j)
            && ExtentOf(w.info[w.list[j]]) ==
               (var e := ExtentOf(v.info[w.list[j]]);
                if j == i - 1 then e.(start := v.info[v.list[i - 1]].start) else e)
  {
    AllDistinct(v);
    assert LinkOk(v, i) && LinkOk(v, i - 1);
    if i > 1 { assert LinkOk(v, i - 2); }
    assert LinkOk(v, if j < i - 1 then j else j + 1);
  }

  lemma MergePrevKeys(v: View, i: nat)
    requires Chained(v) && 0 < i < |v.list|
    ensures MergePrev(v, i).info.Keys == v.info.Keys - {v.list[i - 1]}
  {
    assert LinkOk(v, i) && LinkOk(v, i - 1) && (i > 1 ==> LinkOk(v, i - 2));
  }

  lemma MergePrevChained(v: View, i: nat)
    requires Chained(v) && 0 < i < |v.list|
    ensures Chained(MergePrev(v, i))
  {
    forall j | 0 <= j < |MergePrev(v, i).list| ensures LinkOk(MergePrev(v, i), j) {
      MergePrevLink(v, i, j);
    }
    AllDistinct(v);
    Without(v.list, i - 1);
    MergePrevKeys(v, i);
  }

  lemma MergePrevPoints(v: View, i: nat)
    requires Chained(v) && 0 < i < |v.list| && Chained(MergePrev(v, i))
    ensures var w, t := MergePrev(v, i), TilingOf(v);
            && |w.list| == |v.list| - 1 && w.list[i - 1] == v.list[i]
            && (forall j :: 0 <= j < i - 1 ==> TilingOf(w)[j] == t[j])
            && TilingOf(w)[i - 1] == Extent(t[i - 1].start, t[i].end, t[i].used)
            && (forall j :: i - 1 < j < |w.list| ==> TilingOf(w)[j] == t[j + 1])
  {
    var t, u := TilingOf(v), TilingOf(MergePrev(v, i));
    forall j | 0 <= j < i - 1 ensures u[j] == t[j] { MergePrevLink(v, i, j); }
    forall j | i - 1 < j < |u| ensures u[j] == t[j + 1] { MergePrevLink(v, i, j); }
    MergePrevLink(v, i, i - 1);
  }

  lemma MergePrevOk(v: View, i: nat)
    requires Chained(v) && 0 < i < |v.list|
    ensures var w, t := MergePrev(v, i), TilingOf(v);
            && Chained(w) && w.list[i - 1] == v.list[i]
            && TilingOf(w) == t[..i - 1] + [Extent(t[i - 1].start, t[i].end, t[i].used)] + t[i + 1..]
  {
    MergePrevChained(v, i);
    MergePrevPoints(v, i);
    var t, u := TilingOf(v), TilingOf(MergePrev(v, i));
    Shrunk(t, u, i - 1, i + 1, Extent(t[i - 1].start, t[i].end, t[i].used));
  }

  lemma MergeNextLink(v: View, i: nat, j: nat)
    requires Chained(v) && i + 1 < |v.list| && j + 1 < |v.list|
    ensures var w := MergeNext(v, i);
            && w.list[j] == v.list[if j <= i then j else j + 1] && LinkOk(w, j)
            && ExtentOf(w.info[w.list[j]]) ==
               (var e := ExtentOf(v.info[w.list[j]]);
                if j == i then e.(end := v.info[v.list[i + 1]].end) else e)
  {
    AllDistinct(v);
    assert LinkOk(v, i) && LinkOk(v, i + 1);
    if i + 2 < |v.list| { assert LinkOk(v, i + 2); }
    assert LinkOk(v, if j <= i then j else j + 1);
  }

  lemma MergeNextKeys(v: View, i: nat)
    requires Chained(v) && i + 1 < |v.list|
    ensures MergeNext(v, i).info.Keys == v.info.Keys - {v.list[i + 1]}
  {
    assert LinkOk(v, i) && LinkOk(v, i + 1) && (i + 2 < |v.list| ==> LinkOk(v, i + 2));
  }

  lemma MergeNextChained(v: View, i: nat)
    requires Chained(v) && i + 1 < |v.list|
    ensures Chained(MergeNext(v, i))
  {
    forall j | 0 <= j < |MergeNext(v, i).list| ensures LinkOk(MergeNext(v, i), j) {
      MergeNextLink(v, i, j);
    }
    AllDistinct(v);
    Without(v.list, i + 1);
    MergeNextKeys(v, i);
  }

  lemma MergeNextPoints(v: View, i: nat)
    requires Chained(v) && i + 1 < |v.list| && Chained(MergeNext(v, i))
    ensures var w, t := MergeNext(v, i), TilingOf(v);
            && |w.list| == |v.list| - 1 && w.list[i] == v.list[i]
            && (forall j :: 0 <= j < i ==> TilingOf(w)[j] == t[j])
            && TilingOf(w)[i] == Extent(t[i].start, t[i + 1].end, t[i].used)
            && (forall j :: i < j < |w.list| ==> TilingOf(w)[j] == t[j + 1])
  {
    var t, u := TilingOf(v), TilingOf(MergeNext(v, i));
    forall j | 0 <= j < i ensures u[j] == t[j] { MergeNextLink(v, i, j); }
    forall j | i < j < |u| ensures u[j] == t[j + 1] { MergeNextLink(v, i, j); }
    MergeNextLink(v, i, i);
  }

  lemma MergeNextOk(v: View, i: nat)
    requires Chained(v) && i + 1 < |v.list|
    ensures var w, t := MergeNext(v, i), TilingOf(v);
            && Chained(w) && w.list[i] == v.list[i]
            && TilingOf(w) == t[..i] + [Extent(t[i].start, t[i + 1].end, t[i].used)] + t[i + 2..]
  {
    MergeNextChained(v, i);
    MergeNextPoints(v, i);
    var t, u := TilingOf(v), TilingOf(MergeNext(v, i));
    Shrunk(t, u, i, i + 2, Extent(t[i].start, t[i + 1].end, t[i].used));
  }

  lemma Without(s: seq<Region>, k: nat)
    requires k < |s| && Distinct(s)
    ensures Elems(s[..k] + s[k + 1..]) == Elems(s) - {s[k]}
  {
    var u := s[..k] + s[k + 1..];
    forall x | x in s && x != s[k] ensures x in u {
      var i :| 0 <= i < |s| && s[i] == x;
      assert u[if i < k then i else i - 1] == x;
    }
    forall i | 0 <= i < |u| ensures u[i] == s[if i < k then i else i + 1] {}
  }

  // ------------------------------------------------------------- changing one region

  ghost function Resize(v: View, i: nat, start: nat, end: nat, used: bool): View
    requires Chained(v) && i < |v.list|
  {
    assert LinkOk(v, i);
    var m := v.list[i];
    v.(info := v.info[m := v.info[m].(start := start, end := end, used := used)])
  }

  lemma ResizeOk(v: View, i: nat, start: nat, end: nat, used: bool)
    requires Chained(v) && i < |v.list|
    ensures var w := Resize(v, i, start, end, used);
            Chained(w) && TilingOf(w) == TilingOf(v)[i := Extent(start, end, used)]
  {
    AllDistinct(v);
    var w := Resize(v, i, start, end, used);
    assert LinkOk(v, i);
    forall j | 0 <= j < |w.list| ensures LinkOk(w, j) {
      assert LinkOk(v, j);
    }
  }
}
