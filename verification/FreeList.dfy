/**
 The freelist of one order of physical pages (src/pmem.c). The allocator is written against the
 abstract list, a sequence of set indices with the head first. This module ties that list to the
 `next`/`prev`/`head` pointers of the source and states exactly when the pointer code agrees.
 */
module FreeList {
  import opened Common

  ghost predicate Distinct(xs: seq<nat>) {
    forall i, j :: 0 <= i < j < |xs| ==> xs[i] != xs[j]
  }

  /** Attaching is idempotent, as the comment in `__attach_set` describes. */
  function Attach(xs: seq<nat>, s: nat): (r: seq<nat>)
    ensures forall x :: x in r <==> x in xs || x == s
    ensures Distinct(xs) ==> Distinct(r)
  {
    if s in xs then xs else [s] + xs
  }

  function Detach(xs: seq<nat>, s: nat): (r: seq<nat>)
    ensures forall x :: x in r <==> x in xs && (x != s || s in r)
    ensures Distinct(xs) ==> s !in r && Distinct(r)
  {
    if xs == [] then []
    else if xs[0] == s then
      assert forall x :: x in xs <==> x == xs[0] || x in xs[1..];
      xs[1..]
    else
      assert forall x :: x in xs <==> x == xs[0] || x in xs[1..];
      var t := Detach(xs[1..], s);
      assert forall i :: 0 <= i < |t| ==> t[i] in xs[1..];
      assert Distinct(xs) ==> Distinct(xs[1..]);
      [xs[0]] + t
  }

  /** The pointers of one bucket; a key absent from `next` or `prev` is a NULL pointer. */
  datatype Links = Links(head: Option<nat>, next: map<nat, nat>, prev: map<nat, nat>)

  ghost predicate NextOk(next: map<nat, nat>, xs: seq<nat>, i: nat)
    requires i < |xs|
  {
    if i + 1 < |xs| then xs[i] in next && next[xs[i]] == xs[i + 1] else xs[i] !in next
  }

  ghost predicate PrevOk(prev: map<nat, nat>, xs: seq<nat>, i: nat)
    requires i < |xs|
  {
    if i > 0 then xs[i] in prev && prev[xs[i]] == xs[i - 1] else xs[i] !in prev
  }

  ghost predicate Represents(l: Links, xs: seq<nat>) {
    && Distinct(xs)
    && l.head == (if xs == [] then None else Some(xs[0]))
    && (forall s :: s in l.next || s in l.prev ==> s in xs)
    && (forall i :: 0 <= i < |xs| ==> NextOk(l.next, xs, i) && PrevOk(l.prev, xs, i))
  }

  /** `__attach_set` exactly as written, with its test for "already attached". */
  function AttachLiteral(l: Links, s: nat): Links {
    if s in l.next || l.head == Some(s) then l
    else if l.head.Some? then
      Links(Some(s), l.next[s := l.head.value], l.prev[l.head.value := s])
    else Links(Some(s), l.next, l.prev)
  }

  /** `__detach_set` exactly as written. */
  function DetachLiteral(l: Links, s: nat): Links {
    var head := if l.head == Some(s) then (if s in l.next then Some(l.next[s]) else None) else l.head;
    var prev := if s in l.next then
                  (if s in l.prev then l.prev[l.next[s] := l.prev[s]] else l.prev - {l.next[s]})
                else l.prev;
    var next := if s in l.prev then
                  (if s in l.next then l.next[l.prev[s] := l.next[s]] else l.next - {l.prev[s]})
                else l.next;
    Links(head, next - {s}, prev - {s})
  }

  /**
   The pointer test `next || head == bmap` misses the tail of a list of two or more sets. The
   literal code is the idempotent attach exactly for every other set.
   */
  lemma AttachLiteralCorrectIff(l: Links, xs: seq<nat>, s: nat)
    requires Represents(l, xs)
    ensures Represents(AttachLiteral(l, s), Attach(xs, s)) <==>
            !(|xs| >= 2 && xs[|xs| - 1] == s)
  {
    if s !in xs {
      var ys := [s] + xs;
      var l' := AttachLiteral(l, s);
      forall i | 0 <= i < |ys| ensures NextOk(l'.next, ys, i) && PrevOk(l'.prev, ys, i) {
        if i > 0 {
          assert ys[i] == xs[i - 1];
          assert NextOk(l.next, xs, i - 1) && PrevOk(l.prev, xs, i - 1);
        }
      }
    } else {
      var k :| 0 <= k < |xs| && xs[k] == s;
      assert NextOk(l.next, xs, k) && PrevOk(l.prev, xs, k);
      assert xs[|xs| - 1] == s <==> k + 1 == |xs|;
    }
  }

  /** Following `next` from the head after re-attaching the tail never reaches the end of the list. */
  lemma AttachTailMakesCycle(l: Links, xs: seq<nat>)
    requires Represents(l, xs) && |xs| >= 2
    ensures var l' := AttachLiteral(l, xs[|xs| - 1]);
            forall s :: s in xs ==> s in l'.next && l'.next[s] in xs
  {
    var l' := AttachLiteral(l, xs[|xs| - 1]);
    assert NextOk(l.next, xs, |xs| - 1);
    forall s | s in xs ensures s in l'.next && l'.next[s] in xs {
      var k :| 0 <= k < |xs| && xs[k] == s;
      assert NextOk(l.next, xs, k);
    }
  }

  lemma {:induction false} DetachAt(xs: seq<nat>, k: nat)
    requires k < |xs| && Distinct(xs)
    ensures Detach(xs, xs[k]) == xs[..k] + xs[k + 1..]
  {
    if k > 0 {
      var rest := xs[1..];
      assert rest[k - 1] == xs[k] && xs[0] != xs[k];
      DetachAt(rest, k - 1);
      assert Detach(xs, xs[k]) == [xs[0]] + Detach(rest, xs[k]);
      assert xs[..k] == [xs[0]] + rest[..k - 1] && rest[k..] == xs[k + 1..];
    }
  }

  /** `ys` is `xs` without its element `k`. */
  ghost predicate Shortened(xs: seq<nat>, k: nat, ys: seq<nat>) {
    && k < |xs| && |ys| == |xs| - 1
    && (forall i :: 0 <= i < k ==> ys[i] == xs[i]) && (forall i :: k <= i < |ys| ==> ys[i] == xs[i + 1])
  }

  lemma DetachNext(l: Links, xs: seq<nat>, k: nat, ys: seq<nat>, i: nat)
    requires Represents(l, xs) && Shortened(xs, k, ys) && i < |ys|
    ensures NextOk(DetachLiteral(l, xs[k]).next, ys, i)
  {
    assert NextOk(l.next, xs, k) && PrevOk(l.prev, xs, k);
    assert NextOk(l.next, xs, if i < k then i else i + 1);
    if k > 0 { assert NextOk(l.next, xs, k - 1); }
  }

  lemma DetachPrev(l: Links, xs: seq<nat>, k: nat, ys: seq<nat>, i: nat)
    requires Represents(l, xs) && Shortened(xs, k, ys) && i < |ys|
    ensures PrevOk(DetachLiteral(l, xs[k]).prev, ys, i)
  {
    assert NextOk(l.next, xs, k) && PrevOk(l.prev, xs, k);
    assert PrevOk(l.prev, xs, if i < k then i else i + 1);
    if k + 1 < |xs| { assert PrevOk(l.prev, xs, k + 1); }
  }

  lemma DetachKeys(l: Links, xs: seq<nat>, k: nat, x: nat)
    requires Represents(l, xs) && k < |xs|
    ensures var l' := DetachLiteral(l, xs[k]); x in l'.next || x in l'.prev ==> x in xs && x != xs[k]
  {
    assert NextOk(l.next, xs, k) && PrevOk(l.prev, xs, k);
  }

  /** `__detach_set` unlinks a listed set wherever it is in the list. */
  lemma DetachLiteralCorrect(l: Links, xs: seq<nat>, k: nat)
    requires Represents(l, xs) && k < |xs|
    ensures Represents(DetachLiteral(l, xs[k]), Detach(xs, xs[k]))
  {
    hide DetachLiteral, Detach;
    var ys := Detach(xs, xs[k]);
    DetachAt(xs, k);
    assert Shortened(xs, k, ys);
    DetachHead(l, xs, k);
    forall i | 0 <= i < |ys| ensures NextOk(DetachLiteral(l, xs[k]).next, ys, i)
        && PrevOk(DetachLiteral(l, xs[k]).prev, ys, i) {
      DetachNext(l, xs, k, ys, i);
      DetachPrev(l, xs, k, ys, i);
    }
    forall x | x in DetachLiteral(l, xs[k]).next || x in DetachLiteral(l, xs[k]).prev ensures x in ys {
      DetachKeys(l, xs, k, x);
    }
  }

  lemma DetachHead(l: Links, xs: seq<nat>, k: nat)
    requires Represents(l, xs) && k < |xs|
    ensures DetachLiteral(l, xs[k]).head == (if |xs| == 1 then None else if k == 0 then Some(xs[1]) else Some(xs[0]))
  {
    assert NextOk(l.next, xs, k);
  }
}
