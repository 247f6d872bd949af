/**
 The RPC stack of a thread (arch/riscv64/kernel/vmem.c, the stack half of src/uapi/ipc.c): 512 pages in
 which call contexts, out of reach of user code, alternate with user stack pages marked VM_U.

 Stack positions are counted in pages. A context stored at position `p` sits at the top of page `p - 1`.
 */
module Rpc {

  const PAGES := 512
  const PAGE_SIZE := 4096

  /** `struct call_ctx`: what a call saves about its caller, `back` being the caller's stack position. */
  datatype Ctx = Ctx(exec: nat, back: nat, eid: nat, pid: nat)

  /** VM_U of every stack page, `rpc_idx`, `rpc_stack`, and the contents of the context slot of every page. */
  datatype Stack = Stack(user: seq<bool>, idx: int, pos: nat, mem: seq<Ctx>)

  /** A live call: where its context is and what it holds. */
  datatype Call = Call(pos: nat, ctx: Ctx)

  /** `setup_rpc_stack` */
  function NewStack(): (s: Stack)
    ensures Sound(s, []) && |s.user| == 512 && s.idx == 511 && s.pos == 512
    ensures forall p :: 0 <= p < 512 ==> !s.user[p]
  {
    Stack(seq(PAGES, i => false), PAGES - 1, PAGES, seq(PAGES, i => Ctx(0, 0, 0, 0)))
  }

  /** Where call `k` returns to. */
  ghost function BackOf(calls: seq<Call>, k: nat): nat
    requires k < |calls|
  {
    if k == 0 then PAGES else calls[k - 1].pos
  }

  /** The context of call `k` lies where it should, holds what was saved, and user code cannot touch it. */
  ghost predicate Kept(s: Stack, calls: seq<Call>, k: nat)
    requires k < |calls| && |s.user| == PAGES && |s.mem| == PAGES
  {
    var p := calls[k].pos;
    && 0 < s.idx && s.idx + 1 < p < PAGES && (k > 0 ==> p + 2 <= calls[k - 1].pos)
    && !s.user[p - 1] && s.mem[p - 1] == calls[k].ctx && calls[k].ctx.back == BackOf(calls, k)
  }

  /**
   `calls`, outermost first, are exactly the calls on the stack: contexts in distinct pages at strictly
   decreasing addresses, above the current user stack, none of them accessible to user code.
   */
  ghost predicate Sound(s: Stack, calls: seq<Call>) {
    && |s.user| == PAGES && |s.mem| == PAGES && 1 <= s.idx < PAGES && !s.user[0] && !s.user[PAGES - 1]
    && s.pos == (if calls == [] then PAGES else calls[|calls| - 1].pos)
    && s.idx < (if calls == [] then PAGES else s.pos - 1)
    && (s.user[s.idx] || (calls == [] && !s.user[s.idx - 1]))
    && (forall k :: 0 <= k < |calls| ==> Kept(s, calls, k))
  }

  /** Live contexts sit in distinct pages, at addresses that decrease with the depth of the call. */
  lemma {:induction false} Decreasing(s: Stack, calls: seq<Call>, i: nat, j: nat)
    requires Sound(s, calls) && i < j < |calls|
    ensures calls[j].pos + 2 <= calls[i].pos
    decreases j
  {
    assert Kept(s, calls, j);
    if i < j - 1 {
      Decreasing(s, calls, i, j - 1);
    }
  }

  // ---------------------------------------------------------------- user code runs

  /** User code may write any page that carries VM_U. */
  predicate Touches(s: Stack, r: Stack) {
    && r.user == s.user && r.idx == s.idx && r.pos == s.pos && |r.mem| == |s.mem|
    && forall p :: 0 <= p < |s.mem| && p < |s.user| && !s.user[p] ==> r.mem[p] == s.mem[p]
  }

  /** Nothing user code writes can alter a live context. */
  lemma UserCannotForge(s: Stack, calls: seq<Call>, r: Stack)
    requires Sound(s, calls) && Touches(s, r)
    ensures Sound(r, calls)
  {
    forall k | 0 <= k < |calls| ensures Kept(r, calls, k) {
      assert Kept(s, calls, k);
    }
  }

  /** Every context is where it was saved and out of reach of user code. */
  ghost predicate Guarded(s: Stack, calls: seq<Call>) {
    && |s.user| == PAGES && |s.mem| == PAGES
    && forall k :: 0 <= k < |calls| ==>
         0 < calls[k].pos < PAGES && !s.user[calls[k].pos - 1] && s.mem[calls[k].pos - 1] == calls[k].ctx
  }

  /** All contexts lie above the current user stack. */
  lemma SoundGuards(s: Stack, calls: seq<Call>, r: Stack)
    requires Sound(s, calls) && |r.user| == PAGES && |r.mem| == PAGES
    requires forall p :: s.idx < p < PAGES ==> r.mem[p] == s.mem[p] && (r.user[p] ==> s.user[p])
    ensures Guarded(r, calls)
  {
    forall k | 0 <= k < |calls|
      ensures 0 < calls[k].pos < PAGES && !r.user[calls[k].pos - 1] && r.mem[calls[k].pos - 1] == calls[k].ctx
    {
      assert Kept(s, calls, k);
    }
  }

  /** Every page from `bottom` up to the old lowest one is accessible, and nothing else has changed. */
  ghost predicate Opened(s: Stack, r: Stack, bottom: nat) {
    && |s.user| == 512 && |r.user| == 512 && r.idx == bottom && r.pos == s.pos && r.mem == s.mem
    && (forall p :: bottom <= p < s.idx && p < 512 ==> r.user[p])
    && forall p :: 0 <= p < 512 && !(bottom <= p < s.idx) ==> r.user[p] == s.user[p]
  }

  /** The stack once it has grown down to page `bottom`. */
  function Grown(s: Stack, bottom: nat): Stack {
    s.(user := seq(|s.user|, p requires 0 <= p < |s.user| => s.user[p] || bottom <= p < s.idx), idx := bottom)
  }

  /** `grow_rpc` after a fault in page `bottom` of the stack; the lowest page is not meant to be reached. */
  method Grow(s: Stack, bottom: nat, ghost calls: seq<Call>) returns (r: Stack)
    requires Sound(s, calls) && bottom <= s.idx
    ensures r == Grown(s, bottom) && (Sound(r, calls) <==> bottom >= 1)
    ensures Guarded(r, calls)
    ensures Opened(s, r, bottom)
  {
    var user := s.user;
    for i := bottom to s.idx
      invariant |user| == PAGES
      invariant forall p :: 0 <= p < PAGES ==> user[p] == (s.user[p] || bottom <= p < i)
    {
      user := user[i := true];
    }
    r := s.(user := user, idx := bottom);
    assert user == Grown(s, bottom).user;
    GrowKeeps(s, bottom, calls);
  }

  lemma GrowKeeps(s: Stack, bottom: nat, calls: seq<Call>)
    requires Sound(s, calls) && bottom <= s.idx
    ensures Sound(Grown(s, bottom), calls) <==> bottom >= 1
    ensures Guarded(Grown(s, bottom), calls) && Opened(s, Grown(s, bottom), bottom)
  {
    var r := Grown(s, bottom);
    SoundGuards(s, calls, r);
    if bottom >= 1 {
      forall k | 0 <= k < |calls| ensures Kept(r, calls, k) {
        assert Kept(s, calls, k);
      }
    }
  }

  // ------------------------------------------------------------------------ calls

  /** `rpc_stack_size` bytes and a context page must still fit below the current position. */
  predicate Enough(s: Stack, size: nat) {
    s.idx * PAGE_SIZE >= PAGE_SIZE + size
  }

  /** Where the loop shared by `new_rpc` and `reuse_rpc` stops, from page `i` downward; -1 if it leaves the table. */
  function Lowest(user: seq<bool>, i: int): (r: int)
    requires -1 <= i < |user|
    ensures -1 <= r <= i && (forall p :: r < p <= i ==> user[p]) && (r >= 0 && r < PAGES - 1 ==> !user[r])
    decreases i + 1
  {
    if i < 0 || i >= PAGES - 1 || !user[i] then i else Lowest(user, i - 1)
  }

  /** The stack after a call: the context is written, VM_U cleared downward, and the page below the context opened. */
  function Pushed(s: Stack, exec: nat, pid: nat, eid: nat): Stack
    requires |s.user| == PAGES && |s.mem| == PAGES && 1 <= s.idx < PAGES
  {
    var top := Lowest(s.user, s.idx);
    var user := seq(PAGES, p requires 0 <= p < PAGES => s.user[p] && !(top < p <= s.idx));
    Stack(if s.idx >= 2 then user[s.idx - 2 := true]
        else user, s.idx - 2, s.idx, s.mem[s.idx - 1 := Ctx(exec, s.pos, eid, pid)])
  }

  /** The call that a push records. */
  function CallOf(s: Stack, exec: nat, pid: nat, eid: nat): Call
    requires s.idx >= 0
  {
    Call(s.idx, Ctx(exec, s.pos, eid, pid))
  }

  /**
   A push needs two pages above the lowest one. Below that the calls are no longer sound, and the loop of the next
   tail call runs off the table.
   */
  lemma PushSoundIff(s: Stack, calls: seq<Call>, exec: nat, pid: nat, eid: nat)
    requires Sound(s, calls)
    ensures Sound(Pushed(s, exec, pid, eid), calls + [CallOf(s, exec, pid, eid)]) <==> s.idx >= 3
    ensures var r := Pushed(s, exec, pid, eid); Lowest(r.user, r.idx) >= 0 <==> s.idx >= 3
  {
    var r, calls' := Pushed(s, exec, pid, eid), calls + [CallOf(s, exec, pid, eid)];
    if s.idx >= 3 {
      assert !r.user[0];
      forall k | 0 <= k < |calls'| ensures Kept(r, calls', k) {
        if k < |calls| { assert Kept(s, calls, k); }
        if |calls| > 0 { assert Kept(s, calls, |calls| - 1); }
      }
    }
  }

  /**
   The check asks for the configured bytes below the page of the context. It keeps every call sound exactly if more than
   one page is configured: `set_conf` also accepts no page
   and one. A stack that has grown to page 2 passes the check for those.
   */
  lemma EnoughIff(size: nat)
    ensures forall s: Stack :: Enough(s, size) <==> size <= (s.idx - 1) * 4096
    ensures (forall s: Stack, calls: seq<Call>, exec: nat, pid: nat, eid: nat :: Sound(s, calls) && Enough(s, size) ==>
              Sound(Pushed(s, exec, pid, eid), calls + [CallOf(s, exec, pid, eid)])) <==> size > 4096
  {
    if size <= PAGE_SIZE {
      var s := Grown(NewStack(), 2);
      GrowKeeps(NewStack(), 2, []);
      PushSoundIff(s, [], 0, 0, 0);
      assert Sound(s, []) && Enough(s, size) && !Sound(Pushed(s, 0, 0, 0), [] + [CallOf(s, 0, 0, 0)]);
    } else {
      forall s: Stack, calls: seq<Call>, exec: nat, pid: nat, eid: nat | Sound(s, calls) && Enough(s, size)
        ensures Sound(Pushed(s, exec, pid, eid), calls + [CallOf(s, exec, pid, eid)])
      {
        PushSoundIff(s, calls, exec, pid, eid);
      }
    }
  }

  /** The loop shared by `new_rpc` and `reuse_rpc`: clear VM_U from `rpc_idx` downward until a page without it. */
  method ClearDown(s: Stack, ghost calls: seq<Call>) returns (user: seq<bool>, top: int)
    requires Sound(s, calls)
    ensures |user| == PAGES && 0 <= top <= s.idx && (!s.user[top] || top == PAGES - 1) && top == Lowest(s.user, s.idx)
    ensures forall p :: 0 <= p < PAGES ==> user[p] == (s.user[p] && !(top < p <= s.idx))
    ensures forall p :: top < p <= s.idx ==> s.user[p]
  {
    user, top := s.user, s.idx;
    while top < PAGES - 1
      invariant 0 <= top <= s.idx && |user| == PAGES && Lowest(s.user, s.idx) == Lowest(s.user, top)
      invariant forall p :: 0 <= p < PAGES ==> user[p] == (s.user[p] && !(top < p <= s.idx))
      invariant forall p :: top < p <= s.idx ==> s.user[p]
      decreases top
    {
      if !user[top] {
        break;
      }
      user := user[top := false];
      top := top - 1;
    }
  }

  /** Page `p` is in the caller's current run of user pages: it and all pages up to `rpc_idx` are accessible. */
  ghost predicate InRun(s: Stack, p: nat) {
    p <= s.idx < |s.user| && forall q :: p <= q <= s.idx ==> s.user[q]
  }

  /** Page `p` is in the callee's current run of user pages: it and all pages down to `rpc_idx` are accessible. */
  ghost predicate InRunUp(s: Stack, p: nat) {
    0 <= s.idx && p < |s.user| && forall q :: s.idx <= q <= p ==> s.user[q]
  }

  /** The caller's context, then `new_rpc`: a call adds one context and overwrites none. */
  method Push(s: Stack, exec: nat, pid: nat, eid: nat, ghost calls: seq<Call>) returns (r: Stack)
    requires Sound(s, calls)
    ensures r == Pushed(s, exec, pid, eid) && (Sound(r, calls + [CallOf(s, exec, pid, eid)]) <==> s.idx >= 3)
    ensures Guarded(r, calls)
    ensures |r.user| == 512 && r.idx == s.idx - 2 && r.pos == s.idx
    ensures r.mem == s.mem[s.idx - 1 := Ctx(exec, s.pos, eid, pid)]
    ensures forall p :: 0 <= p < 512 ==> (r.user[p] <==> p == s.idx - 2 || (s.user[p] && !InRun(s, p)))
  {
    PushSoundIff(s, calls, exec, pid, eid);
    var mem := s.mem[s.idx - 1 := Ctx(exec, s.pos, eid, pid)];
    var user, top := ClearDown(s, calls);
    if s.idx >= 2 {
      // the entry of page -1, which the source would write otherwise, is no entry of the table
      user := user[s.idx - 2 := true];
    }
    r := Stack(user, s.idx - 2, s.idx, mem);
    assert user == Pushed(s, exec, pid, eid).user;
    SoundGuards(s, calls, r);
  }

  /**
   The stack after a tail call: the run of user pages is cleared but for its lowest page, where the stack starts
   again.
   */
  function Reused(s: Stack): Stack
    requires |s.user| == PAGES && 0 <= s.idx < PAGES - 1
  {
    var top := Lowest(s.user, s.idx);
    var user := seq(PAGES, p requires 0 <= p < PAGES => s.user[p] && !(top < p <= s.idx));
    s.(user := user[top + 1 := true], idx := top + 1)
  }

  /** `reuse_rpc`: a tail call keeps all contexts. */
  method Reuse(s: Stack, ghost calls: seq<Call>) returns (r: Stack)
    requires Sound(s, calls) && calls != []
    ensures s.idx < PAGES - 1 && r == Reused(s)
    ensures Sound(r, calls) && r.mem == s.mem && r.pos == s.pos && r.idx <= s.idx
    ensures (forall p :: r.idx <= p <= s.idx ==> s.user[p]) && !s.user[r.idx - 1]
    ensures forall p :: 0 <= p < PAGES ==> r.user[p] == (s.user[p] && !(r.idx < p <= s.idx))
  {
    var user, top := ClearDown(s, calls);
    r := s.(user := user[top + 1 := true], idx := top + 1);
    assert Kept(s, calls, |calls| - 1);
    assert r.user == Reused(s).user;
    forall k | 0 <= k < |calls| ensures Kept(r, calls, k) {
      assert Kept(s, calls, k);
    }
  }

  /** Where the loop of `destroy_rpc` stops, from page `i` upward. */
  function Highest(user: seq<bool>, i: nat): (r: nat)
    requires i < PAGES == |user|
    ensures i <= r < PAGES && (forall p :: i <= p < r ==> user[p]) && (r < PAGES - 1 ==> !user[r])
    decreases PAGES - i
  {
    if i == PAGES - 1 || !user[i] then i else Highest(user, i + 1)
  }

  /** The stack after a return to position `back`: the callee's pages are closed and the caller's opened again. */
  function Popped(s: Stack, back: nat): Stack
    requires |s.user| == PAGES && 0 <= s.idx < PAGES
  {
    var top := Highest(s.user, s.idx);
    var user := seq(PAGES, p requires 0 <= p < PAGES => (s.user[p] && !(s.idx <= p < top)) || top < p < back - 1);
    s.(user := user, idx := back - 2, pos := back)
  }

  /** Lines 651-664: clear VM_U from `rpc_idx` upward until a page without it. */
  method ClearUp(s: Stack, ghost calls: seq<Call>) returns (user: seq<bool>, top: nat)
    requires Sound(s, calls) && calls != []
    ensures |user| == PAGES && s.idx <= top <= s.pos - 1 && top < PAGES && !s.user[top] && top == Highest(s.user, s.idx)
    ensures forall p :: 0 <= p < PAGES ==> user[p] == (s.user[p] && !(s.idx <= p < top))
  {
    assert Kept(s, calls, |calls| - 1);
    user, top := s.user, s.idx;
    while top < PAGES - 1
      invariant s.idx <= top <= s.pos - 1 && |user| == PAGES && Highest(s.user, s.idx) == Highest(s.user, top)
      invariant forall p :: 0 <= p < PAGES ==> user[p] == (s.user[p] && !(s.idx <= p < top))
      decreases PAGES - top
    {
      if !user[top] {
        break;
      }
      user := user[top := false];
      top := top + 1;
    }
  }

  /**
   Lines 231-235 of src/uapi/ipc.c: return to the caller of call `k`, dropping the calls above it. The
   stack position becomes the one saved in that call, and the remaining contexts stay out of reach.
   */
  method Pop(s: Stack, ghost calls: seq<Call>, back: nat, ghost k: nat) returns (r: Stack)
    requires Sound(s, calls) && k < |calls| && back == calls[k].ctx.back
    ensures r == Popped(s, back)
    ensures Sound(r, calls[..k]) && r.mem == s.mem && r.pos == back && r.idx == back - 2
    ensures forall p :: calls[k].pos <= p < back - 1 ==> r.user[p]
    ensures forall p :: 0 <= p < 512 ==> (r.user[p] <==> if p < s.idx then s.user[p]
              else (s.user[p] && !InRunUp(s, p)) || (p < back - 1 && !InRunUp(s, p - 1)))
  {
    Bounds(s, calls, k);
    PoppedSound(s, calls, back, k);
    var user, top := ClearUp(s, calls);
    ghost var cleared := user;
    var i := top + 1;
    while i < back - 1
      invariant top + 1 <= i && (i <= back - 1 || i == top + 1) && |user| == PAGES
      invariant forall p :: 0 <= p < PAGES ==> user[p] == (cleared[p] || top < p < i)
    {
      user := user[i := true];
      i := i + 1;
    }
    r := s.(user := user, idx := back - 2, pos := back);
    assert r.user == Popped(s, back).user;
  }

  /** The callee's run of user pages ends below its context. */
  lemma HighestBelow(s: Stack, calls: seq<Call>)
    requires Sound(s, calls) && calls != []
    ensures Highest(s.user, s.idx) <= s.pos - 1 < PAGES
  {
    assert Kept(s, calls, |calls| - 1);
  }

  lemma PoppedSound(s: Stack, calls: seq<Call>, back: nat, k: nat)
    requires Sound(s, calls) && k < |calls| && back == calls[k].ctx.back
    ensures var r := Popped(s, back);
            && Sound(r, calls[..k])
            && (forall p :: back - 1 <= p < PAGES ==> r.user[p] == s.user[p])
            && (forall p :: calls[k].pos <= p < back - 1 ==> r.user[p])
  {
    Bounds(s, calls, k);
    HighestBelow(s, calls);
    var r, rest := Popped(s, back), calls[..k];
    forall j | 0 <= j < |rest| ensures Kept(r, rest, j) {
      assert Kept(s, calls, j);
      if j < k - 1 { Decreasing(s, calls, j, k - 1); }
    }
  }

  lemma Bounds(s: Stack, calls: seq<Call>, k: nat)
    requires Sound(s, calls) && k < |calls|
    ensures s.pos <= calls[k].pos && calls[k].pos < PAGES && s.idx + 1 < s.pos
    ensures var back := calls[k].ctx.back; back <= PAGES && back == (if k == 0 then PAGES else calls[k - 1].pos)
    ensures k > 0 ==> calls[k].pos + 2 <= calls[k].ctx.back
  {
    assert Kept(s, calls, k) && Kept(s, calls, |calls| - 1);
    if k < |calls| - 1 { Decreasing(s, calls, k, |calls| - 1); }
    if k > 0 { assert Kept(s, calls, k - 1); }
  }
}
