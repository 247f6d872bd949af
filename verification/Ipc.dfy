/**
 Thread migration between processes (src/uapi/ipc.c) and the reference counts that keep a process alive
 while a thread may still return to it (src/tcb.c). The thread table is a map from ids to threads.
 */
module Ipc {
  import opened Common
  import opened Rpc

  /**
   The part of `struct tcb` that migration uses. A zombie has `rid == 0`; `shown` is the process whose user half the
   thread's RPC address space shows.
   */
  datatype Tcb =
    Tcb(rid: nat, pid: nat, eid: nat, exec: nat, callback: nat, orphan: bool, refcount: nat, shown: nat, stack: Stack)

  type Threads = map<nat, Tcb>
  /** The calls on the stack of every live thread, outermost first. */
  type Calls = map<nat, seq<Call>>

  predicate Live(m: Threads, t: nat) {
    t in m && m[t].rid != 0
  }

  /** The negation of the test in `do_ipc` and `leave_rpc`: an existing process that is not a zombie. */
  predicate Alive(m: Threads, p: nat) {
    p > 0 && p in m && m[p].rid == p && !m[p].orphan
  }

  /** The process that step `k` of the call chain of `t` visits; step 0 is the root process. */
  ghost function Visited(m: Threads, c: Calls, t: nat, k: nat): nat
    requires t in m && t in c && k <= |c[t]|
  {
    if k < |c[t]| then c[t][k].ctx.pid else m[t].pid
  }

  /** The effective process of step `k`. */
  ghost function Effective(m: Threads, c: Calls, t: nat, k: nat): nat
    requires t in m && t in c && k <= |c[t]|
  {
    if k < |c[t]| then c[t][k].ctx.eid else m[t].eid
  }

  /**
   A reason to keep a process: a live thread and a number, -1 for the thread itself, 0 for the root process of another
   thread, and `k` for step `k` of a call chain.
   */
  datatype Reason = Reason(thread: nat, step: int)

  ghost predicate Keeps(m: Threads, c: Calls, e: Reason, p: nat) {
    var t, k := e.thread, e.step;
    && Live(m, t) && t in c && -1 <= k <= |c[t]|
    && (if k == -1 then p == t else if k == 0 then p == m[t].rid && p != t else p == Visited(m, c, t, k))
  }

  ghost function Reasons(m: Threads, c: Calls, p: nat): set<Reason> {
    set t, k | t in m && t in c && -1 <= k <= |c[t]| && Keeps(m, c, Reason(t, k), p) :: Reason(t, k)
  }

  ghost function Count(m: Threads, p: nat): nat {
    if p in m then m[p].refcount else 0
  }

  /** Every live thread has a sound stack, and its chain starts in its root process. */
  ghost predicate Rooted(m: Threads, c: Calls, t: nat)
    requires t in m && t in c
  {
    Sound(m[t].stack, c[t]) && Visited(m, c, t, 0) == m[t].rid
  }

  /** `p` is a process, or what is left of one. */
  ghost predicate Host(m: Threads, p: nat) {
    p in m ==> m[p].rid == p || m[p].rid == 0
  }

  /** `e` is on the chain of `t` up to step `k`, or holds a reference that nobody will give back. */
  ghost predicate Held(m: Threads, c: Calls, lost: multiset<nat>, t: nat, k: nat, e: nat)
    requires t in m && t in c && k <= |c[t]|
  {
    lost[e] > 0 || exists j :: 0 <= j <= k && Visited(m, c, t, j) == e
  }

  /** Chains lead through processes, and the effective processes of a chain are held. */
  ghost predicate Hosted(m: Threads, c: Calls, lost: multiset<nat>) {
    && (forall t, k :: t in c && t in m && 0 <= k <= |c[t]| ==>
        Host(m, Visited(m, c, t, k)) && Held(m, c, lost, t, k, Effective(m, c, t, k)))
    && (forall p :: lost[p] > 0 ==> Host(m, p))
  }

  /**
   Every reference is accounted for: the count of a process is the number of reasons to keep it, and of the references
   to it that calls have left behind, in `lost`. Only referenced threads are in the table.
   */
  ghost predicate Consistent(m: Threads, c: Calls, lost: multiset<nat>) {
    Standing(m, c) && forall p :: Count(m, p) == |Reasons(m, c, p)| + lost[p]
  }

  ghost predicate Standing(m: Threads, c: Calls) {
    && 0 !in m
    && (forall t :: t in c <==> Live(m, t))
    && (forall t :: t in c ==> Rooted(m, c, t))
    && (forall t :: t in m ==> m[t].refcount > 0)
  }

  lemma SubsetSize<T>(a: set<T>, b: set<T>)
    requires a <= b
    ensures |a| <= |b|
  {
    if a != b {
      assert b == a + (b - a) && a !! b - a;
    }
  }

  /** Whoever is on a call chain, root included, is still in the table. */
  lemma ChainKept(m: Threads, c: Calls, lost: multiset<nat>, t: nat, k: nat)
    requires Consistent(m, c, lost) && t in c && k <= |c[t]|
    ensures t in m && Visited(m, c, t, k) in m
  {
    var p := Visited(m, c, t, k);
    assert Rooted(m, c, t);
    var i: int := if k == 0 && p == t then -1 else k;
    assert Reason(t, i) in Reasons(m, c, p);
    SubsetSize({Reason(t, i)}, Reasons(m, c, p));
  }

  /** The effective process is always in the table; it is a process, or the zombie of one. */
  lemma EffectiveThere(m: Threads, c: Calls, lost: multiset<nat>, t: nat, k: nat)
    requires Consistent(m, c, lost) && Hosted(m, c, lost) && t in c && k <= |c[t]|
    ensures t in m
    ensures var e := Effective(m, c, t, k); e in m && (m[e].rid == e || m[e].rid == 0)
  {
    var e := Effective(m, c, t, k);
    assert Held(m, c, lost, t, k, e);
    if lost[e] == 0 {
      var j :| 0 <= j <= k && Visited(m, c, t, j) == e;
      ChainKept(m, c, lost, t, j);
      assert Host(m, Visited(m, c, t, j));
    } else {
      assert Count(m, e) > 0 && Host(m, e);
    }
  }

  /** Reasons that come and go. */
  lemma ReasonsChange(m: Threads, c: Calls, m': Threads, c': Calls, p: nat, sub: set<Reason>, add: set<Reason>)
    requires forall e :: Keeps(m', c', e, p) <==> (Keeps(m, c, e, p) && e !in sub) || e in add
    requires forall e :: e in sub ==> Keeps(m, c, e, p)
    requires forall e :: e in add ==> e in sub || !Keeps(m, c, e, p)
    ensures |Reasons(m', c', p)| == |Reasons(m, c, p)| - |sub| + |add|
  {
    hide Keeps;
    forall e ensures e in Reasons(m', c', p) <==> Keeps(m', c', e, p) { InReasons(m', c', p, e); }
    forall e ensures e in Reasons(m, c, p) <==> Keeps(m, c, e, p) { InReasons(m, c, p, e); }
    Replaced(Reasons(m, c, p), Reasons(m', c', p), sub, add);
  }

  lemma InReasons(m: Threads, c: Calls, p: nat, e: Reason)
    ensures e in Reasons(m, c, p) <==> Keeps(m, c, e, p)
  {
    assert e == Reason(e.thread, e.step);
  }

  lemma Replaced(a: set<Reason>, b: set<Reason>, sub: set<Reason>, add: set<Reason>)
    requires forall e :: e in b <==> (e in a && e !in sub) || e in add
    requires sub <= a && forall e :: e in add ==> e in sub || e !in a
    ensures |b| == |a| - |sub| + |add|
  {
    var rest := a - sub;
    assert a == rest + sub && rest !! sub;
    assert b == rest + add && rest !! add;
  }

  /** Nothing changes for `p`. */
  lemma ReasonsSame(m: Threads, c: Calls, m': Threads, c': Calls, p: nat)
    requires forall e :: Keeps(m', c', e, p) <==> Keeps(m, c, e, p)
    ensures |Reasons(m', c', p)| == |Reasons(m, c, p)|
  {
    hide Keeps;
    ReasonsChange(m, c, m', c', p, {}, {});
  }

  // ------------------------------------------------------------------- entering a call

  /** Thread `t` after migrating to `r`, `stack` being its new stack. */
  function Entered(u: Tcb, r: nat, callback: nat, forward: bool, stack: Stack): Tcb {
    u.(pid := r, eid := if forward then u.eid else u.pid, exec := callback, shown := r, stack := stack)
  }

  function Referenced(m: Threads, p: nat): Threads
    requires p in m
  {
    m[p := m[p].(refcount := m[p].refcount + 1)]
  }

  /** A call adds one step to one chain and one reference for it. */
  lemma PushConsistent(m: Threads, c: Calls, lost: multiset<nat>, t: nat, r: nat, u: Tcb, call: Call)
    requires Consistent(m, c, lost) && t in c && r in m && r != 0
    requires u.rid == m[t].rid && u.pid == r && u.refcount == m[t].refcount
    requires call.ctx.pid == m[t].pid && Sound(u.stack, c[t] + [call])
    ensures Consistent(Referenced(m[t := u], r), c[t := c[t] + [call]], lost)
  {
    hide Sound, Reasons;
    var m', c' := Referenced(m[t := u], r), c[t := c[t] + [call]];
    assert Rooted(m, c, t);
    forall x | x in c' ensures Rooted(m', c', x) { assert Rooted(m, c, x); }
    forall p ensures Count(m', p) == |Reasons(m', c', p)| + lost[p] {
      ReasonsChange(m, c, m', c', p, {}, if p == r then {Reason(t, |c[t]| + 1)} else {});
    }
  }

  /** A tail call replaces the last step of a chain; the reference for the old step is left behind. */
  lemma TailConsistent(m: Threads, c: Calls, lost: multiset<nat>, t: nat, r: nat, u: Tcb)
    requires Consistent(m, c, lost) && t in c && r in m && r != 0 && c[t] != []
    requires u.rid == m[t].rid && u.pid == r && u.refcount == m[t].refcount && Sound(u.stack, c[t])
    ensures t in m && Consistent(Referenced(m[t := u], r), c, lost + multiset{m[t].pid})
  {
    hide Sound, Reasons;
    var m', q := Referenced(m[t := u], r), m[t].pid;
    assert Rooted(m, c, t);
    forall x | x in c ensures Rooted(m', c, x) { assert Rooted(m, c, x); }
    forall p ensures Count(m', p) == |Reasons(m', c, p)| + (lost + multiset{q})[p] {
      TailCounts(m, c, t, m', p);
    }
  }

  lemma TailCounts(m: Threads, c: Calls, t: nat, m': Threads, p: nat)
    requires t in c && Live(m, t) && Live(m', t) && c[t] != [] && Carried(m, c, m', t) && m'[t].rid == m[t].rid
    ensures |Reasons(m', c, p)| == |Reasons(m, c, p)| - (if p == m[t].pid then 1 else 0) + (if p == m'[t].pid then 1
        else 0)
  {
    hide Reasons, Keeps, Carried;
    var e := Reason(t, |c[t]|);
    forall x ensures x != e ==> (Keeps(m', c, x, p) <==> Keeps(m, c, x, p)) { TailKeeps(m, c, t, m', p, x); }
    TailKeeps(m, c, t, m', p, e);
    ReasonsChange(m, c, m', c, p, if p == m[t].pid then {e} else {}, if p == m'[t].pid then {e} else {});
  }

  lemma TailKeeps(m: Threads, c: Calls, t: nat, m': Threads, p: nat, x: Reason)
    requires t in c && Live(m, t) && Live(m', t) && c[t] != [] && Carried(m, c, m', t) && m'[t].rid == m[t].rid
    ensures x != Reason(t, |c[t]|) ==> (Keeps(m', c, x, p) <==> Keeps(m, c, x, p))
    ensures x == Reason(t, |c[t]|) ==>
        (Keeps(m, c, x, p) <==> p == m[t].pid) && (Keeps(m', c, x, p) <==> p == m'[t].pid)
  {
    assert x == Reason(x.thread, x.step);
  }

  // ------------------------------------------------------------------- leaving a call

  /** `unreference_thread`: the last reference takes the thread out of the table. */
  function Unreferenced(m: Threads, p: nat): Threads
    requires p in m && m[p].refcount > 0
  {
    if m[p].refcount == 1 then m - {p} else m[p := m[p].(refcount := m[p].refcount - 1)]
  }

  /** Two reasons to keep `p` leave it in the table when one reference goes. */
  lemma TwoReasons(m: Threads, c: Calls, lost: multiset<nat>, p: nat, a: Reason, b: Reason)
    requires Consistent(m, c, lost) && a != b && Keeps(m, c, a, p) && Keeps(m, c, b, p)
    ensures p in m && m[p].refcount >= 2
  {
    assert {a, b} <= Reasons(m, c, p);
    SubsetSize({a, b}, Reasons(m, c, p));
    assert |{a, b}| == 2;
  }

  lemma OneReason(m: Threads, c: Calls, lost: multiset<nat>, p: nat, a: Reason)
    requires Consistent(m, c, lost) && Keeps(m, c, a, p)
    ensures p in m && m[p].refcount >= 1
  {
    assert {a} <= Reasons(m, c, p);
    SubsetSize({a}, Reasons(m, c, p));
  }

  /** What goes when a response gives up the reference to the current process: never somebody live. */
  lemma ResponderKept(m: Threads, c: Calls, lost: multiset<nat>, t: nat)
    requires Consistent(m, c, lost) && t in c && c[t] != []
    ensures t in m && m[t].pid in m && m[m[t].pid].refcount > 0
    ensures var m1 := Unreferenced(m, m[t].pid);
            t in m1 && (forall x :: x in c ==> x in m1 && m1[x].rid == m[x].rid) && forall p :: Alive(m1, p) <==>
                Alive(m, p)
  {
    var q, n := m[t].pid, |c[t]|;
    assert Keeps(m, c, Reason(t, n), q);
    OneReason(m, c, lost, q, Reason(t, n));
    if q in c {
      assert Keeps(m, c, Reason(q, -1), q);
      TwoReasons(m, c, lost, q, Reason(q, -1), Reason(t, n));
    }
  }

  /** The processes of the calls from number `k` on. */
  ghost function Pids(calls: seq<Call>, k: nat): (s: seq<nat>)
    requires k <= |calls|
    ensures |s| == |calls| - k && forall j :: 0 <= j < |s| ==> s[j] == calls[k + j].ctx.pid
    decreases |calls| - k
  {
    if k == |calls| then [] else [calls[k].ctx.pid] + Pids(calls, k + 1)
  }

  /** The steps of thread `t` from `k` on that lie below step `n` and visit `p`. */
  ghost function StepsAt(calls: seq<Call>, t: nat, k: nat, p: nat): set<Reason> {
    set j: int | k <= j < |calls| && calls[j].ctx.pid == p :: Reason(t, j)
  }

  /** As many steps visit `p` as it occurs among the processes of the calls. */
  lemma {:induction false} StepsCount(calls: seq<Call>, t: nat, k: nat, p: nat)
    requires k <= |calls|
    ensures |StepsAt(calls, t, k, p)| == multiset(Pids(calls, k))[p]
    decreases |calls| - k
  {
    if k == |calls| {
      assert StepsAt(calls, t, k, p) == {};
    } else {
      StepsCount(calls, t, k + 1, p);
      var first: set<Reason> := if calls[k].ctx.pid == p then {Reason(t, k)} else {};
      assert StepsAt(calls, t, k, p) == first + StepsAt(calls, t, k + 1, p) && first !! StepsAt(calls, t, k + 1, p);
      assert multiset([calls[k].ctx.pid] + Pids(calls, k + 1)) == multiset{calls[k].ctx.pid} + multiset(Pids(calls,
          k + 1));
    }
  }

  /**
   Going back to step `k` of the chain gives up every step after it. The reference to the last one is dropped; those
   to the steps in between are left behind.
   */
  lemma LeaveConsistent(m: Threads, c: Calls, lost: multiset<nat>, t: nat, k: nat, u: Tcb)
    requires Consistent(m, c, lost) && t in c && k < |c[t]| && m[t].pid in m
    requires var m1 := Unreferenced(m, m[t].pid); t in m1 && u.refcount == m1[t].refcount
    requires u.rid == m[t].rid && u.pid == c[t][k].ctx.pid && Sound(u.stack, c[t][..k])
    ensures Consistent(Unreferenced(m, m[t].pid)[t := u], c[t := c[t][..k]], lost + multiset(Pids(c[t], k + 1)))
  {
    hide Sound, Reasons, Standing;
    LeaveStanding(m, c, lost, t, k, u);
    var m', c' := Unreferenced(m, m[t].pid)[t := u], c[t := c[t][..k]];
    forall p ensures Count(m', p) == |Reasons(m', c', p)| + (lost + multiset(Pids(c[t], k + 1)))[p] {
      LeaveCounts(m, c, t, k, p, m', c');
      LeaveCount(m, t, u, p);
    }
  }

  lemma LeaveCount(m: Threads, t: nat, u: Tcb, p: nat)
    requires t in m && m[t].pid in m && m[m[t].pid].refcount > 0
    requires var m1 := Unreferenced(m, m[t].pid); t in m1 && u.refcount == m1[t].refcount
    ensures Count(Unreferenced(m, m[t].pid)[t := u], p) == Count(m, p) - if p == m[t].pid then 1 else 0
  {
  }

  lemma LeaveStanding(m: Threads, c: Calls, lost: multiset<nat>, t: nat, k: nat, u: Tcb)
    requires Consistent(m, c, lost) && t in c && k < |c[t]| && m[t].pid in m
    requires var m1 := Unreferenced(m, m[t].pid); t in m1 && u.refcount == m1[t].refcount
    requires u.rid == m[t].rid && u.pid == c[t][k].ctx.pid && Sound(u.stack, c[t][..k])
    ensures Standing(Unreferenced(m, m[t].pid)[t := u], c[t := c[t][..k]]) && Live(m, t) && m[m[t].pid].refcount > 0
    ensures Carried(m, c, Unreferenced(m, m[t].pid)[t := u], t)
  {
    hide Sound, Reasons;
    var m', c' := Unreferenced(m, m[t].pid)[t := u], c[t := c[t][..k]];
    ResponderKept(m, c, lost, t);
    assert Rooted(m, c, t);
    forall x | x in c' ensures Rooted(m', c', x) { assert Rooted(m, c, x); }
  }

  /** For live threads other than `t` nothing changes that makes them a reason to keep a process. */
  ghost predicate Carried(m: Threads, c: Calls, m': Threads, t: nat) {
    forall x :: x in c && x != t ==> Live(m, x) && x in m' && m'[x].rid == m[x].rid && m'[x].pid == m[x].pid
  }

  /** The steps from `k` on that visit `p`, the current one included. */
  ghost function StepsFrom(m: Threads, c: Calls, t: nat, k: nat, p: nat): set<Reason>
    requires t in m && t in c
  {
    StepsAt(c[t], t, k, p) + if m[t].pid == p then {Reason(t, |c[t]|)} else {}
  }

  lemma StepsFromCount(m: Threads, c: Calls, t: nat, k: nat, p: nat)
    requires t in m && t in c && k <= |c[t]|
    ensures |StepsFrom(m, c, t, k, p)| == multiset(Pids(c[t], k))[p] + if m[t].pid == p then 1 else 0
  {
    StepsCount(c[t], t, k, p);
    assert StepsAt(c[t], t, k, p) !! {Reason(t, |c[t]|)};
  }

  lemma StepsFromKeep(m: Threads, c: Calls, t: nat, k: nat, p: nat, e: Reason)
    requires Live(m, t) && t in c && 0 < k <= |c[t]|
    ensures e in StepsFrom(m, c, t, k, p) <==> e.thread == t && e.step >= k && Keeps(m, c, e, p)
  {
    assert e == Reason(e.thread, e.step);
  }

  lemma LeaveCounts(m: Threads, c: Calls, t: nat, k: nat, p: nat, m': Threads, c': Calls)
    requires t in c && k < |c[t]| && Live(m, t) && Carried(m, c, m', t) && c' == c[t := c[t][..k]]
    requires t in m' && m'[t].rid == m[t].rid && m'[t].pid == c[t][k].ctx.pid
    ensures |Reasons(m', c', p)| + multiset(Pids(c[t], k + 1))[p] == |Reasons(m, c, p)| - if m[t].pid == p then 1 else 0
  {
    hide Reasons, Keeps, StepsFrom, Carried;
    var sub := StepsFrom(m, c, t, k + 1, p);
    StepsFromCount(m, c, t, k + 1, p);
    forall e ensures Keeps(m', c', e, p) <==> Keeps(m, c, e, p) && e !in sub {
      StepsFromKeep(m, c, t, k + 1, p, e);
      LeaveKeeps(m, c, t, k, p, m', c', e);
    }
    forall e | e in sub ensures Keeps(m, c, e, p) { StepsFromKeep(m, c, t, k + 1, p, e); }
    ReasonsChange(m, c, m', c', p, sub, {});
  }

  lemma LeaveKeeps(m: Threads, c: Calls, t: nat, k: nat, p: nat, m': Threads, c': Calls, e: Reason)
    requires t in c && k < |c[t]| && Live(m, t) && Carried(m, c, m', t) && c' == c[t := c[t][..k]]
    requires t in m' && m'[t].rid == m[t].rid && m'[t].pid == c[t][k].ctx.pid
    ensures Keeps(m', c', e, p) <==> Keeps(m, c, e, p) && !(e.thread == t && e.step >= k + 1)
  {
  }

  // ---------------------------------------------------------------- threads come and go

  function NewTcb(rid: nat, callback: nat): Tcb {
    Tcb(rid, rid, rid, 0, callback, false, 1, rid, NewStack())
  }

  /** `create_thread`: a process of its own, or a thread of process `rid`, which gains a reference. */
  function Created(m: Threads, t: nat, rid: nat, callback: nat): Threads
    requires rid in m || rid == t
  {
    var m1 := m[t := NewTcb(rid, callback)];
    if rid == t then m1 else Referenced(m1, rid)
  }

  lemma CreateConsistent(m: Threads, c: Calls, lost: multiset<nat>, t: nat, rid: nat, callback: nat)
    requires Consistent(m, c, lost) && t !in m && t != 0 && (rid == t || rid in m)
    ensures Consistent(Created(m, t, rid, callback), c[t := []], lost)
  {
    hide Sound, Reasons;
    var m', c' := Created(m, t, rid, callback), c[t := []];
    assert Sound(NewStack(), []);
    forall x | x in c' ensures Rooted(m', c', x) { if x != t { assert Rooted(m, c, x); } }
    forall p ensures Count(m', p) == |Reasons(m', c', p)| + lost[p] {
      ReasonsChange(m, c, m', c', p, {}, if p == t then {Reason(t, -1)} else if p == rid then {Reason(t, 0)} else {});
    }
  }

  /** `destroy_thread`: the reference to its root process goes, then its own. */
  function Destroyed(m: Threads, t: nat): Threads
    requires Live(m, t) && m[t].rid in m && forall x :: x in m ==> m[x].refcount > 0
  {
    var r := m[t].rid;
    var m1 := if r == t then m else Unreferenced(m, r);
    Unreferenced(m1[t := m1[t].(rid := 0)], t)
  }

  /** What a thread leaves behind when it is destroyed: the references of all its steps but the root. */
  ghost function LeftBehind(u: Tcb, calls: seq<Call>): multiset<nat> {
    if calls == [] then multiset{} else multiset(Pids(calls, 1)) + multiset{u.pid}
  }

  lemma DestroyConsistent(m: Threads, c: Calls, lost: multiset<nat>, t: nat)
    requires Consistent(m, c, lost) && t in c
    ensures Live(m, t) && m[t].rid in m && Consistent(Destroyed(m, t), c - {t}, lost + LeftBehind(m[t], c[t]))
  {
    hide Sound, Reasons, LeftBehind, Standing;
    DestroyStanding(m, c, lost, t);
    var m', c' := Destroyed(m, t), c - {t};
    forall p ensures Count(m', p) == |Reasons(m', c', p)| + (lost + LeftBehind(m[t], c[t]))[p] {
      DestroyCounts(m, c, t, p, m', c');
      DestroyedCount(m, t, p);
    }
  }

  lemma DestroyStanding(m: Threads, c: Calls, lost: multiset<nat>, t: nat)
    requires Consistent(m, c, lost) && t in c
    ensures Live(m, t) && m[t].rid in m && (forall x :: x in m ==> m[x].refcount > 0)
    ensures Standing(Destroyed(m, t), c - {t}) && Carried(m, c, Destroyed(m, t), t)
  {
    hide Sound, Reasons, Destroyed;
    RootKept(m, c, lost, t);
    var m', c' := Destroyed(m, t), c - {t};
    DestroyedSelf(m, t);
    forall x | x in m && x != t ensures (x in c ==> x in m') && (x in m' ==>
        m'[x] == m[x].(refcount := m'[x].refcount) && m'[x].refcount > 0) {
      DestroyedOther(m, t, x);
    }
    forall x | x in c' ensures Rooted(m', c', x) { assert Rooted(m, c, x); }
  }

  lemma RootKept(m: Threads, c: Calls, lost: multiset<nat>, t: nat)
    requires Consistent(m, c, lost) && t in c
    ensures Live(m, t) && m[t].rid in m && (m[t].rid in c && m[t].rid != t ==> m[m[t].rid].refcount >= 2)
  {
    assert Rooted(m, c, t);
    ChainKept(m, c, lost, t, 0);
    var r := m[t].rid;
    if r != t && r in c {
      assert Keeps(m, c, Reason(t, 0), r);
      assert Keeps(m, c, Reason(r, -1), r);
      TwoReasons(m, c, lost, r, Reason(r, -1), Reason(t, 0));
    }
  }

  lemma DestroyedOther(m: Threads, t: nat, x: nat)
    requires Live(m, t) && m[t].rid in m && (forall y :: y in m ==> m[y].refcount > 0) && x in m && x != t
    ensures var m' := Destroyed(m, t);
            && (x == m[t].rid && m[x].refcount == 1 <==> x !in m')
            && (x in m' ==> m'[x] == m[x].(refcount := m'[x].refcount) && m'[x].refcount > 0)
  {
  }

  lemma DestroyedSelf(m: Threads, t: nat)
    requires Live(m, t) && m[t].rid in m && forall y :: y in m ==> m[y].refcount > 0
    ensures var m' := Destroyed(m, t); m'.Keys <= m.Keys && (t in m' ==> m'[t].rid == 0 && m'[t].refcount > 0)
  {
  }

  lemma DestroyedCount(m: Threads, t: nat, p: nat)
    requires Live(m, t) && m[t].rid in m && forall x :: x in m ==> m[x].refcount > 0
    ensures Count(Destroyed(m, t), p) == Count(m, p) - (if p == t then 1 else 0) - (if p == m[t].rid != t then 1 else 0)
  {
  }

  /** Everything that thread `t` is a reason for goes. */
  ghost function OwnReasons(m: Threads, c: Calls, t: nat, p: nat): set<Reason>
    requires t in m && t in c
  {
    (if p == t then {Reason(t, -1)} else {}) + (if p == m[t].rid != t then {Reason(t, 0)} else {})
    + (if c[t] == [] then {} else StepsFrom(m, c, t, 1, p))
  }

  lemma OwnReasonsCount(m: Threads, c: Calls, t: nat, p: nat)
    requires Live(m, t) && t in c
    ensures |OwnReasons(m, c, t, p)| ==
            LeftBehind(m[t], c[t])[p] + (if p == t then 1 else 0) + (if p == m[t].rid != t then 1 else 0)
  {
    var self: set<Reason> := if p == t then {Reason(t, -1)} else {};
    var root: set<Reason> := if p == m[t].rid != t then {Reason(t, 0)} else {};
    var steps: set<Reason> := if c[t] == [] then {} else StepsFrom(m, c, t, 1, p);
    hide StepsFrom, Keeps;
    if c[t] != [] { StepsFromCount(m, c, t, 1, p); }
    forall e | e in steps ensures e.step >= 1 { StepsFromKeep(m, c, t, 1, p, e); }
    ThreeParts(self, root, steps);
  }

  lemma ThreeParts(a: set<Reason>, b: set<Reason>, c: set<Reason>)
    requires a !! b && a !! c && b !! c
    ensures |a + b + c| == |a| + |b| + |c|
  {
    assert |a + b| == |a| + |b|;
  }

  lemma OwnReasonsKeep(m: Threads, c: Calls, t: nat, p: nat, e: Reason)
    requires Live(m, t) && t in c
    ensures e in OwnReasons(m, c, t, p) <==> e.thread == t && Keeps(m, c, e, p)
  {
    hide StepsFrom;
    assert e == Reason(e.thread, e.step);
    if c[t] != [] { StepsFromKeep(m, c, t, 1, p, e); }
  }

  lemma DestroyCounts(m: Threads, c: Calls, t: nat, p: nat, m': Threads, c': Calls)
    requires t in c && Live(m, t) && Carried(m, c, m', t) && c' == c - {t}
    ensures |Reasons(m', c', p)| + LeftBehind(m[t], c[t])[p] ==
            |Reasons(m, c, p)| - (if p == t then 1 else 0) - (if p == m[t].rid != t then 1 else 0)
  {
    hide Reasons, Keeps, OwnReasons, LeftBehind, Carried;
    var sub := OwnReasons(m, c, t, p);
    OwnReasonsCount(m, c, t, p);
    forall e ensures Keeps(m', c', e, p) <==> Keeps(m, c, e, p) && e !in sub {
      OwnReasonsKeep(m, c, t, p, e);
      DestroyKeeps(m, c, t, p, m', c', e);
    }
    forall e | e in sub ensures Keeps(m, c, e, p) { OwnReasonsKeep(m, c, t, p, e); }
    ReasonsChange(m, c, m', c', p, sub, {});
  }

  lemma DestroyKeeps(m: Threads, c: Calls, t: nat, p: nat, m': Threads, c': Calls, e: Reason)
    requires t in c && Live(m, t) && Carried(m, c, m', t) && c' == c - {t}
    ensures Keeps(m', c', e, p) <==> Keeps(m, c, e, p) && e.thread != t
  {
  }

  // ------------------------------------------------------------ effective processes

  /** Nobody becomes a thread of another process. */
  ghost predicate SameRids(m: Threads, m': Threads) {
    forall p :: p in m' ==> p in m && (m'[p].rid == m[p].rid || m'[p].rid == 0)
  }

  /** Chains other than that of `t` are as before. */
  ghost predicate SameChains(m: Threads, c: Calls, m': Threads, c': Calls, t: nat) {
    forall x :: x in c' && x in m' && x != t ==>
        x in c && x in m && c'[x] == c[x] && m'[x].pid == m[x].pid && m'[x].eid == m[x].eid
  }

  lemma OtherHosted(m: Threads, c: Calls, lost: multiset<nat>, m': Threads, c': Calls, lost': multiset<nat>, t: nat,
      x: nat, k: nat)
    requires Hosted(m, c, lost) && SameRids(m, m') && SameChains(m, c, m', c', t) && lost <= lost'
    requires x in c' && x in m' && x != t && k <= |c'[x]|
    ensures Host(m', Visited(m', c', x, k)) && Held(m', c', lost', x, k, Effective(m', c', x, k))
  {
    var e := Effective(m, c, x, k);
    assert Host(m, Visited(m, c, x, k)) && Held(m, c, lost, x, k, e);
    if lost[e] == 0 {
      var j :| 0 <= j <= k && Visited(m, c, x, j) == e;
      assert Visited(m', c', x, j) == e;
    }
  }

  /** A step of `t` that is as before. */
  lemma StepHosted(m: Threads, c: Calls, lost: multiset<nat>, m': Threads, c': Calls, lost': multiset<nat>, t: nat,
      k: nat)
    requires Hosted(m, c, lost) && SameRids(m, m') && lost <= lost' && t in m && t in c && t in m' && t in c'
        && k <= |c[t]| && k <= |c'[t]|
    requires forall j :: 0 <= j <= k ==> Visited(m', c', t, j) == Visited(m, c, t, j)
    requires Effective(m', c', t, k) == Effective(m, c, t, k)
    ensures Host(m', Visited(m', c', t, k)) && Held(m', c', lost', t, k, Effective(m', c', t, k))
  {
    var e := Effective(m, c, t, k);
    assert Visited(m', c', t, k) == Visited(m, c, t, k);
    assert Host(m, Visited(m, c, t, k)) && Held(m, c, lost, t, k, e);
    if lost[e] == 0 {
      var j :| 0 <= j <= k && Visited(m, c, t, j) == e;
      assert Visited(m', c', t, j) == e;
    }
  }

  lemma LostHosted(m: Threads, c: Calls, lost: multiset<nat>, m': Threads, more: multiset<nat>)
    requires Hosted(m, c, lost) && SameRids(m, m') && forall p :: more[p] > 0 ==> Host(m, p)
    ensures forall p :: (lost + more)[p] > 0 ==> Host(m', p)
  {
    forall p | (lost + more)[p] > 0 ensures Host(m', p) { assert lost[p] > 0 || more[p] > 0; assert Host(m, p); }
  }

  lemma PushHosted(m: Threads, c: Calls, lost: multiset<nat>, t: nat, r: nat, u: Tcb, call: Call)
    requires Hosted(m, c, lost) && t in c && t in m && r in m && m[r].rid == r
    requires u.rid == m[t].rid && u.pid == r && (u.eid == m[t].eid || u.eid == m[t].pid)
    requires call.ctx.pid == m[t].pid && call.ctx.eid == m[t].eid
    ensures Hosted(Referenced(m[t := u], r), c[t := c[t] + [call]], lost)
  {
    hide Hosted, Host, Held;
    var m', c', n := Referenced(m[t := u], r), c[t := c[t] + [call]], |c[t]|;
    LostHosted(m, c, lost, m', multiset{});
    assert lost + multiset{} == lost;
    forall x, k | x in c' && x in m' && 0 <= k <= |c'[x]|
      ensures Host(m', Visited(m', c', x, k)) && Held(m', c', lost, x, k, Effective(m', c', x, k))
    {
      if x != t {
        OtherHosted(m, c, lost, m', c', lost, t, x, k);
      } else if k <= n {
        StepHosted(m, c, lost, m', c', lost, t, k);
      } else {
        StepHosted(m, c, lost, m', c', lost, t, n);
        NewStep(m', c', lost, t, n);
      }
    }
    HostedBy(m', c', lost);
  }

  /** The last step, into a process, with the effective process of the step before it or that step's own. */
  lemma NewStep(m: Threads, c: Calls, lost: multiset<nat>, t: nat, n: nat)
    requires t in m && t in c && |c[t]| == n + 1 && m[t].pid in m && m[m[t].pid].rid == m[t].pid
    requires Held(m, c, lost, t, n, Effective(m, c, t, n)) && (m[t].eid == c[t][n].ctx.eid
        || m[t].eid == c[t][n].ctx.pid)
    ensures Host(m, Visited(m, c, t, n + 1)) && Held(m, c, lost, t, n + 1, Effective(m, c, t, n + 1))
  {
    var e := m[t].eid;
    if lost[e] == 0 {
      if e == c[t][n].ctx.pid {
        assert Visited(m, c, t, n) == e;
      } else {
        var j :| 0 <= j <= n && Visited(m, c, t, j) == e;
        assert 0 <= j <= n + 1;
      }
    }
  }

  lemma HostedBy(m: Threads, c: Calls, lost: multiset<nat>)
    requires forall t, k :: t in c && t in m && 0 <= k <= |c[t]| ==>
        Host(m, Visited(m, c, t, k)) && Held(m, c, lost, t, k, Effective(m, c, t, k))
    requires forall p :: lost[p] > 0 ==> Host(m, p)
    ensures Hosted(m, c, lost)
  {
  }

  lemma VisitedHost(m: Threads, c: Calls, lost: multiset<nat>, t: nat, k: nat)
    requires Hosted(m, c, lost) && t in c && t in m && k <= |c[t]|
    ensures Host(m, Visited(m, c, t, k)) && Held(m, c, lost, t, k, Effective(m, c, t, k))
  {
  }

  lemma TailHosted(m: Threads, c: Calls, lost: multiset<nat>, t: nat, r: nat, u: Tcb)
    requires Hosted(m, c, lost) && t in c && t in m && r in m && m[r].rid == r
    requires u.rid == m[t].rid && u.pid == r && (u.eid == m[t].eid || u.eid == m[t].pid)
    ensures Hosted(Referenced(m[t := u], r), c, lost + multiset{m[t].pid})
  {
    hide Hosted, Host, Held;
    var m', n, lost' := Referenced(m[t := u], r), |c[t]|, lost + multiset{m[t].pid};
    VisitedHost(m, c, lost, t, n);
    LostHosted(m, c, lost, m', multiset{m[t].pid});
    forall x, k | x in c && x in m' && 0 <= k <= |c[x]|
      ensures Host(m', Visited(m', c, x, k)) && Held(m', c, lost', x, k, Effective(m', c, x, k))
    {
      if x != t {
        OtherHosted(m, c, lost, m', c, lost', t, x, k);
      } else if k < n {
        StepHosted(m, c, lost, m', c, lost', t, k);
      } else {
        LastReplaced(m, c, lost, t, m');
      }
    }
    HostedBy(m', c, lost');
  }

  lemma LastReplaced(m: Threads, c: Calls, lost: multiset<nat>, t: nat, m': Threads)
    requires t in m && t in c && t in m' && Held(m, c, lost, t, |c[t]|, m[t].eid)
    requires m'[t].pid in m' && m'[m'[t].pid].rid == m'[t].pid && (m'[t].eid == m[t].eid || m'[t].eid == m[t].pid)
    ensures Host(m', Visited(m', c, t, |c[t]|)) && Held(m', c, lost + multiset{m[t].pid}, t, |c[t]|, m'[t].eid)
  {
    var e, n := m'[t].eid, |c[t]|;
    if (lost + multiset{m[t].pid})[e] == 0 {
      var j :| 0 <= j <= n && Visited(m, c, t, j) == e;
      assert j < n && Visited(m', c, t, j) == e;
    }
  }

  /** Every process among the calls is one the chain visits. */
  lemma PidsHosts(m: Threads, c: Calls, lost: multiset<nat>, t: nat, k: nat)
    requires Hosted(m, c, lost) && t in c && t in m && k <= |c[t]|
    ensures forall p :: multiset(Pids(c[t], k))[p] > 0 ==> Host(m, p)
  {
    hide Hosted, Host;
    forall p | multiset(Pids(c[t], k))[p] > 0 ensures Host(m, p) {
      var s := Pids(c[t], k);
      assert p in s;
      var j :| 0 <= j < |s| && s[j] == p;
      VisitedHost(m, c, lost, t, k + j);
    }
  }

  lemma LeaveHosted(m: Threads, c: Calls, lost: multiset<nat>, t: nat, k: nat, m': Threads)
    requires Hosted(m, c, lost) && t in c && t in m && t in m' && k < |c[t]| && SameRids(m, m')
    requires m'[t].pid == c[t][k].ctx.pid && m'[t].eid == c[t][k].ctx.eid
    requires forall x :: x in m' && x != t ==> x in m && m'[x].pid == m[x].pid && m'[x].eid == m[x].eid
    ensures Hosted(m', c[t := c[t][..k]], lost + multiset(Pids(c[t], k + 1)))
  {
    hide Hosted, Host, Held, Pids, SameRids;
    var c', lost' := c[t := c[t][..k]], lost + multiset(Pids(c[t], k + 1));
    PidsHosts(m, c, lost, t, k + 1);
    LostHosted(m, c, lost, m', multiset(Pids(c[t], k + 1)));
    forall x, i | x in c' && x in m' && 0 <= i <= |c'[x]|
      ensures Host(m', Visited(m', c', x, i)) && Held(m', c', lost', x, i, Effective(m', c', x, i))
    {
      if x != t {
        OtherHosted(m, c, lost, m', c', lost', t, x, i);
      } else {
        StepHosted(m, c, lost, m', c', lost', t, i);
      }
    }
    HostedBy(m', c', lost');
  }

  lemma DestroyHosted(m: Threads, c: Calls, lost: multiset<nat>, t: nat, m': Threads)
    requires Hosted(m, c, lost) && t in c && t in m && SameRids(m, m')
    requires forall x :: x in m' && x != t ==> x in m && m'[x].pid == m[x].pid && m'[x].eid == m[x].eid
    ensures Hosted(m', c - {t}, lost + LeftBehind(m[t], c[t]))
  {
    hide Hosted, Host, Held, Pids, SameRids;
    var c', more := c - {t}, LeftBehind(m[t], c[t]);
    if c[t] != [] { PidsHosts(m, c, lost, t, 1); }
    VisitedHost(m, c, lost, t, |c[t]|);
    LostHosted(m, c, lost, m', more);
    forall x, i | x in c' && x in m' && 0 <= i <= |c'[x]|
      ensures Host(m', Visited(m', c', x, i)) && Held(m', c', lost + more, x, i, Effective(m', c', x, i))
    {
      OtherHosted(m, c, lost, m', c', lost + more, t, x, i);
    }
    HostedBy(m', c', lost + more);
  }

  lemma CreateHosted(m: Threads, c: Calls, lost: multiset<nat>, t: nat, rid: nat, callback: nat)
    requires Consistent(m, c, lost) && Hosted(m, c, lost) && t !in m && t != 0
        && (rid == t || (rid in m && m[rid].rid == rid))
    ensures Hosted(Created(m, t, rid, callback), c[t := []], lost)
  {
    hide Sound, Reasons;
    var m', c' := Created(m, t, rid, callback), c[t := []];
    forall p | lost[p] > 0 ensures Host(m', p) { assert Count(m, p) > 0 && Host(m, p); }
    forall x, k | x in c' && x in m' && 0 <= k <= |c'[x]|
      ensures Host(m', Visited(m', c', x, k)) && Held(m', c', lost, x, k, Effective(m', c', x, k))
    {
      if x == t {
        assert Visited(m', c', t, 0) == rid;
      } else {
        CreateOther(m, c, lost, t, rid, callback, x, k);
      }
    }
  }

  lemma CreateOther(m: Threads, c: Calls, lost: multiset<nat>, t: nat, rid: nat, callback: nat, x: nat, k: nat)
    requires Consistent(m, c, lost) && Hosted(m, c, lost) && t !in m && (rid == t || rid in m) && x in c && x in m
        && k <= |c[x]|
    ensures var m', c' := Created(m, t, rid, callback), c[t := []];
            Host(m', Visited(m', c', x, k)) && Held(m', c', lost, x, k, Effective(m', c', x, k))
  {
    hide Sound, Reasons, Standing;
    var m', c', e := Created(m, t, rid, callback), c[t := []], Effective(m, c, x, k);
    ChainKept(m, c, lost, x, k);
    assert Host(m, Visited(m, c, x, k)) && Held(m, c, lost, x, k, e);
    if lost[e] == 0 {
      var j :| 0 <= j <= k && Visited(m, c, x, j) == e;
      assert Visited(m', c', x, j) == e;
    }
  }
}
