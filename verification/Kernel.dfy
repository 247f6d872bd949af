/**
 The IPC system calls (src/uapi/ipc.c) as steps of a system of threads that migrate between processes,
 together with the creation and destruction of threads (src/tcb.c), stack growth and user code.
 */
module Kernel {
  import opened Common
  import opened Rpc
  import opened Ipc

  datatype Status = Ok | ErrOomem | ErrInval | ErrMisc

  class System {
    var tcbs: Threads
    /** `rpc_stack_size` */
    const size: nat
    ghost var calls: Calls
    /** References that no response will give back, by process. */
    ghost var lost: multiset<nat>

    ghost predicate Valid()
      reads this
    {
      Sane(tcbs, calls, lost) && size > PAGE_SIZE
    }

    /** The init process, and the default RPC stack size of 512 KiB. */
    constructor ()
      ensures Valid() && size == 524288 && tcbs == map[1 := NewTcb(1, 0)] && calls == map[1 := []] && lost == multiset{}
    {
      tcbs := map[1 := NewTcb(1, 0)];
      size := 524288;
      calls := map[1 := []];
      lost := multiset{};
      new;
      Alone(tcbs, calls);
    }

    /**
     `do_ipc` and `enter_rpc`. A call pushes exactly the caller's exec, pid, eid and stack position; a tail
     call leaves the frames alone.
     */
    method DoIpc(t: nat, dst: nat, tail: bool, forward: bool) returns (st: Status)
      requires Valid() && Live(tcbs, t) && (tail ==> calls[t] != [])
      modifies this
      ensures Valid() && t in old(calls)
      ensures IpcDone(old(tcbs), old(calls), old(lost), tcbs, calls, lost, size, t, dst, tail, forward, st)
      ensures st == ErrOomem <==> !tail && (old(tcbs[t].stack.idx) - 1) * 4096 < size
      ensures st == ErrInval <==> (tail || size <= (old(tcbs[t].stack.idx) - 1) * 4096) && !IsProcess(old(tcbs), dst)
      ensures st != ErrMisc
    {
      hide Sane, Sound, Stepped, Pushed, Reused, Guarded, Migrated;
      ghost var m, c := tcbs, calls;
      LiveIsSound(tcbs, calls, lost, t);
      OutcomeIs(tcbs, size, t, dst, tail);
      var u := tcbs[t];
      if !tail && !Enough(u.stack, size) {
        return ErrOomem;
      }
      if !Alive(tcbs, dst) {
        return ErrInval;
      }
      var stack;
      if tail {
        stack := Reuse(u.stack, calls[t]);
      } else {
        stack := Push(u.stack, u.exec, u.pid, u.eid, calls[t]);
      }
      var v := Entered(u, dst, tcbs[dst].callback, forward, stack);
      ghost var call := Call(u.stack.idx, Ctx(u.exec, u.stack.pos, u.eid, u.pid));
      if tail {
        TailSane(tcbs, calls, lost, t, dst, v);
        lost := lost + multiset{u.pid};
      } else {
        PushSane(tcbs, calls, lost, t, dst, v, call);
        calls := calls[t := calls[t] + [call]];
      }
      tcbs := Referenced(tcbs[t := v], dst);
      EnteringSteps(m, c, t, dst, tail, forward, stack, calls);
      st := Ok;
    }

    /** `ipc_req` */
    method Request(t: nat, dst: nat) returns (st: Status)
      requires Valid() && Live(tcbs, t)
      modifies this
      ensures Valid() && t in old(calls)
      ensures IpcDone(old(tcbs), old(calls), old(lost), tcbs, calls, lost, size, t, dst, false, false, st)
    {
      hide Sane, Sound, IpcDone;
      LiveIsSound(tcbs, calls, lost, t);
      st := DoIpc(t, dst, false, false);
    }

    /** `ipc_fwd` */
    method Forward(t: nat, dst: nat) returns (st: Status)
      requires Valid() && Live(tcbs, t)
      modifies this
      ensures Valid() && t in old(calls)
      ensures IpcDone(old(tcbs), old(calls), old(lost), tcbs, calls, lost, size, t, dst, false, old(calls[t]) != [], st)
    {
      hide Sane, Sound, IpcDone;
      LiveIsSound(tcbs, calls, lost, t);
      InRpc(tcbs, calls, lost, t);
      var rpc := tcbs[t].stack.pos != PAGES;
      st := DoIpc(t, dst, false, rpc);
    }

    /** `ipc_tail` */
    method TailCall(t: nat, dst: nat) returns (st: Status)
      requires Valid() && Live(tcbs, t)
      modifies this
      ensures Valid() && t in old(calls)
      ensures IpcDone(old(tcbs), old(calls), old(lost), tcbs, calls, lost, size, t, dst, old(calls[t]) != [], false, st)
    {
      hide Sane, Sound, IpcDone;
      LiveIsSound(tcbs, calls, lost, t);
      InRpc(tcbs, calls, lost, t);
      var rpc := tcbs[t].stack.pos != PAGES;
      st := DoIpc(t, dst, rpc, false);
    }

    /** `ipc_kick` */
    method Kick(t: nat, dst: nat) returns (st: Status)
      requires Valid() && Live(tcbs, t)
      modifies this
      ensures Valid() && t in old(calls)
      ensures IpcDone(old(tcbs), old(calls), old(lost), tcbs, calls, lost, size, t, dst, old(calls[t]) != [],
          old(calls[t]) != [], st)
    {
      hide Sane, Sound, IpcDone;
      LiveIsSound(tcbs, calls, lost, t);
      InRpc(tcbs, calls, lost, t);
      var rpc := tcbs[t].stack.pos != PAGES;
      st := DoIpc(t, dst, rpc, rpc);
    }

    /** Lines 200-226: unwind to the nearest call whose caller is alive, or to the outermost one. */
    method Unwind(t: nat) returns (ctx: Ctx, orphaned: bool, ghost k: nat)
      requires t in tcbs && t in calls && Sound(tcbs[t].stack, calls[t]) && calls[t] != []
      ensures k == Back(tcbs, calls[t]) && ctx == calls[t][k].ctx
      ensures orphaned <==> !Alive(tcbs, ctx.pid)
    {
      var stack := tcbs[t].stack;
      ghost var c := calls[t];
      k := |c| - 1;
      var pos := stack.pos;
      assert Kept(stack, c, k);
      ctx := stack.mem[pos - 1];
      orphaned := false;
      while !Alive(tcbs, ctx.pid)
        invariant 0 <= k < |c| && pos == c[k].pos && ctx == c[k].ctx
        invariant Back(tcbs, c) == BackFrom(tcbs, c, k)
        decreases k
      {
        assert Kept(stack, c, k) && (k > 0 ==> Kept(stack, c, k - 1));
        if ctx.back == PAGES {
          orphaned := true;
          break;
        }
        k := k - 1;
        pos := ctx.back;
        ctx := stack.mem[pos - 1];
      }
    }

    /**
     `ipc_resp` and `leave_rpc`: the thread goes back to the nearest caller whose process is alive, with
     exactly what that caller's call saved; calls nest last in, first out.
     */
    method Respond(t: nat) returns (st: Status, ghost k: nat)
      requires Valid() && Live(tcbs, t)
      modifies this
      ensures Valid() && t in calls && t in tcbs && t in old(calls)
      ensures st == if old(calls[t]) == [] then ErrMisc else Ok
      ensures if st == Ok then k == Back(old(tcbs), old(calls[t])) && Responded(old(tcbs), old(calls), old(lost),
          tcbs, calls, lost, t)
              else tcbs == old(tcbs) && calls == old(calls) && lost == old(lost)
      ensures st == Ok ==> k < |old(calls)[t]| && CameBack(old(tcbs), old(tcbs[t]), tcbs[t], old(calls)[t][k].ctx)
                           && calls == old(calls)[t := old(calls)[t][..k]]
                               && FewerBy(old(tcbs), tcbs, t, multiset{old(tcbs[t].pid)})
      ensures forall p :: p in old(tcbs) && p !in tcbs ==> p == old(tcbs[t].pid) && NobodyReturnsTo(tcbs, calls, p)
    {
      hide Sane, Sound, Responded, Pids, NobodyReturnsTo, Popped, Back, BackFrom, Alive, CameBack, FewerBy;
      LiveIsSound(tcbs, calls, lost, t);
      InRpc(tcbs, calls, lost, t);
      k := 0;
      if tcbs[t].stack.pos == PAGES {
        return ErrMisc, k;
      }
      ghost var m, c := tcbs, calls;
      SaneResponder(m, c, lost, t);
      tcbs := Unreferenced(tcbs, tcbs[t].pid);
      SameStack(m, m[t].pid, t);
      var ctx, orphaned;
      ctx, orphaned, k := Unwind(t);
      BacksSame(m, tcbs, calls[t]);
      SoundShape(tcbs[t].stack, calls[t]);
      var stack := Pop(tcbs[t].stack, calls[t], ctx.back, k);
      var u := tcbs[t].(exec := ctx.exec, pid := ctx.pid, eid := ctx.eid, stack := stack, orphan := tcbs[t].orphan
          || orphaned);
      LeaveSane(m, c, lost, t, k, u);
      LeavingResponds(m, c, lost, t, u);
      tcbs := tcbs[t := u];
      lost := lost + multiset(Pids(calls[t], k + 1));
      calls := calls[t := calls[t][..k]];
      Everyone(m, c, old(lost));
      RespondedMeans(m, c, old(lost), tcbs, calls, lost, t);
      forall p | p in m && p !in tcbs ensures p == m[t].pid && NobodyReturnsTo(tcbs, calls, p) {
        GoneIsUnused(tcbs, calls, lost, p);
      }
      st := Ok;
    }

    /** A page fault in the RPC stack, at page `bottom`. */
    method GrowStack(t: nat, bottom: nat)
      requires Valid() && Live(tcbs, t) && 1 <= bottom <= tcbs[t].stack.idx
      modifies this
      ensures Valid() && calls == old(calls) && lost == old(lost)
          && tcbs == old(tcbs)[t := old(tcbs[t]).(stack := tcbs[t].stack)]
      ensures tcbs[t].stack == Grown(old(tcbs[t].stack), bottom) && Opened(old(tcbs[t].stack), tcbs[t].stack, bottom)
    {
      hide Sane, Sound;
      LiveIsSound(tcbs, calls, lost, t);
      var stack := Grow(tcbs[t].stack, bottom, calls[t]);
      TouchedSane(tcbs, calls, lost, t, tcbs[t].(stack := stack));
      tcbs := tcbs[t := tcbs[t].(stack := stack)];
    }

    /** User code of thread `t` runs and writes what it can. */
    method UserRuns(t: nat, mem: seq<Ctx>)
      requires Valid() && Live(tcbs, t) && Touches(tcbs[t].stack, tcbs[t].stack.(mem := mem))
      modifies this
      ensures Valid() && calls == old(calls) && lost == old(lost)
          && tcbs == old(tcbs)[t := old(tcbs[t]).(stack := old(tcbs[t].stack).(mem := mem))]
    {
      hide Sane, Sound;
      LiveIsSound(tcbs, calls, lost, t);
      var stack := tcbs[t].stack.(mem := mem);
      UserCannotForge(tcbs[t].stack, calls[t], stack);
      TouchedSane(tcbs, calls, lost, t, tcbs[t].(stack := stack));
      tcbs := tcbs[t := tcbs[t].(stack := stack)];
    }

    /** `handle_pagefault` at an address the current process has: its user half is shown again. */
    method PageFault(t: nat)
      requires Valid() && Live(tcbs, t)
      modifies this
      ensures Valid() && calls == old(calls) && lost == old(lost)
          && tcbs == old(tcbs)[t := old(tcbs[t]).(shown := old(tcbs[t].pid))]
    {
      hide Sane, Sound;
      LiveIsSound(tcbs, calls, lost, t);
      var u := tcbs[t].(shown := tcbs[t].pid);
      TouchedSane(tcbs, calls, lost, t, u);
      tcbs := tcbs[t := u];
    }

    /** `create_proc`, for a free id `t`. */
    method CreateProcess(t: nat, callback: nat)
      requires Valid() && t !in tcbs && t != 0
      modifies this
      ensures Valid() && calls == old(calls)[t := []] && lost == old(lost) && tcbs == Created(old(tcbs), t, t, callback)
      ensures tcbs.Keys == old(tcbs.Keys) + {t} && Begun(tcbs[t], t, callback)
      ensures forall x :: x in old(tcbs) ==> tcbs[x] == old(tcbs)[x]
    {
      hide Sane, Sound;
      CreateSane(tcbs, calls, lost, t, t, callback);
      calls := calls[t := []];
      tcbs := Created(tcbs, t, t, callback);
    }

    /**
     The `create` system call of thread `maker`, for a free id `t`: a thread of the effective process of `maker`. That
     process is in the table, as the source asserts, but may be a zombie by now, which the source does not test; then
     the new thread has no root process to take the user half of.
     */
    method CreateThread(maker: nat, t: nat) returns (ok: bool)
      requires Valid() && Live(tcbs, maker) && t !in tcbs && t != 0
      modifies this
      ensures Valid() && old(tcbs[maker].eid) in old(tcbs)
      ensures ok <==> old(Live(tcbs, tcbs[maker].eid))
      ensures ok ==> var e := old(tcbs[maker].eid);
                     old(tcbs)[e].rid == e && calls == old(calls)[t := []] && lost == old(lost)
                         && tcbs == Created(old(tcbs), t, e, old(tcbs)[e].callback)
      ensures ok ==> var e := old(tcbs[maker].eid);
                     tcbs.Keys == old(tcbs.Keys) + {t} && Begun(tcbs[t], e, old(tcbs)[e].callback)
                         && OneMore(old(tcbs), tcbs, e)
      ensures !ok ==> tcbs == old(tcbs) && calls == old(calls) && lost == old(lost)
    {
      hide Sane, Sound;
      LiveIsSound(tcbs, calls, lost, maker);
      SaneEffective(tcbs, calls, lost, maker);
      var e := tcbs[maker].eid;
      if tcbs[e].rid == 0 {
        return false;
      }
      var callback := tcbs[e].callback;
      CreateSane(tcbs, calls, lost, t, e, callback);
      calls := calls[t := []];
      tcbs := Created(tcbs, t, e, callback);
      ok := true;
    }

    /** `destroy_thread` */
    method DestroyThread(t: nat)
      requires Valid() && Live(tcbs, t) && t != 1
      modifies this
      ensures Valid() && t in old(calls) && calls == old(calls) - {t} && lost == old(lost) + LeftBehind(old(tcbs[t]),
          old(calls)[t])
      ensures old(tcbs[t].rid) in old(tcbs) && (forall x :: x in old(tcbs) ==> old(tcbs)[x].refcount > 0)
      ensures tcbs == Destroyed(old(tcbs), t)
      ensures t in tcbs ==> tcbs[t] == old(tcbs[t]).(rid := 0, refcount := old(tcbs[t].refcount) - 1)
      ensures var r := old(tcbs[t].rid); FewerBy(old(tcbs), tcbs, t, if r == t then multiset{t} else multiset{r, t})
      ensures forall p :: p in old(tcbs) && p !in tcbs ==> NobodyReturnsTo(tcbs, calls, p)
    {
      hide Sane, Sound, LeftBehind;
      LiveIsSound(tcbs, calls, lost, t);
      Everyone(tcbs, calls, lost);
      DestroySane(tcbs, calls, lost, t);
      DestroyedMeans(tcbs, t);
      ghost var m := tcbs;
      lost := lost + LeftBehind(tcbs[t], calls[t]);
      tcbs := Destroyed(tcbs, t);
      calls := calls - {t};
      forall p | p in m && p !in tcbs ensures NobodyReturnsTo(tcbs, calls, p) {
        GoneIsUnused(tcbs, calls, lost, p);
      }
    }

    /**
     A request and its response, with a caller whose process is alive: ids, frames and all counts are as before. The
     user half shown is not: it is still the server's, and so the caller's own exactly if the call was to itself.
     */
    method RequestThenRespond(t: nat, dst: nat) returns (ok: bool)
      requires Valid() && Live(tcbs, t) && Alive(tcbs, tcbs[t].pid)
      modifies this
      ensures Valid() && (ok <==> old(Outcome(tcbs, size, t, dst, false)) == Ok)
      ensures calls == old(calls) && lost == old(lost) && tcbs.Keys == old(tcbs.Keys)
      ensures forall x :: x in tcbs && x != t ==> tcbs[x] == old(tcbs)[x]
      ensures t in tcbs && SameBut(old(tcbs[t]), tcbs[t])
      ensures ok ==> tcbs[t].shown == dst && (tcbs[t].shown == tcbs[t].pid <==> dst == old(tcbs[t].pid))
    {
      hide Sane, Sound, Stepped, Responded;
      ghost var m, c := tcbs, calls;
      Everyone(m, c, lost);
      LiveIsSound(m, c, lost, t);
      var st := Request(t, dst);
      if st != Ok {
        return false;
      }
      ghost var m1, c1, l1 := tcbs, calls, lost;
      StepMeans(m, c, m1, c1, t, dst, false, false);
      ghost var k;
      st, k := Respond(t);
      ThereAndBack(m, c, l1, m1, c1, tcbs, calls, lost, t, dst);
      ok := true;
    }

    /**
     A request that is kicked on from server to server: the ids and frames of the thread are those of one
     direct request to the last server. Every server on the way keeps a reference.
     */
    method RequestKicked(t: nat, servers: seq<nat>) returns (ok: bool)
      requires Valid() && Live(tcbs, t) && |servers| > 0
      modifies this
      ensures Valid()
      ensures ok ==> && t in tcbs && t in calls && t in old(calls) && servers[|servers| - 1] in old(tcbs)
                     && var last := servers[|servers| - 1];
                     && Migrated(old(tcbs[t]), old(calls[t]), tcbs[t], calls[t], last, old(tcbs[last].callback),
                         false, false)
                     && Gained(old(tcbs), tcbs, servers)
    {
      hide Sane, Sound, Migrated, Gained, Stepped, Outcome;
      ghost var m, c := tcbs, calls;
      LiveIsSound(m, c, lost, t);
      var st := Request(t, servers[0]);
      if st != Ok {
        return false;
      }
      StepMeans(m, c, tcbs, calls, t, servers[0], false, false);
      NoGain(m);
      GainedOne(m, c, m, tcbs, calls, t, [], servers[0], false, false);
      Prefixes(servers, 0);
      for n := 1 to |servers|
        invariant Valid() && Live(tcbs, t) && t in calls && tcbs.Keys == m.Keys && servers[n - 1] in m
        invariant Migrated(m[t], c[t], tcbs[t], calls[t], servers[n - 1], m[servers[n - 1]].callback, false, false)
        invariant Gained(m, tcbs, servers[..n])
      {
        ghost var m1, c1 := tcbs, calls;
        ghost var u, d := tcbs[t], calls[t];
        MigratedIn(m[t], c[t], u, d, servers[n - 1], m[servers[n - 1]].callback);
        st := Kick(t, servers[n]);
        if st != Ok {
          return false;
        }
        StepMeans(m1, c1, tcbs, calls, t, servers[n], true, true);
        SameCallback(m, m1, servers[..n], servers[n]);
        KickedOn(m[t], c[t], u, d, tcbs[t], calls[t], servers[n - 1], m[servers[n - 1]].callback, servers[n],
            m[servers[n]].callback);
        GainedOne(m, c1, m1, tcbs, calls, t, servers[..n], servers[n], true, true);
        Prefixes(servers, n);
      }
      ok := true;
    }

    /** One step of the system; a step whose conditions do not hold does nothing. */
    method Step(a: Action)
      requires Valid()
      modifies this
      ensures Valid() && Effect(old(tcbs), old(calls), old(lost), tcbs, calls, lost, size, a)
    {
      hide Sane, Sound, Stepped, Outcome, Responded, Touches, Created, Destroyed, LeftBehind;
      Everyone(tcbs, calls, lost);
      var st;
      match a
      case Req(t, dst) => if Live(tcbs, t) { st := Request(t, dst); }
      case Fwd(t, dst) => if Live(tcbs, t) { st := Forward(t, dst); }
      case Tail(t, dst) => if Live(tcbs, t) { st := TailCall(t, dst); }
      case Kicked(t, dst) => if Live(tcbs, t) { st := Kick(t, dst); }
      case Resp(t) => if Live(tcbs, t) { ghost var k; st, k := Respond(t); }
      case GrowBy(t, bottom) => if Live(tcbs, t) && 1 <= bottom <= tcbs[t].stack.idx { GrowStack(t, bottom); }
      case User(t, mem) => if Live(tcbs, t) && Touches(tcbs[t].stack, tcbs[t].stack.(mem := mem)) { UserRuns(t, mem); }
      case Fault(t) => if Live(tcbs, t) { PageFault(t); }
      case Spawn(t, callback) => if t !in tcbs && t != 0 { CreateProcess(t, callback); }
      case Create(maker, t) => if Live(tcbs, maker) && t !in tcbs && t != 0 { var _ := CreateThread(maker, t); }
      case Destroy(t) => if Live(tcbs, t) && t != 1 { DestroyThread(t); }
    }

    /**
     Whatever happens in whatever order: in every state on the way every live context is intact and out of
     reach of user code, every process on a call chain is there, and every count covers its reasons.
     */
    method Run(script: seq<Action>) returns (ghost trace: seq<State>)
      requires Valid()
      modifies this
      ensures Valid() && |trace| == |script| + 1 && trace[0] == (old(tcbs), old(calls), old(lost))
          && trace[|script|] == (tcbs, calls, lost)
      ensures forall n :: 0 <= n < |script| ==> Took(trace[n], trace[n + 1], size, script[n])
      ensures forall n :: 0 <= n < |trace| ==> Safe(trace[n].0, trace[n].1, trace[n].2)
    {
      hide Sane, Effect, Safe;
      trace := [(tcbs, calls, lost)];
      SaneIsSafe(tcbs, calls, lost);
      for n := 0 to |script|
        invariant Valid() && |trace| == n + 1 && trace[0] == (old(tcbs), old(calls), old(lost))
            && trace[n] == (tcbs, calls, lost)
        invariant forall j :: 0 <= j < n ==> Took(trace[j], trace[j + 1], size, script[j])
        invariant forall j :: 0 <= j < |trace| ==> Safe(trace[j].0, trace[j].1, trace[j].2)
      {
        Step(script[n]);
        SaneIsSafe(tcbs, calls, lost);
        trace := trace + [(tcbs, calls, lost)];
      }
    }
  }

  /** Threads, their calls, and the references left behind. */
  type State = (Threads, Calls, multiset<nat>)

  ghost predicate Took(s: State, s': State, size: nat, a: Action) {
    Effect(s.0, s.1, s.2, s'.0, s'.1, s'.2, size, a)
  }

  /** A thread of process `rid` that has not run yet: nothing saved, no page of its stack accessible. */
  ghost predicate Begun(u: Tcb, rid: nat, callback: nat) {
    && u.rid == rid && u.pid == rid && u.eid == rid && u.shown == rid && u.callback == callback && !u.orphan
    && u.refcount == 1 && u.stack.idx == 511 && u.stack.pos == 512
    && |u.stack.user| == 512 && forall p :: 0 <= p < 512 ==> !u.stack.user[p]
  }

  /** Whoever was in the table is unchanged, but for one more reference to `e`. */
  ghost predicate OneMore(m: Threads, m': Threads, e: nat) {
    forall x :: x in m ==> x in m' && m'[x] == m[x].(refcount := m[x].refcount + if x == e then 1 else 0)
  }

  /** Thread `u` has come back as `v`, with exactly what `ctx` holds; it is an orphan if the caller is not alive. */
  ghost predicate CameBack(m: Threads, u: Tcb, v: Tcb, ctx: Ctx) {
    && v.exec == ctx.exec && v.pid == ctx.pid && v.eid == ctx.eid && v.stack.pos == ctx.back
    && v.stack.idx == ctx.back - 2 && v.stack.mem == u.stack.mem
    && v.rid == u.rid && v.callback == u.callback && v.shown == u.shown
    && (v.orphan <==> u.orphan || !IsProcess(m, ctx.pid))
  }

  /**
   All but thread `t` are unchanged, but for one reference less to each of `ps`; without a reference they are gone.
   */
  ghost predicate FewerBy(m: Threads, m': Threads, t: nat, ps: multiset<nat>) {
    && m'.Keys <= m.Keys && (forall x :: x in m' && x != t ==> m'[x] == m[x].(refcount := m'[x].refcount))
    && (forall x :: x in m' ==> m'[x].refcount > 0) && forall x :: Count(m', x) == Count(m, x) - ps[x]
  }

  lemma RespondedMeans(m: Threads, c: Calls, l: multiset<nat>, m': Threads, c': Calls, l': multiset<nat>, t: nat)
    requires Responded(m, c, l, m', c', l', t) && forall x :: x in m ==> m[x].refcount > 0
    ensures CameBack(m, m[t], m'[t], c[t][Back(m, c[t])].ctx) && FewerBy(m, m', t, multiset{m[t].pid})
    ensures c' == c[t := c[t][..Back(m, c[t])]]
  {
    hide Back, Unreferenced, Resumed, FewerBy;
    var q, ctx := m[t].pid, c[t][Back(m, c[t])].ctx;
    UnreferencedMeans(m, q, t);
    ResumedMeans(m, Unreferenced(m, q)[t], ctx);
    OtherwiseSame(m, Unreferenced(m, q), t, Resumed(m, Unreferenced(m, q)[t], ctx), multiset{q});
  }

  lemma UnreferencedMeans(m: Threads, q: nat, t: nat)
    requires q in m && forall x :: x in m ==> m[x].refcount > 0
    ensures var m' := Unreferenced(m, q);
            FewerBy(m, m', t, multiset{q}) && (t in m' ==> m'[t] == m[t].(refcount := m'[t].refcount))
  {
  }

  lemma ResumedMeans(m: Threads, u: Tcb, ctx: Ctx)
    requires |u.stack.user| == PAGES && 0 <= u.stack.idx < PAGES
    ensures CameBack(m, u, Resumed(m, u, ctx), ctx) && Resumed(m, u, ctx).refcount == u.refcount
  {
  }

  lemma OtherwiseSame(m: Threads, m1: Threads, t: nat, u: Tcb, ps: multiset<nat>)
    requires FewerBy(m, m1, t, ps) && t in m1 && u.refcount == m1[t].refcount
    ensures FewerBy(m, m1[t := u], t, ps)
  {
  }

  lemma DestroyedMeans(m: Threads, t: nat)
    requires Live(m, t) && m[t].rid in m && forall x :: x in m ==> m[x].refcount > 0
    ensures var m', r := Destroyed(m, t), m[t].rid;
            FewerBy(m, m', t, if r == t then multiset{t} else multiset{r, t})
            && (t in m' ==> m'[t] == m[t].(rid := 0, refcount := m[t].refcount - 1))
  {
    hide Destroyed;
    var m' := Destroyed(m, t);
    DestroyedSelf(m, t);
    forall x ensures Count(m', x) == Count(m, x) - (if x == t then 1 else 0) - (if x == m[t].rid != t then 1 else 0) {
      DestroyedCount(m, t, x);
    }
    forall x | x in m' && x != t ensures m'[x] == m[x].(refcount := m'[x].refcount) && m'[x].refcount > 0 {
      DestroyedOther(m, t, x);
    }
    DestroyedZombie(m, t);
  }

  lemma DestroyedZombie(m: Threads, t: nat)
    requires Live(m, t) && m[t].rid in m && forall x :: x in m ==> m[x].refcount > 0
    ensures t in Destroyed(m, t) ==> Destroyed(m, t)[t] == m[t].(rid := 0, refcount := m[t].refcount - 1)
  {
  }

  /** References are accounted for, and every effective process is held. */
  ghost predicate Sane(m: Threads, c: Calls, lost: multiset<nat>) {
    Consistent(m, c, lost) && Hosted(m, c, lost)
  }

  datatype Action =
    | Req(t: nat, dst: nat) | Fwd(t: nat, dst: nat) | Tail(t: nat, dst: nat) | Kicked(t: nat, dst: nat) | Resp(t: nat)
    | GrowBy(t: nat, bottom: nat) | Fault(t: nat) | User(t: nat, mem: seq<Ctx>)
    | Spawn(t: nat, callback: nat) | Create(maker: nat, t: nat) | Destroy(t: nat)

  /** A process that is there, is not a zombie and is no orphan. */
  ghost predicate IsProcess(m: Threads, p: nat) {
    p != 0 && p in m && m[p].rid == p && !m[p].orphan
  }

  /** A call, but no tail call, needs the configured bytes of stack below its context; every one needs a process. */
  lemma OutcomeIs(m: Threads, size: nat, t: nat, dst: nat, tail: bool)
    requires t in m
    ensures Outcome(m, size, t, dst, tail) ==
            if !tail && (m[t].stack.idx - 1) * 4096 < size then ErrOomem
            else if IsProcess(m, dst) then Ok else ErrInval
  {
  }

  /** The status of `do_ipc`. */
  function Outcome(m: Threads, size: nat, t: nat, dst: nat, tail: bool): Status
    requires t in m
  {
    if !tail && !Enough(m[t].stack, size) then ErrOomem else if !Alive(m, dst) then ErrInval else Ok
  }

  /**
   An IPC system call: it migrates the thread exactly when nothing stands against it, and otherwise changes nothing.
   */
  ghost predicate IpcDone(m: Threads, c: Calls, l: multiset<nat>, m': Threads, c': Calls, l': multiset<nat>,
                          size: nat, t: nat, dst: nat, tail: bool, forward: bool, st: Status) {
    && t in m && st == Outcome(m, size, t, dst, tail)
    && (if st == Ok then Stepped(m, c, m', c', t, dst, tail, forward) else m' == m && c' == c)
    && l' == if st == Ok && tail then l + multiset{m[t].pid} else l
  }

  ghost predicate IpcCall(m: Threads, c: Calls, l: multiset<nat>, m': Threads, c': Calls, l': multiset<nat>,
                          size: nat, t: nat, dst: nat, tail: bool, forward: bool) {
    t in m && IpcDone(m, c, l, m', c', l', size, t, dst, tail, forward, Outcome(m, size, t, dst, tail))
  }

  /** The call that a response goes back to: the nearest one whose caller is alive, or the outermost one. */
  ghost function Back(m: Threads, calls: seq<Call>): (k: nat)
    requires calls != []
    ensures k < |calls| && (forall j :: k < j < |calls| ==> !Alive(m, calls[j].ctx.pid))
        && (Alive(m, calls[k].ctx.pid) || k == 0)
  {
    BackFrom(m, calls, |calls| - 1)
  }

  ghost function BackFrom(m: Threads, calls: seq<Call>, k: nat): (r: nat)
    requires k < |calls|
    ensures r <= k && (forall j :: r < j <= k ==> !Alive(m, calls[j].ctx.pid)) && (Alive(m, calls[r].ctx.pid) || r == 0)
  {
    if k == 0 || Alive(m, calls[k].ctx.pid) then k else BackFrom(m, calls, k - 1)
  }

  lemma {:induction false} BackSame(m: Threads, m': Threads, calls: seq<Call>, k: nat)
    requires k < |calls| && forall p :: Alive(m', p) <==> Alive(m, p)
    ensures BackFrom(m', calls, k) == BackFrom(m, calls, k)
  {
    if k > 0 { BackSame(m, m', calls, k - 1); }
  }

  lemma BacksSame(m: Threads, m': Threads, calls: seq<Call>)
    requires calls != [] && forall p :: Alive(m', p) <==> Alive(m, p)
    ensures Back(m', calls) == Back(m, calls)
  {
    BackSame(m, m', calls, |calls| - 1);
  }

  lemma SoundShape(s: Stack, calls: seq<Call>)
    requires Sound(s, calls)
    ensures |s.user| == PAGES && |s.mem| == PAGES && 1 <= s.idx < PAGES
  {
  }

  /** A response: the thread, its stack included, is as the call it goes back to has it. */
  ghost predicate Responded(m: Threads, c: Calls, l: multiset<nat>, m': Threads, c': Calls, l': multiset<nat>, t: nat) {
    && t in m && t in c && t in m' && t in c' && c[t] != [] && |m[t].stack.user| == PAGES && 0 <= m[t].stack.idx < PAGES
    && var k := Back(m, c[t]);
    && var q, ctx := m[t].pid, c[t][k].ctx;
    && q in m && m[q].refcount > 0 && t in Unreferenced(m, q)
    && m' == Unreferenced(m, q)[t := Resumed(m, Unreferenced(m, q)[t], ctx)]
    && c' == c[t := c[t][..k]] && l' == l + multiset(Pids(c[t], k + 1))
  }

  /** Thread `u` back where `ctx` was saved; if the caller is not alive, it is an orphan. */
  ghost function Resumed(m: Threads, u: Tcb, ctx: Ctx): Tcb
    requires |u.stack.user| == PAGES && 0 <= u.stack.idx < PAGES
  {
    u.(exec := ctx.exec, pid := ctx.pid, eid := ctx.eid, stack := Popped(u.stack, ctx.back), orphan := u.orphan
        || !Alive(m, ctx.pid))
  }

  ghost predicate Nothing(m: Threads, c: Calls, l: multiset<nat>, m': Threads, c': Calls, l': multiset<nat>) {
    m' == m && c' == c && l' == l
  }

  /** What each action does to the threads, their calls and the references left behind. */
  ghost predicate Effect(m: Threads, c: Calls, l: multiset<nat>, m': Threads, c': Calls, l': multiset<nat>, size: nat,
      a: Action) {
    match a
    case Req(t, dst) => if Live(m, t) then IpcCall(m, c, l, m', c', l', size, t, dst, false, false)
        else Nothing(m, c, l, m', c', l')
    case Fwd(t, dst) =>
      if Live(m, t) && t in c then IpcCall(m, c, l, m', c', l', size, t, dst, false, c[t] != [])
          else Nothing(m, c, l, m', c', l')
    case Tail(t, dst) =>
      if Live(m, t) && t in c then IpcCall(m, c, l, m', c', l', size, t, dst, c[t] != [], false)
          else Nothing(m, c, l, m', c', l')
    case Kicked(t, dst) =>
      if Live(m, t) && t in c then IpcCall(m, c, l, m', c', l', size, t, dst, c[t] != [], c[t] != [])
          else Nothing(m, c, l, m', c', l')
    case Resp(t) =>
      if Live(m, t) && t in c && c[t] != [] then Responded(m, c, l, m', c', l', t) else Nothing(m, c, l, m', c', l')
    case GrowBy(t, bottom) =>
      if Live(m, t) && 1 <= bottom <= m[t].stack.idx then
        Nothing(m[t := m[t].(stack := Grown(m[t].stack, bottom))], c, l, m', c', l')
      else Nothing(m, c, l, m', c', l')
    case Fault(t) => Nothing(if Live(m, t) then m[t := m[t].(shown := m[t].pid)] else m, c, l, m', c', l')
    case User(t, mem) =>
      if Live(m, t) && Touches(m[t].stack, m[t].stack.(mem := mem)) then
        Nothing(m[t := m[t].(stack := m[t].stack.(mem := mem))], c, l, m', c', l')
      else Nothing(m, c, l, m', c', l')
    case Spawn(t, callback) =>
      if t !in m && t != 0 then Nothing(Created(m, t, t, callback), c[t := []], l, m', c', l')
          else Nothing(m, c, l, m', c', l')
    case Create(maker, t) =>
      if Live(m, maker) && t !in m && t != 0 && Live(m, m[maker].eid) then
        Nothing(Created(m, t, m[maker].eid, m[m[maker].eid].callback), c[t := []], l, m', c', l')
      else Nothing(m, c, l, m', c', l')
    case Destroy(t) =>
      if Live(m, t) && t != 1 && t in c && m[t].rid in m && (forall x :: x in m ==> m[x].refcount > 0) then
        Nothing(Destroyed(m, t), c - {t}, l + LeftBehind(m[t], c[t]), m', c', l')
      else Nothing(m, c, l, m', c', l')
  }

  /**
   Contexts are intact and out of reach, chains and effective processes are in the table, and every count is the
   number of reasons plus the references left behind.
   */
  ghost predicate Safe(m: Threads, c: Calls, l: multiset<nat>) {
    && (forall t :: t in c ==> t in m && Sound(m[t].stack, c[t]))
    && (forall t, k :: t in c && t in m && 0 <= k <= |c[t]| ==> Visited(m, c, t, k) in m && Effective(m, c, t, k) in m)
    && (forall p :: Count(m, p) == |Reasons(m, c, p)| + l[p])
    && (forall t :: t in c && t in m && m[t].shown !in m ==> Stale(m, t))
  }

  /** Everything but the stack below its position and the user half shown. */
  ghost predicate SameBut(u: Tcb, v: Tcb) {
    v == u.(shown := v.shown, stack := v.stack) && v.stack.pos == u.stack.pos
  }

  /** The thread's RPC address space does not show the process the thread is in. */
  ghost predicate Stale(m: Threads, t: nat)
    requires t in m
  {
    m[t].shown != m[t].pid
  }

  /** `enter_rpc` and `handle_pagefault` show the process that the thread then is in. */
  ghost predicate Refreshes(m: Threads, c: Calls, size: nat, a: Action, t: nat)
    requires t in m && t in c
  {
    match a
    case Req(x, dst) => x == t && Outcome(m, size, t, dst, false) == Ok
    case Fwd(x, dst) => x == t && Outcome(m, size, t, dst, false) == Ok
    case Tail(x, dst) => x == t && Outcome(m, size, t, dst, c[t] != []) == Ok
    case Kicked(x, dst) => x == t && Outcome(m, size, t, dst, c[t] != []) == Ok
    case Fault(x) => x == t
    case _ => false
  }

  /**
   Exactly when a thread sees another process than the one it is in: a response leads to another process than the one
   shown, as `leave_rpc` does not show the caller's user half again, or it was so before and no call and no page fault
   has set it right.
   */
  lemma StaleIff(m: Threads, c: Calls, l: multiset<nat>, m': Threads, c': Calls, l': multiset<nat>, size: nat,
      a: Action, t: nat)
    requires Sane(m, c, l) && Effect(m, c, l, m', c', l', size, a) && t in c && t in m && t in c' && t in m'
    ensures Stale(m', t) <==>
            if a == Resp(t) && c[t] != [] then c[t][Back(m, c[t])].ctx.pid != m[t].shown
            else Stale(m, t) && !Refreshes(m, c, size, a, t)
  {
    hide Sane, Sound, Outcome, Touches, IpcCall, Responded, Destroyed, LeftBehind;
    Everyone(m, c, l);
    match a
    case Req(x, dst) => if Live(m, x) { IpcStale(m, c, l, m', c', l', size, x, dst, false, false, t); }
    case Fwd(x, dst) => if Live(m, x) { IpcStale(m, c, l, m', c', l', size, x, dst, false, c[x] != [], t); }
    case Tail(x, dst) => if Live(m, x) { IpcStale(m, c, l, m', c', l', size, x, dst, c[x] != [], false, t); }
    case Kicked(x, dst) => if Live(m, x) { IpcStale(m, c, l, m', c', l', size, x, dst, c[x] != [], c[x] != [], t); }
    case Resp(x) => if Live(m, x) && c[x] != [] { RespStale(m, c, l, m', c', l', x, t); }
    case GrowBy(x, bottom) =>
    case Fault(x) =>
    case User(x, mem) =>
    case Spawn(x, callback) =>
    case Create(x, y) =>
    case Destroy(x) => if Live(m, x) && x != t { DestroyedOther(m, x, t); }
  }

  /** The threads that an action takes out of the table: the last reference to them goes. */
  ghost function Removed(m: Threads, c: Calls, a: Action): set<nat> {
    match a
    case Resp(t) =>
      if Live(m, t) && t in c && c[t] != [] && m[t].pid in m && m[m[t].pid].refcount == 1 then {m[t].pid} else {}
    case Destroy(t) =>
      if !Live(m, t) || t == 1 then {}
      else
        (if m[t].refcount == 1 then {t} else {})
        + (if m[t].rid in m && m[t].rid != t && m[m[t].rid].refcount == 1 then {m[t].rid} else {})
    case _ => {}
  }

  ghost function Added(m: Threads, a: Action): set<nat> {
    match a
    case Spawn(t, callback) => if t !in m && t != 0 then {t} else {}
    case Create(maker, t) => if Live(m, maker) && t !in m && t != 0 && Live(m, m[maker].eid) then {t} else {}
    case _ => {}
  }

  /** Who is in the table after an action. */
  lemma TableAfter(m: Threads, c: Calls, l: multiset<nat>, m': Threads, c': Calls, l': multiset<nat>, size: nat,
      a: Action)
    requires Sane(m, c, l) && Effect(m, c, l, m', c', l', size, a)
    ensures m'.Keys == m.Keys - Removed(m, c, a) + Added(m, a)
  {
    hide Sane, Sound, Outcome, Touches, LeftBehind, Destroyed, IpcCall, Responded, Created, Grown;
    Everyone(m, c, l);
    match a
    case Req(x, dst) => if Live(m, x) { IpcKeys(m, c, l, m', c', l', size, x, dst, false, false); }
    case Fwd(x, dst) => if Live(m, x) { IpcKeys(m, c, l, m', c', l', size, x, dst, false, c[x] != []); }
    case Tail(x, dst) => if Live(m, x) { IpcKeys(m, c, l, m', c', l', size, x, dst, c[x] != [], false); }
    case Kicked(x, dst) => if Live(m, x) { IpcKeys(m, c, l, m', c', l', size, x, dst, c[x] != [], c[x] != []); }
    case Resp(x) => if Live(m, x) && c[x] != [] { RespKeys(m, c, l, m', c', l', x); }
    case GrowBy(x, bottom) =>
    case Fault(x) =>
    case User(x, mem) =>
    case Spawn(x, callback) =>
      CreatedKeys(m, x, x, callback);
    case Create(x, y) =>
      if Live(m, x) && Live(m, m[x].eid) {
        CreatedKeys(m, y, m[x].eid, m[m[x].eid].callback);
      }
    case Destroy(x) => if Live(m, x) && x != 1 { DestroyKeys(m, x); }
  }

  lemma CreatedKeys(m: Threads, t: nat, rid: nat, callback: nat)
    requires rid in m || rid == t
    ensures Created(m, t, rid, callback).Keys == m.Keys + {t}
  {
  }

  lemma IpcKeys(m: Threads, c: Calls, l: multiset<nat>, m': Threads, c': Calls, l': multiset<nat>,
                size: nat, x: nat, dst: nat, tail: bool, forward: bool)
    requires IpcCall(m, c, l, m', c', l', size, x, dst, tail, forward)
    ensures m'.Keys == m.Keys
  {
  }

  lemma RespKeys(m: Threads, c: Calls, l: multiset<nat>, m': Threads, c': Calls, l': multiset<nat>, x: nat)
    requires Responded(m, c, l, m', c', l', x) && Live(m, x)
    ensures m'.Keys == m.Keys - Removed(m, c, Resp(x))
  {
    hide Popped, Back;
  }

  lemma DestroyKeys(m: Threads, t: nat)
    requires Live(m, t) && t != 1 && m[t].rid in m && forall y :: y in m ==> m[y].refcount > 0
    ensures Destroyed(m, t).Keys == m.Keys - Removed(m, map[], Destroy(t))
  {
    hide Destroyed;
    DestroyedSelf(m, t);
    DestroyedGone(m, t);
    forall x | x in m && x != t ensures x in Destroyed(m, t) <==> !(x == m[t].rid && m[x].refcount == 1) {
      DestroyedOther(m, t, x);
    }
  }

  lemma DestroyedGone(m: Threads, t: nat)
    requires Live(m, t) && m[t].rid in m && forall y :: y in m ==> m[y].refcount > 0
    ensures t in Destroyed(m, t) <==> m[t].refcount > 1
  {
  }

  /**
   What a thread sees after an action: the process it is in if the action refreshes it, and otherwise what it saw
   before.
   */
  lemma ShownAfter(m: Threads, c: Calls, l: multiset<nat>, m': Threads, c': Calls, l': multiset<nat>, size: nat,
      a: Action, t: nat)
    requires Sane(m, c, l) && Effect(m, c, l, m', c', l', size, a) && t in c && t in m && t in c' && t in m'
    ensures m'[t].shown == if Refreshes(m, c, size, a, t) then m'[t].pid else m[t].shown
    ensures Refreshes(m, c, size, a, t) ==> m'[t].pid in m'
  {
    hide Sane, Sound, Outcome, Touches, IpcCall, Responded, Destroyed, LeftBehind;
    Everyone(m, c, l);
    match a
    case Req(x, dst) => if Live(m, x) { IpcShown(m, c, l, m', c', l', size, x, dst, false, false, t); }
    case Fwd(x, dst) => if Live(m, x) { IpcShown(m, c, l, m', c', l', size, x, dst, false, c[x] != [], t); }
    case Tail(x, dst) => if Live(m, x) { IpcShown(m, c, l, m', c', l', size, x, dst, c[x] != [], false, t); }
    case Kicked(x, dst) => if Live(m, x) { IpcShown(m, c, l, m', c', l', size, x, dst, c[x] != [], c[x] != [], t); }
    case Resp(x) => if Live(m, x) && c[x] != [] { RespShown(m, c, l, m', c', l', x, t); }
    case GrowBy(x, bottom) =>
    case Fault(x) => SaneCurrent(m, c, l, t);
    case User(x, mem) =>
    case Spawn(x, callback) =>
    case Create(x, y) =>
    case Destroy(x) => if Live(m, x) && x != t { DestroyedOther(m, x, t); }
  }

  lemma IpcShown(m: Threads, c: Calls, l: multiset<nat>, m': Threads, c': Calls, l': multiset<nat>,
                 size: nat, x: nat, dst: nat, tail: bool, forward: bool, t: nat)
    requires IpcCall(m, c, l, m', c', l', size, x, dst, tail, forward) && t in m && t in m'
    ensures m'[t].shown == if x == t && Outcome(m, size, t, dst, tail) == Ok then m'[t].pid else m[t].shown
    ensures x == t && Outcome(m, size, t, dst, tail) == Ok ==> m'[t].pid in m'
  {
    hide Stacked;
  }

  lemma RespShown(m: Threads, c: Calls, l: multiset<nat>, m': Threads, c': Calls, l': multiset<nat>, x: nat, t: nat)
    requires Responded(m, c, l, m', c', l', x) && t in m && t in m'
    ensures m'[t].shown == m[t].shown
  {
    hide Popped, Back;
  }

  lemma SaneCurrent(m: Threads, c: Calls, l: multiset<nat>, t: nat)
    requires Sane(m, c, l) && t in c && t in m
    ensures m[t].pid in m
  {
    ChainKept(m, c, l, t, |c[t]|);
  }

  /**
   Exactly when a thread sees the tables of a process that is gone: the process leaves the table with its last
   reference, as a response or the end of a thread may have it, or it was gone before and its id is not given to
   somebody new; and no call and no page fault shows the thread something else.
   */
  lemma ShownGoneIff(m: Threads, c: Calls, l: multiset<nat>, m': Threads, c': Calls, l': multiset<nat>, size: nat,
      a: Action, t: nat)
    requires Sane(m, c, l) && Effect(m, c, l, m', c', l', size, a) && t in c && t in m && t in c' && t in m'
    ensures m'[t].shown !in m' <==>
            && !Refreshes(m, c, size, a, t) && m[t].shown !in Added(m, a)
            && (m[t].shown !in m || m[t].shown in Removed(m, c, a))
  {
    hide Sane, Effect, Refreshes;
    ShownAfter(m, c, l, m', c', l', size, a, t);
    TableAfter(m, c, l, m', c', l', size, a);
  }

  /** It happens: a call to process 2 and back, and the end of process 2. */
  method ShowsTheDead() returns (s: System)
    ensures fresh(s) && s.Valid() && Live(s.tcbs, 1) && s.tcbs[1].shown !in s.tcbs
  {
    hide Sane, Sound, LeftBehind;
    s := new System();
    s.CreateProcess(2, 0);
    var ok := s.RequestThenRespond(1, 2);
    s.DestroyThread(2);
  }

  /** The effective process of a thread can be a zombie: process 2 has a second thread, 3, and its first one ends. */
  method CreatesForTheDead() returns (s: System, ok: bool)
    ensures fresh(s) && s.Valid() && Live(s.tcbs, 3) && s.tcbs[3].eid in s.tcbs && !ok
  {
    hide Sane, Sound, LeftBehind;
    s := new System();
    s.CreateProcess(2, 0);
    ok := s.CreateThread(2, 3);
    s.DestroyThread(2);
    ok := s.CreateThread(3, 4);
  }

  /** A tail call leaves a reference behind: thread 1 calls process 2, which passes the call on to process 3. */
  method LeavesReference() returns (s: System, st: Status)
    ensures fresh(s) && s.Valid() && st == Ok && 1 in s.calls && s.calls[1] != [] && s.lost[2] == 1
  {
    hide Sane, Sound, Pushed, Reused;
    s := new System();
    s.CreateProcess(2, 0);
    s.CreateProcess(3, 0);
    st := s.Request(1, 2);
    st := s.TailCall(1, 3);
  }

  lemma IpcStale(m: Threads, c: Calls, l: multiset<nat>, m': Threads, c': Calls, l': multiset<nat>,
                 size: nat, x: nat, dst: nat, tail: bool, forward: bool, t: nat)
    requires IpcCall(m, c, l, m', c', l', size, x, dst, tail, forward) && t in m && t in m'
    ensures Stale(m', t) <==> Stale(m, t) && !(x == t && Outcome(m, size, t, dst, tail) == Ok)
  {
  }

  lemma RespStale(m: Threads, c: Calls, l: multiset<nat>, m': Threads, c': Calls, l': multiset<nat>, x: nat, t: nat)
    requires Responded(m, c, l, m', c', l', x) && t in m && t in m'
    ensures Stale(m', t) <==> if x == t then c[t][Back(m, c[t])].ctx.pid != m[t].shown else Stale(m, t)
  {
    hide Popped, Back;
  }

  lemma EnteringSteps(m: Threads, c: Calls, t: nat, dst: nat, tail: bool, forward: bool, stack: Stack, c': Calls)
    requires t in m && t in c && dst in m && Stacked(m[t], stack, tail)
    requires var u := m[t];
             c' == if tail then c else c[t := c[t] + [Call(u.stack.idx, Ctx(u.exec, u.stack.pos, u.eid, u.pid))]]
    ensures Stepped(m, c, Referenced(m[t := Entered(m[t], dst, m[dst].callback, forward, stack)], dst), c', t, dst,
        tail, forward)
  {
  }

  lemma LeavingResponds(m: Threads, c: Calls, l: multiset<nat>, t: nat, u: Tcb)
    requires t in m && t in c && c[t] != [] && m[t].pid in m && m[m[t].pid].refcount > 0
        && t in Unreferenced(m, m[t].pid)
    requires |m[t].stack.user| == PAGES && 0 <= m[t].stack.idx < PAGES
    requires var k := Back(m, c[t]); u == Resumed(m, Unreferenced(m, m[t].pid)[t], c[t][k].ctx)
    ensures var k := Back(m, c[t]);
            Responded(m, c, l, Unreferenced(m, m[t].pid)[t := u], c[t := c[t][..k]], l + multiset(Pids(c[t], k + 1)), t)
  {
  }

  lemma ThereAndBack(m: Threads, c: Calls, l1: multiset<nat>, m1: Threads, c1: Calls, m2: Threads, c2: Calls,
      l2: multiset<nat>,
                     t: nat, dst: nat)
    requires Stepped(m, c, m1, c1, t, dst, false, false) && Responded(m1, c1, l1, m2, c2, l2, t) && Alive(m, m[t].pid)
    requires forall x :: x in m ==> m[x].refcount > 0
    ensures c2 == c && l2 == l1 && m2.Keys == m.Keys && SameBut(m[t], m2[t]) && m2[t].shown == dst
    ensures forall x :: x in m2 && x != t ==> m2[x] == m[x]
  {
    var n := |c[t]|;
    var call := c1[t][n];
    assert call.ctx.pid == m[t].pid && Alive(m1, call.ctx.pid);
    assert Back(m1, c1[t]) == n;
    assert c1[t][..n] == c[t];
    assert c2 == c;
    assert Pids(c1[t], n + 1) == [];
  }

  lemma SaneIsSafe(m: Threads, c: Calls, l: multiset<nat>)
    requires Sane(m, c, l)
    ensures Safe(m, c, l)
  {
    hide Sound, Reasons, Held, Host;
    forall t | t in c ensures t in m && Sound(m[t].stack, c[t]) { LiveIsSound(m, c, l, t); }
    forall t, k | t in c && t in m && 0 <= k <= |c[t]| ensures Visited(m, c, t, k) in m && Effective(m, c, t, k) in m {
      ChainKept(m, c, l, t, k);
      EffectiveThere(m, c, l, t, k);
    }
    forall t | t in c && t in m && m[t].shown !in m ensures Stale(m, t) { ChainKept(m, c, l, t, |c[t]|); }
  }

  lemma Everyone(m: Threads, c: Calls, l: multiset<nat>)
    requires Sane(m, c, l)
    ensures forall t :: Live(m, t) <==> t in c
    ensures forall t :: t in c ==> t in m && m[t].rid in m
    ensures forall x :: x in m ==> m[x].refcount > 0
  {
    forall t | t in c ensures m[t].rid in m { assert Rooted(m, c, t); ChainKept(m, c, l, t, 0); }
  }

  /** One successful migration of thread `t`, and nothing else but the reference to `dst`. */
  ghost predicate Stepped(m: Threads, c: Calls, m': Threads, c': Calls, t: nat, dst: nat, tail: bool, forward: bool) {
    && t in m && t in m' && t in c && t in c' && dst in m && m'.Keys == m.Keys && c'.Keys == c.Keys
    && Migrated(m[t], c[t], m'[t], c'[t], dst, m[dst].callback, tail, forward) && Stacked(m[t], m'[t].stack, tail)
    && (forall x :: x in c && x != t ==> c'[x] == c[x])
    && (forall x :: x in m && x != t ==> m'[x] == m[x].(refcount := m'[x].refcount))
    && (forall x :: x in m ==> m'[x].refcount == m[x].refcount + if x == dst then 1 else 0)
  }

  /** No step of any live call chain, the roots included, visits `p`. */
  ghost predicate NobodyReturnsTo(m: Threads, c: Calls, p: nat) {
    forall x, k :: x in c && x in m && 0 <= k <= |c[x]| ==> Visited(m, c, x, k) != p
  }

  lemma GoneIsUnused(m: Threads, c: Calls, l: multiset<nat>, p: nat)
    requires Sane(m, c, l) && p !in m
    ensures NobodyReturnsTo(m, c, p)
  {
    forall x, k | x in c && x in m && 0 <= k <= |c[x]| ensures Visited(m, c, x, k) != p {
      ChainKept(m, c, l, x, k);
    }
  }

  lemma InRpc(m: Threads, c: Calls, l: multiset<nat>, t: nat)
    requires Sane(m, c, l) && Live(m, t)
    ensures t in c && (m[t].stack.pos == PAGES <==> c[t] == [])
  {
    assert Rooted(m, c, t);
    if c[t] != [] { assert Kept(m[t].stack, c[t], |c[t]| - 1); }
  }

  lemma SameStack(m: Threads, q: nat, t: nat)
    requires q in m && m[q].refcount > 0 && t in Unreferenced(m, q)
    ensures t in m && Unreferenced(m, q)[t].stack == m[t].stack
  {
  }

  /** A new stack or another user half shown. */
  lemma TouchedSane(m: Threads, c: Calls, l: multiset<nat>, t: nat, u: Tcb)
    requires Sane(m, c, l) && t in c && t in m && Sound(u.stack, c[t]) && u == m[t].(stack := u.stack, shown := u.shown)
    ensures Sane(m[t := u], c, l)
  {
    hide Sound, Reasons, Host, Held;
    var m' := m[t := u];
    forall x | x in c ensures Rooted(m', c, x) { assert Rooted(m, c, x); }
    forall p ensures Count(m', p) == |Reasons(m', c, p)| + l[p] { ReasonsSame(m, c, m', c, p); }
    forall x, k | x in c && x in m' && 0 <= k <= |c[x]| ensures Host(m', Visited(m', c, x, k))
        && Held(m', c, l, x, k, Effective(m', c, x, k)) {
      if x == t { StepHosted(m, c, l, m', c, l, t, k); } else { OtherHosted(m, c, l, m', c, l, t, x, k); }
    }
    LostHosted(m, c, l, m', multiset{});
    assert l + multiset{} == l;
  }

  lemma PushSane(m: Threads, c: Calls, l: multiset<nat>, t: nat, r: nat, u: Tcb, call: Call)
    requires Sane(m, c, l) && t in c && t in m && Alive(m, r) && Sound(u.stack, c[t] + [call])
    requires u.rid == m[t].rid && u.pid == r && u.refcount == m[t].refcount && (u.eid == m[t].eid || u.eid == m[t].pid)
    requires call.ctx.pid == m[t].pid && call.ctx.eid == m[t].eid
    ensures Sane(Referenced(m[t := u], r), c[t := c[t] + [call]], l)
  {
    hide Consistent, Hosted;
    PushConsistent(m, c, l, t, r, u, call);
    PushHosted(m, c, l, t, r, u, call);
  }

  lemma TailSane(m: Threads, c: Calls, l: multiset<nat>, t: nat, r: nat, u: Tcb)
    requires Sane(m, c, l) && t in c && t in m && Alive(m, r) && c[t] != [] && Sound(u.stack, c[t])
    requires u.rid == m[t].rid && u.pid == r && u.refcount == m[t].refcount && (u.eid == m[t].eid || u.eid == m[t].pid)
    ensures Sane(Referenced(m[t := u], r), c, l + multiset{m[t].pid})
  {
    hide Consistent, Hosted;
    TailConsistent(m, c, l, t, r, u);
    TailHosted(m, c, l, t, r, u);
  }

  lemma SaneResponder(m: Threads, c: Calls, l: multiset<nat>, t: nat)
    requires Sane(m, c, l) && t in c && c[t] != []
    ensures t in m && m[t].pid in m && m[m[t].pid].refcount > 0
    ensures var m1 := Unreferenced(m, m[t].pid);
            t in m1 && (forall x :: x in c ==> x in m1 && m1[x].rid == m[x].rid) && forall p :: Alive(m1, p) <==>
                Alive(m, p)
  {
    hide Consistent;
    ResponderKept(m, c, l, t);
  }

  lemma LeaveSane(m: Threads, c: Calls, l: multiset<nat>, t: nat, k: nat, u: Tcb)
    requires Sane(m, c, l) && t in c && k < |c[t]| && m[t].pid in m && m[m[t].pid].refcount > 0
    requires var m1 := Unreferenced(m, m[t].pid); t in m1 && u.refcount == m1[t].refcount
    requires u.rid == m[t].rid && u.pid == c[t][k].ctx.pid && u.eid == c[t][k].ctx.eid && Sound(u.stack, c[t][..k])
    ensures Sane(Unreferenced(m, m[t].pid)[t := u], c[t := c[t][..k]], l + multiset(Pids(c[t], k + 1)))
  {
    hide Consistent, Hosted;
    LeaveConsistent(m, c, l, t, k, u);
    LeaveHosted(m, c, l, t, k, Unreferenced(m, m[t].pid)[t := u]);
  }

  lemma CreateSane(m: Threads, c: Calls, l: multiset<nat>, t: nat, rid: nat, callback: nat)
    requires Sane(m, c, l) && t !in m && t != 0 && (rid == t || (rid in m && m[rid].rid == rid))
    ensures Sane(Created(m, t, rid, callback), c[t := []], l)
  {
    hide Consistent, Hosted;
    CreateConsistent(m, c, l, t, rid, callback);
    CreateHosted(m, c, l, t, rid, callback);
  }

  lemma DestroySane(m: Threads, c: Calls, l: multiset<nat>, t: nat)
    requires Sane(m, c, l) && t in c && Live(m, t) && m[t].rid in m && forall x :: x in m ==> m[x].refcount > 0
    ensures Sane(Destroyed(m, t), c - {t}, l + LeftBehind(m[t], c[t]))
  {
    hide Consistent, Hosted, LeftBehind, Destroyed;
    DestroyConsistent(m, c, l, t);
    var m' := Destroyed(m, t);
    DestroyedSelf(m, t);
    forall x | x in m' && x != t ensures x in m && m'[x] == m[x].(refcount := m'[x].refcount) {
      DestroyedOther(m, t, x);
    }
    DestroyHosted(m, c, l, t, m');
  }

  lemma SaneEffective(m: Threads, c: Calls, l: multiset<nat>, t: nat)
    requires Sane(m, c, l) && t in c && t in m
    ensures m[t].eid in m && (m[m[t].eid].rid == m[t].eid || m[m[t].eid].rid == 0)
  {
    hide Consistent, Hosted;
    EffectiveThere(m, c, l, t, |c[t]|);
  }

  /** Thread `u` with frames `c` becomes `v` with frames `d` by migrating to `dst`. */
  ghost predicate Migrated(u: Tcb, c: seq<Call>, v: Tcb, d: seq<Call>, dst: nat, callback: nat, tail: bool,
      forward: bool) {
    && v.pid == dst && v.eid == (if forward then u.eid else u.pid) && v.exec == callback
    && v.rid == u.rid && v.callback == u.callback && v.orphan == u.orphan && v.shown == dst
    && u.stack.idx >= 0
    && d == if tail then c else c + [Call(u.stack.idx, Ctx(u.exec, u.stack.pos, u.eid, u.pid))]
  }

  /** The stack of `u` after a call, or after a tail call. */
  ghost predicate Stacked(u: Tcb, stack: Stack, tail: bool) {
    && |u.stack.user| == PAGES && |u.stack.mem| == PAGES && 1 <= u.stack.idx < PAGES
    && if tail then u.stack.idx < PAGES - 1 && stack == Reused(u.stack)
        else stack == Pushed(u.stack, u.exec, u.pid, u.eid)
  }

  /** The servers in `visited` have gained one reference per visit; nothing else in the table has changed hands. */
  ghost predicate Gained(m: Threads, m': Threads, visited: seq<nat>) {
    && m'.Keys == m.Keys
    && forall x :: x in m ==> m'[x].callback == m[x].callback && m'[x].refcount == m[x].refcount + multiset(visited)[x]
  }

  lemma GainedOne(m: Threads, c1: Calls, m1: Threads, m2: Threads, c2: Calls, t: nat, visited: seq<nat>, dst: nat,
      tail: bool, forward: bool)
    requires Gained(m, m1, visited) && Stepped(m1, c1, m2, c2, t, dst, tail, forward)
    ensures Gained(m, m2, visited + [dst])
  {
    assert multiset(visited + [dst]) == multiset(visited) + multiset{dst};
  }

  lemma Prefixes(s: seq<nat>, n: nat)
    requires n < |s|
    ensures s[..n + 1] == s[..n] + [s[n]] && s[..|s|] == s && s[..0] == []
  {
  }

  lemma NoGain(m: Threads)
    ensures Gained(m, m, [])
  {
  }

  lemma SameCallback(m: Threads, m1: Threads, visited: seq<nat>, x: nat)
    requires Gained(m, m1, visited) && x in m1
    ensures x in m && m1[x].callback == m[x].callback
  {
  }

  lemma MigratedIn(u: Tcb, c: seq<Call>, v: Tcb, d: seq<Call>, dst: nat, callback: nat)
    requires Migrated(u, c, v, d, dst, callback, false, false)
    ensures d != []
  {
  }

  lemma StepMeans(m: Threads, c: Calls, m': Threads, c': Calls, t: nat, dst: nat, tail: bool, forward: bool)
    requires Stepped(m, c, m', c', t, dst, tail, forward)
    ensures t in m && t in m' && t in c && t in c' && dst in m && m'.Keys == m.Keys && m'[t].rid == m[t].rid
    ensures Migrated(m[t], c[t], m'[t], c'[t], dst, m[dst].callback, tail, forward)
  {
  }

  /** A kick after a request: as if the request had gone to the second server. */
  lemma KickedOn(u: Tcb, c: seq<Call>, v: Tcb, d: seq<Call>, x: Tcb, e: seq<Call>, s1: nat, cb1: nat, s2: nat, cb2: nat)
    requires Migrated(u, c, v, d, s1, cb1, false, false) && Migrated(v, d, x, e, s2, cb2, true, true)
    ensures Migrated(u, c, x, e, s2, cb2, false, false)
  {
  }

  lemma LiveIsSound(m: Threads, c: Calls, l: multiset<nat>, t: nat)
    requires Sane(m, c, l) && Live(m, t)
    ensures t in c && Sound(m[t].stack, c[t]) && Visited(m, c, t, 0) == m[t].rid && m[t].refcount > 0
  {
    assert Rooted(m, c, t);
  }

  lemma Alone(m: Threads, c: Calls)
    requires m == map[1 := NewTcb(1, 0)] && c == map[1 := []]
    ensures Sane(m, c, multiset{})
  {
    var m0: Threads, c0: Calls := map[], map[];
    assert Sane(m0, c0, multiset{}) by {
      forall p ensures Count(m0, p) == |Reasons(m0, c0, p)| + multiset{}[p] { assert Reasons(m0, c0, p) == {}; }
    }
    CreateSane(m0, c0, multiset{}, 1, 1, 0);
    assert Created(m0, 1, 1, 0) == m && c0[1 := []] == c;
  }
}
