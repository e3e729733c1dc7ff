/** The whole of cmd/savras/main.go:55-74 at run time: the monitor with its probe
    loops and recovery callbacks, the sync queue, the ticker, the lock `runMu`,
    the token generation and the requests to the proxied route. */
module Lifecycle {
  import opened Common
  import Backoff
  import Auth
  import M = Monitor
  import Q = Queue

  /** Who holds `runMu`. */
  datatype Agent = Consumer | Recovery(loop: nat) | Ticker

  /** A request with a validly signed token of generation `gen`. `outages`
      counts the outages detected before it passed BlockWhenDown. */
  datatype Req =
    | Arrived(gen: string)
    | Passed(gen: string, outages: nat)
    | Forwarded(gen: string, outages: nat)
    | Refused

  /** `gens` are all generations so far, the current one last. */
  datatype Sys = Sys(mon: M.Mon, que: Q.Que, run: Option<Agent>, gens: seq<string>, reqs: seq<Req>)

  datatype Act =
    | Monitor(step: M.Act)
    | RecoveryLocks(loop: nat)
    | RecoveryUnlocks(loop: nat)
    | RecoveryRotates(loop: nat, uuid: string)
    | Queue(op: Q.Act)
    | QueueLocks
    | QueueUnlocks
    | TickerLocks
    | TickerUnlocks
    | Arrive(gen: string)
    | BlockCheck(req: nat)
    | AuthCheck(req: nat, datesOk: bool)

  function Init(uuid: string): Sys {
    Sys(M.Init(), Q.Init(), None, [uuid], [])
  }

  function Current(s: Sys): string {
    if s.gens == [] then "" else s.gens[|s.gens| - 1]
  }

  predicate At(s: Sys, i: nat, pc: M.Pc) {
    i < |s.mon.loops| && s.mon.loops[i].pc == pc
  }

  /** A step of the monitor on its own. The three steps of a callback that
      involve other parts are the Recovery steps. */
  predicate IsLocal(a: M.Act) {
    a.Probe? ==> !a.event.SyncStarts? && !a.event.SyncEnds? && !a.event.CallbackReturns?
  }

  /** The consumer's look at the monitor sees the monitor's state; the end of
      its sync is the release of `runMu`. */
  predicate IsQueueStep(s: Sys, a: Q.Act) {
    !a.End? && (a.Poll? ==> a.down == s.mon.state.StateDown?)
  }

  function Step(c: M.Setup, s: Sys, a: Act): Sys {
    match a
    case Monitor(ma) => if IsLocal(ma) then s.(mon := M.Step(c, s.mon, ma)) else s
    case RecoveryLocks(i) =>
      if s.run.None? && At(s, i, M.AtSync) then
        s.(run := Some(Recovery(i)), mon := M.Step(c, s.mon, M.Probe(i, M.SyncStarts)))
      else s
    case RecoveryUnlocks(i) =>
      if s.run == Some(Recovery(i)) && At(s, i, M.InSync) then
        s.(run := None, mon := M.Step(c, s.mon, M.Probe(i, M.SyncEnds)))
      else s
    case RecoveryRotates(i, uuid) =>
      if At(s, i, M.AtRotate) && uuid !in s.gens then
        s.(gens := s.gens + [uuid], mon := M.Step(c, s.mon, M.Probe(i, M.CallbackReturns)))
      else s
    case Queue(qa) => if IsQueueStep(s, qa) then s.(que := Q.Step(s.que, qa)) else s
    case QueueLocks => if s.run.None? && s.que.pc.Syncing? then s.(run := Some(Consumer)) else s
    case QueueUnlocks =>
      if s.run == Some(Consumer) then s.(run := None, que := Q.Step(s.que, Q.End)) else s
    case TickerLocks => if s.run.None? then s.(run := Some(Ticker)) else s
    case TickerUnlocks => if s.run == Some(Ticker) then s.(run := None) else s
    case Arrive(gen) => s.(reqs := s.reqs + [Arrived(gen)])
    case BlockCheck(k) =>
      if k < |s.reqs| && s.reqs[k].Arrived? then
        s.(reqs := s.reqs[k := if s.mon.state.StateDown? then Refused else Passed(s.reqs[k].gen, s.mon.downs)])
      else s
    case AuthCheck(k, datesOk) =>
      if k < |s.reqs| && s.reqs[k].Passed? then
        var r := s.reqs[k];
        s.(reqs := s.reqs[k := if datesOk && r.gen == Current(s) then Forwarded(r.gen, r.outages) else Refused])
      else s
  }

  function Exec(c: M.Setup, s: Sys, acts: seq<Act>): Sys {
    if acts == [] then s
    else Step(c, Exec(c, s, acts[..|acts| - 1]), acts[|acts| - 1])
  }

  // ------------------------------------------------------------------- invariant

  ghost predicate LockInv(s: Sys) {
    && (forall i: nat :: s.run == Some(Recovery(i)) <==> At(s, i, M.InSync))
    && (s.run == Some(Consumer) ==> s.que.pc.Syncing?)
  }

  /** Each completed callback has rotated the generation once. */
  ghost predicate GensInv(s: Sys) {
    && |s.gens| == 1 + s.mon.completed
    && (forall i, j | 0 <= i < j < |s.gens| :: s.gens[i] != s.gens[j])
  }

  ghost predicate Inv(c: M.Setup, s: Sys) {
    M.Inv(c, s.mon) && Q.Inv(s.que) && LockInv(s) && GensInv(s)
  }

  /** What a step other than a callback's own leaves alone in the monitor. */
  lemma LocalStep(c: M.Setup, m: M.Mon, a: M.Act)
    requires IsLocal(a)
    ensures var m' := M.Step(c, m, a);
      m'.completed == m.completed
      && forall i: nat :: (i < |m'.loops| && m'.loops[i].pc == M.InSync)
                          <==> (i < |m.loops| && m.loops[i].pc == M.InSync)
  {
  }

  lemma StepKeepsParts(c: M.Setup, s: Sys, a: Act)
    requires Backoff.Sane(c.base, c.max) && M.Inv(c, s.mon) && Q.Inv(s.que)
    ensures var s' := Step(c, s, a); M.Inv(c, s'.mon) && Q.Inv(s'.que)
  {
    match a
    case Monitor(ma) => M.StepKeepsInv(c, s.mon, ma);
    case RecoveryLocks(i) => M.StepKeepsInv(c, s.mon, M.Probe(i, M.SyncStarts));
    case RecoveryUnlocks(i) => M.StepKeepsInv(c, s.mon, M.Probe(i, M.SyncEnds));
    case RecoveryRotates(i, uuid) => M.StepKeepsInv(c, s.mon, M.Probe(i, M.CallbackReturns));
    case Queue(qa) => Q.StepKeepsInv(s.que, qa);
    case QueueUnlocks => Q.StepKeepsInv(s.que, Q.End);
    case _ =>
  }

  lemma StepKeepsLock(c: M.Setup, s: Sys, a: Act)
    requires LockInv(s)
    ensures LockInv(Step(c, s, a))
  {
    if a.Monitor? && IsLocal(a.step) {
      LocalStep(c, s.mon, a.step);
    }
  }

  lemma StepKeepsGens(c: M.Setup, s: Sys, a: Act)
    requires GensInv(s)
    ensures GensInv(Step(c, s, a))
  {
    if a.Monitor? && IsLocal(a.step) {
      LocalStep(c, s.mon, a.step);
    }
  }

  lemma StepKeepsInv(c: M.Setup, s: Sys, a: Act)
    requires Backoff.Sane(c.base, c.max) && Inv(c, s)
    ensures Inv(c, Step(c, s, a))
  {
    StepKeepsParts(c, s, a);
    StepKeepsLock(c, s, a);
    StepKeepsGens(c, s, a);
  }

  lemma {:induction false} Reachable(c: M.Setup, uuid: string, acts: seq<Act>)
    requires Backoff.Sane(c.base, c.max)
    ensures Inv(c, Exec(c, Init(uuid), acts))
  {
    if acts != [] {
      Reachable(c, uuid, acts[..|acts| - 1]);
      StepKeepsInv(c, Exec(c, Init(uuid), acts[..|acts| - 1]), acts[|acts| - 1]);
    }
  }

  // ------------------------------------------------------------------ lock progress

  function Release(holder: Agent): Act {
    match holder
    case Consumer => QueueUnlocks
    case Recovery(i) => RecoveryUnlocks(i)
    case Ticker => TickerUnlocks
  }

  /** Whenever `runMu` is held, its holder can release it, whatever state the
      monitor and the queue are in. */
  lemma {:induction false} HolderCanRelease(c: M.Setup, uuid: string, acts: seq<Act>)
    requires Backoff.Sane(c.base, c.max)
    ensures var s := Exec(c, Init(uuid), acts);
      s.run.Some? ==> Step(c, s, Release(s.run.value)).run.None?
  {
    Reachable(c, uuid, acts);
    var s := Exec(c, Init(uuid), acts);
    if s.run.Some? && s.run.value.Recovery? {
      assert At(s, s.run.value.loop, M.InSync);
    }
  }

  /** At most one pass runs at any time, whether for a callback, the queue or the
      ticker, and the lock is held by whoever runs it. */
  lemma {:induction false} PassesExclude(c: M.Setup, uuid: string, acts: seq<Act>, i: nat)
    requires Backoff.Sane(c.base, c.max) && At(Exec(c, Init(uuid), acts), i, M.InSync)
    ensures var s := Exec(c, Init(uuid), acts);
      && s.run == Some(Recovery(i))
      && (forall j: nat :: At(s, j, M.InSync) ==> j == i)
      && (forall a: Act | a.RecoveryLocks? || a.QueueLocks? || a.TickerLocks? :: Step(c, s, a) == s)
  {
    Reachable(c, uuid, acts);
  }

  /** The step of the run in which the callback of loop `i` took the lock. */
  lemma {:induction false} LockedBefore(c: M.Setup, uuid: string, acts: seq<Act>, i: nat) returns (m: nat)
    requires At(Exec(c, Init(uuid), acts), i, M.InSync)
    ensures m < |acts| && acts[m] == RecoveryLocks(i)
  {
    m := |acts| - 1;
    var before := Exec(c, Init(uuid), acts[..m]);
    CallbackStep(c, before, acts[m], i);
    if acts[m] != RecoveryLocks(i) {
      m := LockedBefore(c, uuid, acts[..m], i);
    }
  }

  /** A callback rotates the generation only after its pass: when it is about to,
      it has taken the lock and then released it. */
  lemma {:induction false} RotatesAfterPass(c: M.Setup, uuid: string, acts: seq<Act>, i: nat) returns (m: nat, n: nat)
    requires At(Exec(c, Init(uuid), acts), i, M.AtRotate)
    ensures m < n < |acts| && acts[m] == RecoveryLocks(i) && acts[n] == RecoveryUnlocks(i)
  {
    n := |acts| - 1;
    var before := Exec(c, Init(uuid), acts[..n]);
    CallbackStep(c, before, acts[n], i);
    if acts[n] == RecoveryUnlocks(i) && At(before, i, M.InSync) {
      m := LockedBefore(c, uuid, acts[..n], i);
    } else {
      m, n := RotatesAfterPass(c, uuid, acts[..n], i);
    }
  }

  /** How a callback gets into and past its pass. */
  lemma CallbackStep(c: M.Setup, s: Sys, a: Act, i: nat)
    ensures At(Step(c, s, a), i, M.InSync) && !At(s, i, M.InSync) ==> a == RecoveryLocks(i)
    ensures At(Step(c, s, a), i, M.AtRotate) && !At(s, i, M.AtRotate) ==> a == RecoveryUnlocks(i) && At(s, i, M.InSync)
    ensures At(Step(c, s, a), i, M.AtRotate) && a == RecoveryUnlocks(i) && !At(s, i, M.InSync) ==> At(s, i, M.AtRotate)
  {
  }

  /** A free lock can be taken by every callback that waits for it, by the queue's
      consumer and by the ticker. */
  lemma FreeLockIsTaken(c: M.Setup, s: Sys)
    requires s.run.None?
    ensures forall i | At(s, i, M.AtSync) ::
              Step(c, s, RecoveryLocks(i)).run == Some(Recovery(i)) && At(Step(c, s, RecoveryLocks(i)), i, M.InSync)
    ensures s.que.pc.Syncing? ==> Step(c, s, QueueLocks).run == Some(Consumer)
    ensures Step(c, s, TickerLocks).run == Some(Ticker)
  {
  }

  /** The release of the lock by whoever holds it, or a step of a callback. */
  predicate Settles(a: Act) {
    a.RecoveryLocks? || a.RecoveryUnlocks? || a.RecoveryRotates? || a.QueueUnlocks? || a.TickerUnlocks?
  }

  /** Steps that the running callbacks still have to make. */
  function Work(ls: seq<M.Loop>): nat {
    3 * M.Count(ls, {M.AtSync}) + 2 * M.Count(ls, {M.InSync}) + M.Count(ls, {M.AtRotate})
  }

  function Held(s: Sys): nat {
    if s.run.Some? then 1 else 0
  }

  lemma WorkAfter(m: M.Mon, i: nat, l: M.Loop)
    requires i < |m.loops|
    ensures Work(m.loops[i := l]) + PcWork(m.loops[i].pc) == Work(m.loops) + PcWork(l.pc)
  {
    M.CountUpdate(m.loops, i, l, {M.AtSync});
    M.CountUpdate(m.loops, i, l, {M.InSync});
    M.CountUpdate(m.loops, i, l, {M.AtRotate});
  }

  function PcWork(pc: M.Pc): nat {
    match pc
    case AtSync => 3
    case InSync => 2
    case AtRotate => 1
    case _ => 0
  }

  lemma {:induction false} BusyLoop(ls: seq<M.Loop>) returns (i: nat)
    requires M.Count(ls, M.IN_CALLBACK) > 0
    ensures i < |ls| && ls[i].pc in M.IN_CALLBACK
  {
    i := |ls| - 1;
    if ls[i].pc !in M.IN_CALLBACK {
      i := BusyLoop(ls[..|ls| - 1]);
    }
  }

  lemma {:induction false} FreshGeneration(gens: seq<string>) returns (uuid: string)
    ensures uuid != "" && forall k | 0 <= k < |gens| :: |gens[k]| < |uuid|
  {
    uuid := "0";
    if gens != [] {
      var shorter := FreshGeneration(gens[..|gens| - 1]);
      uuid := shorter + gens[|gens| - 1];
    }
  }

  /** Step `a` brings the callbacks closer to their end and leaves the state of
      the monitor alone. */
  ghost predicate Progress(c: M.Setup, s: Sys, a: Act) {
    var s' := Step(c, s, a);
    && Settles(a)
    && 2 * Work(s'.mon.loops) + Held(s') < 2 * Work(s.mon.loops) + Held(s)
    && s'.mon.(loops := s.mon.loops, completed := s.mon.completed) == s.mon
    && s'.que.(pc := s.que.pc) == s.que
  }

  lemma ReleaseIsProgress(c: M.Setup, s: Sys)
    requires LockInv(s) && s.run.Some?
    ensures Progress(c, s, Release(s.run.value))
  {
    if s.run.value.Recovery? {
      var i := s.run.value.loop;
      assert At(s, i, M.InSync);
      WorkAfter(s.mon, i, s.mon.loops[i].(pc := M.AtRotate));
    }
  }

  lemma LockIsProgress(c: M.Setup, s: Sys, i: nat)
    requires s.run.None? && At(s, i, M.AtSync)
    ensures Progress(c, s, RecoveryLocks(i))
  {
    WorkAfter(s.mon, i, s.mon.loops[i].(pc := M.InSync));
  }

  lemma RotateIsProgress(c: M.Setup, s: Sys, i: nat, uuid: string)
    requires s.run.None? && At(s, i, M.AtRotate) && uuid !in s.gens
    ensures Progress(c, s, RecoveryRotates(i, uuid))
  {
    WorkAfter(s.mon, i, s.mon.loops[i].(pc := if c.order.UpFirst? then M.Finished else M.Returned));
  }

  /** While the lock is held or a callback runs, the holder or some callback
      can make a step that is progress. */
  lemma SomeoneCanMove(c: M.Setup, s: Sys) returns (a: Act)
    requires LockInv(s) && (s.run.Some? || M.Count(s.mon.loops, M.IN_CALLBACK) > 0)
    ensures Progress(c, s, a)
  {
    if s.run.Some? {
      a := Release(s.run.value);
      ReleaseIsProgress(c, s);
    } else {
      var i := BusyLoop(s.mon.loops);
      assert !At(s, i, M.InSync);
      if s.mon.loops[i].pc == M.AtSync {
        a := RecoveryLocks(i);
        LockIsProgress(c, s, i);
      } else {
        var uuid := FreshGeneration(s.gens);
        a := RecoveryRotates(i, uuid);
        RotateIsProgress(c, s, i, uuid);
      }
    }
  }

  lemma {:induction false} ExecCons(c: M.Setup, s: Sys, a: Act, more: seq<Act>)
    ensures Exec(c, s, [a] + more) == Exec(c, Step(c, s, a), more)
  {
    var all := [a] + more;
    if more == [] {
      assert all[..|all| - 1] == [];
    } else {
      ExecCons(c, s, a, more[..|more| - 1]);
      assert all[..|all| - 1] == [a] + more[..|more| - 1];
    }
  }

  lemma {:induction false} Settle(c: M.Setup, s: Sys) returns (more: seq<Act>)
    requires Backoff.Sane(c.base, c.max) && Inv(c, s)
    ensures forall k | 0 <= k < |more| :: Settles(more[k])
    ensures var s' := Exec(c, s, more);
      Inv(c, s') && s'.run.None? && M.Count(s'.mon.loops, M.IN_CALLBACK) == 0
      && s'.mon.(loops := s.mon.loops, completed := s.mon.completed) == s.mon
      && s'.que.(pc := s.que.pc) == s.que
    decreases 2 * Work(s.mon.loops) + Held(s)
  {
    more := [];
    if s.run.Some? || M.Count(s.mon.loops, M.IN_CALLBACK) > 0 {
      var a := SomeoneCanMove(c, s);
      StepKeepsInv(c, s, a);
      var rest := Settle(c, Step(c, s, a));
      ExecCons(c, s, a, rest);
      more := [a] + rest;
    }
  }

  /** No deadlock: from every reachable state, however many callbacks overlap,
      the lock's holder and the callbacks alone can bring every recovery to its
      end, with the lock free and the generation rotated once for each outage
      that is over. */
  lemma {:induction false} RecoveriesCanFinish(c: M.Setup, uuid: string, acts: seq<Act>) returns (more: seq<Act>)
    requires Backoff.Sane(c.base, c.max) && c.hasCallback && c.order.UpFirst?
    ensures forall k | 0 <= k < |more| :: Settles(more[k])
    ensures var s, s' := Exec(c, Init(uuid), acts), Exec(c, Exec(c, Init(uuid), acts), more);
      s'.run.None? && M.Count(s'.mon.loops, M.IN_CALLBACK) == 0
      && s'.mon.state == s.mon.state && s'.mon.ups == s.mon.ups && |s'.gens| == 1 + s.mon.ups
  {
    Reachable(c, uuid, acts);
    more := Settle(c, Exec(c, Init(uuid), acts));
    M.CallbacksMatch(c, Exec(c, Exec(c, Init(uuid), acts), more).mon);
  }

  /** A step of the queue's consumer, or one that settles. */
  predicate Serves(a: Act) {
    Settles(a) || a.QueueLocks? || (a.Queue? && !a.op.Trigger?)
  }

  lemma ExecAppend(c: M.Setup, s: Sys, acts: seq<Act>, more: seq<Act>)
    ensures Exec(c, s, acts + more) == Exec(c, Exec(c, s, acts), more)
  {
    if more == [] {
      assert acts + more == acts;
    } else {
      ExecAppend(c, s, acts, more[..|more| - 1]);
      assert (acts + more)[..|acts + more| - 1] == acts + more[..|more| - 1];
    }
  }

  /** The consumer's next step when Grafana is up and the lock is free. */
  function NextServe(q: Q.Que): Act {
    match q.pc
    case Idle => Queue(Q.Receive)
    case DrainTest => Queue(Q.Test)
    case DrainRecv => Queue(Q.Drain)
    case PollUp => Queue(Q.Poll(false))
    case Cleared => Queue(Q.Start)
    case Syncing => QueueLocks
  }

  lemma NextServeIsCloser(c: M.Setup, s: Sys)
    requires s.run.None? && s.mon.state.StateUp? && Q.Inv(s.que) && s.que.unserved
    requires !s.que.pc.Cleared? && !s.que.pc.Syncing?
    ensures var s' := Step(c, s, NextServe(s.que));
      && s' == s.(que := s'.que) && s'.que.unserved && s'.que.starts == s.que.starts
      && Q.Rank(s'.que) < Q.Rank(s.que)
  {
  }

  lemma {:induction false} Serve(c: M.Setup, s: Sys) returns (more: seq<Act>)
    requires Backoff.Sane(c.base, c.max) && Inv(c, s) && s.run.None? && s.mon.state.StateUp? && s.que.unserved
    ensures forall k | 0 <= k < |more| :: Serves(more[k])
    ensures Exec(c, s, more).que.starts == s.que.starts + 1 && Exec(c, s, more).mon == s.mon
    decreases Q.Rank(s.que)
  {
    var a := NextServe(s.que);
    if s.que.pc.Cleared? {
      more := [a];
      assert more[..0] == [];
    } else if s.que.pc.Syncing? {
      var s1 := Step(c, s, QueueLocks);
      var s2 := Step(c, s1, QueueUnlocks);
      StepKeepsInv(c, s, QueueLocks);
      StepKeepsInv(c, s1, QueueUnlocks);
      var rest := Serve(c, s2);
      ExecCons(c, s1, QueueUnlocks, rest);
      ExecCons(c, s, QueueLocks, [QueueUnlocks] + rest);
      more := [QueueLocks] + ([QueueUnlocks] + rest);
    } else {
      NextServeIsCloser(c, s);
      StepKeepsInv(c, s, a);
      var rest := Serve(c, Step(c, s, a));
      ExecCons(c, s, a, rest);
      more := [a] + rest;
    }
  }

  /** No trigger starves for the lock: from every reachable state in which
      Grafana is up and a trigger is unserved, the lock's holder, the callbacks
      and the consumer alone can bring about one more start of a sync. */
  lemma {:induction false} TriggerCanBeServed(c: M.Setup, uuid: string, acts: seq<Act>) returns (more: seq<Act>)
    requires Backoff.Sane(c.base, c.max)
    requires var s := Exec(c, Init(uuid), acts); s.mon.state.StateUp? && s.que.unserved
    ensures forall k | 0 <= k < |more| :: Serves(more[k])
    ensures var s, s' := Exec(c, Init(uuid), acts), Exec(c, Exec(c, Init(uuid), acts), more);
      s'.que.starts == s.que.starts + 1 && s'.mon.state.StateUp?
  {
    Reachable(c, uuid, acts);
    var s := Exec(c, Init(uuid), acts);
    var settle := Settle(c, s);
    var serve := Serve(c, Exec(c, s, settle));
    ExecAppend(c, s, settle, serve);
    more := settle + serve;
  }

  // ------------------------------------------------------------- token generations

  lemma GensOnlyGrow(c: M.Setup, s: Sys, a: Act)
    ensures s.gens <= Step(c, s, a).gens
  {
  }

  lemma {:induction false} GensGrow(c: M.Setup, s: Sys, more: seq<Act>)
    requires Backoff.Sane(c.base, c.max) && Inv(c, s)
    ensures s.gens <= Exec(c, s, more).gens && Inv(c, Exec(c, s, more))
  {
    if more != [] {
      var s' := Exec(c, s, more[..|more| - 1]);
      GensGrow(c, s, more[..|more| - 1]);
      GensOnlyGrow(c, s', more[|more| - 1]);
      StepKeepsInv(c, s', more[|more| - 1]);
    }
  }

  /** No recovery draws `gen` as its new generation. */
  ghost predicate NeverDrawn(acts: seq<Act>, gen: string) {
    forall k | 0 <= k < |acts| && acts[k].RecoveryRotates? :: acts[k].uuid != gen
  }

  /** A token rejected for its generation is rejected in every later state,
      whether this process issued the generation or, as with a cookie from
      before a restart, it is one that is never drawn. */
  lemma {:induction false} RejectedStaysRejected(c: M.Setup, uuid: string, acts: seq<Act>, more: seq<Act>, gen: string)
    requires Backoff.Sane(c.base, c.max)
    requires var s := Exec(c, Init(uuid), acts);
      gen != Current(s) && (gen in s.gens || NeverDrawn(more, gen))
    ensures gen != Current(Exec(c, Exec(c, Init(uuid), acts), more))
  {
    var s := Exec(c, Init(uuid), acts);
    if gen in s.gens {
      Reachable(c, uuid, acts);
      GensGrow(c, s, more);
      OldIsNotLast(s.gens, Exec(c, s, more).gens, gen);
    } else if more != [] {
      RejectedStaysRejected(c, uuid, acts, more[..|more| - 1], gen);
      GensStep(c, Exec(c, s, more[..|more| - 1]), more[|more| - 1]);
    }
  }

  lemma GensStep(c: M.Setup, s: Sys, a: Act)
    ensures Step(c, s, a).gens == s.gens || (a.RecoveryRotates? && Step(c, s, a).gens == s.gens + [a.uuid])
  {
  }

  lemma OldIsNotLast(gens: seq<string>, more: seq<string>, gen: string)
    requires gens <= more && gen in gens && gen != gens[|gens| - 1]
    requires forall i, j | 0 <= i < j < |more| :: more[i] != more[j]
    ensures gen != more[|more| - 1]
  {
    var k :| 0 <= k < |gens| && gens[k] == gen;
    assert more[k] == gen;
  }

  /** No token whose generation was read before a recovery invalidated the
      tokens is accepted afterwards, however late it is signed or presented. */
  lemma {:induction false} OlderThanRecoveryIsRejected(c: M.Setup, uuid: string, acts: seq<Act>, loop: nat,
                                                       next: string,
                                    more: seq<Act>, gen: string)
    requires Backoff.Sane(c.base, c.max)
    requires var s := Exec(c, Init(uuid), acts);
      gen in s.gens && At(s, loop, M.AtRotate) && next !in s.gens
    ensures var s := Exec(c, Init(uuid), acts);
      Current(Exec(c, Step(c, s, RecoveryRotates(loop, next)), more)) != gen
  {
    var s, a := Exec(c, Init(uuid), acts), RecoveryRotates(loop, next);
    assert (acts + [a])[..|acts|] == acts;
    var s' := Step(c, s, a);
    assert Current(s') == next;
    RejectedStaysRejected(c, uuid, acts + [a], more, gen);
  }

  /** Generations, callbacks and transitions to up: the generation has rotated
      once for each callback that returned, and each transition to up has made
      one callback. */
  lemma {:induction false} RotationsMatchRecoveries(c: M.Setup, uuid: string, acts: seq<Act>)
    requires Backoff.Sane(c.base, c.max) && c.order.UpFirst?
    ensures var s := Exec(c, Init(uuid), acts);
      && |s.gens| == 1 + s.mon.completed
      && (c.hasCallback ==> s.mon.completed + M.Count(s.mon.loops, M.IN_CALLBACK) == s.mon.ups)
      && (!c.hasCallback ==> |s.gens| == 1)
  {
    Reachable(c, uuid, acts);
    var s := Exec(c, Init(uuid), acts);
    if c.hasCallback {
      M.CallbacksMatch(c, s.mon);
    }
  }

  // --------------------------------------------------------------------- admission

  /** The check of the generation and the dates is what `ValidateJWT` makes of
      a token signed with the key in use. */
  lemma AuthCheckIsValidate(c: M.Setup, s: Sys, k: nat, auth: Auth.State, env: Auth.Pem, claims: Auth.Claims, now: int)
    requires Auth.SigningKey(auth, env).Some? && auth.gen == Current(s)
    requires k < |s.reqs| && s.reqs[k].Passed? && s.reqs[k].gen == claims.gen
    ensures var token := Auth.Signed(claims, Auth.SigningKey(auth, env).value);
      Step(c, s, AuthCheck(k, Auth.DateError(claims, now).None?)).reqs[k].Forwarded?
      <==> Auth.Validate(auth, env, token, now).Ok?
  {
  }

  /** How a request gets on: the steps that can bring it to where it is. */
  lemma RequestStep(c: M.Setup, s: Sys, a: Act, k: nat)
    requires var s' := Step(c, s, a); k < |s'.reqs| && !s'.reqs[k].Arrived?
    ensures k < |s.reqs|
    ensures var r, r' := s.reqs[k], Step(c, s, a).reqs[k];
      || r' == r
      || (r'.Passed? && a == BlockCheck(k) && s.mon.state.StateUp? && r'.outages == s.mon.downs)
      || (r'.Forwarded? && a == AuthCheck(k, true) && r == Passed(Current(s), r'.outages) && r'.gen == r.gen)
      || r'.Refused?
  {
  }

  /** The step of the run in which request `k` passed BlockWhenDown. */
  lemma {:induction false} PassedWasUp(c: M.Setup, uuid: string, acts: seq<Act>, k: nat) returns (m: nat)
    requires var s := Exec(c, Init(uuid), acts); k < |s.reqs| && s.reqs[k].Passed?
    ensures m < |acts| && acts[m] == BlockCheck(k)
    ensures Exec(c, Init(uuid), acts[..m]).mon.state.StateUp?
    ensures Exec(c, Init(uuid), acts[..m]).mon.downs == Exec(c, Init(uuid), acts).reqs[k].outages
  {
    m := |acts| - 1;
    var before := Exec(c, Init(uuid), acts[..m]);
    RequestStep(c, before, acts[m], k);
    if before.reqs[k].Passed? {
      var front := acts[..m];
      m := PassedWasUp(c, uuid, front, k);
      assert front[..m] == acts[..m];
    }
  }

  /** Every request that the proxied route forwards found Grafana up, and after
      that held a token of the generation that was current at its check. */
  lemma {:induction false} ForwardedWasAdmitted(c: M.Setup, uuid: string, acts: seq<Act>, k: nat)
    returns (m: nat, n: nat)
    requires var s := Exec(c, Init(uuid), acts); k < |s.reqs| && s.reqs[k].Forwarded?
    ensures m < n < |acts| && acts[m] == BlockCheck(k) && acts[n] == AuthCheck(k, true)
    ensures Exec(c, Init(uuid), acts[..m]).mon.state.StateUp?
    ensures Exec(c, Init(uuid), acts[..m]).mon.downs == Exec(c, Init(uuid), acts).reqs[k].outages
    ensures Exec(c, Init(uuid), acts).reqs[k].gen == Current(Exec(c, Init(uuid), acts[..n]))
  {
    n := |acts| - 1;
    var front := acts[..n];
    var before := Exec(c, Init(uuid), front);
    RequestStep(c, before, acts[n], k);
    if before.reqs[k].Forwarded? {
      m, n := ForwardedWasAdmitted(c, uuid, front, k);
      assert front[..n] == acts[..n];
    } else {
      m := PassedWasUp(c, uuid, front, k);
    }
    assert front[..m] == acts[..m];
  }

  /** The token of a forwarded request was issued after the recovery from every
      outage that had been detected when the request passed BlockWhenDown. */
  ghost predicate Recovered(s: Sys, r: Req) {
    r.Forwarded? ==> exists k :: r.outages <= k < |s.gens| && s.gens[k] == r.gen
  }

  /** So far as a request has passed the check, all those recoveries are over. */
  ghost predicate PassedAfterRecovery(s: Sys, r: Req) {
    (r.Passed? ==> r.outages < |s.gens|) && Recovered(s, r)
  }

  ghost predicate Admits(s: Sys) {
    forall k | 0 <= k < |s.reqs| :: PassedAfterRecovery(s, s.reqs[k])
  }

  /** With the callback before the assignment of StateUp, the state is up only
      when every callback has returned. */
  lemma UpMeansRecovered(c: M.Setup, m: M.Mon)
    requires M.Inv(c, m) && c.hasCallback && c.order.CallbackFirst? && m.state.StateUp?
    ensures m.completed == m.downs
  {
    forall i | 0 <= i < |m.loops| ensures m.loops[i].pc == M.Finished {
      assert M.Assigned(c, m, i);
    }
    AllFinished(m.loops);
  }

  lemma {:induction false} AllFinished(ls: seq<M.Loop>)
    requires forall i | 0 <= i < |ls| :: ls[i].pc == M.Finished
    ensures M.Count(ls, M.CALLBACK_DONE) == |ls|
  {
    if ls != [] {
      AllFinished(ls[..|ls| - 1]);
    }
  }

  lemma AdmitsStep(c: M.Setup, s: Sys, a: Act)
    requires Inv(c, s) && Admits(s) && c.hasCallback && c.order.CallbackFirst?
    ensures Admits(Step(c, s, a))
  {
    var s' := Step(c, s, a);
    GensOnlyGrow(c, s, a);
    forall k | 0 <= k < |s'.reqs| ensures PassedAfterRecovery(s', s'.reqs[k]) {
      if k < |s.reqs| {
        assert PassedAfterRecovery(s, s.reqs[k]);
        if s.reqs[k].Forwarded? {
          var j :| s.reqs[k].outages <= j < |s.gens| && s.gens[j] == s.reqs[k].gen;
          assert s'.gens[j] == s.gens[j];
        } else if s'.reqs[k].Forwarded? {
          assert s'.gens[|s.gens| - 1] == s'.reqs[k].gen;
        } else if s'.reqs[k] != s.reqs[k] && s'.reqs[k].Passed? {
          UpMeansRecovered(c, s.mon);
        }
      }
    }
  }

  /** The documented promise holds in the documented order: with the callback
      before the assignment of StateUp, traffic is let through only after
      recovery is complete, in every run. */
  lemma {:induction false} CallbackFirstAdmits(c: M.Setup, uuid: string, acts: seq<Act>)
    requires Backoff.Sane(c.base, c.max) && c.hasCallback && c.order.CallbackFirst?
    ensures Admits(Exec(c, Init(uuid), acts))
  {
    if acts != [] {
      CallbackFirstAdmits(c, uuid, acts[..|acts| - 1]);
      Reachable(c, uuid, acts[..|acts| - 1]);
      AdmitsStep(c, Exec(c, Init(uuid), acts[..|acts| - 1]), acts[|acts| - 1]);
    }
  }

  /** The state reached when the first outage of a run has ended and its
      callback has not begun to sync. */
  function AfterOutage(c: M.Setup, uuid: string): Sys {
    Init(uuid).(mon := M.Mon(M.StateUp, 0, [M.Loop(M.AtSync, false, 1, c.base, 0)], Some(0), 1, 1, 0, M.NotStarted))
  }

  lemma ExecSnoc(c: M.Setup, s: Sys, acts: seq<Act>, a: Act)
    ensures Exec(c, s, acts + [a]) == Step(c, Exec(c, s, acts), a)
  {
    assert (acts + [a])[..|acts|] == acts;
  }

  lemma OutagePasses(c: M.Setup, uuid: string) returns (acts: seq<Act>)
    requires c.hasCallback && c.order.UpFirst?
    ensures Exec(c, Init(uuid), acts) == AfterOutage(c, uuid)
  {
    var s0, l := Init(uuid), M.Loop(M.Spawned, false, 0, c.base, 0);
    acts := [];
    ExecSnoc(c, s0, acts, Monitor(M.ProxyError));
    acts := acts + [Monitor(M.ProxyError)];
    ExecSnoc(c, s0, acts, Monitor(M.Spawn));
    acts := acts + [Monitor(M.Spawn)];
    assert Exec(c, s0, acts) == s0.(mon := M.Mon(M.StateDown, 0, [l], None, 1, 0, 0, M.NotStarted));
    ExecSnoc(c, s0, acts, Monitor(M.Probe(0, M.Register)));
    acts := acts + [Monitor(M.Probe(0, M.Register))];
    assert Exec(c, s0, acts) == s0.(mon := M.Mon(M.StateDown, 0, [l.(pc := M.Top)], Some(0), 1, 0, 0, M.NotStarted));
    ExecSnoc(c, s0, acts, Monitor(M.Probe(0, M.CheckContext)));
    acts := acts + [Monitor(M.Probe(0, M.CheckContext))];
    assert Exec(c, s0, acts) == s0.(mon := M.Mon(M.StateDown, 0, [l.(pc := M.Ready)], Some(0), 1, 0, 0, M.NotStarted));
    ExecSnoc(c, s0, acts, Monitor(M.Probe(0, M.SendGet)));
    acts := acts + [Monitor(M.Probe(0, M.SendGet))];
    l := l.(pc := M.InFlight, gets := 1);
    assert Exec(c, s0, acts) == s0.(mon := M.Mon(M.StateDown, 0, [l], Some(0), 1, 0, 0, M.NotStarted));
    ExecSnoc(c, s0, acts, Monitor(M.Probe(0, M.ProbeOk)));
    acts := acts + [Monitor(M.Probe(0, M.ProbeOk))];
  }

  /** In the order as written the promise fails: a request whose token was issued
      before the outage is forwarded after it, while the callback has not even
      begun to sync. */
  lemma UpFirstBreaksPromise(c: M.Setup, uuid: string) returns (acts: seq<Act>)
    requires c.hasCallback && c.order.UpFirst?
    ensures var s := Exec(c, Init(uuid), acts);
      && s.mon.downs == 1 && |s.mon.loops| == 1 && s.mon.loops[0].pc == M.AtSync && s.mon.completed == 0
      && s.reqs == [Forwarded(uuid, 1)] && s.gens == [uuid]
      && !Recovered(s, s.reqs[0]) && !Admits(s)
  {
    var s0 := Init(uuid);
    acts := OutagePasses(c, uuid);
    ExecSnoc(c, s0, acts, Arrive(uuid));
    acts := acts + [Arrive(uuid)];
    assert Exec(c, s0, acts) == AfterOutage(c, uuid).(reqs := [Arrived(uuid)]);
    ExecSnoc(c, s0, acts, BlockCheck(0));
    acts := acts + [BlockCheck(0)];
    assert Exec(c, s0, acts) == AfterOutage(c, uuid).(reqs := [Passed(uuid, 1)]);
    ExecSnoc(c, s0, acts, AuthCheck(0, true));
    acts := acts + [AuthCheck(0, true)];
    var s := Exec(c, s0, acts);
    assert s == AfterOutage(c, uuid).(reqs := [Forwarded(uuid, 1)]);
    assert !Recovered(s, s.reqs[0]);
    assert !PassedAfterRecovery(s, s.reqs[0]);
  }

  /** Exactly when a request that is being forwarded keeps the promise, in either
      order: the recoveries completed by the time of its token check are as many
      as the outages detected by the time it passed BlockWhenDown. */
  lemma {:induction false} ForwardKeepsPromiseIff(c: M.Setup, uuid: string, acts: seq<Act>, k: nat)
    requires Backoff.Sane(c.base, c.max)
    requires var s := Exec(c, Init(uuid), acts); k < |s.reqs| && s.reqs[k].Passed? && s.reqs[k].gen == Current(s)
    ensures var s := Exec(c, Init(uuid), acts);
      var s' := Step(c, s, AuthCheck(k, true));
      s'.reqs[k].Forwarded? && (Recovered(s', s'.reqs[k]) <==> s.reqs[k].outages <= s.mon.completed)
  {
    Reachable(c, uuid, acts);
    var s := Exec(c, Init(uuid), acts);
    assert s.gens[s.mon.completed] == Current(s);
  }

  /** In the order as written, letting a request through at a moment when
      Grafana is up keeps the promise exactly if no callback is running. */
  lemma {:induction false} PromiseKeptIff(c: M.Setup, uuid: string, acts: seq<Act>, k: nat)
    requires Backoff.Sane(c.base, c.max) && c.hasCallback && c.order.UpFirst?
    requires var s := Exec(c, Init(uuid), acts);
      k < |s.reqs| && s.reqs[k].Arrived? && s.mon.state.StateUp?
    ensures var s := Exec(c, Init(uuid), acts);
      PassedAfterRecovery(s, Step(c, s, BlockCheck(k)).reqs[k]) <==> M.Count(s.mon.loops, M.IN_CALLBACK) == 0
  {
    Reachable(c, uuid, acts);
    M.CallbacksMatch(c, Exec(c, Init(uuid), acts).mon);
  }

  // --------------------------------------------------------- the queue and outages

  /** Grafana is down in every state of the run that starts in `s`. */
  ghost predicate DownThroughout(c: M.Setup, s: Sys, more: seq<Act>) {
    forall n | 0 <= n <= |more| :: Exec(c, s, more[..n]).mon.state.StateDown?
  }

  /** What a step of the system is to the queue. */
  function QueueStep(s: Sys, a: Act): seq<Q.Act> {
    match a
    case Queue(op) => if IsQueueStep(s, op) then [op] else []
    case QueueUnlocks => if s.run == Some(Consumer) then [Q.End] else []
    case _ => []
  }

  /** The steps of the queue in a run of the system. */
  function QueueSteps(c: M.Setup, s: Sys, acts: seq<Act>): seq<Q.Act> {
    if acts == [] then []
    else
      var front := acts[..|acts| - 1];
      QueueSteps(c, s, front) + QueueStep(Exec(c, s, front), acts[|acts| - 1])
  }

  lemma QueueStepIsStep(c: M.Setup, s: Sys, a: Act)
    ensures var step := QueueStep(s, a);
      |step| <= 1 && Step(c, s, a).que == if step == [] then s.que else Q.Step(s.que, step[0])
  {
  }

  lemma StepLooksTruly(c: M.Setup, s: Sys, a: Act)
    ensures var step := QueueStep(s, a);
      && (s.mon.state.StateDown? && step != [] && step[0].Poll? ==> step[0].down)
      && (a != Queue(Q.Trigger) && step != [] ==> !step[0].Trigger?)
  {
  }

  lemma QueueRunSnoc(q: Q.Que, before: seq<Q.Act>, step: seq<Q.Act>)
    requires |step| <= 1
    ensures Q.Exec(q, before + step) == if step == [] then Q.Exec(q, before) else Q.Step(Q.Exec(q, before), step[0])
  {
    if step == [] {
      assert before + step == before;
    } else {
      Q.ExecSnoc(q, before, step[0]);
      assert step == [step[0]];
    }
  }

  /** A run of the system is, for the queue, a run of the queue alone. */
  lemma {:induction false} QueueRunsAlone(c: M.Setup, s: Sys, acts: seq<Act>)
    ensures Exec(c, s, acts).que == Q.Exec(s.que, QueueSteps(c, s, acts))
  {
    if acts != [] {
      var front, a := acts[..|acts| - 1], acts[|acts| - 1];
      QueueRunsAlone(c, s, front);
      QueueStepIsStep(c, Exec(c, s, front), a);
      QueueRunSnoc(s.que, QueueSteps(c, s, front), QueueStep(Exec(c, s, front), a));
    }
  }

  /** Within one outage the queue starts at most one sync, and only if its look
      at the state had succeeded before. */
  lemma {:induction false} OneSyncPerOutage(c: M.Setup, s: Sys, more: seq<Act>)
    requires DownThroughout(c, s, more)
    ensures var q, q' := s.que, Exec(c, s, more).que;
      q'.starts + (if q'.pc == Q.Cleared then 1 else 0) <= q.starts + (if q.pc == Q.Cleared then 1 else 0)
  {
    QueueRunsAlone(c, s, more);
    LooksFindDown(c, s, more);
    Q.OneStartWhileDown(s.que, QueueSteps(c, s, more));
  }

  lemma {:induction false} LooksFindDown(c: M.Setup, s: Sys, more: seq<Act>)
    requires DownThroughout(c, s, more)
    ensures forall i | 0 <= i < |QueueSteps(c, s, more)| && QueueSteps(c, s, more)[i].Poll? ::
              QueueSteps(c, s, more)[i].down
  {
    if more != [] {
      var front := more[..|more| - 1];
      forall n | 0 <= n <= |front| ensures Exec(c, s, front[..n]).mon.state.StateDown? {
        assert front[..n] == more[..n];
        assert Exec(c, s, more[..n]).mon.state.StateDown?;
      }
      LooksFindDown(c, s, front);
      assert front[..|front|] == front;
      assert Exec(c, s, front[..|front|]).mon.state.StateDown?;
      var before: seq<Q.Act> := QueueSteps(c, s, front);
      var step: seq<Q.Act> := QueueStep(Exec(c, s, front), more[|more| - 1]);
      StepLooksTruly(c, Exec(c, s, front), more[|more| - 1]);
      forall i | 0 <= i < |before + step| && (before + step)[i].Poll? ensures (before + step)[i].down {
        if i < |before| {
          assert (before + step)[i] == before[i];
        } else {
          assert (before + step)[i] == step[0];
        }
      }
    }
  }

  /** Whatever the monitor, the callbacks and the requests do, the queued syncs
      started and still owed grow by exactly the counting triggers. */
  lemma {:induction false} EachCountingTriggerIsOneSync(c: M.Setup, s: Sys, more: seq<Act>)
    ensures var q, q' := s.que, Exec(c, s, more).que;
      q'.starts + Q.Owed(q') == q.starts + Q.Owed(q) + Q.Counting(q, QueueSteps(c, s, more))
  {
    QueueRunsAlone(c, s, more);
    Q.EachCountingTriggerIsOneSync(s.que, QueueSteps(c, s, more));
  }

  /** Once triggers cease, exactly the owed syncs still start: when the queue has
      come to rest, two exactly if a token was buffered while the consumer waited
      for Grafana or was about to start. */
  lemma {:induction false} AtMostTwoMoreSyncs(c: M.Setup, s: Sys, more: seq<Act>)
    requires forall i | 0 <= i < |more| :: more[i] != Queue(Q.Trigger)
    ensures var q, q' := s.que, Exec(c, s, more).que;
      && q'.starts + Q.Owed(q') == q.starts + Q.Owed(q) <= q.starts + 2
      && (Q.AtRest(q') ==>
            && q'.starts == q.starts + Q.Owed(q)
            && (q'.starts == q.starts + 2 <==> q.token && q.pc in {Q.PollUp, Q.Cleared})
            && (q'.starts == q.starts <==> !q.token && q.pc in {Q.Idle, Q.Syncing}))
  {
    QueueRunsAlone(c, s, more);
    NoTriggerSteps(c, s, more);
    Q.AtMostTwoMore(s.que, QueueSteps(c, s, more));
  }

  lemma {:induction false} NoTriggerSteps(c: M.Setup, s: Sys, more: seq<Act>)
    requires forall i | 0 <= i < |more| :: more[i] != Queue(Q.Trigger)
    ensures forall i | 0 <= i < |QueueSteps(c, s, more)| :: !QueueSteps(c, s, more)[i].Trigger?
  {
    if more != [] {
      var front := more[..|more| - 1];
      NoTriggerSteps(c, s, front);
      var before: seq<Q.Act> := QueueSteps(c, s, front);
      var step: seq<Q.Act> := QueueStep(Exec(c, s, front), more[|more| - 1]);
      StepLooksTruly(c, Exec(c, s, front), more[|more| - 1]);
      forall i | 0 <= i < |before + step| ensures !(before + step)[i].Trigger? {
        if i < |before| {
          assert (before + step)[i] == before[i];
        } else {
          assert (before + step)[i] == step[0];
        }
      }
    }
  }
}
