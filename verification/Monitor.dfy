/** The Grafana lifecycle monitor of internal/proxy/grafana_monitor.go: any
    number of goroutines report proxy errors, each outage starts a probe loop,
    and old loops may still be in their recovery callback when new ones start.
    One step is one section under `m.mu`, one HTTP outcome or one wake-up. */
module Monitor {
  import opened Common
  import opened Backoff

  datatype GrafanaState = StateUp | StateDown

  /** The code assigns StateUp and then runs the recovery callback. Its comments
      promise the other order, which is kept here for comparison. */
  datatype Order = UpFirst | CallbackFirst

  datatype Setup = Setup(base: nat, max: nat, hasCallback: bool, order: Order)

  datatype Pc =
    | Spawned      // started, has not stored its cancel function
    | Top          // before the check of its context
    | Ready        // passed the check, about to send the health request
    | InFlight     // the request is under way
    | Waiting      // in the backoff wait
    | AtSync       // callback: before the sync holds runMu
    | InSync       // callback: the sync is running
    | AtRotate     // callback: before InvalidateTokens
    | Returned     // callback done, StateUp not yet assigned (CallbackFirst only)
    | Finished
    | Cancelled    // left because its context was cancelled

  datatype Loop = Loop(pc: Pc, cancelled: bool, gets: nat, interval: nat, fails: nat)

  /** The periodic check that reports errors like any other caller. */
  datatype Background = NotStarted | Active | Stopped

  /** `pending` counts the callers of OnProxyError between their section and
      the start of the goroutine; `downs`, `ups` and `completed` count the
      transitions to down, to up and the callbacks that returned. */
  datatype Mon = Mon(state: GrafanaState, pending: nat, loops: seq<Loop>, probeCancel: Option<nat>,
                     downs: nat, ups: nat, completed: nat, background: Background)

  datatype Event =
    | Register | CheckContext | SendGet | ProbeFails(wait: nat) | TimerFires | SeeCancel | ProbeOk
    | SyncStarts | SyncEnds | CallbackReturns | AssignUp

  datatype Act = ProxyError | Spawn | StartBackground | Stop | Probe(loop: nat, event: Event)

  function Init(): Mon {
    Mon(StateUp, 0, [], None, 0, 0, 0, NotStarted)
  }

  /** Lines 127-135. */
  function GoDown(m: Mon): Mon {
    if m.state.StateDown? then m
    else m.(state := StateDown, pending := m.pending + 1, downs := m.downs + 1)
  }

  /** Line 137. */
  function SpawnLoop(c: Setup, m: Mon): Mon {
    if m.pending == 0 then m
    else m.(pending := m.pending - 1, loops := m.loops + [Loop(Spawned, false, 0, c.base, 0)])
  }

  /** Lines 63-66. */
  function CancelProbe(m: Mon): Mon {
    if m.probeCancel.Some? && m.probeCancel.value < |m.loops| then
      var i := m.probeCancel.value;
      m.(loops := m.loops[i := m.loops[i].(cancelled := true)], probeCancel := None)
    else m.(probeCancel := None)
  }

  /** Lines 60-71. */
  function StopAll(m: Mon): Mon {
    CancelProbe(m).(background := if m.background.Active? then Stopped else m.background)
  }

  function Goto(m: Mon, i: nat, pc: Pc): Mon
    requires i < |m.loops|
  {
    m.(loops := m.loops[i := m.loops[i].(pc := pc)])
  }

  /** Lines 187-190. */
  function GoUp(m: Mon, i: nat, pc: Pc): Mon
    requires i < |m.loops|
  {
    Goto(m, i, pc).(state := StateUp, ups := m.ups + 1)
  }

  /** One step of probe loop `i`, lines 142-200; an event that cannot happen at
      this point changes nothing. */
  function ProbeStep(c: Setup, m: Mon, i: nat, e: Event): Mon
    requires i < |m.loops|
  {
    var l := m.loops[i];
    match l.pc
    case Spawned => if e.Register? then Goto(m, i, Top).(probeCancel := Some(i)) else m
    case Top => if e.CheckContext? then Goto(m, i, if l.cancelled then Cancelled else Ready) else m
    case Ready => if e.SendGet? then m.(loops := m.loops[i := l.(pc := InFlight, gets := l.gets + 1)]) else m
    case InFlight =>
      if e.ProbeFails? && IsNext(l.interval, c.max, e.wait) then
        m.(loops := m.loops[i := l.(pc := Waiting, interval := e.wait, fails := l.fails + 1)])
      else if !e.ProbeOk? then m
      else if !c.hasCallback then GoUp(m, i, Finished)
      else if c.order.UpFirst? then GoUp(m, i, AtSync)
      else Goto(m, i, AtSync)
    case Waiting =>
      if e.TimerFires? then Goto(m, i, Top)
      else if e.SeeCancel? && l.cancelled then Goto(m, i, Cancelled)
      else m
    case AtSync => if e.SyncStarts? then Goto(m, i, InSync) else m
    case InSync => if e.SyncEnds? then Goto(m, i, AtRotate) else m
    case AtRotate =>
      if e.CallbackReturns? then
        Goto(m, i, if c.order.UpFirst? then Finished else Returned).(completed := m.completed + 1)
      else m
    case Returned => if e.AssignUp? then GoUp(m, i, Finished) else m
    case Finished => m
    case Cancelled => m
  }

  function Step(c: Setup, m: Mon, a: Act): Mon {
    match a
    case ProxyError => GoDown(m)
    case Spawn => SpawnLoop(c, m)
    case StartBackground => if m.background.NotStarted? then m.(background := Active) else m
    case Stop => StopAll(m)
    case Probe(i, e) => if i < |m.loops| then ProbeStep(c, m, i, e) else m
  }

  function Exec(c: Setup, m: Mon, acts: seq<Act>): Mon {
    if acts == [] then m
    else Step(c, Exec(c, m, acts[..|acts| - 1]), acts[|acts| - 1])
  }

  // -------------------------------------------------------------------- counting

  const IN_CALLBACK: set<Pc> := {AtSync, InSync, AtRotate}
  const CALLBACK_DONE: set<Pc> := {Returned, Finished}

  /** Where a loop is once it has assigned StateUp. */
  function AssignedUp(c: Setup): set<Pc> {
    if c.order.UpFirst? then {AtSync, InSync, AtRotate, Finished} else {Finished}
  }

  function Count(ls: seq<Loop>, pcs: set<Pc>): nat {
    if ls == [] then 0 else Count(ls[..|ls| - 1], pcs) + if ls[|ls| - 1].pc in pcs then 1 else 0
  }

  lemma {:induction false} CountUpdate(ls: seq<Loop>, i: nat, l: Loop, pcs: set<Pc>)
    requires i < |ls|
    ensures Count(ls[i := l], pcs) + (if ls[i].pc in pcs then 1 else 0) == Count(ls, pcs) + if l.pc in pcs then 1 else 0
  {
    var n := |ls| - 1;
    if i < n {
      CountUpdate(ls[..n], i, l, pcs);
      assert ls[i := l][..n] == ls[..n][i := l];
    } else {
      assert ls[i := l][..n] == ls[..n];
    }
  }

  lemma CountAppend(ls: seq<Loop>, l: Loop, pcs: set<Pc>)
    ensures Count(ls + [l], pcs) == Count(ls, pcs) + if l.pc in pcs then 1 else 0
  {
    assert (ls + [l])[..|ls|] == ls;
  }

  lemma {:induction false} CountSplit(ls: seq<Loop>, p: set<Pc>, q: set<Pc>)
    requires p !! q
    ensures Count(ls, p + q) == Count(ls, p) + Count(ls, q)
  {
    if ls != [] {
      CountSplit(ls[..|ls| - 1], p, q);
    }
  }

  // ------------------------------------------------------------------- invariant

  ghost predicate Assigned(c: Setup, m: Mon, i: nat)
    requires i < |m.loops|
  {
    m.loops[i].pc in AssignedUp(c)
  }

  /** Each outage has one loop, and only the loop of the present outage has not
      assigned StateUp yet. */
  ghost predicate OneLoopPerOutage(c: Setup, m: Mon) {
    && m.downs == m.ups + (if m.state.StateDown? then 1 else 0)
    && |m.loops| + m.pending == m.downs
    && (m.state.StateUp? ==> m.pending == 0)
    && m.pending <= 1
    && (forall i | 0 <= i < |m.loops| - 1 :: Assigned(c, m, i))
    && (m.loops != [] ==>
          (Assigned(c, m, |m.loops| - 1) <==> m.state.StateUp? || m.pending == 1))
  }

  ghost predicate Counted(c: Setup, m: Mon) {
    && m.ups == Count(m.loops, AssignedUp(c))
    && (c.hasCallback ==> m.completed == Count(m.loops, CALLBACK_DONE))
    && (!c.hasCallback ==> m.completed == 0)
  }

  /** Who owns the stored cancel function. */
  ghost predicate CancelOwned(c: Setup, m: Mon) {
    && (m.probeCancel.Some? ==>
          var i := m.probeCancel.value;
          i < |m.loops| && m.loops[i].pc != Spawned && forall j | i < j < |m.loops| :: m.loops[j].pc == Spawned)
    && (forall i | 0 <= i < |m.loops| && m.loops[i].pc != Spawned && !Assigned(c, m, i) ::
          m.probeCancel == Some(i) || m.loops[i].cancelled)
    && (forall i | 0 <= i < |m.loops| && m.loops[i].cancelled :: m.loops[i].pc != Spawned)
  }

  ghost predicate LoopsSane(c: Setup, m: Mon) {
    forall i | 0 <= i < |m.loops| :: LoopSane(c, m.loops[i])
  }

  ghost predicate LoopSane(c: Setup, l: Loop) {
    && IntervalAfter(c.base, c.max, l.fails, l.interval)
    && (!c.hasCallback ==> l.pc !in IN_CALLBACK && l.pc != Returned)
    && (c.order.UpFirst? ==> l.pc != Returned)
    && (l.pc == Cancelled ==> l.cancelled)
  }

  ghost predicate Inv(c: Setup, m: Mon) {
    OneLoopPerOutage(c, m) && Counted(c, m) && CancelOwned(c, m) && LoopsSane(c, m)
  }

  /** What any step of loop `i` does to the monitor. */
  ghost predicate ProbeEffect(c: Setup, m: Mon, i: nat, m': Mon)
    requires i < |m.loops|
  {
    && |m'.loops| == |m.loops| && m'.loops == m.loops[i := m'.loops[i]]
    && m'.pending == m.pending && m'.downs == m.downs
    && (if m.loops[i].pc !in AssignedUp(c) && m'.loops[i].pc in AssignedUp(c)
        then m'.state == StateUp && m'.ups == m.ups + 1
        else m'.state == m.state && m'.ups == m.ups
             && (m'.loops[i].pc in AssignedUp(c) <==> m.loops[i].pc in AssignedUp(c)))
    && m'.completed == m.completed + (if c.hasCallback && m.loops[i].pc !in CALLBACK_DONE
                                         && m'.loops[i].pc in CALLBACK_DONE
                                      then 1 else 0)
    && (m.loops[i].pc in CALLBACK_DONE ==> m'.loops[i].pc in CALLBACK_DONE)
    && m'.loops[i].cancelled == m.loops[i].cancelled
    && (if m.loops[i].pc == Spawned && m'.loops[i].pc != Spawned then m'.probeCancel == Some(i)
        else m'.probeCancel == m.probeCancel)
    && (m'.loops[i].pc == Spawned ==> m.loops[i].pc == Spawned)
  }

  lemma ProbeHasEffect(c: Setup, m: Mon, i: nat, e: Event)
    requires i < |m.loops| && LoopSane(c, m.loops[i])
    ensures ProbeEffect(c, m, i, ProbeStep(c, m, i, e))
  {
  }

  lemma ProbeKeepsSane(c: Setup, m: Mon, i: nat, e: Event)
    requires Sane(c.base, c.max) && i < |m.loops| && LoopSane(c, m.loops[i])
    ensures LoopSane(c, ProbeStep(c, m, i, e).loops[i])
  {
    if e.ProbeFails? {
      NextKeepsBounds(c.base, c.max, m.loops[i].fails, m.loops[i].interval, e.wait);
    }
  }

  lemma ProbeKeepsOneLoop(c: Setup, m: Mon, i: nat, m': Mon)
    requires OneLoopPerOutage(c, m) && i < |m.loops| && ProbeEffect(c, m, i, m')
    ensures OneLoopPerOutage(c, m')
  {
    forall j | 0 <= j < |m.loops| - 1 ensures Assigned(c, m', j) {
      assert Assigned(c, m, j);
    }
    assert Assigned(c, m, i) <==> m.loops[i].pc in AssignedUp(c);
    assert Assigned(c, m', |m.loops| - 1) <==> m'.loops[|m.loops| - 1].pc in AssignedUp(c);
  }

  lemma ProbeKeepsCounts(c: Setup, m: Mon, i: nat, m': Mon)
    requires Counted(c, m) && i < |m.loops| && ProbeEffect(c, m, i, m')
    ensures Counted(c, m')
  {
    CountUpdate(m.loops, i, m'.loops[i], AssignedUp(c));
    CountUpdate(m.loops, i, m'.loops[i], CALLBACK_DONE);
  }

  lemma ProbeKeepsCancel(c: Setup, m: Mon, i: nat, m': Mon)
    requires OneLoopPerOutage(c, m) && CancelOwned(c, m) && i < |m.loops| && ProbeEffect(c, m, i, m')
    ensures CancelOwned(c, m')
  {
    forall j | 0 <= j < |m.loops| - 1 ensures m.loops[j].pc != Spawned {
      assert Assigned(c, m, j);
    }
    forall j | 0 <= j < |m.loops| && m'.loops[j].pc != Spawned && !Assigned(c, m', j)
      ensures m'.probeCancel == Some(j) || m'.loops[j].cancelled
    {
      if j == i {
        assert Assigned(c, m, i) <==> m.loops[i].pc in AssignedUp(c);
      } else {
        assert m'.loops[j] == m.loops[j] && !Assigned(c, m, j);
        assert j == |m.loops| - 1;
      }
    }
  }

  /** Stop moves no loop. */
  lemma StopMovesNothing(c: Setup, m: Mon)
    ensures var m' := StopAll(m);
      && |m'.loops| == |m.loops|
      && (forall i | 0 <= i < |m.loops| :: m'.loops[i].pc == m.loops[i].pc)
      && (forall i | 0 <= i < |m.loops| :: Assigned(c, m', i) <==> Assigned(c, m, i))
  {
  }

  lemma StopKeepsCounts(c: Setup, m: Mon)
    requires Counted(c, m) && LoopsSane(c, m)
    ensures Counted(c, StopAll(m)) && LoopsSane(c, StopAll(m))
  {
    if m.probeCancel.Some? && m.probeCancel.value < |m.loops| {
      var i := m.probeCancel.value;
      var l := m.loops[i].(cancelled := true);
      CountUpdate(m.loops, i, l, AssignedUp(c));
      CountUpdate(m.loops, i, l, CALLBACK_DONE);
      assert LoopSane(c, m.loops[i]);
    }
  }

  lemma StopKeepsCancel(c: Setup, m: Mon)
    requires CancelOwned(c, m)
    ensures CancelOwned(c, StopAll(m))
  {
    StopMovesNothing(c, m);
  }

  lemma StopKeepsInv(c: Setup, m: Mon)
    requires Inv(c, m)
    ensures Inv(c, StopAll(m))
  {
    StopMovesNothing(c, m);
    StopKeepsCounts(c, m);
    StopKeepsCancel(c, m);
  }

  lemma SpawnKeepsInv(c: Setup, m: Mon)
    requires Inv(c, m)
    ensures Inv(c, SpawnLoop(c, m))
  {
    if m.pending != 0 {
      SpawnKeepsOneLoop(c, m);
      SpawnKeepsCancel(c, m);
      SpawnKeepsRest(c, m);
    }
  }

  lemma SpawnKeepsRest(c: Setup, m: Mon)
    requires Counted(c, m) && LoopsSane(c, m)
    ensures Counted(c, SpawnLoop(c, m)) && LoopsSane(c, SpawnLoop(c, m))
  {
    var l := Loop(Spawned, false, 0, c.base, 0);
    CountAppend(m.loops, l, AssignedUp(c));
    CountAppend(m.loops, l, CALLBACK_DONE);
    assert LoopSane(c, l);
  }

  lemma SpawnKeepsOneLoop(c: Setup, m: Mon)
    requires OneLoopPerOutage(c, m) && m.pending != 0
    ensures OneLoopPerOutage(c, SpawnLoop(c, m))
  {
    var m' := SpawnLoop(c, m);
    forall j | 0 <= j < |m.loops| ensures Assigned(c, m', j) {
      assert Assigned(c, m, j);
    }
    assert !Assigned(c, m', |m.loops|);
  }

  lemma SpawnKeepsCancel(c: Setup, m: Mon)
    requires CancelOwned(c, m)
    ensures CancelOwned(c, SpawnLoop(c, m))
  {
    var m' := SpawnLoop(c, m);
    forall j | 0 <= j < |m.loops| ensures Assigned(c, m', j) <==> Assigned(c, m, j) {}
  }

  lemma StepKeepsInv(c: Setup, m: Mon, a: Act)
    requires Sane(c.base, c.max) && Inv(c, m)
    ensures Inv(c, Step(c, m, a))
  {
    match a
    case ProxyError =>
      forall j | 0 <= j < |m.loops| ensures Assigned(c, GoDown(m), j) <==> Assigned(c, m, j) {}
    case Spawn => SpawnKeepsInv(c, m);
    case StartBackground =>
      var m' := Step(c, m, a);
      forall j | 0 <= j < |m.loops| ensures Assigned(c, m', j) <==> Assigned(c, m, j) {}
    case Stop => StopKeepsInv(c, m);
    case Probe(i, e) =>
      if i < |m.loops| {
        ProbeHasEffect(c, m, i, e);
        ProbeKeepsSane(c, m, i, e);
        ProbeKeepsOneLoop(c, m, i, Step(c, m, a));
        ProbeKeepsCounts(c, m, i, Step(c, m, a));
        ProbeKeepsCancel(c, m, i, Step(c, m, a));
      }
  }

  lemma {:induction false} Reachable(c: Setup, acts: seq<Act>)
    requires Sane(c.base, c.max)
    ensures Inv(c, Exec(c, Init(), acts))
  {
    if acts != [] {
      Reachable(c, acts[..|acts| - 1]);
      StepKeepsInv(c, Exec(c, Init(), acts[..|acts| - 1]), acts[|acts| - 1]);
    }
  }

  // ---------------------------------------------------------------- main results

  /** For any number of callers and any flapping: transitions to down and up
      alternate, each outage starts one loop, as many loops have assigned
      StateUp as there were transitions to up, at most one loop has not, and
      none while the state is up. */
  lemma {:induction false} SingleLiveProber(c: Setup, acts: seq<Act>)
    requires Sane(c.base, c.max)
    ensures var m := Exec(c, Init(), acts);
      && m.downs == m.ups + (if m.state.StateDown? then 1 else 0)
      && |m.loops| + m.pending == m.downs
      && Count(m.loops, AssignedUp(c)) == m.ups
      && (forall i, j | 0 <= i < |m.loops| && 0 <= j < |m.loops| && !Assigned(c, m, i) && !Assigned(c, m, j) :: i == j)
      && (m.state.StateUp? ==> m.pending == 0 && forall i | 0 <= i < |m.loops| :: Assigned(c, m, i))
  {
    Reachable(c, acts);
  }

  /** Each transition to up makes exactly one callback: those that returned and
      those still running are together as many as the transitions. */
  lemma {:induction false} OneRecoveryPerOutage(c: Setup, acts: seq<Act>)
    requires Sane(c.base, c.max) && c.hasCallback && c.order.UpFirst?
    ensures var m := Exec(c, Init(), acts);
      m.completed + Count(m.loops, IN_CALLBACK) == m.ups && m.completed == Count(m.loops, {Finished})
  {
    Reachable(c, acts);
    CallbacksMatch(c, Exec(c, Init(), acts));
  }

  lemma CallbacksMatch(c: Setup, m: Mon)
    requires Inv(c, m) && c.hasCallback && c.order.UpFirst?
    ensures m.completed + Count(m.loops, IN_CALLBACK) == m.ups && m.completed == Count(m.loops, {Finished})
  {
    CountSplit(m.loops, IN_CALLBACK, {Finished});
    assert IN_CALLBACK + {Finished} == AssignedUp(c);
    CountSplit(m.loops, {Finished}, {Returned});
    assert {Finished} + {Returned} == CALLBACK_DONE;
    NoneReturned(c, m.loops);
  }

  lemma {:induction false} NoneReturned(c: Setup, ls: seq<Loop>)
    requires c.order.UpFirst? && forall i | 0 <= i < |ls| :: LoopSane(c, ls[i])
    ensures Count(ls, {Returned}) == 0
  {
    if ls != [] {
      assert LoopSane(c, ls[|ls| - 1]);
      NoneReturned(c, ls[..|ls| - 1]);
    }
  }

  /** A stored cancel function belongs to the most recently registered loop, and
      a loop that registers is newer than all loops registered before. */
  lemma {:induction false} CancelIsNewest(c: Setup, acts: seq<Act>)
    requires Sane(c.base, c.max)
    ensures var m := Exec(c, Init(), acts);
      && (m.probeCancel.Some? ==>
            var i := m.probeCancel.value;
            i < |m.loops| && m.loops[i].pc != Spawned && forall j | i < j < |m.loops| :: m.loops[j].pc == Spawned)
      && forall i | 0 <= i < |m.loops| && m.loops[i].pc == Spawned :: NewestRegisters(c, m, i)
  {
    var m := Exec(c, Init(), acts);
    Reachable(c, acts);
    forall i | 0 <= i < |m.loops| && m.loops[i].pc == Spawned ensures NewestRegisters(c, m, i) {
      assert !Assigned(c, m, i);
    }
  }

  ghost predicate NewestRegisters(c: Setup, m: Mon, i: nat)
    requires i < |m.loops| && m.loops[i].pc == Spawned
  {
    && (forall j | 0 <= j < |m.loops| && m.loops[j].pc != Spawned :: j < i)
    && Step(c, m, Probe(i, Register)).probeCancel == Some(i)
  }

  lemma ExecSnoc(c: Setup, m: Mon, acts: seq<Act>, a: Act)
    ensures Exec(c, m, acts + [a]) == Step(c, Exec(c, m, acts), a)
  {
    assert (acts + [a])[..|acts|] == acts;
  }

  /** A loop whose context is cancelled sends at most the request it was about
      to send when it was cancelled. */
  lemma {:induction false} CancelledSendsAtMostOne(c: Setup, m: Mon, i: nat, more: seq<Act>)
    requires i < |m.loops| && m.loops[i].cancelled
    ensures var m' := Exec(c, m, more);
      i < |m'.loops| && m'.loops[i].cancelled
      && m'.loops[i].gets + (if m'.loops[i].pc == Ready then 1 else 0)
         <= m.loops[i].gets + (if m.loops[i].pc == Ready then 1 else 0)
  {
    if more != [] {
      CancelledSendsAtMostOne(c, m, i, more[..|more| - 1]);
      CancelledStep(c, Exec(c, m, more[..|more| - 1]), more[|more| - 1], i);
    }
  }

  lemma CancelledStep(c: Setup, m: Mon, a: Act, i: nat)
    requires i < |m.loops| && m.loops[i].cancelled
    ensures var m' := Step(c, m, a);
      && i < |m'.loops| && m'.loops[i].cancelled
      && m'.loops[i].gets + (if m'.loops[i].pc == Ready then 1 else 0)
         <= m.loops[i].gets + (if m.loops[i].pc == Ready then 1 else 0)
      && (m.loops[i].pc in {Top, Waiting, Cancelled} ==> m'.loops[i].pc in {Top, Waiting, Cancelled})
  {
  }

  /** A Stop that finds the live loop registered lets it send at most one more
      health request, whatever happens afterwards. */
  lemma {:induction false} StopAllowsOneRequest(c: Setup, acts: seq<Act>, i: nat, more: seq<Act>)
    requires Sane(c.base, c.max)
    requires var m := Exec(c, Init(), acts); i < |m.loops| && m.loops[i].pc != Spawned && !Assigned(c, m, i)
    ensures var m := Exec(c, Init(), acts);
      var m' := Exec(c, Step(c, m, Stop), more);
      i < |m'.loops| && m'.loops[i].gets <= m.loops[i].gets + 1
  {
    var m := Exec(c, Init(), acts);
    Reachable(c, acts);
    CancelledSendsAtMostOne(c, Step(c, m, Stop), i, more);
  }

  lemma {:induction false} SilencedStays(c: Setup, m: Mon, i: nat, more: seq<Act>)
    requires i < |m.loops| && m.loops[i].cancelled && m.loops[i].pc in {Top, Waiting, Cancelled}
    ensures var m' := Exec(c, m, more);
      i < |m'.loops| && m'.loops[i].cancelled && m'.loops[i].pc in {Top, Waiting, Cancelled}
  {
    if more != [] {
      SilencedStays(c, m, i, more[..|more| - 1]);
      CancelledStep(c, Exec(c, m, more[..|more| - 1]), more[|more| - 1], i);
    }
  }

  /** Loop `i` can still report recovery in some future of `m`. */
  ghost predicate CanComeUp(c: Setup, m: Mon, i: nat) {
    exists more :: ComesUp(c, m, i, more)
  }

  ghost predicate ComesUp(c: Setup, m: Mon, i: nat, more: seq<Act>) {
    var m' := Exec(c, m, more);
    i < |m'.loops| && m'.loops[i].pc in AssignedUp(c)
  }

  /** Exactly when a Stop fails to keep the live loop from reporting recovery:
      the loop has not registered its cancel function yet, or it has already
      passed the check of its context. */
  lemma {:induction false} StopMissesIff(c: Setup, acts: seq<Act>, i: nat)
    requires Sane(c.base, c.max) && c.order.UpFirst?
    requires var m := Exec(c, Init(), acts); i < |m.loops| && !Assigned(c, m, i)
    ensures var m := Exec(c, Init(), acts);
      CanComeUp(c, Step(c, m, Stop), i) <==> m.loops[i].pc in {Spawned, Ready, InFlight}
  {
    var m := Exec(c, Init(), acts);
    var m' := Step(c, m, Stop);
    Reachable(c, acts);
    assert m'.loops[i].pc == m.loops[i].pc;
    if m.loops[i].pc in {Spawned, Ready, InFlight} {
      FinishesProbe(c, m', i);
    } else {
      assert LoopSane(c, m.loops[i]);
      assert m'.loops[i].cancelled && m'.loops[i].pc in {Top, Waiting, Cancelled};
      forall more ensures !ComesUp(c, m', i, more) {
        SilencedStays(c, m', i, more);
      }
    }
  }

  /** A loop that a Stop misses: the outage has just been detected, and the loop
      has started but not registered. */
  lemma StopMissesNewLoop(c: Setup)
    requires Sane(c.base, c.max) && c.order.UpFirst?
    ensures var m := Exec(c, Init(), [ProxyError, Spawn]);
      && |m.loops| == 1 && m.loops[0].pc == Spawned && m.state.StateDown?
      && CanComeUp(c, Step(c, m, Stop), 0)
  {
    ExecSnoc(c, Init(), [], ProxyError);
    ExecSnoc(c, Init(), [ProxyError], Spawn);
    assert [] + [ProxyError] == [ProxyError] && [ProxyError] + [Spawn] == [ProxyError, Spawn];
    assert Exec(c, Init(), [ProxyError]) == GoDown(Init());
    var m := Exec(c, Init(), [ProxyError, Spawn]);
    assert !Assigned(c, m, 0);
    StopMissesIff(c, [ProxyError, Spawn], 0);
  }

  /** One successful probe, from wherever the loop stands. */
  lemma FinishesProbe(c: Setup, m: Mon, i: nat)
    requires c.order.UpFirst? && i < |m.loops|
    requires m.loops[i].pc in {Ready, InFlight} || (m.loops[i].pc == Spawned && !m.loops[i].cancelled)
    ensures CanComeUp(c, m, i)
  {
    var probe := [Probe(i, Register), Probe(i, CheckContext), Probe(i, SendGet), Probe(i, ProbeOk)];
    ExecSnoc(c, m, [], probe[0]);
    ExecSnoc(c, m, [probe[0]], probe[1]);
    ExecSnoc(c, m, [probe[0], probe[1]], probe[2]);
    ExecSnoc(c, m, [probe[0], probe[1], probe[2]], probe[3]);
    assert Exec(c, m, []) == m;
    var m1 := Step(c, m, probe[0]);
    var m2 := Step(c, m1, probe[1]);
    var m3 := Step(c, m2, probe[2]);
    assert m3.loops[i].pc == InFlight;
    assert [] + [probe[0]] == [probe[0]] && [probe[0]] + [probe[1]] == [probe[0], probe[1]];
    assert [probe[0], probe[1]] + [probe[2]] == [probe[0], probe[1], probe[2]];
    assert [probe[0], probe[1], probe[2]] + [probe[3]] == probe;
    assert ComesUp(c, m, i, probe);
  }

  /** Stop cancels contexts and does nothing else: no loop moves, and neither the
      state nor any count changes. */
  lemma StopTouchesContextsOnly(c: Setup, m: Mon)
    ensures var m' := Step(c, m, Stop);
      && m'.state == m.state && m'.pending == m.pending && |m'.loops| == |m.loops|
      && m'.downs == m.downs && m'.ups == m.ups && m'.completed == m.completed
      && (forall i | 0 <= i < |m.loops| ::
            m'.loops[i] == m.loops[i].(cancelled := m.loops[i].cancelled || m.probeCancel == Some(i)))
      && m'.probeCancel.None? && !m'.background.Active?
  {
  }

  /** A Stop that finds the background check active stops it for good. */
  lemma {:induction false} BackgroundStaysStopped(c: Setup, m: Mon, more: seq<Act>)
    requires m.background.Active?
    ensures Exec(c, Step(c, m, Stop), more).background.Stopped?
  {
    if more != [] {
      BackgroundStaysStopped(c, m, more[..|more| - 1]);
    }
  }

  // --------------------------------------------------------------------- the waits

  /** The waits that follow the failed probes of loop `i` in a run. */
  function WaitsOf(c: Setup, acts: seq<Act>, i: nat): seq<nat> {
    if acts == [] then []
    else
      var front, a := acts[..|acts| - 1], acts[|acts| - 1];
      WaitsOf(c, front, i) + WaitOf(c, Exec(c, Init(), front), a, i)
  }

  function WaitOf(c: Setup, m: Mon, a: Act, i: nat): seq<nat> {
    if a.Probe? && a.loop == i && a.event.ProbeFails? && i < |m.loops| && m.loops[i].pc == InFlight
       && IsNext(m.loops[i].interval, c.max, a.event.wait)
    then [a.event.wait]
    else []
  }

  /** Where the last request of a loop has been answered with success, or not yet. */
  const UNFAILED: set<Pc> := {InFlight, AtSync, InSync, AtRotate, Returned, Finished}

  /** In every run the waits of a loop follow one another as the backoff
      demands, each failed probe makes one and the loop holds the last, and all
      requests but an unfailed last one have failed. */
  ghost predicate Backs(c: Setup, m: Mon, i: nat, waits: seq<nat>) {
    if i < |m.loops| then
      var l := m.loops[i];
      && |waits| == l.fails && WaitsFrom(c.base, c.max, waits)
      && l.interval == (if waits == [] then c.base else waits[|waits| - 1])
      && l.gets == l.fails + if l.pc in UNFAILED then 1 else 0
    else waits == []
  }

  lemma {:induction false} EachFailureIsWaitedFor(c: Setup, acts: seq<Act>, i: nat)
    ensures Backs(c, Exec(c, Init(), acts), i, WaitsOf(c, acts, i))
  {
    if acts != [] {
      var front, a := acts[..|acts| - 1], acts[|acts| - 1];
      EachFailureIsWaitedFor(c, front, i);
      BacksStep(c, Exec(c, Init(), front), a, i, WaitsOf(c, front, i));
    }
  }

  lemma BacksStep(c: Setup, m: Mon, a: Act, i: nat, waits: seq<nat>)
    requires Backs(c, m, i, waits)
    ensures Backs(c, Step(c, m, a), i, waits + WaitOf(c, m, a, i))
  {
    if WaitOf(c, m, a, i) == [] {
      assert waits + WaitOf(c, m, a, i) == waits;
    } else {
      OneMoreWait(c.base, c.max, waits, a.event.wait);
    }
  }

  /** After a failed probe a loop does nothing but wait, until the timer fires or
      it is cancelled. */
  lemma FailedProbeWaits(c: Setup, m: Mon, i: nat, wait: nat, a: Act)
    requires i < |m.loops| && m.loops[i].pc == InFlight && IsNext(m.loops[i].interval, c.max, wait)
    ensures var m' := Step(c, m, Probe(i, ProbeFails(wait)));
      && m'.loops[i].pc == Waiting
      && (Step(c, m', a).loops[i].pc == Waiting
          || a == Probe(i, TimerFires) || (a == Probe(i, SeeCancel) && m'.loops[i].cancelled))
      && Step(c, m', Probe(i, TimerFires)).loops[i].pc == Top
      && (m'.loops[i].cancelled ==> Step(c, m', Probe(i, SeeCancel)).loops[i].pc == Cancelled)
  {
  }

  // --------------------------------------------------------- the object under m.mu

  /** The monitor's own fields. `cancelled` are the probe contexts, by loop,
      that have been cancelled through the stored function, and `bgCancelled`
      says so of the context of the background check. Each method is one
      section under `m.mu` and does what the transition system says. */
  class GrafanaMonitor {
    var state: GrafanaState
    var probeCancel: Option<nat>
    var bgCancel: bool
    var cancelled: set<nat>
    var bgCancelled: bool

    constructor ()
      ensures Shows(Init())
    {
      state, probeCancel, bgCancel, cancelled, bgCancelled := StateUp, None, false, {}, false;
    }

    ghost predicate Shows(m: Mon)
      reads this
    {
      && state == m.state && probeCancel == m.probeCancel
      && bgCancel == m.background.Active? && bgCancelled == m.background.Stopped?
      && (forall i: nat | i < |m.loops| :: i in cancelled <==> m.loops[i].cancelled)
      && (forall i: nat | i in cancelled :: i < |m.loops|)
    }

    /** Lines 127-138; the result says whether the caller starts a probe loop. */
    method OnProxyError(ghost m: Mon) returns (spawn: bool)
      requires Shows(m)
      modifies this
      ensures state == StateDown && (spawn <==> old(state) == StateUp)
      ensures Shows(GoDown(m))
      ensures spawn <==> GoDown(m).pending == m.pending + 1
    {
      if state == StateDown {
        return false;
      }
      state := StateDown;
      spawn := true;
    }

    /** Lines 143-146, in loop `i`. */
    method RegisterProbe(c: Setup, ghost m: Mon, i: nat)
      requires Shows(m) && i < |m.loops| && m.loops[i].pc == Spawned
      modifies this
      ensures probeCancel == Some(i) && state == old(state)
      ensures Shows(Step(c, m, Probe(i, Register)))
    {
      probeCancel := Some(i);
    }

    /** Lines 187-190, in loop `i`; the result says whether it runs a callback. */
    method ReportUp(c: Setup, ghost m: Mon, i: nat) returns (callback: bool)
      requires Shows(m) && i < |m.loops| && m.loops[i].pc == InFlight && c.order.UpFirst?
      modifies this
      ensures state == StateUp && (callback <==> c.hasCallback) && probeCancel == old(probeCancel)
      ensures Shows(Step(c, m, Probe(i, ProbeOk)))
      ensures callback <==> Step(c, m, Probe(i, ProbeOk)).loops[i].pc == AtSync
    {
      state := StateUp;
      callback := c.hasCallback;
    }

    /** Lines 78-86, which must run at most once. */
    method Start(c: Setup, ghost m: Mon)
      requires Shows(m) && m.background.NotStarted?
      modifies this
      ensures bgCancel && !bgCancelled
      ensures Shows(Step(c, m, StartBackground))
    {
      bgCancel := true;
    }

    /** Lines 60-71. */
    method Stop(ghost m: Mon)
      requires Shows(m) && (m.probeCancel.Some? ==> m.probeCancel.value < |m.loops|)
      modifies this
      ensures probeCancel.None? && !bgCancel && state == old(state)
      ensures bgCancelled <==> old(bgCancelled) || old(bgCancel)
      ensures cancelled == old(cancelled) + if old(probeCancel).Some? then {old(probeCancel).value} else {}
      ensures Shows(StopAll(m))
    {
      if probeCancel.Some? {
        cancelled := cancelled + {probeCancel.value};
        probeCancel := None;
      }
      if bgCancel {
        bgCancelled := true;
        bgCancel := false;
      }
    }

    method ShouldBlock(ghost m: Mon) returns (block: bool)
      requires Shows(m)
      ensures block <==> m.state == StateDown
      ensures block <==> state == StateDown
    {
      block := state == StateDown;
    }
  }
}
