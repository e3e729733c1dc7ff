/** The two locks `m.mu` and `runMu` across all goroutines: who may hold which
    lock, and who waits while holding one. A goroutine is the sequence of its
    lock operations and of what it does between them. */
module Locks {
  import opened Common

  datatype Lock = Mu | RunMu

  /** What is done between lock operations: a pass; a look at the monitor's
      fields, or a change of one; or anything else (requests, waits, channel
      operations, the start of goroutines). */
  datatype Activity = Pass | Look | SetState | SetCancel | Other

  datatype Op =
    | Acquire(lock: Lock)
    | ReadAcquire(lock: Lock)
    | Release(lock: Lock)
    | ReadRelease(lock: Lock)
    | Work(activity: Activity)

  /** What a goroutine can be made of, in any order and number. */
  datatype Procedure =
    | OnProxyError(alreadyDown: bool)
    | Register                      // start of probeLoop
    | Request                       // health request, wait, channel operation
    | ReportUp(hasCallback: bool)   // end of probeLoop
    | StopMonitor
    | ReadState                     // ShouldBlock and State
    | SyncNow                       // syncOnce, from any caller

  function Code(p: Procedure): seq<Op> {
    match p
    case OnProxyError(alreadyDown) =>
      if alreadyDown then [Acquire(Mu), Work(Look), Release(Mu)]
      else [Acquire(Mu), Work(Look), Work(SetState), Release(Mu), Work(Other)]
    case Register => [Acquire(Mu), Work(SetCancel), Release(Mu)]
    case Request => [Work(Other)]
    case ReportUp(hasCallback) =>
      if hasCallback then
        [Acquire(Mu), Work(SetState), Release(Mu), Acquire(RunMu), Work(Pass), Release(RunMu), Work(Other)]
      else [Acquire(Mu), Work(SetState), Release(Mu)]
    case StopMonitor => [Acquire(Mu), Work(SetCancel), Release(Mu)]
    case ReadState => [ReadAcquire(Mu), Work(Look), ReadRelease(Mu)]
    case SyncNow => [Acquire(RunMu), Work(Pass), Release(RunMu)]
  }

  /** What each procedure does, whatever its lock operations. */
  lemma CodeDoes(p: Procedure)
    ensures Work(Pass) in Code(p) <==> p == SyncNow || p == ReportUp(true)
    ensures Work(SetState) in Code(p) <==> p == OnProxyError(false) || p.ReportUp?
    ensures Work(SetCancel) in Code(p) <==> p == Register || p == StopMonitor
    ensures Work(Look) in Code(p) <==> p.OnProxyError? || p == ReadState
  {
  }

  function Program(ps: seq<Procedure>): seq<Op> {
    if ps == [] then [] else Program(ps[..|ps| - 1]) + Code(ps[|ps| - 1])
  }

  // ------------------------------------------------------------- one goroutine

  datatype Hold = Hold(lock: Lock, exclusive: bool)

  /** The lock that was acquired last and is not released, after `n` operations. */
  function Held(code: seq<Op>, n: nat): Option<Hold>
    requires n <= |code|
  {
    if n == 0 then None
    else
      match code[n - 1]
      case Acquire(l) => Some(Hold(l, true))
      case ReadAcquire(l) => Some(Hold(l, false))
      case Release(_) => None
      case ReadRelease(_) => None
      case Work(_) => Held(code, n - 1)
  }

  /** An operation that comes right: a lock is acquired with none held, and
      released the way it was acquired; a pass is made under `runMu`, and the
      monitor's fields are changed under `m.mu` and read under it or its read lock. */
  predicate Fits(h: Option<Hold>, op: Op) {
    match op
    case Acquire(_) => h.None?
    case ReadAcquire(_) => h.None?
    case Release(l) => h == Some(Hold(l, true))
    case ReadRelease(l) => h == Some(Hold(l, false))
    case Work(a) => Guards(h, a)
  }

  predicate Guards(h: Option<Hold>, a: Activity) {
    match a
    case Pass => h == Some(Hold(RunMu, true))
    case Look => h.Some? && h.value.lock == Mu
    case SetState => h == Some(Hold(Mu, true))
    case SetCancel => h == Some(Hold(Mu, true))
    case Other => true
  }

  ghost predicate FitsAt(code: seq<Op>, n: nat)
    requires n < |code|
  {
    Fits(Held(code, n), code[n])
  }

  ghost predicate Flat(code: seq<Op>) {
    && (forall n | 0 <= n < |code| :: FitsAt(code, n))
    && Held(code, |code|).None?
  }

  lemma {:induction false} HeldAppend(a: seq<Op>, b: seq<Op>, n: nat)
    requires Held(a, |a|).None? && n <= |b|
    ensures Held(a + b, |a| + n) == Held(b, n)
    ensures forall k | 0 <= k <= |a| :: Held(a + b, k) == Held(a, k)
  {
    HeldPrefix(a, b, |a|);
    if n > 0 {
      HeldAppend(a, b, n - 1);
    }
  }

  lemma {:induction false} HeldPrefix(a: seq<Op>, b: seq<Op>, n: nat)
    requires n <= |a|
    ensures forall k | 0 <= k <= n :: Held(a + b, k) == Held(a, k)
  {
    if n > 0 {
      HeldPrefix(a, b, n - 1);
    }
  }

  lemma FlatAppend(a: seq<Op>, b: seq<Op>)
    requires Flat(a) && Flat(b)
    ensures Flat(a + b)
  {
    forall n | 0 <= n < |a + b| ensures FitsAt(a + b, n) {
      if n < |a| {
        HeldAppend(a, b, 0);
        assert FitsAt(a, n);
      } else {
        HeldAppend(a, b, n - |a|);
        assert FitsAt(b, n - |a|);
      }
    }
    HeldAppend(a, b, |b|);
  }

  lemma HeldNext(code: seq<Op>, n: nat)
    requires n < |code|
    ensures code[n].Acquire? ==> Held(code, n + 1) == Some(Hold(code[n].lock, true))
    ensures code[n].Work? ==> Held(code, n + 1) == Held(code, n)
  {
  }

  lemma CodeIsFlat(p: Procedure)
    ensures Flat(Code(p))
  {
    var code := Code(p);
    forall n | 0 <= n < |code| ensures FitsAt(code, n) {
      if n >= 2 {
        HeldNext(code, n - 2);
      }
    }
  }

  lemma {:induction false} ProgramIsFlat(ps: seq<Procedure>)
    ensures Flat(Program(ps))
  {
    if ps != [] {
      ProgramIsFlat(ps[..|ps| - 1]);
      CodeIsFlat(ps[|ps| - 1]);
      FlatAppend(Program(ps[..|ps| - 1]), Code(ps[|ps| - 1]));
    }
  }

  // ------------------------------------------------------------ all goroutines

  datatype Goroutine = Goroutine(code: seq<Op>, pc: nat)

  function HeldBy(g: Goroutine): Option<Hold> {
    if g.pc <= |g.code| then Held(g.code, g.pc) else None
  }

  predicate Unfinished(g: Goroutine) {
    g.pc < |g.code|
  }

  predicate Waits(g: Goroutine) {
    Unfinished(g) && (g.code[g.pc].Acquire? || g.code[g.pc].ReadAcquire?)
  }

  function Init(goroutines: seq<seq<Procedure>>): seq<Goroutine> {
    seq(|goroutines|, i requires 0 <= i < |goroutines| => Goroutine(Program(goroutines[i]), 0))
  }

  /** A lock is free for a writer when nobody holds it, and for a reader when no
      writer holds it. */
  predicate Free(s: seq<Goroutine>, op: Op) {
    forall j | 0 <= j < |s| :: Allows(HeldBy(s[j]), op)
  }

  predicate Allows(h: Option<Hold>, op: Op) {
    match op
    case Acquire(l) => h.Some? ==> h.value.lock != l
    case ReadAcquire(l) => h != Some(Hold(l, true))
    case _ => true
  }

  function Step(s: seq<Goroutine>, i: nat): seq<Goroutine> {
    if i < |s| && Unfinished(s[i]) && Free(s, s[i].code[s[i].pc]) then s[i := s[i].(pc := s[i].pc + 1)] else s
  }

  function Exec(s: seq<Goroutine>, schedule: seq<nat>): seq<Goroutine> {
    if schedule == [] then s
    else Step(Exec(s, schedule[..|schedule| - 1]), schedule[|schedule| - 1])
  }

  /** Two goroutines never hold one lock unless both only read. */
  ghost predicate Compatible(a: Option<Hold>, b: Option<Hold>) {
    a.Some? && b.Some? && a.value.lock == b.value.lock ==> !a.value.exclusive && !b.value.exclusive
  }

  ghost predicate Good(g: Goroutine) {
    g.pc <= |g.code| && Flat(g.code)
  }

  ghost predicate Inv(s: seq<Goroutine>) {
    && (forall i | 0 <= i < |s| :: Good(s[i]))
    && (forall i, j | 0 <= i < |s| && 0 <= j < |s| && i != j :: Compatible(HeldBy(s[i]), HeldBy(s[j])))
  }

  lemma StepKeepsInv(s: seq<Goroutine>, i: nat)
    requires Inv(s)
    ensures Inv(Step(s, i))
  {
    var s' := Step(s, i);
    if s' != s {
      var op := s[i].code[s[i].pc];
      assert Good(s[i]);
      assert FitsAt(s[i].code, s[i].pc);
      forall j | 0 <= j < |s| && j != i ensures Compatible(HeldBy(s'[i]), HeldBy(s'[j])) {
        assert Allows(HeldBy(s[j]), op);
        assert Compatible(HeldBy(s[i]), HeldBy(s[j]));
      }
    }
  }

  lemma {:induction false} Reachable(goroutines: seq<seq<Procedure>>, schedule: seq<nat>)
    ensures Inv(Exec(Init(goroutines), schedule))
  {
    if schedule == [] {
      forall i | 0 <= i < |goroutines| ensures Good(Init(goroutines)[i]) {
        ProgramIsFlat(goroutines[i]);
      }
    } else {
      Reachable(goroutines, schedule[..|schedule| - 1]);
      StepKeepsInv(Exec(Init(goroutines), schedule[..|schedule| - 1]), schedule[|schedule| - 1]);
    }
  }

  /** Goroutine `i` can move even if a writer that waits keeps new readers out. */
  ghost predicate CanMove(s: seq<Goroutine>, i: nat)
    requires i < |s|
  {
    && Unfinished(s[i])
    && Step(s, i)[i].pc == s[i].pc + 1
    && (s[i].code[s[i].pc].ReadAcquire? ==>
          forall j | 0 <= j < |s| && Unfinished(s[j]) :: s[j].code[s[j].pc] != Acquire(s[i].code[s[i].pc].lock))
  }

  /** In every reachable state no goroutine holds a lock while it waits for one,
      so each holder can move, and writers exclude all others. */
  lemma {:induction false} NoHoldAndWait(goroutines: seq<seq<Procedure>>, schedule: seq<nat>, i: nat)
    requires var s := Exec(Init(goroutines), schedule); i < |s| && HeldBy(s[i]).Some?
    ensures var s := Exec(Init(goroutines), schedule);
      && !Waits(s[i]) && CanMove(s, i)
      && forall j | 0 <= j < |s| && j != i :: Compatible(HeldBy(s[i]), HeldBy(s[j]))
  {
    Reachable(goroutines, schedule);
    var s := Exec(Init(goroutines), schedule);
    assert Good(s[i]);
    HolderMoves(s, i);
  }

  lemma HolderMoves(s: seq<Goroutine>, i: nat)
    requires i < |s| && Good(s[i]) && HeldBy(s[i]).Some?
    ensures !Waits(s[i]) && CanMove(s, i)
  {
    assert Unfinished(s[i]);
    assert FitsAt(s[i].code, s[i].pc);
  }

  /** Two activities that must not overlap. */
  predicate Conflict(a: Activity, b: Activity) {
    || (a == Pass && b == Pass)
    || (a in {SetState, SetCancel} && b in {Look, SetState, SetCancel})
    || (b in {SetState, SetCancel} && a in {Look, SetState, SetCancel})
  }

  predicate Does(g: Goroutine, a: Activity) {
    Unfinished(g) && g.code[g.pc] == Work(a)
  }

  /** Passes never overlap, and nobody reads or changes the monitor's fields while
      another goroutine changes them. */
  lemma {:induction false} ConflictsNeverMeet(goroutines: seq<seq<Procedure>>, schedule: seq<nat>, i: nat, j: nat,
                                              a: Activity, b: Activity)
    requires var s := Exec(Init(goroutines), schedule);
      i < |s| && j < |s| && i != j && Does(s[i], a) && Does(s[j], b)
    ensures !Conflict(a, b)
  {
    Reachable(goroutines, schedule);
    var s := Exec(Init(goroutines), schedule);
    assert Good(s[i]) && Good(s[j]);
    assert FitsAt(s[i].code, s[i].pc) && FitsAt(s[j].code, s[j].pc);
    assert Compatible(HeldBy(s[i]), HeldBy(s[j]));
  }

  /** No deadlock: while any goroutine has something left to do, some goroutine
      can move, for any number of goroutines and any schedule. */
  lemma {:induction false} NoDeadlock(goroutines: seq<seq<Procedure>>, schedule: seq<nat>, i: nat)
    requires var s := Exec(Init(goroutines), schedule); i < |s| && Unfinished(s[i])
    ensures var s := Exec(Init(goroutines), schedule); exists k | 0 <= k < |s| :: CanMove(s, k)
  {
    var s := Exec(Init(goroutines), schedule);
    if k :| 0 <= k < |s| && HeldBy(s[k]).Some? {
      NoHoldAndWait(goroutines, schedule, k);
      assert CanMove(s, k);
    } else if k :| 0 <= k < |s| && Unfinished(s[k]) && s[k].code[s[k].pc].Acquire? {
      assert CanMove(s, k);
    } else {
      assert CanMove(s, i);
    }
  }
}
