/** Passes that run at the same time, interleaved at single API calls: the
    ticker loop, the sync queue and any number of recovery callbacks.

    A caller is an arbitrary program: from the replies it has received it
    decides on its next call or returns. So what is proved holds for the pass
    with any map order and any failures, and for any other code that keeps
    `runMu` from its first to its last call. */
module Serial {
  import opened Common
  import opened Grafana
  import opened Plan
  import opened Effects
  import Passes

  datatype Action = Invoke(call: Call) | Return

  /** What caller `i` does next, and the fate of its `k`-th call. */
  datatype Worker = Worker(next: (nat, seq<Reply>) -> Action, fate: (nat, nat) -> Fate)

  /** `turn` is the place of a caller in the order of lock acquisitions. */
  datatype Caller = Waiting | Running(turn: nat, replies: seq<Reply>) | Finished(turn: nat, replies: seq<Reply>) {
    function Seen(): seq<Reply> {
      if Waiting? then [] else replies
    }
  }

  /** `order` lists the callers in the order in which they took the lock. */
  datatype Sys = Sys(db: Store, holder: Option<nat>, callers: seq<Caller>, order: seq<nat>)

  function Init(db: Store, n: nat): Sys {
    Sys(db, None, seq(n, _ => Waiting), [])
  }

  /** Caller `i` is scheduled: it takes the lock, makes its next call, or
      returns and releases the lock. A caller that cannot move stays put. */
  function Step(w: Worker, s: Sys, i: nat): Sys {
    if i >= |s.callers| then s
    else
      match s.callers[i]
      case Waiting =>
        if s.holder.Some? then s
        else s.(holder := Some(i), callers := s.callers[i := Running(|s.order|, [])], order := s.order + [i])
      case Running(_, _) => Move(w, s, i)
      case Finished(_, _) => s
  }

  function Move(w: Worker, s: Sys, i: nat): Sys
    requires i < |s.callers| && s.callers[i].Running?
  {
    var Running(turn, rs) := s.callers[i];
    match w.next(i, rs)
    case Invoke(c) =>
      var (db, reply) := Answer(s.db, c, w.fate(i, |rs|));
      s.(db := db, callers := s.callers[i := Running(turn, rs + [reply])])
    case Return =>
      s.(holder := None, callers := s.callers[i := Finished(turn, rs)])
  }

  function Exec(w: Worker, s: Sys, schedule: seq<nat>): Sys {
    if schedule == [] then s
    else Step(w, Exec(w, s, schedule[..|schedule| - 1]), schedule[|schedule| - 1])
  }

  // -------------------------------------------------------------- alone, in turn

  /** The first `n` calls of caller `i` with nobody else around: the store they
      leave and the replies they get. */
  function Solo(w: Worker, i: nat, db: Store, n: nat): (Store, seq<Reply>) {
    if n == 0 then (db, [])
    else
      var (d, rs) := Solo(w, i, db, n - 1);
      match w.next(i, rs)
      case Invoke(c) => var (d', r) := Answer(d, c, w.fate(i, |rs|)); (d', rs + [r])
      case Return => (d, rs)
  }

  /** The store after the callers in `order` ran alone one after another, each
      for as many calls as it made. */
  function InTurn(w: Worker, db: Store, callers: seq<Caller>, order: seq<nat>): Store {
    if order == [] then db
    else
      var i := order[|order| - 1];
      Solo(w, i, InTurn(w, db, callers, order[..|order| - 1]), |SeenBy(callers, i)|).0
  }

  function SeenBy(callers: seq<Caller>, i: nat): seq<Reply> {
    if i < |callers| then callers[i].Seen() else []
  }

  lemma {:induction false} InTurnFrame(w: Worker, db: Store, callers: seq<Caller>, callers': seq<Caller>,
                                       order: seq<nat>)
    requires forall k | 0 <= k < |order| :: SeenBy(callers', order[k]) == SeenBy(callers, order[k])
    ensures InTurn(w, db, callers', order) == InTurn(w, db, callers, order)
  {
    if order != [] {
      InTurnFrame(w, db, callers, callers', order[..|order| - 1]);
    }
  }

  // ------------------------------------------------------------------ invariant

  /** The callers that took the lock are the ones that are not waiting, each
      at its turn; the last one is running exactly while the lock is held. */
  ghost predicate LockInv(w: Worker, s: Sys) {
    && (forall k | 0 <= k < |s.order| ::
          s.order[k] < |s.callers| && !s.callers[s.order[k]].Waiting? && s.callers[s.order[k]].turn == k)
    && (forall i | 0 <= i < |s.callers| && !s.callers[i].Waiting? ::
          s.callers[i].turn < |s.order| && s.order[s.callers[i].turn] == i)
    && (forall i | 0 <= i < |s.callers| && s.callers[i].Running? :: s.holder == Some(i))
    && (forall i | 0 <= i < |s.callers| && s.callers[i].Finished? :: w.next(i, s.callers[i].replies) == Return)
    && (s.holder.Some? ==>
          var i := s.holder.value;
          i < |s.callers| && s.callers[i].Running? && s.callers[i].turn == |s.order| - 1)
  }

  /** The `k`-th holder of the lock has seen exactly what it would have seen
      alone, started in the store its predecessors left. */
  ghost predicate RanAlone(w: Worker, db: Store, s: Sys, k: nat)
    requires k < |s.order|
  {
    var seen := SeenBy(s.callers, s.order[k]);
    Solo(w, s.order[k], InTurn(w, db, s.callers, s.order[..k]), |seen|).1 == seen
  }

  ghost predicate Serialised(w: Worker, db: Store, s: Sys) {
    && LockInv(w, s)
    && s.db == InTurn(w, db, s.callers, s.order)
    && forall k | 0 <= k < |s.order| :: RanAlone(w, db, s, k)
  }

  lemma StepKeepsLockInv(w: Worker, s: Sys, i: nat)
    requires LockInv(w, s)
    ensures LockInv(w, Step(w, s, i))
  {
  }

  /** What the earlier holders of the lock did does not depend on the others. */
  lemma EarlierTurns(w: Worker, db: Store, s: Sys, s': Sys, n: nat)
    requires n <= |s.order| && n <= |s'.order| && s'.order[..n] == s.order[..n]
    requires forall k | 0 <= k < n :: SeenBy(s'.callers, s.order[k]) == SeenBy(s.callers, s.order[k])
    ensures InTurn(w, db, s'.callers, s'.order[..n]) == InTurn(w, db, s.callers, s.order[..n])
    ensures forall k | 0 <= k < n && RanAlone(w, db, s, k) :: RanAlone(w, db, s', k)
  {
    InTurnFrame(w, db, s.callers, s'.callers, s.order[..n]);
    forall k | 0 <= k < n && RanAlone(w, db, s, k) ensures RanAlone(w, db, s', k) {
      assert s'.order[k] == s'.order[..n][k] == s.order[..n][k] == s.order[k];
      assert s'.order[..k] == s'.order[..n][..k] == s.order[..n][..k] == s.order[..k];
      InTurnFrame(w, db, s.callers, s'.callers, s.order[..k]);
    }
  }

  /** The running caller has seen what it would have seen alone, and the store
      is what it would have made of it. */
  lemma LastIsSolo(w: Worker, db: Store, s: Sys, i: nat)
    requires Serialised(w, db, s) && i < |s.callers| && s.callers[i].Running?
    ensures s.order != [] && s.order[|s.order| - 1] == i
    ensures Solo(w, i, InTurn(w, db, s.callers, s.order[..|s.order| - 1]), |s.callers[i].replies|)
            == (s.db, s.callers[i].replies)
  {
    assert s.holder == Some(i);
    assert RanAlone(w, db, s, |s.order| - 1);
  }

  lemma MoveFrame(w: Worker, s: Sys, i: nat)
    requires i < |s.callers| && s.callers[i].Running?
    ensures var s' := Step(w, s, i);
      s'.order == s.order && forall j: nat | j != i :: SeenBy(s'.callers, j) == SeenBy(s.callers, j)
  {
  }

  lemma OtherTurns(w: Worker, s: Sys, k: nat)
    requires LockInv(w, s) && k < |s.order| - 1
    ensures s.order[k] != s.order[|s.order| - 1]
  {
  }

  /** A step of the running caller touches nothing but its own replies. */
  lemma MoveIsSerialised(w: Worker, db: Store, s: Sys, i: nat)
    requires Serialised(w, db, s) && i < |s.callers| && s.callers[i].Running?
    ensures Serialised(w, db, Step(w, s, i))
  {
    LastIsSolo(w, db, s, i);
    var s', last := Step(w, s, i), |s.order| - 1;
    StepKeepsLockInv(w, s, i);
    MoveFrame(w, s, i);
    forall k | 0 <= k < last ensures SeenBy(s'.callers, s.order[k]) == SeenBy(s.callers, s.order[k]) {
      OtherTurns(w, s, k);
    }
    EarlierTurns(w, db, s, s', last);
    LastTurn(w, s, i, InTurn(w, db, s.callers, s.order[..last]));
    TurnsMakeSerial(w, db, s');
  }

  lemma LastTurn(w: Worker, s: Sys, i: nat, before: Store)
    requires i < |s.callers| && s.callers[i].Running?
    requires Solo(w, i, before, |s.callers[i].replies|) == (s.db, s.callers[i].replies)
    ensures var s' := Step(w, s, i);
      Solo(w, i, before, |SeenBy(s'.callers, i)|) == (s'.db, SeenBy(s'.callers, i))
  {
  }

  lemma TurnsMakeSerial(w: Worker, db: Store, s: Sys)
    requires LockInv(w, s) && s.order != []
    requires forall k | 0 <= k < |s.order| - 1 :: RanAlone(w, db, s, k)
    requires var i := s.order[|s.order| - 1];
      Solo(w, i, InTurn(w, db, s.callers, s.order[..|s.order| - 1]), |SeenBy(s.callers, i)|)
      == (s.db, SeenBy(s.callers, i))
    ensures Serialised(w, db, s)
  {
    assert RanAlone(w, db, s, |s.order| - 1);
  }

  lemma LockIsSerialised(w: Worker, db: Store, s: Sys, i: nat)
    requires Serialised(w, db, s) && i < |s.callers| && s.callers[i].Waiting? && s.holder.None?
    ensures Serialised(w, db, Step(w, s, i))
  {
    var s', n := Step(w, s, i), |s.order|;
    StepKeepsLockInv(w, s, i);
    assert s'.order[..n] == s.order == s.order[..n];
    EarlierTurns(w, db, s, s', n);
    TurnsMakeSerial(w, db, s');
  }

  /** Serialisability: whatever the schedule, the number of callers and their
      code, the store is what the passes make of it when they run whole, alone
      and in lock order (the pass that holds the lock as far as it got), and
      every caller saw the replies it would have seen in that serial run. */
  lemma {:induction false} EveryRunIsSerial(w: Worker, db: Store, n: nat, schedule: seq<nat>)
    ensures Serialised(w, db, Exec(w, Init(db, n), schedule))
  {
    if schedule != [] {
      EveryRunIsSerial(w, db, n, schedule[..|schedule| - 1]);
      var s, i := Exec(w, Init(db, n), schedule[..|schedule| - 1]), schedule[|schedule| - 1];
      if i < |s.callers| && s.callers[i].Running? {
        MoveIsSerialised(w, db, s, i);
      } else if i < |s.callers| && s.callers[i].Waiting? && s.holder.None? {
        LockIsSerialised(w, db, s, i);
      }
    }
  }

  /** Nobody is shut out: while some caller has not finished, some caller can take
      the lock, make a call or return. */
  lemma SomeCallerCanMove(w: Worker, db: Store, n: nat, schedule: seq<nat>, i: nat) returns (j: nat)
    requires var s := Exec(w, Init(db, n), schedule); i < |s.callers| && !s.callers[i].Finished?
    ensures var s := Exec(w, Init(db, n), schedule);
      j < |s.callers| && Step(w, s, j).callers[j] != s.callers[j]
  {
    var s := Exec(w, Init(db, n), schedule);
    EveryRunIsSerial(w, db, n, schedule);
    j := if s.holder.Some? then s.holder.value else i;
    MoveChanges(w, s, j);
  }

  lemma MoveChanges(w: Worker, s: Sys, j: nat)
    requires j < |s.callers| && (s.callers[j].Running? || (s.callers[j].Waiting? && s.holder.None?))
    ensures Step(w, s, j).callers[j] != s.callers[j]
  {
    if s.callers[j].Running? {
      var rs := s.callers[j].replies;
      assert forall r: Reply :: |rs + [r]| == |rs| + 1;
    }
  }

  lemma {:induction false} CallersStay(w: Worker, db: Store, n: nat, schedule: seq<nat>)
    ensures |Exec(w, Init(db, n), schedule).callers| == n
  {
    if schedule != [] {
      CallersStay(w, db, n, schedule[..|schedule| - 1]);
    }
  }

  // ------------------------------------------------- contracts in the serial run

  /** What the first `n` calls of caller `i` alone add to the tally `n0`. */
  ghost function SoloTally(w: Worker, i: nat, db: Store, n0: Tally, n: nat): Tally {
    if n == 0 then n0
    else
      var before, (d, rs) := SoloTally(w, i, db, n0, n - 1), Solo(w, i, db, n - 1);
      match w.next(i, rs)
      case Invoke(c) => TallyAfter(Event(d, before, c, w.fate(i, |rs|)))
      case Return => before
  }

  /** Alone and started in `db`, caller `i` returns after `n` calls. */
  ghost predicate Returns(w: Worker, i: nat, db: Store, n: nat) {
    w.next(i, Solo(w, i, db, n).1) == Return
  }

  /** Alone and started in `db`, with the tally `n0` so far, caller `i` has done a
      pass over `entries` if it returns. */
  ghost predicate DoesPass(w: Worker, i: nat, db: Store, n0: Tally, cfg: Config, entries: seq<Entry>) {
    forall n | Returns(w, i, db, n) :: IsPass(db, n0, Solo(w, i, db, n).0, SoloTally(w, i, db, n0, n), cfg, entries)
  }

  ghost predicate IsPass(a: Store, n0: Tally, b: Store, n: Tally, cfg: Config, entries: seq<Entry>) {
    exists misses, gs :: PassOf(a, n0, b, n, cfg, entries, misses, gs)
  }

  lemma {:induction false} SoloKeepsValid(w: Worker, i: nat, db: Store, n: nat)
    requires ValidStore(db)
    ensures ValidStore(Solo(w, i, db, n).0)
  {
    if n > 0 {
      SoloKeepsValid(w, i, db, n - 1);
      var (d, rs) := Solo(w, i, db, n - 1);
      if w.next(i, rs).Invoke? {
        AnswerKeepsValid(d, w.next(i, rs).call, w.fate(i, |rs|));
      }
    }
  }

  lemma {:induction false} InTurnKeepsValid(w: Worker, db: Store, callers: seq<Caller>, order: seq<nat>)
    requires ValidStore(db)
    ensures ValidStore(InTurn(w, db, callers, order))
  {
    if order != [] {
      var front, i := order[..|order| - 1], order[|order| - 1];
      InTurnKeepsValid(w, db, callers, front);
      SoloKeepsValid(w, i, InTurn(w, db, callers, front), |SeenBy(callers, i)|);
    }
  }

  /** The store when `k` callers have taken and released the lock. */
  function StoreAt(w: Worker, db: Store, s: Sys, k: nat): Store
    requires k <= |s.order|
  {
    InTurn(w, db, s.callers, s.order[..k])
  }

  /** The tally of the calls of the first `k` callers that took the lock. */
  ghost function TallyAt(w: Worker, db: Store, s: Sys, k: nat): Tally
    requires k <= |s.order|
  {
    if k == 0 then ZERO
    else
      var i := s.order[k - 1];
      SoloTally(w, i, StoreAt(w, db, s, k - 1), TallyAt(w, db, s, k - 1), |SeenBy(s.callers, i)|)
  }

  /** The `k`-th holder of the lock did a pass, in which these lookups failed. */
  ghost predicate PassAt(w: Worker, db: Store, s: Sys, k: nat, cfg: Config, ldap: nat -> seq<Entry>,
                         misses: seq<multiset<string>>, gs: seq<Goal>)
    requires k < |s.order|
  {
    PassOf(StoreAt(w, db, s, k), TallyAt(w, db, s, k), StoreAt(w, db, s, k + 1), TallyAt(w, db, s, k + 1),
           cfg, ldap(s.order[k]), misses, gs)
  }

  ghost predicate DoesPassInTurn(w: Worker, db: Store, s: Sys, k: nat, cfg: Config, ldap: nat -> seq<Entry>)
    requires k < |s.order|
  {
    DoesPass(w, s.order[k], StoreAt(w, db, s, k), TallyAt(w, db, s, k), cfg, ldap(s.order[k]))
  }

  /** `s` is reached from `db` by any number of callers and any schedule, the lock
      is free, and each caller that took it is one that, alone and started where
      it took the lock, does a pass over its LDAP answer. */
  ghost predicate PassesDone(w: Worker, db: Store, s: Sys, cfg: Config, ldap: nat -> seq<Entry>) {
    && ValidStore(db) && s.holder.None?
    && (exists n, schedule :: s == Exec(w, Init(db, n), schedule))
    && forall k | 0 <= k < |s.order| :: DoesPassInTurn(w, db, s, k, cfg, ldap)
  }

  lemma DoneIsSerialised(w: Worker, db: Store, s: Sys, cfg: Config, ldap: nat -> seq<Entry>)
    requires PassesDone(w, db, s, cfg, ldap)
    ensures Serialised(w, db, s)
    ensures StoreAt(w, db, s, 0) == db && StoreAt(w, db, s, |s.order|) == s.db
  {
    var n, schedule :| s == Exec(w, Init(db, n), schedule);
    EveryRunIsSerial(w, db, n, schedule);
    assert s.order[..|s.order|] == s.order;
  }

  lemma TurnIsPass(w: Worker, db: Store, s: Sys, cfg: Config, ldap: nat -> seq<Entry>, k: nat)
    requires Serialised(w, db, s) && k < |s.order| && s.callers[s.order[k]].Finished?
    requires DoesPassInTurn(w, db, s, k, cfg, ldap)
    ensures IsPass(StoreAt(w, db, s, k), TallyAt(w, db, s, k), StoreAt(w, db, s, k + 1), TallyAt(w, db, s, k + 1),
                   cfg, ldap(s.order[k]))
  {
    assert RanAlone(w, db, s, k);
    assert Returns(w, s.order[k], StoreAt(w, db, s, k), |SeenBy(s.callers, s.order[k])|);
    assert s.order[..k + 1][..k] == s.order[..k];
  }

  /** Every caller that took the lock did a whole pass, from the store and the
      tally that its predecessor left to those its successor found. */
  lemma ConcurrentPasses(w: Worker, db: Store, s: Sys, cfg: Config, ldap: nat -> seq<Entry>, k: nat)
    returns (misses: seq<multiset<string>>, gs: seq<Goal>)
    requires PassesDone(w, db, s, cfg, ldap) && k < |s.order|
    ensures PassAt(w, db, s, k, cfg, ldap, misses, gs)
    ensures ValidStore(StoreAt(w, db, s, k)) && ValidStore(StoreAt(w, db, s, k + 1))
  {
    DoneIsSerialised(w, db, s, cfg, ldap);
    InTurnKeepsValid(w, db, s.callers, s.order[..k]);
    InTurnKeepsValid(w, db, s.callers, s.order[..k + 1]);
    TurnIsPass(w, db, s, cfg, ldap, k);
    misses, gs :| PassOf(StoreAt(w, db, s, k), TallyAt(w, db, s, k),
                         StoreAt(w, db, s, k + 1), TallyAt(w, db, s, k + 1), cfg, ldap(s.order[k]), misses, gs);
  }

  lemma {:induction false} UsersStay(w: Worker, db: Store, s: Sys, cfg: Config, ldap: nat -> seq<Entry>, k: nat)
    requires PassesDone(w, db, s, cfg, ldap) && k <= |s.order|
    ensures StoreAt(w, db, s, k).users == db.users
  {
    if k == 0 {
      DoneIsSerialised(w, db, s, cfg, ldap);
    } else {
      UsersStay(w, db, s, cfg, ldap, k - 1);
      var misses, gs := ConcurrentPasses(w, db, s, cfg, ldap, k - 1);
    }
  }

  /** A pass none of whose lookups failed has the goals planned at the start. */
  lemma PassWithoutMisses(w: Worker, db: Store, s: Sys, cfg: Config, ldap: nat -> seq<Entry>, k: nat)
    requires PassesDone(w, db, s, cfg, ldap) && k < |s.order|
    requires TallyAt(w, db, s, k + 1).missed == TallyAt(w, db, s, k).missed
    ensures PassDone(StoreAt(w, db, s, k), TallyAt(w, db, s, k), StoreAt(w, db, s, k + 1), TallyAt(w, db, s, k + 1),
                     cfg, Planned(db.users, Mapped(cfg, ldap(s.order[k]))))
  {
    UsersStay(w, db, s, cfg, ldap, k);
    var misses, gs := ConcurrentPasses(w, db, s, cfg, ldap, k);
    Passes.CleanGoals(StoreAt(w, db, s, k), TallyAt(w, db, s, k), StoreAt(w, db, s, k + 1), TallyAt(w, db, s, k + 1),
                      cfg, ldap(s.order[k]), misses, gs);
  }

  /** If nothing went wrong for the last caller that took the lock, each team has
      exactly the users wanted by the last of that caller's entries for it,
      whatever the other callers did and met with. */
  lemma LastHolderWins(w: Worker, db: Store, s: Sys, cfg: Config, ldap: nat -> seq<Entry>, j: nat)
    requires PassesDone(w, db, s, cfg, ldap) && s.order != []
    requires Passes.AllClean(TallyAt(w, db, s, |s.order| - 1), TallyAt(w, db, s, |s.order|))
    requires Passes.IsLast(Mapped(cfg, ldap(s.order[|s.order| - 1])), j)
    ensures var t := Mapped(cfg, ldap(s.order[|s.order| - 1]))[j];
      MembersOf(s.db, t.team) == Some(Wanted(db.users, t.logins))
  {
    var k := |s.order| - 1;
    DoneIsSerialised(w, db, s, cfg, ldap);
    PassWithoutMisses(w, db, s, cfg, ldap, k);
    Passes.PlannedIsReached(StoreAt(w, db, s, k), TallyAt(w, db, s, k),
                            StoreAt(w, db, s, k + 1), TallyAt(w, db, s, k + 1),
                            cfg, db.users, Mapped(cfg, ldap(s.order[k])), j);
  }

  /** Of two callers that took the lock one after the other, with the same LDAP
      answer and nothing going wrong, the second changes nothing, and makes no
      create, add or remove call exactly when entries mapped to one team want
      the same users. */
  lemma NextHolderIsQuiet(w: Worker, db: Store, s: Sys, cfg: Config, ldap: nat -> seq<Entry>, k: nat)
    requires PassesDone(w, db, s, cfg, ldap) && k + 2 <= |s.order| && ldap(s.order[k]) == ldap(s.order[k + 1])
    requires Passes.AllClean(TallyAt(w, db, s, k), TallyAt(w, db, s, k + 1))
    requires Passes.AllClean(TallyAt(w, db, s, k + 1), TallyAt(w, db, s, k + 2))
    ensures StoreAt(w, db, s, k + 2) == StoreAt(w, db, s, k + 1)
    ensures TallyAt(w, db, s, k + 2).writes == TallyAt(w, db, s, k + 1).writes
            <==> Passes.Consistent(db.users, Mapped(cfg, ldap(s.order[k])))
  {
    InTurnKeepsValid(w, db, s.callers, s.order[..k + 1]);
    InTurnKeepsValid(w, db, s.callers, s.order[..k + 2]);
    PassWithoutMisses(w, db, s, cfg, ldap, k);
    PassWithoutMisses(w, db, s, cfg, ldap, k + 1);
    Passes.SameGoalsAgain(StoreAt(w, db, s, k), TallyAt(w, db, s, k),
                          StoreAt(w, db, s, k + 1), TallyAt(w, db, s, k + 1),
                          StoreAt(w, db, s, k + 2), TallyAt(w, db, s, k + 2),
                          cfg, Planned(db.users, Mapped(cfg, ldap(s.order[k]))));
  }

  /** The stores and the tallies between the passes. */
  ghost function StoresOf(w: Worker, db: Store, s: Sys): seq<Store> {
    seq(|s.order| + 1, k requires 0 <= k <= |s.order| => StoreAt(w, db, s, k))
  }

  ghost function TalliesOf(w: Worker, db: Store, s: Sys): seq<Tally> {
    seq(|s.order| + 1, k requires 0 <= k <= |s.order| => TallyAt(w, db, s, k))
  }

  /** The `k`-th pass was one with the `k`-th of these failed lookups and goals. */
  ghost predicate DidPass(w: Worker, db: Store, s: Sys, cfg: Config, ldap: nat -> seq<Entry>,
                          missed: seq<seq<multiset<string>>>, gss: seq<seq<Goal>>, k: nat)
    requires k < |missed| == |gss| <= |s.order|
  {
    PassAt(w, db, s, k, cfg, ldap, missed[k], gss[k])
  }

  lemma OneMorePass(w: Worker, db: Store, s: Sys, cfg: Config, ldap: nat -> seq<Entry>,
                    missed: seq<seq<multiset<string>>>, gss: seq<seq<Goal>>,
                    misses: seq<multiset<string>>, gs: seq<Goal>)
    requires |missed| == |gss| < |s.order|
    requires forall k | 0 <= k < |gss| :: DidPass(w, db, s, cfg, ldap, missed, gss, k)
    requires PassAt(w, db, s, |gss|, cfg, ldap, misses, gs)
    ensures forall k | 0 <= k <= |gss| :: DidPass(w, db, s, cfg, ldap, missed + [misses], gss + [gs], k)
  {
    forall k | 0 <= k <= |gss| ensures DidPass(w, db, s, cfg, ldap, missed + [misses], gss + [gs], k) {
      assert k < |gss| ==> DidPass(w, db, s, cfg, ldap, missed, gss, k);
    }
  }

  /** The failed lookups and the goals of the first `m` passes. */
  lemma {:induction false} FirstPasses(w: Worker, db: Store, s: Sys, cfg: Config, ldap: nat -> seq<Entry>, m: nat)
    returns (missed: seq<seq<multiset<string>>>, gss: seq<seq<Goal>>)
    requires PassesDone(w, db, s, cfg, ldap) && m <= |s.order|
    ensures |missed| == |gss| == m
    ensures forall k | 0 <= k < m :: DidPass(w, db, s, cfg, ldap, missed, gss, k)
  {
    missed, gss := [], [];
    if m > 0 {
      missed, gss := FirstPasses(w, db, s, cfg, ldap, m - 1);
      var misses, gs := ConcurrentPasses(w, db, s, cfg, ldap, m - 1);
      OneMorePass(w, db, s, cfg, ldap, missed, gss, misses, gs);
      missed, gss := missed + [misses], gss + [gs];
    }
  }

  /** In lock order the passes make a run from the first store to the present
      one. The goals of each pass are those of its LDAP answer, with the users
      that its lookups found. */
  lemma ConcurrentPassesAreARun(w: Worker, db: Store, s: Sys, cfg: Config, ldap: nat -> seq<Entry>)
    returns (missed: seq<seq<multiset<string>>>, gss: seq<seq<Goal>>)
    requires PassesDone(w, db, s, cfg, ldap)
    ensures |missed| == |gss| == |s.order|
    ensures forall k | 0 <= k < |s.order| :: DidPass(w, db, s, cfg, ldap, missed, gss, k)
    ensures Passes.Run(StoresOf(w, db, s), gss, cfg)
    ensures StoresOf(w, db, s)[0] == db && StoresOf(w, db, s)[|s.order|] == s.db
  {
    DoneIsSerialised(w, db, s, cfg, ldap);
    missed, gss := FirstPasses(w, db, s, cfg, ldap, |s.order|);
    forall k | 0 <= k < |gss| ensures Passes.Pass(StoresOf(w, db, s), gss, k, cfg) {
      assert DidPass(w, db, s, cfg, ldap, missed, gss, k);
    }
  }

  /** In the `k`-th pass all entries of the team want `d`, and no lookup of their
      logins fails. */
  ghost predicate TeamWants(w: Worker, db: Store, s: Sys, cfg: Config, ldap: nat -> seq<Entry>, k: nat,
                            team: string, d: set<int>)
    requires k < |s.order|
  {
    var ts := Mapped(cfg, ldap(s.order[k]));
    forall j | 0 <= j < |ts| && ts[j].team == team ::
      Passes.EntryWants(db.users, ts[j], d, TallyAt(w, db, s, k), TallyAt(w, db, s, k + 1))
  }

  /** The distance bound for concurrent callers: while all entries of a team want
      `d` and none of their lookups fails, the team's distance from `d` never
      grows, no wanted member is lost and nobody unwanted gained. Any other calls
      may fail, and the callers may have different LDAP answers and failed
      lookups for other teams. */
  lemma {:induction false} ConcurrentDistance(w: Worker, db: Store, s: Sys, cfg: Config, ldap: nat -> seq<Entry>,
                                              m: nat,
                                              team: string, d: set<int>)
    requires PassesDone(w, db, s, cfg, ldap) && m <= |s.order|
    requires forall k | 0 <= k < m :: TeamWants(w, db, s, cfg, ldap, k, team, d)
    ensures Between(StartOf(db, team), StartOf(StoreAt(w, db, s, m), team), d)
    ensures MembersOf(db, team).Some? ==>
              && MembersOf(StoreAt(w, db, s, m), team).Some?
              && Between(MembersOf(db, team).value, MembersOf(StoreAt(w, db, s, m), team).value, d)
  {
    if m == 0 {
      DoneIsSerialised(w, db, s, cfg, ldap);
    } else {
      var k := m - 1;
      ConcurrentDistance(w, db, s, cfg, ldap, k, team, d);
      OneConcurrentPass(w, db, s, cfg, ldap, k, team, d);
      Passes.BetweenTransitive(StartOf(db, team), StartOf(StoreAt(w, db, s, k), team),
                               StartOf(StoreAt(w, db, s, m), team), d);
    }
  }

  lemma OneConcurrentPass(w: Worker, db: Store, s: Sys, cfg: Config, ldap: nat -> seq<Entry>, k: nat,
                          team: string, d: set<int>)
    requires PassesDone(w, db, s, cfg, ldap) && k < |s.order| && TeamWants(w, db, s, cfg, ldap, k, team, d)
    ensures var a, b := StoreAt(w, db, s, k), StoreAt(w, db, s, k + 1);
      && Between(StartOf(a, team), StartOf(b, team), d)
      && (MembersOf(a, team).Some? ==> MembersOf(b, team).Some?)
  {
    var a, b := StoreAt(w, db, s, k), StoreAt(w, db, s, k + 1);
    UsersStay(w, db, s, cfg, ldap, k);
    var misses, gs := ConcurrentPasses(w, db, s, cfg, ldap, k);
    Passes.EntriesWantAll(a, TallyAt(w, db, s, k), b, TallyAt(w, db, s, k + 1), cfg, ldap(s.order[k]),
                          misses, gs, team, d);
    Passes.OnePass(a, b, cfg, gs, team, d);
  }

  /** All callers have the LDAP answer `entries`, and none of their lookups fails. */
  ghost predicate SameAnswers(w: Worker, db: Store, s: Sys, ldap: nat -> seq<Entry>, entries: seq<Entry>) {
    && (forall k | 0 <= k < |s.order| :: ldap(s.order[k]) == entries)
    && (forall k | 0 <= k <= |s.order| :: TallyAt(w, db, s, k).missed == multiset{})
  }

  lemma OneTalliedPass(w: Worker, db: Store, s: Sys, cfg: Config, ldap: nat -> seq<Entry>, entries: seq<Entry>, k: nat)
    requires PassesDone(w, db, s, cfg, ldap) && SameAnswers(w, db, s, ldap, entries) && k < |s.order|
    ensures Passes.TalliedPass(StoresOf(w, db, s), TalliesOf(w, db, s), k, cfg, Planned(db.users, Mapped(cfg, entries)))
  {
    assert TallyAt(w, db, s, k).missed == multiset{} == TallyAt(w, db, s, k + 1).missed;
    PassWithoutMisses(w, db, s, cfg, ldap, k);
  }

  lemma ConcurrentTallies(w: Worker, db: Store, s: Sys, cfg: Config, ldap: nat -> seq<Entry>, entries: seq<Entry>)
    requires PassesDone(w, db, s, cfg, ldap) && SameAnswers(w, db, s, ldap, entries)
    ensures Passes.TalliedRun(StoresOf(w, db, s), TalliesOf(w, db, s), cfg, Planned(db.users, Mapped(cfg, entries)))
  {
    var ss, ns, gs := StoresOf(w, db, s), TalliesOf(w, db, s), Planned(db.users, Mapped(cfg, entries));
    forall k | 0 <= k < |s.order| ensures Passes.TalliedPass(ss, ns, k, cfg, gs) {
      OneTalliedPass(w, db, s, cfg, ldap, entries, k);
    }
  }

  /** The passes of callers with the same LDAP answer, none of whose lookups
      failed, make a run with tallies: so over all callers together, distance and
      calls reported successful never exceed the distance at the start. */
  lemma ConcurrentProgress(w: Worker, db: Store, s: Sys, cfg: Config, ldap: nat -> seq<Entry>, entries: seq<Entry>)
    requires PassesDone(w, db, s, cfg, ldap) && SameAnswers(w, db, s, ldap, entries)
    requires Passes.Consistent(db.users, Mapped(cfg, entries))
    ensures var gs := Planned(db.users, Mapped(cfg, entries));
      && Passes.TalliedRun(StoresOf(w, db, s), TalliesOf(w, db, s), cfg, gs)
      && TotalDistance(s.db, gs) + TallyAt(w, db, s, |s.order|).successes <= TotalDistance(db, gs)
  {
    DoneIsSerialised(w, db, s, cfg, ldap);
    ConcurrentTallies(w, db, s, cfg, ldap, entries);
    Passes.SuccessesAreProgress(StoresOf(w, db, s), TalliesOf(w, db, s), cfg, Planned(db.users, Mapped(cfg, entries)));
  }

  // ------------------------------------------------------- the sync worker's pass

  /** The calls that a client recorded, as a program that makes them again. */
  function Recorded(events: seq<Event>): Worker {
    Worker((_: nat, rs: seq<Reply>) => if |rs| < |events| then Invoke(events[|rs|].call) else Return,
           (_: nat, k: nat) => if k < |events| then events[k].fate else ALL_WELL)
  }

  function Replies(events: seq<Event>): seq<Reply> {
    seq(|events|, k requires 0 <= k < |events| => Answer(events[k].at, events[k].call, events[k].fate).1)
  }

  /** The store a client had when it had recorded `k` events. */
  ghost function StoreOf(c: Client, k: nat): Store
    requires k <= |c.trace|
    reads c
  {
    if k < |c.trace| then c.trace[k].at else c.db
  }

  ghost function TallyOf(c: Client, k: nat): Tally
    requires k <= |c.trace|
    reads c
  {
    if k < |c.trace| then c.trace[k].calls else c.calls
  }

  lemma OneMoreRecorded(events: seq<Event>, db: Store, n: nat)
    requires n < |events| && Solo(Recorded(events), 0, db, n) == (events[n].at, Replies(events[..n]))
    ensures Solo(Recorded(events), 0, db, n + 1) == (StoreAfter(events[n]), Replies(events[..n + 1]))
  {
    var e := events[n];
    assert events[..n + 1] == events[..n] + [e];
    assert Replies(events[..n + 1]) == Replies(events[..n]) + [Answer(e.at, e.call, e.fate).1];
  }

  /** Whatever a client did since some moment is a solo run of one caller, with
      the same stores, replies and tallies. */
  lemma {:induction false} RecordedIsSolo(c: Client, from: nat, n: nat)
    requires c.Valid() && from <= |c.trace| && n <= |c.trace| - from
    ensures Solo(Recorded(c.trace[from..]), 0, StoreOf(c, from), n)
            == (StoreOf(c, from + n), Replies(c.trace[from..][..n]))
    ensures SoloTally(Recorded(c.trace[from..]), 0, StoreOf(c, from), TallyOf(c, from), n) == TallyOf(c, from + n)
  {
    if n > 0 {
      RecordedIsSolo(c, from, n - 1);
      assert Follows(c.trace, from + n, c.origin, c.db, c.calls);
      assert c.trace[from..][n - 1] == c.trace[from + n - 1];
      OneMoreRecorded(c.trace[from..], StoreOf(c, from), n - 1);
    }
  }

  /** The stretch of a trace that was recorded since an earlier moment started in
      the store and the tally of that moment. */
  twostate lemma StretchStarts(c: Client)
    requires old(c.Valid()) && c.Valid() && old(c.trace) <= c.trace
    ensures StoreOf(c, |old(c.trace)|) == old(c.db) && TallyOf(c, |old(c.trace)|) == old(c.calls)
  {
    var from := |old(c.trace)|;
    assert Follows(old(c.trace), from, c.origin, old(c.db), old(c.calls));
    assert Follows(c.trace, from, c.origin, c.db, c.calls);
  }

  lemma StretchReturns(c: Client, from: nat)
    requires c.Valid() && from <= |c.trace|
    ensures var w, db, n := Recorded(c.trace[from..]), StoreOf(c, from), |c.trace| - from;
      Returns(w, 0, db, n) && Solo(w, 0, db, n).0 == c.db && SoloTally(w, 0, db, TallyOf(c, from), n) == c.calls
  {
    RecordedIsSolo(c, from, |c.trace| - from);
  }

  /** Caller `i` makes the calls of these events, with these fates. */
  ghost predicate Plays(w: Worker, i: nat, events: seq<Event>) {
    && (forall rs :: w.next(i, rs) == Recorded(events).next(0, rs))
    && (forall k :: w.fate(i, k) == Recorded(events).fate(0, k))
  }

  lemma {:induction false} PlaysIsRecorded(w: Worker, i: nat, events: seq<Event>, db: Store, n0: Tally, n: nat)
    requires Plays(w, i, events)
    ensures Solo(w, i, db, n) == Solo(Recorded(events), 0, db, n)
    ensures SoloTally(w, i, db, n0, n) == SoloTally(Recorded(events), 0, db, n0, n)
  {
    if n > 0 {
      PlaysIsRecorded(w, i, events, db, n0, n - 1);
    }
  }

  /** Nothing happens after a return. */
  lemma {:induction false} ReturnedStays(w: Worker, i: nat, db: Store, n0: Tally, m: nat, n: nat)
    requires Returns(w, i, db, m) && m <= n
    ensures Solo(w, i, db, n) == Solo(w, i, db, m) && SoloTally(w, i, db, n0, n) == SoloTally(w, i, db, n0, m)
  {
    if m < n {
      ReturnedStays(w, i, db, n0, m, n - 1);
    }
  }

  lemma PlayedDoesPass(c: Client, from: nat, w: Worker, i: nat, cfg: Config, entries: seq<Entry>)
    requires c.Valid() && from <= |c.trace| && Plays(w, i, c.trace[from..])
    requires IsPass(StoreOf(c, from), TallyOf(c, from), c.db, c.calls, cfg, entries)
    ensures DoesPass(w, i, StoreOf(c, from), TallyOf(c, from), cfg, entries)
  {
    var events, db, n0, m := c.trace[from..], StoreOf(c, from), TallyOf(c, from), |c.trace| - from;
    forall n: nat | Returns(w, i, db, n)
      ensures IsPass(db, n0, Solo(w, i, db, n).0, SoloTally(w, i, db, n0, n), cfg, entries)
    {
      PlaysIsRecorded(w, i, events, db, n0, n);
      RecordedIsSolo(c, from, if n < m then n else m);
      if n >= m {
        ReturnedStays(Recorded(events), 0, db, n0, m, n);
      }
    }
  }

  /** Every caller that makes the calls of these events, started in `db` with the
      tally `n0`, does a pass. */
  ghost predicate IsPassCode(events: seq<Event>, db: Store, n0: Tally, cfg: Config, entries: seq<Entry>) {
    forall w, i | Plays(w, i, events) :: DoesPass(w, i, db, n0, cfg, entries)
  }

  /** A caller that plays what a client recorded since some moment, and that was a
      pass, does that pass when started where the client started. */
  lemma RecordedDoesPass(c: Client, from: nat, cfg: Config, entries: seq<Entry>,
                         misses: seq<multiset<string>>, gs: seq<Goal>)
    requires c.Valid() && from <= |c.trace|
    requires PassOf(StoreOf(c, from), TallyOf(c, from), c.db, c.calls, cfg, entries, misses, gs)
    ensures IsPassCode(c.trace[from..], StoreOf(c, from), TallyOf(c, from), cfg, entries)
  {
    forall w, i: nat | Plays(w, i, c.trace[from..])
      ensures DoesPass(w, i, StoreOf(c, from), TallyOf(c, from), cfg, entries)
    {
      PlayedDoesPass(c, from, w, i, cfg, entries);
    }
  }

  /** Callers that each play a recorded pass, started where it was recorded, are
      callers whose passes are done in turn. */
  lemma RecordedPassesAreDone(w: Worker, db: Store, n: nat, schedule: seq<nat>, cfg: Config, ldap: nat -> seq<Entry>,
                              recordings: seq<seq<Event>>)
    requires var s := Exec(w, Init(db, n), schedule);
      && ValidStore(db) && s.holder.None? && |recordings| == |s.order|
      && forall k | 0 <= k < |s.order| ::
           && Plays(w, s.order[k], recordings[k])
           && IsPassCode(recordings[k], StoreAt(w, db, s, k), TallyAt(w, db, s, k), cfg, ldap(s.order[k]))
    ensures PassesDone(w, db, Exec(w, Init(db, n), schedule), cfg, ldap)
  {
    var s := Exec(w, Init(db, n), schedule);
    forall k | 0 <= k < |s.order| ensures DoesPassInTurn(w, db, s, k, cfg, ldap) {
      assert Plays(w, s.order[k], recordings[k]);
    }
  }

  // ----------------------------------------------------------- without the lock

  /** `calls` are the calls of a reconciliation, in any order. */
  ghost predicate IsDiff(team: int, m: set<int>, d: set<int>, calls: seq<Call>) {
    forall c :: c in calls <==> c in DiffCalls(team, m, d)
  }

  /** The store after calls none of which goes wrong. */
  function Play(s: Store, calls: seq<Call>): Store {
    if calls == [] then s
    else Answer(Play(s, calls[..|calls| - 1]), calls[|calls| - 1], ALL_WELL).0
  }

  function After(team: int, m: set<int>, calls: seq<Call>): set<int> {
    if calls == [] then m
    else
      var before, c := After(team, m, calls[..|calls| - 1]), calls[|calls| - 1];
      if c.AddMember? then before + {c.user} else if c.RemoveMember? then before - {c.user} else before
  }

  lemma {:induction false} PlayIsAfter(s: Store, team: int, calls: seq<Call>)
    requires team in s.teams
    requires forall c | c in calls :: (c.AddMember? || c.RemoveMember?) && c.id == team
    ensures Play(s, calls) == WithMembers(s, team, After(team, s.teams[team].members, calls))
  {
    if calls == [] {
      WithSameMembers(s, team);
    } else {
      var front, c := calls[..|calls| - 1], calls[|calls| - 1];
      assert c in calls && forall x | x in front :: x in calls;
      PlayIsAfter(s, team, front);
      var m := After(team, s.teams[team].members, front);
      WithMembersAgain(s, WithMembers(s, team, m), team, if c.AddMember? then m + {c.user} else m - {c.user});
    }
  }

  lemma {:induction false} AfterIff(team: int, m: set<int>, calls: seq<Call>, u: int)
    requires forall c | c in calls :: (c.AddMember? && c.user !in m) || (c.RemoveMember? && c.user in m)
    requires forall c | c in calls :: c.id == team
    ensures u in After(team, m, calls)
            <==> if u in m then RemoveMember(team, u) !in calls else AddMember(team, u) in calls
  {
    if calls != [] {
      var front, c := calls[..|calls| - 1], calls[|calls| - 1];
      assert calls == front + [c];
      assert c in calls && forall x | x in front :: x in calls;
      AfterIff(team, m, front, u);
    }
  }

  lemma PlayedMembers(s: Store, team: int, d: set<int>, d': set<int>, calls: seq<Call>)
    requires team in s.teams
    requires var m := s.teams[team].members;
      forall c | c in calls :: c in DiffCalls(team, m, d) || c in DiffCalls(team, m, d')
    ensures Play(s, calls) == WithMembers(s, team, After(team, s.teams[team].members, calls))
    ensures forall u :: u in After(team, s.teams[team].members, calls)
                        <==> if u in s.teams[team].members then RemoveMember(team, u) !in calls
                             else AddMember(team, u) in calls
  {
    var m := s.teams[team].members;
    PlayIsAfter(s, team, calls);
    forall u ensures u in After(team, m, calls)
                     <==> if u in m then RemoveMember(team, u) !in calls else AddMember(team, u) in calls
    {
      AfterIff(team, m, calls, u);
    }
  }

  lemma {:induction false} PlayAppend(s: Store, calls: seq<Call>, more: seq<Call>)
    ensures Play(s, calls + more) == Play(Play(s, calls), more)
  {
    if more == [] {
      assert calls + more == calls;
    } else {
      PlayAppend(s, calls, more[..|more| - 1]);
      assert (calls + more)[..|calls + more| - 1] == calls + more[..|more| - 1];
    }
  }

  /** Alone, the calls reach the desired users. */
  lemma DiffReaches(s: Store, team: int, d: set<int>, calls: seq<Call>)
    requires team in s.teams && IsDiff(team, s.teams[team].members, d, calls)
    ensures Play(s, calls) == WithMembers(s, team, d)
  {
    var m := s.teams[team].members;
    PlayedMembers(s, team, d, d, calls);
    forall u ensures u in After(team, m, calls) <==> u in d {
      assert AddMember(team, u) in DiffCalls(team, m, d) <==> u in d && u !in m;
      assert RemoveMember(team, u) in DiffCalls(team, m, d) <==> u in m && u !in d;
    }
    assert After(team, m, calls) == d;
  }

  /** What comes of two reconciliations that both read `m`. */
  function Mixed<T>(m: set<T>, d: set<T>, d': set<T>): set<T> {
    m * d * d' + ((d + d') - m)
  }

  lemma MixedIsSerialIff<T>(m: set<T>, d: set<T>, d': set<T>)
    ensures Mixed(m, d, d') == d' <==> d - m <= d' && m * d' <= d
  {
    if Mixed(m, d, d') == d' {
      forall u | u in d - m ensures u in d' {
        assert u in Mixed(m, d, d');
      }
      forall u | u in m * d' ensures u in d {
        assert u in Mixed(m, d, d');
      }
    }
  }

  /** Two reconciliations of one team, in which nothing goes wrong, both read the
      members `m` and then mix their calls in any way. The outcome is that of the
      second running whole after the first exactly if the second wants all that
      the first adds, and the first removes nobody whom the second wants. */
  lemma MixedVersusOrder(s: Store, team: int, d: set<int>, d': set<int>, mixed: seq<Call>, first: seq<Call>,
                         second: seq<Call>)
    requires team in s.teams
    requires var m := s.teams[team].members;
      && IsDiff(team, m, d, first) && IsDiff(team, d, d', second)
      && forall c :: c in mixed <==> c in DiffCalls(team, m, d) || c in DiffCalls(team, m, d')
    ensures Play(s, first + second) == WithMembers(s, team, d')
    ensures var m := s.teams[team].members;
      Play(s, mixed) == Play(s, first + second) <==> d - m <= d' && m * d' <= d
  {
    var m := s.teams[team].members;
    PlayAppend(s, first, second);
    DiffReaches(s, team, d, first);
    DiffReaches(WithMembers(s, team, d), team, d', second);
    PlayedMembers(s, team, d, d', mixed);
    forall u ensures u in After(team, m, mixed) <==> u in Mixed(m, d, d') {
      assert AddMember(team, u) in DiffCalls(team, m, d) <==> u in d && u !in m;
    }
    assert After(team, m, mixed) == Mixed(m, d, d');
    MixedIsSerialIff(m, d, d');
    assert WithMembers(s, team, Mixed(m, d, d')).teams[team].members == Mixed(m, d, d');
    assert WithMembers(s, team, d').teams[team].members == d';
  }

  /** When the lock makes no difference to two such reconciliations: exactly if
      their wishes are compatible in one order or the other. Otherwise the mixed
      calls end where no serial order ends. */
  lemma LockIsNeeded(s: Store, team: int, d: set<int>, d': set<int>, mixed: seq<Call>,
                     first: seq<Call>, second: seq<Call>, first': seq<Call>, second': seq<Call>)
    requires team in s.teams
    requires var m := s.teams[team].members;
      && IsDiff(team, m, d, first) && IsDiff(team, d, d', second)
      && IsDiff(team, m, d', second') && IsDiff(team, d', d, first')
      && forall c :: c in mixed <==> c in DiffCalls(team, m, d) || c in DiffCalls(team, m, d')
    ensures var m := s.teams[team].members;
      Play(s, mixed) == Play(s, first + second) || Play(s, mixed) == Play(s, second' + first')
      <==> (d - m <= d' && m * d' <= d) || (d' - m <= d && m * d <= d')
  {
    MixedVersusOrder(s, team, d, d', mixed, first, second);
    MixedVersusOrder(s, team, d', d, mixed, second', first');
  }

  /** Two reconciliations that each want one other user in an empty team: mixed,
      both users end up in it; in turn, only one of them, whichever goes first. */
  lemma LockMatters(s: Store, team: int)
    requires team in s.teams && s.teams[team].members == {}
    ensures var (a0, a1) := (AddMember(team, 0), AddMember(team, 1));
      var (r0, r1) := (RemoveMember(team, 0), RemoveMember(team, 1));
      && Play(s, [a0, a1]) == WithMembers(s, team, {0, 1})
      && Play(s, [a0, a1, r0]) == WithMembers(s, team, {1})
      && Play(s, [a1, a0, r1]) == WithMembers(s, team, {0})
      && IsDiff(team, {}, {0}, [a0]) && IsDiff(team, {0}, {1}, [a1, r0])
      && IsDiff(team, {}, {1}, [a1]) && IsDiff(team, {1}, {0}, [a0, r1])
  {
    var (a0, a1, r0, r1) := (AddMember(team, 0), AddMember(team, 1), RemoveMember(team, 0), RemoveMember(team, 1));
    OneUserDiff(team, 0);
    OneUserDiff(team, 1);
    OtherUserDiff(team, 0, 1);
    OtherUserDiff(team, 1, 0);
    PlayAppend(s, [a0], [a1, r0]);
    assert [a0] + [a1, r0] == [a0, a1, r0] && [a1] + [a0, r1] == [a1, a0, r1];
    MixedVersusOrder(s, team, {0}, {1}, [a0, a1], [a0], [a1, r0]);
    MixedVersusOrder(s, team, {1}, {0}, [a0, a1], [a1], [a0, r1]);
    PlayedMembers(s, team, {0}, {1}, [a0, a1]);
    assert After(team, {}, [a0, a1]) == {0, 1};
  }

  lemma OneUserDiff(team: int, u: int)
    ensures IsDiff(team, {}, {u}, [AddMember(team, u)])
  {
    assert {u} - {} == {u} && {} - {u} == {};
    forall c ensures c in [AddMember(team, u)] <==> c in DiffCalls(team, {}, {u}) {}
  }

  lemma OtherUserDiff(team: int, u: int, v: int)
    requires u != v
    ensures IsDiff(team, {u}, {v}, [AddMember(team, v), RemoveMember(team, u)])
  {
    assert {v} - {u} == {v} && {u} - {v} == {u};
    forall c ensures c in [AddMember(team, v), RemoveMember(team, u)] <==> c in DiffCalls(team, {u}, {v}) {}
  }
}
