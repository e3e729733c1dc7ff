/** The sync queue of internal/proxy/sync_queue.go: any number of goroutines
    call Trigger on a channel of capacity one, and one consumer drains it, waits
    until Grafana is up and runs the sync. One step is one channel operation,
    one look at the monitor, or the start or end of the sync. */
module Queue {

  datatype Pc =
    | Idle         // blocked in the range over the channel
    | DrainTest    // about to look at the channel's length
    | DrainRecv    // saw a token, about to receive it
    | PollUp       // about to look at the monitor's state
    | Cleared      // saw Grafana up, about to start the sync
    | Syncing

  /** `accepted` counts the triggers that found room in the channel, `starts`
      the syncs; `unserved` says that a Trigger returned since the last start. */
  datatype Que = Que(token: bool, pc: Pc, accepted: nat, starts: nat, unserved: bool)

  datatype Act = Trigger | Receive | Test | Drain | Poll(down: bool) | Start | End

  function Init(): Que {
    Que(false, Idle, 0, 0, false)
  }

  /** Lines 36-41: a full channel drops the token. */
  function Triggered(q: Que): Que {
    q.(token := true, accepted := if q.token then q.accepted else q.accepted + 1, unserved := true)
  }

  function Step(q: Que, a: Act): Que {
    match a
    case Trigger => Triggered(q)
    case Receive => if q.pc == Idle && q.token then q.(token := false, pc := DrainTest) else q
    case Test => if q.pc == DrainTest then q.(pc := if q.token then DrainRecv else PollUp) else q
    case Drain => if q.pc == DrainRecv && q.token then q.(token := false, pc := DrainTest) else q
    case Poll(down) => if q.pc == PollUp && !down then q.(pc := Cleared) else q
    case Start => if q.pc == Cleared then q.(pc := Syncing, starts := q.starts + 1, unserved := false) else q
    case End => if q.pc == Syncing then q.(pc := Idle) else q
  }

  function Exec(q: Que, acts: seq<Act>): Que {
    if acts == [] then q
    else Step(Exec(q, acts[..|acts| - 1]), acts[|acts| - 1])
  }

  /** The consumer has taken a token and not started the sync for it. */
  predicate Between(q: Que) {
    q.pc in {DrainTest, DrainRecv, PollUp, Cleared}
  }

  /** The consumer is emptying the channel: what is buffered now is merged into
      the sync it already owes. */
  predicate Drains(q: Que) {
    q.pc in {DrainTest, DrainRecv}
  }

  /** How many syncs the triggers made so far will still cause. */
  function Owed(q: Que): nat {
    (if Between(q) then 1 else 0) + if q.token && !Drains(q) then 1 else 0
  }

  /** The triggers of a run that each cause a sync of their own: those that find
      no token buffered and no drain under way. All others are merged. */
  function Counting(q: Que, acts: seq<Act>): nat {
    if acts == [] then 0
    else
      var front, a := acts[..|acts| - 1], acts[|acts| - 1];
      Counting(q, front) + if a.Trigger? && !Exec(q, front).token && !Drains(Exec(q, front)) then 1 else 0
  }

  ghost predicate Inv(q: Que) {
    && (q.unserved ==> q.token || Between(q))
    && (q.pc == DrainRecv ==> q.token)
    && q.starts + Owed(q) <= q.accepted
  }

  lemma StepKeepsInv(q: Que, a: Act)
    requires Inv(q)
    ensures Inv(Step(q, a))
  {
  }

  /** In every reachable state: no trigger is lost, the guarded receive of the
      drain never blocks, and syncs started and owed never exceed the accepted
      triggers. */
  lemma {:induction false} NoLostTrigger(acts: seq<Act>)
    ensures var q := Exec(Init(), acts);
      && (q.unserved ==> q.token || Between(q))
      && (q.pc == DrainRecv ==> Step(q, Drain) == q.(token := false, pc := DrainTest))
      && q.starts + Owed(q) <= q.accepted
    ensures Inv(Exec(Init(), acts))
  {
    if acts != [] {
      NoLostTrigger(acts[..|acts| - 1]);
      StepKeepsInv(Exec(Init(), acts[..|acts| - 1]), acts[|acts| - 1]);
    }
  }

  /** Exact accounting of any run: the syncs started and still owed grow by the
      counting triggers, and by nothing else. */
  lemma {:induction false} EachCountingTriggerIsOneSync(q: Que, more: seq<Act>)
    ensures Exec(q, more).starts + Owed(Exec(q, more)) == q.starts + Owed(q) + Counting(q, more)
  {
    if more != [] {
      EachCountingTriggerIsOneSync(q, more[..|more| - 1]);
    }
  }

  predicate AtRest(q: Que) {
    q.pc == Idle && !q.token
  }

  /** Once triggers cease: the syncs started and owed stay the same in number,
      and when the queue comes to rest exactly the owed ones have started. These
      are two exactly when a token is buffered while the consumer waits for
      Grafana to be up or is about to start, none exactly when there is no token
      and the consumer is idle or syncing, and one otherwise. */
  lemma {:induction false} AtMostTwoMore(q: Que, more: seq<Act>)
    requires forall i | 0 <= i < |more| :: !more[i].Trigger?
    ensures Exec(q, more).starts + Owed(Exec(q, more)) == q.starts + Owed(q)
    ensures AtRest(Exec(q, more)) ==>
              && Exec(q, more).starts == q.starts + Owed(q)
              && (Exec(q, more).starts == q.starts + 2 <==> q.token && q.pc in {PollUp, Cleared})
              && (Exec(q, more).starts == q.starts <==> !q.token && q.pc in {Idle, Syncing})
    ensures Owed(q) <= 2
  {
    OwedCases(q);
    if more != [] {
      AtMostTwoMore(q, more[..|more| - 1]);
    }
  }

  lemma OwedCases(q: Que)
    ensures Owed(q) <= 2
    ensures Owed(q) == 2 <==> q.token && q.pc in {PollUp, Cleared}
    ensures Owed(q) == 0 <==> !q.token && q.pc in {Idle, Syncing}
  {
    assert q.pc.Idle? || q.pc.Syncing? || Between(q);
  }

  /** The promise of a single sync, exactly: of the triggers made between two
      moments of rest there is a single sync if and only if one of them counts
      and all others find its token or its drain. */
  lemma SingleSyncIff(q: Que, more: seq<Act>)
    requires AtRest(q) && AtRest(Exec(q, more))
    ensures Exec(q, more).starts == q.starts + Counting(q, more)
    ensures Exec(q, more).starts == q.starts + 1 <==> Counting(q, more) == 1
  {
    EachCountingTriggerIsOneSync(q, more);
  }

  /** While Grafana is down at every look, at most one sync starts: the one
      whose look at the state had already succeeded. */
  lemma {:induction false} OneStartWhileDown(q: Que, more: seq<Act>)
    requires forall i | 0 <= i < |more| && more[i].Poll? :: more[i].down
    ensures var q' := Exec(q, more);
      q'.starts + (if q'.pc == Cleared then 1 else 0) <= q.starts + (if q.pc == Cleared then 1 else 0)
  {
    if more != [] {
      OneStartWhileDown(q, more[..|more| - 1]);
    }
  }

  /** The tokens that the consumer took out of the channel in a run. */
  function Taken(q: Que, acts: seq<Act>): nat {
    if acts == [] then 0
    else
      var before, after := Exec(q, acts[..|acts| - 1]), Exec(q, acts);
      Taken(q, acts[..|acts| - 1]) + if before.token && !after.token then 1 else 0
  }

  /** No token is lost or made up: the accepted triggers are the tokens taken and
      the one that is buffered. */
  lemma {:induction false} TokensAreConserved(acts: seq<Act>)
    ensures var q := Exec(Init(), acts); q.accepted == Taken(Init(), acts) + if q.token then 1 else 0
  {
    if acts != [] {
      TokensAreConserved(acts[..|acts| - 1]);
    }
  }

  /** Triggers made while Grafana is down are not always merged into one sync:
      a trigger that arrives after the drain has ended leaves a second token. */
  lemma MergedTriggersMaySyncTwice()
    ensures var down := [Trigger, Receive, Test, Poll(true), Trigger, Poll(true)];
      var up := [Poll(false), Start, End, Receive, Test, Poll(false), Start];
      Exec(Init(), down).starts == 0 && Exec(Exec(Init(), down), up).starts == 2
  {
    var q := Init();
    ExecTwo(q, [], Trigger, Receive);
    ExecTwo(q, [Trigger, Receive], Test, Poll(true));
    assert [Trigger, Receive] + [Test, Poll(true)] == [Trigger, Receive, Test, Poll(true)];
    ExecTwo(q, [Trigger, Receive, Test, Poll(true)], Trigger, Poll(true));
    var down := [Trigger, Receive, Test, Poll(true), Trigger, Poll(true)];
    assert [Trigger, Receive, Test, Poll(true)] + [Trigger, Poll(true)] == down;
    assert [] + [Trigger, Receive] == [Trigger, Receive];
    var d := Exec(q, down);
    assert d == Que(true, PollUp, 2, 0, true);

    ExecTwo(d, [], Poll(false), Start);
    assert [] + [Poll(false), Start] == [Poll(false), Start];
    ExecTwo(d, [Poll(false), Start], End, Receive);
    assert [Poll(false), Start] + [End, Receive] == [Poll(false), Start, End, Receive];
    ExecTwo(d, [Poll(false), Start, End, Receive], Test, Poll(false));
    var u := [Poll(false), Start, End, Receive, Test, Poll(false)];
    assert [Poll(false), Start, End, Receive] + [Test, Poll(false)] == u;
    assert Exec(d, u).pc == Cleared && Exec(d, u).starts == 1;
    ExecSnoc(d, u, Start);
    assert u + [Start] == [Poll(false), Start, End, Receive, Test, Poll(false), Start];
  }

  lemma ExecSnoc(q: Que, acts: seq<Act>, a: Act)
    ensures Exec(q, acts + [a]) == Step(Exec(q, acts), a)
  {
    assert (acts + [a])[..|acts|] == acts;
  }

  lemma ExecTwo(q: Que, acts: seq<Act>, a: Act, b: Act)
    ensures Exec(q, acts + [a, b]) == Step(Step(Exec(q, acts), a), b)
  {
    assert (acts + [a, b])[..|acts| + 1] == acts + [a];
    assert (acts + [a])[..|acts|] == acts;
  }

  // -------------------------------------------------------------------- progress

  /** Consumer steps to the next start, if no further trigger arrives. */
  function Rank(q: Que): nat {
    match q.pc
    case Syncing => 5
    case Idle => 4
    case DrainTest => if q.token then 5 else 3
    case DrainRecv => 4
    case PollUp => 2
    case Cleared => 1
  }

  function Triggers(acts: seq<Act>): nat {
    if acts == [] then 0
    else Triggers(acts[..|acts| - 1]) + if acts[|acts| - 1].Trigger? then 1 else 0
  }

  /** Steps of the consumer that changed something; looks that find Grafana down do not. */
  function Moves(q: Que, acts: seq<Act>): nat {
    if acts == [] then 0
    else
      var front, a := acts[..|acts| - 1], acts[|acts| - 1];
      Moves(q, front) + if !a.Trigger? && Step(Exec(q, front), a) != Exec(q, front) then 1 else 0
  }

  /** The consumer can make this step, provided that Grafana is up if it looks. */
  ghost predicate ConsumerMove(q: Que, a: Act) {
    !a.Trigger? && Step(q, a) != q && (a.Poll? ==> !a.down)
  }

  /** An unserved trigger is not starved: the consumer can always move, unless
      it is looking at a Grafana that is down, and every run that starts no
      sync has only as many moves as the rank, and two more for each further
      trigger. */
  lemma {:induction false} TriggerIsServed(q: Que, more: seq<Act>)
    requires Inv(q) && q.unserved && Exec(q, more).starts == q.starts
    ensures Rank(Exec(q, more)) + Moves(q, more) <= Rank(q) + 2 * Triggers(more)
    ensures var q' := Exec(q, more);
      Inv(q') && q'.unserved && exists a :: ConsumerMove(q', a)
  {
    if more != [] {
      var front, a := more[..|more| - 1], more[|more| - 1];
      StartsGrow(q, front);
      StepKeepsStarts(Exec(q, front), a);
      TriggerIsServed(q, front);
      StepKeepsInv(Exec(q, front), a);
    }
    ConsumerMoves(Exec(q, more));
  }

  lemma StepKeepsStarts(q: Que, a: Act)
    ensures Step(q, a).starts >= q.starts
  {
  }

  lemma {:induction false} StartsGrow(q: Que, acts: seq<Act>)
    ensures Exec(q, acts).starts >= q.starts
  {
    if acts != [] {
      StartsGrow(q, acts[..|acts| - 1]);
    }
  }

  lemma ConsumerMoves(q: Que)
    requires Inv(q) && q.unserved
    ensures exists a :: ConsumerMove(q, a)
  {
    var a := match q.pc
      case Idle => Receive
      case DrainTest => Test
      case DrainRecv => Drain
      case PollUp => Poll(false)
      case Cleared => Start
      case Syncing => End;
    assert ConsumerMove(q, a);
  }

  // ------------------------------------------------------------------- the channel

  /** The channel of capacity one, as the number of tokens it buffers. */
  class SyncQueue {
    var buffered: nat

    constructor ()
      ensures Shows(Init())
    {
      buffered := 0;
    }

    ghost predicate Shows(q: Que)
      reads this
    {
      buffered == if q.token then 1 else 0
    }

    /** Lines 36-41. */
    method Trigger(ghost q: Que)
      requires Shows(q)
      modifies this
      ensures buffered == 1
      ensures Shows(Triggered(q))
    {
      if buffered < 1 {
        buffered := buffered + 1;
      }
    }

    /** Lines 44-49: take a token and drain what else gets buffered, while up to
        `late` further triggers arrive, one after each receive. `acts` are the
        steps this makes in the transition system. */
    method Collect(late: nat, ghost q: Que) returns (ghost acts: seq<Act>)
      requires Shows(q) && q.pc == Idle && q.token
      modifies this
      ensures buffered == 0 && Shows(Exec(q, acts))
      ensures Exec(q, acts) == q.(token := false, pc := PollUp, accepted := q.accepted + late,
                                  unserved := q.unserved || late > 0)
    {
      buffered := buffered - 1;
      acts := [Receive];
      var left := late;
      if left > 0 {
        buffered, left := buffered + 1, left - 1;
        ExecSnoc(q, acts, Act.Trigger);
        acts := acts + [Act.Trigger];
      }
      while buffered > 0
        invariant 0 <= left <= late && (buffered == 0 ==> left == 0) && buffered <= 1
        invariant Exec(q, acts) == q.(token := buffered == 1, pc := DrainTest,
                                      accepted := q.accepted + late - left, unserved := q.unserved || late > left)
        decreases left, buffered
      {
        buffered := buffered - 1;
        ExecSnoc(q, acts, Test);
        ExecSnoc(q, acts + [Test], Drain);
        acts := acts + [Test] + [Drain];
        if left > 0 {
          buffered, left := buffered + 1, left - 1;
          ExecSnoc(q, acts, Act.Trigger);
          acts := acts + [Act.Trigger];
        }
      }
      ExecSnoc(q, acts, Test);
      acts := acts + [Test];
    }
  }
}
