/** The effect of each step of a pass on the store, as relations between the
    store before and after, and how these relations add up to that of a pass. */
module Effects {
  import opened Common
  import opened Grafana
  import opened Plan

  /** At most one new team, called `name`, tells `b` from `a`. */
  ghost predicate Ensured(a: Store, b: Store, name: string) {
    b == a || (!Taken(a, name) && exists id :: a.nextId <= id && b == WithTeam(a, id, name))
  }

  lemma EnsuredIsKept(a: Store, b: Store, name: string)
    requires ValidStore(a) && Ensured(a, b, name)
    ensures Kept(a, b)
    ensures forall n :: MembersOf(b, n) == if n == name && b != a then Some(a.founders) else MembersOf(a, n)
  {
    if b != a {
      var id :| a.nextId <= id && b == WithTeam(a, id, name);
      MembersAfterCreate(a, id, name);
      assert id in b.teams.Keys && id !in a.teams.Keys;
    }
  }

  function ToSet(ids: seq<int>): set<int> {
    set id | id in ids
  }

  /** `ids` are the users found by the lookups of `logins`, of which those in
      `missed` failed. */
  ghost predicate LooksUp(users: map<string, int>, logins: seq<string>, missed: multiset<string>, ids: seq<int>) {
    ToSet(ids) == FoundUsers(users, logins, missed) && missed <= multiset(logins)
  }

  lemma LooksUpStep(users: map<string, int>, logins: seq<string>, i: nat, missed: multiset<string>, ids: seq<int>)
    requires i < |logins| && LooksUp(users, logins[..i], missed, ids)
    ensures LooksUp(users, logins[..i + 1], missed + multiset{logins[i]}, ids)
    ensures logins[i] == "" || logins[i] !in users ==> LooksUp(users, logins[..i + 1], missed, ids)
    ensures logins[i] != "" && logins[i] in users ==> LooksUp(users, logins[..i + 1], missed, ids + [users[logins[i]]])
  {
    FoundStep(users, logins, i, missed, false);
    FoundStep(users, logins, i, missed, true);
    if logins[i] in users {
      assert ToSet(ids + [users[logins[i]]]) == ToSet(ids) + {users[logins[i]]};
    }
  }

  /** The calls of one team resolution and what comes of them: a search; a create
      call when the search finds no hit of this name or fails with "not found",
      and when the team found is not confirmed; nothing more when the search
      fails otherwise. */
  ghost predicate Resolution(t0: seq<Event>, t: seq<Event>, name: string, r: Option<int>) {
    forall i | EndsAt(t0, t, i) :: ResolvesFrom(t, i, name, r)
  }

  ghost predicate EndsAt(t0: seq<Event>, t: seq<Event>, i: int) {
    t0 <= t && i == |t0|
  }

  ghost predicate ResolvesFrom(t: seq<Event>, i: nat, name: string, r: Option<int>) {
    && i < |t| && t[i].call == SearchTeams(name)
    && var f := t[i].fate;
       if f.fails && !f.saysNotFound then |t| == i + 1 && r.None?
       else if f.fails || forall k | 0 <= k < |f.hits| :: f.hits[k].name != name then CreatesLast(t, i + 1, name)
       else exists k :: IsFirstHit(f.hits, name, k) && Confirmation(t, i + 1, f.hits[k].id, name, r)
  }

  ghost predicate Confirmation(t: seq<Event>, i: nat, id: int, name: string, r: Option<int>) {
    && i < |t| && t[i].call == GetTeam(id)
    && if !t[i].fate.fails && LiveAs(t[i].at, id, name) then |t| == i + 1 && r == Some(id)
       else CreatesLast(t, i + 1, name)
  }

  ghost predicate CreatesLast(t: seq<Event>, i: nat, name: string) {
    |t| == i + 1 && t[i].call == CreateTeam(name)
  }

  lemma SearchBroken(t0: seq<Event>, t: seq<Event>, at: Store, name: string)
    requires OneCall(t0, t, at, SearchTeams(name)) && SearchAnswers(t[|t0|].fate, name, Broken)
    ensures Resolution(t0, t, name, None)
  {
  }

  lemma SearchThenCreate(t0: seq<Event>, t1: seq<Event>, t2: seq<Event>, at: Store, name: string, r: Option<int>)
    requires OneCall(t0, t1, at, SearchTeams(name)) && SearchAnswers(t1[|t0|].fate, name, Missing)
    requires OneCall(t1, t2, at, CreateTeam(name))
    ensures Resolution(t0, t2, name, r)
  {
  }

  lemma SearchThenConfirm(t0: seq<Event>, t1: seq<Event>, t2: seq<Event>, at: Store, name: string, id: int)
    requires OneCall(t0, t1, at, SearchTeams(name)) && SearchAnswers(t1[|t0|].fate, name, Found(id))
    requires OneCall(t1, t2, at, GetTeam(id)) && !t2[|t1|].fate.fails && LiveAs(at, id, name)
    ensures Resolution(t0, t2, name, Some(id))
  {
    var f := t1[|t0|].fate;
    var k :| IsFirstHit(f.hits, name, k) && id == f.hits[k].id;
    assert Confirmation(t2, |t1|, f.hits[k].id, name, Some(id));
  }

  lemma SearchThenRecreate(t0: seq<Event>, t1: seq<Event>, t2: seq<Event>, t3: seq<Event>, at: Store,
                           name: string, id: int, r: Option<int>)
    requires OneCall(t0, t1, at, SearchTeams(name)) && SearchAnswers(t1[|t0|].fate, name, Found(id))
    requires OneCall(t1, t2, at, GetTeam(id)) && (t2[|t1|].fate.fails || !LiveAs(at, id, name))
    requires OneCall(t2, t3, at, CreateTeam(name))
    ensures Resolution(t0, t3, name, r)
  {
    var f := t1[|t0|].fate;
    var k :| IsFirstHit(f.hits, name, k) && id == f.hits[k].id;
    assert Confirmation(t3, |t1|, f.hits[k].id, name, r);
  }

  /** Attempts at a call: all but the last failed, the last succeeded exactly if
      `ok`, and there are three if it did not. */
  ghost predicate Attempts(t0: seq<Event>, t: seq<Event>, c: Call, ok: bool) {
    && t0 <= t && 1 <= |t| - |t0| <= 3 && (!ok ==> |t| - |t0| == 3)
    && forall k | |t0| <= k < |t| :: t[k].call == c && (t[k].fate.fails <==> k < |t| - 1 || !ok)
  }

  function Lookups(logins: seq<string>): set<Call> {
    set l | l in logins && l != "" :: LookupUser(l)
  }

  lemma LookupsStep(t0: seq<Event>, t: seq<Event>, t': seq<Event>, logins: seq<string>, i: nat)
    requires i < |logins| && Called(t0, t, Lookups(logins[..i]))
    ensures logins[i] == "" ==> Called(t0, t, Lookups(logins[..i + 1]))
    ensures logins[i] != "" && (exists s :: OneCall(t, t', s, LookupUser(logins[i]))) ==>
              Called(t0, t', Lookups(logins[..i + 1]))
  {
    assert logins[..i + 1] == logins[..i] + [logins[i]];
    if logins[i] == "" {
      assert Lookups(logins[..i + 1]) == Lookups(logins[..i]);
    } else if exists s :: OneCall(t, t', s, LookupUser(logins[i])) {
      assert Lookups(logins[..i + 1]) == Lookups(logins[..i]) + {LookupUser(logins[i])};
      assert t' == t + [t'[|t|]];
      OneMoreCall(t0, t, t'[|t|], Lookups(logins[..i]));
    }
  }

  function Adds(team: int, users: set<int>): set<Call> {
    set u | u in users :: AddMember(team, u)
  }

  function Removes(team: int, users: set<int>): set<Call> {
    set u | u in users :: RemoveMember(team, u)
  }

  /** The calls that bring a team with the members `m` to the desired users `d`. */
  function DiffCalls(team: int, m: set<int>, d: set<int>): set<Call> {
    Adds(team, d - m) + Removes(team, m - d)
  }

  /** From `t0` to `t` exactly these calls were made, each once or more often. */
  ghost predicate Called(t0: seq<Event>, t: seq<Event>, calls: set<Call>) {
    t0 <= t && forall c :: c in calls <==> MadeAfter(t0, t, c)
  }

  ghost predicate MadeAfter(t0: seq<Event>, t: seq<Event>, c: Call) {
    exists k :: |t0| <= k < |t| && t[k].call == c
  }

  lemma NothingCalled(t: seq<Event>)
    ensures Called(t, t, {})
  {
  }

  lemma OneMoreCall(t0: seq<Event>, t: seq<Event>, e: Event, calls: set<Call>)
    requires Called(t0, t, calls)
    ensures Called(t0, t + [e], calls + {e.call})
  {
    assert (t + [e])[|t|] == e;
    forall c ensures MadeAfter(t0, t + [e], c) <==> MadeAfter(t0, t, c) || c == e.call {
      if MadeAfter(t0, t, c) {
        var k :| |t0| <= k < |t| && t[k].call == c;
        assert (t + [e])[k].call == c;
      }
    }
  }

  lemma SameCallAgain(t0: seq<Event>, t: seq<Event>, t': seq<Event>, c: Call)
    requires Called(t0, t, {}) || Called(t0, t, {c})
    requires t <= t' && |t'| == |t| + 1 && t'[|t|].call == c
    ensures Called(t0, t', {c})
  {
    assert t' == t + [t'[|t|]];
    if Called(t0, t, {}) {
      OneMoreCall(t0, t, t'[|t|], {});
      assert {} + {c} == {c};
    } else {
      OneMoreCall(t0, t, t'[|t|], {c});
      assert {c} + {c} == {c};
    }
  }

  lemma CalledThen(t0: seq<Event>, t1: seq<Event>, t2: seq<Event>, first: set<Call>, second: set<Call>)
    requires Called(t0, t1, first) && Called(t1, t2, second)
    ensures Called(t0, t2, first + second)
  {
    forall c ensures MadeAfter(t0, t2, c) <==> MadeAfter(t0, t1, c) || MadeAfter(t1, t2, c) {
      if MadeAfter(t0, t1, c) {
        var k :| |t0| <= k < |t1| && t1[k].call == c;
        assert t2[k].call == c;
      }
    }
  }

  /** How often `c` was called from `t0` to `t`. */
  ghost function Times(t0: seq<Event>, t: seq<Event>, c: Call): nat {
    if |t| <= |t0| then 0 else Times(t0, t[..|t| - 1], c) + if t[|t| - 1].call == c then 1 else 0
  }

  /** No call was made more often than `most` times. */
  ghost predicate MostTimes(t0: seq<Event>, t: seq<Event>, most: nat) {
    forall c :: Times(t0, t, c) <= most
  }

  lemma {:induction false} TimesThen(t0: seq<Event>, t1: seq<Event>, t2: seq<Event>, c: Call)
    requires t0 <= t1 <= t2
    ensures Times(t0, t2, c) == Times(t0, t1, c) + Times(t1, t2, c)
  {
    if |t2| == |t1| {
      assert t2 == t1;
    } else {
      TimesThen(t0, t1, t2[..|t2| - 1], c);
    }
  }

  lemma {:induction false} TimesBounds(t0: seq<Event>, t: seq<Event>, c: Call)
    requires t0 <= t
    ensures Times(t0, t, c) <= |t| - |t0|
    ensures !MadeAfter(t0, t, c) ==> Times(t0, t, c) == 0
  {
    if |t| > |t0| {
      var front := t[..|t| - 1];
      TimesBounds(t0, front, c);
      if MadeAfter(t0, front, c) {
        var k :| |t0| <= k < |front| && front[k].call == c;
        assert t[k].call == c;
      }
      if t[|t| - 1].call == c {
        assert MadeAfter(t0, t, c);
      }
    }
  }

  lemma MostTimesStep(t0: seq<Event>, t1: seq<Event>, t2: seq<Event>, calls: set<Call>, c: Call, most: nat)
    requires Called(t0, t1, calls) && c !in calls && Called(t1, t2, {c})
    requires MostTimes(t0, t1, most) && |t2| - |t1| <= most
    ensures MostTimes(t0, t2, most)
  {
    forall x ensures Times(t0, t2, x) <= most {
      assert Times(t0, t1, x) <= most;
      TimesThen(t0, t1, t2, x);
      TimesBounds(t0, t1, x);
      TimesBounds(t1, t2, x);
      assert x == c ==> !MadeAfter(t0, t1, x);
      assert x != c ==> !MadeAfter(t1, t2, x);
    }
  }

  lemma AttemptsAreFew(t0: seq<Event>, t1: seq<Event>, t2: seq<Event>, team: int, users: set<int>, id: int)
    requires Called(t0, t1, Adds(team, users)) && id !in users && Called(t1, t2, {AddMember(team, id)})
    ensures MostTimes(t0, t1, 3) && |t2| - |t1| <= 3 ==> MostTimes(t0, t2, 3)
    ensures MostTimes(t0, t1, 1) && |t2| - |t1| <= 1 ==> MostTimes(t0, t2, 1)
  {
    if MostTimes(t0, t1, 3) && |t2| - |t1| <= 3 {
      MostTimesStep(t0, t1, t2, Adds(team, users), AddMember(team, id), 3);
    }
    if MostTimes(t0, t1, 1) && |t2| - |t1| <= 1 {
      MostTimesStep(t0, t1, t2, Adds(team, users), AddMember(team, id), 1);
    }
  }

  /** `Called` for the part of a set of users that has been visited. */
  lemma AddsStep(t0: seq<Event>, t1: seq<Event>, t2: seq<Event>, team: int, all: set<int>, left: set<int>,
                 not: set<int>, id: int)
    requires id in all && id in left && Called(t0, t1, Adds(team, all - left - not))
    ensures id in not ==> Called(t0, t1, Adds(team, all - (left - {id}) - not))
    ensures id !in not && Called(t1, t2, {AddMember(team, id)}) ==>
              Called(t0, t2, Adds(team, all - (left - {id}) - not))
  {
    if id in not {
      assert all - (left - {id}) - not == all - left - not;
    } else if Called(t1, t2, {AddMember(team, id)}) {
      assert all - (left - {id}) - not == all - left - not + {id};
      assert Adds(team, all - (left - {id}) - not) == Adds(team, all - left - not) + {AddMember(team, id)};
      CalledThen(t0, t1, t2, Adds(team, all - left - not), {AddMember(team, id)});
    }
  }

  lemma RemovesStep(t0: seq<Event>, t1: seq<Event>, t2: seq<Event>, team: int, all: set<int>, left: set<int>,
                    not: set<int>, id: int)
    requires id in all && id in left && Called(t0, t1, Removes(team, all - left - not))
    ensures id in not ==> Called(t0, t1, Removes(team, all - (left - {id}) - not))
    ensures id !in not && Called(t1, t2, {RemoveMember(team, id)}) ==>
              Called(t0, t2, Removes(team, all - (left - {id}) - not))
  {
    if id in not {
      assert all - (left - {id}) - not == all - left - not;
    } else if Called(t1, t2, {RemoveMember(team, id)}) {
      assert all - (left - {id}) - not == all - left - not + {id};
      assert Removes(team, all - (left - {id}) - not) == Removes(team, all - left - not) + {RemoveMember(team, id)};
      CalledThen(t0, t1, t2, Removes(team, all - left - not), {RemoveMember(team, id)});
    }
  }

  /** Tallies only grow. */
  ghost predicate Later(a: Tally, b: Tally) {
    a.dirty <= b.dirty && a.writes <= b.writes && a.successes <= b.successes
  }

  lemma WithMembersAgain(a: Store, b: Store, team: int, m: set<int>)
    requires team in a.teams && (b == a || exists m' :: b == WithMembers(a, team, m'))
    ensures WithMembers(b, team, m) == WithMembers(a, team, m)
  {
  }

  lemma WithSameMembers(a: Store, team: int)
    requires team in a.teams
    ensures WithMembers(a, team, a.teams[team].members) == a
  {
    assert a.teams[team := a.teams[team]] == a.teams;
  }

  /** While `left` is still to visit: members are only gained, and all gained
      ones are wanted. */
  ghost predicate Adding<T>(current: set<T>, desired: set<T>, left: set<T>, m: set<T>) {
    && (forall u | u in current :: u in m)
    && (forall u | u in m :: u in current || (u in desired && u !in left))
  }

  /** While `left` is still to visit: members are only lost, and all lost ones
      were current and unwanted. */
  ghost predicate Removing<T>(m0: set<T>, current: set<T>, desired: set<T>, left: set<T>, m: set<T>) {
    && (forall u | u in m :: u in m0)
    && (forall u | u in m0 :: u in m || (u in current && u !in desired && u !in left))
  }

  lemma AddingBounds<T>(current: set<T>, desired: set<T>, m: set<T>)
    requires Adding(current, desired, {}, m)
    ensures current <= m <= current + desired
  {
  }

  lemma RemovingBounds<T>(m0: set<T>, current: set<T>, desired: set<T>, m: set<T>)
    requires Removing(m0, current, desired, {}, m)
    ensures m0 - (current - desired) <= m <= m0
  {
  }

  lemma AddedIsCloser(current: set<int>, d: set<int>, left: set<int>, m: set<int>, id: int)
    requires Adding(current, d, left, m) && id in left && id in d && id !in current
    ensures Distance(m + {id}, d) + 1 == Distance(m, d)
    ensures Adding(current, d, left - {id}, m) && Adding(current, d, left - {id}, m + {id})
  {
    assert (m - d) + (d - m) == (((m + {id}) - d) + (d - (m + {id}))) + {id};
  }

  lemma RemovedIsCloser(m0: set<int>, current: set<int>, d: set<int>, left: set<int>, m: set<int>, id: int)
    requires Removing(m0, current, d, left, m) && id in left && id in current && id !in d && current <= m0
    ensures Distance(m - {id}, d) + 1 == Distance(m, d)
    ensures Removing(m0, current, d, left - {id}, m) && Removing(m0, current, d, left - {id}, m - {id})
  {
    assert (m - d) + (d - m) == (((m - {id}) - d) + (d - (m - {id}))) + {id};
  }

  lemma SetIsKept(a: Store, b: Store, id: int, m: set<int>)
    requires Kept(a, b) && id in b.teams
    ensures Kept(a, WithMembers(b, id, m))
  {
    var c := WithMembers(b, id, m);
    forall i, n ensures LiveAs(c, i, n) <==> LiveAs(b, i, n) {}
  }

  /** Resolving the team is all that happened. */
  lemma EnsuredIsTeamEffect(a: Store, b: Store, g: Goal)
    requires ValidStore(a) && Ensured(a, b, g.team)
    ensures TeamEffect(a, b, g)
  {
    EnsuredIsKept(a, b, g.team);
  }

  /** Resolving the team and then bringing its members closer to the goal. */
  lemma ReconciledIsTeamEffect(a: Store, b: Store, id: int, m: set<int>, g: Goal)
    requires ValidStore(a) && ValidStore(b) && Ensured(a, b, g.team) && LiveAs(b, id, g.team)
    requires Between(b.teams[id].members, m, g.want)
    ensures MembersOf(b, g.team) == Some(b.teams[id].members)
    ensures var c := WithMembers(b, id, m); TeamEffect(a, c, g) && MembersOf(c, g.team) == Some(m)
    ensures StartOf(a, g.team) == b.teams[id].members && StartOf(WithMembers(b, id, m), g.team) == m
    ensures m == b.teams[id].members ==> WithMembers(b, id, m) == b
  {
    EnsuredIsKept(a, b, g.team);
    MembersOfLive(b, id, g.team);
    assert StartOf(a, g.team) == b.teams[id].members;
    MembersAfterSet(b, id, m);
    SetIsKept(a, b, id, m);
    assert b.teams[id := b.teams[id]] == b.teams;
  }

  lemma RegroupStep(groups: map<string, seq<FolderPermission>>, perms: seq<FolderPermission>, i: nat)
    requires i < |perms| && IsRegrouping(groups, perms[..i])
    ensures var fp := perms[i];
      IsRegrouping(groups[fp.folder := (if fp.folder in groups then groups[fp.folder] else []) + [fp]], perms[..i + 1])
  {
    var fp, front, all := perms[i], perms[..i], perms[..i + 1];
    assert all[..i] == front && all[i] == fp;
    assert all == front + [fp];
    var next := groups[fp.folder := (if fp.folder in groups then groups[fp.folder] else []) + [fp]];
    forall f ensures f in next <==> exists p :: p in all && p.folder == f {
      if f == fp.folder {
        assert fp in all;
      } else if f in groups {
        var p :| p in front && p.folder == f;
        assert p in all;
      }
    }
    if fp.folder !in groups {
      NoPermissions(front, fp.folder);
    }
  }

  lemma {:induction false} NoPermissions(perms: seq<FolderPermission>, folder: string)
    requires forall p | p in perms :: p.folder != folder
    ensures PermissionsOf(perms, folder) == []
  {
    if perms != [] {
      assert perms[|perms| - 1] in perms;
      NoPermissions(perms[..|perms| - 1], folder);
    }
  }

  /** New teams, all of them named in `fps` and holding the founders only, tell
      `b`'s teams from `a`'s. */
  ghost predicate TeamsAdded(a: Store, b: Store, fps: seq<FolderPermission>) {
    && Kept(a, b)
    && forall n :: MembersOf(b, n) == MembersOf(a, n) || NewTeam(a, b, n, fps)
  }

  ghost predicate NewTeam(a: Store, b: Store, n: string, fps: seq<FolderPermission>) {
    MembersOf(a, n).None? && MembersOf(b, n) == Some(a.founders) && Names(fps, n)
  }

  ghost predicate Names(fps: seq<FolderPermission>, n: string) {
    exists fp :: fp in fps && fp.team == n
  }

  /** Some of the teams of `fps` have been resolved, with stores and tallies before and after. */
  ghost predicate TeamsResolved(a: Store, n0: Tally, b: Store, n: Tally, fps: seq<FolderPermission>) {
    && Later(n0, n) && n.replaced == n0.replaced && n.missed == n0.missed && n.successes == n0.successes
    && TeamsAdded(a, b, fps) && b.tables == a.tables
    && (n.writes == n0.writes ==> b == a)
    && (n.dirty == n0.dirty && (forall fp | fp in fps :: Taken(a, fp.team)) ==> n.writes == n0.writes)
  }

  lemma TeamsResolvedStep(a: Store, n0: Tally, b: Store, n: Tally, c: Store, n': Tally,
                          fps: seq<FolderPermission>, fp: FolderPermission)
    requires ValidStore(b) && TeamsResolved(a, n0, b, n, fps) && fp in fps
    requires Ensured(b, c, fp.team)
    requires Later(n, n') && n'.replaced == n.replaced && n'.missed == n.missed && n'.successes == n.successes
    requires n'.writes == n.writes ==> c == b
    requires n'.dirty == n.dirty && Taken(b, fp.team) ==> n'.writes == n.writes
    ensures TeamsResolved(a, n0, c, n', fps)
  {
    EnsuredIsKept(b, c, fp.team);
    KeptTransitive(a, b, c);
    assert Names(fps, fp.team);
    if Taken(a, fp.team) {
      KeptNames(a, b, fp.team);
    }
  }

  /** `perms` says with live ids what `fps` says with names. */
  ghost predicate Resolves(s: Store, perms: seq<TeamPermission>, fps: seq<FolderPermission>) {
    && |perms| == |fps|
    && forall k | 0 <= k < |perms| ::
         LiveAs(s, perms[k].team, fps[k].team) && perms[k].permission == fps[k].permission
  }

  lemma ResolvesStep(b: Store, c: Store, perms: seq<TeamPermission>, fps: seq<FolderPermission>, i: nat, id: int)
    requires i < |fps| && Resolves(b, perms, fps[..i])
    requires ValidStore(b) && Ensured(b, c, fps[i].team) && LiveAs(c, id, fps[i].team)
    ensures Resolves(c, perms + [TeamPermission(id, fps[i].permission)], fps[..i + 1])
  {
    EnsuredIsKept(b, c, fps[i].team);
  }

  ghost function FolderUid(s: Store, title: string): multiset<string> {
    match FolderNamed(s.folders, title)
    case Some(uid) => multiset{uid}
    case None => multiset{}
  }

  /** The folder called `title` exists and its table says what `fps` says. */
  ghost predicate FolderDone(s: Store, title: string, fps: seq<FolderPermission>) {
    && FolderNamed(s.folders, title).Some?
    && FolderNamed(s.folders, title).value in s.tables
    && Renders(s, s.tables[FolderNamed(s.folders, title).value], fps)
  }

  lemma TableIsReplaced(a: Store, b: Store, title: string, fps: seq<FolderPermission>, perms: seq<TeamPermission>)
    requires ValidStore(b) && TeamsAdded(a, b, fps) && b.tables == a.tables
    requires FolderNamed(a.folders, title).Some? && Resolves(b, perms, fps)
    ensures forall k | 0 <= k < |perms| :: perms[k].team in b.teams
    ensures FolderNamed(a.folders, title).value in b.tables
    ensures var c := WithTable(b, FolderNamed(a.folders, title).value, ItemsFor(perms));
      FolderEffect(a, c, title, fps) && FolderDone(c, title, fps)
  {
    OneTitlePerFolder(b, title, title);
    var c := WithTable(b, FolderNamed(a.folders, title).value, ItemsFor(perms));
    forall i, n ensures LiveAs(c, i, n) <==> LiveAs(b, i, n) {}
    forall n ensures MembersOf(c, n) == MembersOf(b, n) {
      if Taken(b, n) {
        assert LiveAs(c, IdOf(c, n), n) && LiveAs(b, IdOf(b, n), n);
      }
    }
  }

  /** What synchronizing one folder does when any calls may fail: it may add
      the teams it names, and its own table changes completely or not at all. */
  ghost predicate FolderEffect(a: Store, b: Store, title: string, fps: seq<FolderPermission>) {
    && TeamsAdded(a, b, fps)
    && (FolderNamed(a.folders, title).None? ==> b == a)
    && (b.tables != a.tables ==>
          FolderDone(b, title, fps)
          && forall uid | uid in a.tables && Some(uid) != FolderNamed(a.folders, title) ::
               b.tables[uid] == a.tables[uid])
  }

  // --------------------------------------------------------------- whole passes

  /** What the entries loop does when any calls may fail. */
  ghost predicate EntriesEffect(a: Store, b: Store, gs: seq<Goal>) {
    && Kept(a, b) && b.tables == a.tables
    && (forall n :: GoalsEffect(a, b, gs, n))
    && (forall n | MembersOf(a, n).None? && MembersOf(b, n).Some? :: Targeted(gs, n))
  }

  /** What it does when nothing goes wrong: each team holds what its last goal
      wants, and a team without a goal is as before. */
  ghost predicate EntriesDone(a: Store, b: Store, gs: seq<Goal>) {
    forall n :: MembersOf(b, n) ==
                var wanted := LastWanted(gs, n);
                if wanted.Some? then wanted else MembersOf(a, n)
  }

  /** Every goal's team already exists with the wanted members. */
  ghost predicate AllReached(a: Store, gs: seq<Goal>) {
    forall k | 0 <= k < |gs| :: MembersOf(a, gs[k].team) == Some(gs[k].want)
  }

  /** One synchronized goal: stores and tallies before and after. */
  ghost predicate TeamSynced(a: Store, n0: Tally, b: Store, n: Tally, g: Goal) {
    && Later(n0, n) && n.replaced == n0.replaced
    && TeamEffect(a, b, g)
    && Distance(StartOf(b, g.team), g.want) + n.successes <= Distance(StartOf(a, g.team), g.want) + n0.successes
    && (n.writes == n0.writes ==> b == a)
    && (n.dirty == n0.dirty ==>
          MembersOf(b, g.team) == Some(g.want)
          && (MembersOf(a, g.team) == Some(g.want) ==> n.writes == n0.writes))
  }

  /** A goal given up after its team was, or was not, resolved. */
  lemma ResolvedOnlyIsSynced(a: Store, n0: Tally, b: Store, n: Tally, g: Goal)
    requires ValidStore(a) && Ensured(a, b, g.team)
    requires Later(n0, n) && n.replaced == n0.replaced && n.successes == n0.successes && n0.dirty < n.dirty
    requires n.writes == n0.writes ==> b == a
    ensures TeamSynced(a, n0, b, n, g)
  {
    EnsuredIsTeamEffect(a, b, g);
    EnsuredIsKept(a, b, g.team);
  }

  /** A goal whose team was resolved and then brought closer. */
  lemma ReconciledIsSynced(a: Store, n0: Tally, b: Store, n1: Tally, n: Tally, id: int, m: set<int>, g: Goal)
    requires ValidStore(a) && ValidStore(b) && Ensured(a, b, g.team) && LiveAs(b, id, g.team)
    requires Later(n0, n1) && Later(n1, n) && n.replaced == n0.replaced && n1.successes == n0.successes
    requires n1.writes == n0.writes ==> b == a
    requires n1.dirty == n0.dirty && Taken(a, g.team) ==> n1.writes == n0.writes
    requires var m0 := b.teams[id].members;
      && m0 * g.want <= m <= m0 + g.want
      && Distance(m, g.want) + n.successes <= Distance(m0, g.want) + n1.successes
      && (n.dirty == n1.dirty ==> m == g.want)
      && (n.writes == n1.writes <==> m0 == g.want) && (m0 == g.want ==> m == m0)
    ensures TeamSynced(a, n0, WithMembers(b, id, m), n, g)
  {
    ReconciledIsTeamEffect(a, b, id, m, g);
  }

  /** Goals for one team want the same users. */
  ghost predicate Agreeing(gs: seq<Goal>) {
    forall j, k | 0 <= j < |gs| && 0 <= k < |gs| && gs[j].team == gs[k].team :: gs[j].want == gs[k].want
  }

  /** How many users separate the teams with a goal from what is wanted; each
      team counts once. */
  ghost function TotalDistance(s: Store, gs: seq<Goal>): nat {
    if gs == [] then 0
    else
      var front, g := gs[..|gs| - 1], gs[|gs| - 1];
      TotalDistance(s, front) + if Targeted(front, g.team) then 0 else Distance(StartOf(s, g.team), g.want)
  }

  lemma {:induction false} TotalDistanceSame(s: Store, s': Store, gs: seq<Goal>)
    requires forall k | 0 <= k < |gs| :: StartOf(s', gs[k].team) == StartOf(s, gs[k].team)
    ensures TotalDistance(s', gs) == TotalDistance(s, gs)
  {
    if gs != [] {
      TotalDistanceSame(s, s', gs[..|gs| - 1]);
    }
  }

  /** A change of one team shows once in the total. */
  lemma {:induction false} TotalDistanceStep(b: Store, c: Store, gs: seq<Goal>, n: string, d: set<int>)
    requires AllWant(gs, n, d) && forall n' | n' != n :: StartOf(c, n') == StartOf(b, n')
    ensures if Targeted(gs, n)
            then TotalDistance(c, gs) + Distance(StartOf(b, n), d) == TotalDistance(b, gs) + Distance(StartOf(c, n), d)
            else TotalDistance(c, gs) == TotalDistance(b, gs)
  {
    if gs != [] {
      var front, g := gs[..|gs| - 1], gs[|gs| - 1];
      assert gs == front + [g];
      OneMoreGoal(front, g, n);
      TotalDistanceStep(b, c, front, n, d);
    }
  }

  lemma AgreeingStep(gs: seq<Goal>, g: Goal)
    ensures Agreeing(gs + [g]) <==> Agreeing(gs) && AllWant(gs, g.team, g.want)
  {
    var all := gs + [g];
    assert all[|gs|] == g;
    assert forall k | 0 <= k < |gs| :: all[k] == gs[k];
  }

  /** All goals synchronized one after another. */
  ghost predicate EntriesSynced(a: Store, n0: Tally, b: Store, n: Tally, gs: seq<Goal>) {
    && Later(n0, n) && n.replaced == n0.replaced
    && EntriesEffect(a, b, gs)
    && (Agreeing(gs) ==> TotalDistance(b, gs) + n.successes <= TotalDistance(a, gs) + n0.successes)
    && (n.writes == n0.writes ==> b == a)
    && (n.dirty == n0.dirty ==> EntriesDone(a, b, gs) && (AllReached(a, gs) <==> n.writes == n0.writes))
  }

  lemma EntriesSyncedStep(a: Store, n0: Tally, b: Store, n: Tally, c: Store, n': Tally, gs: seq<Goal>, g: Goal)
    requires EntriesSynced(a, n0, b, n, gs) && TeamSynced(b, n, c, n', g)
    ensures EntriesSynced(a, n0, c, n', gs + [g])
  {
    EntriesEffectStep(a, b, c, gs, g);
    EntriesDoneStep(a, b, c, gs, g);
    if Agreeing(gs + [g]) {
      TotalsStep(a, n0, b, n, c, n', gs, g);
    }
  }

  /** One mapped entry looked up and synchronized. */
  ghost predicate TargetDone(a: Store, n0: Tally, b: Store, n: Tally, t: Target, missed: multiset<string>, g: Goal) {
    LookedUpAt(a.users, t, missed, g) && n.missed == n0.missed + missed && TeamSynced(a, n0, b, n, g)
  }

  lemma LookupsThenGoal(a: Store, n0: Tally, n1: Tally, b: Store, n: Tally, t: Target, missed: multiset<string>,
                        ids: seq<int>)
    requires LooksUp(a.users, t.logins, missed, ids) && n1 == n0.(missed := n0.missed + missed)
    requires TeamSynced(a, n1, b, n, Goal(t.team, ToSet(ids))) && n.missed == n1.missed
    ensures TargetDone(a, n0, b, n, t, missed, Goal(t.team, ToSet(ids)))
  {
  }

  /** All mapped entries looked up and synchronized one after another. */
  ghost predicate TargetsDone(a: Store, n0: Tally, b: Store, n: Tally, ts: seq<Target>,
                              misses: seq<multiset<string>>, gs: seq<Goal>) {
    LookedUp(a.users, ts, misses, gs) && n.missed == n0.missed + AllMissed(misses) && EntriesSynced(a, n0, b, n, gs)
  }

  lemma TargetsDoneStep(a: Store, n0: Tally, b: Store, n: Tally, c: Store, n': Tally, ts: seq<Target>,
                        misses: seq<multiset<string>>, gs: seq<Goal>, t: Target, missed: multiset<string>, g: Goal)
    requires TargetsDone(a, n0, b, n, ts, misses, gs) && TargetDone(b, n, c, n', t, missed, g)
    ensures TargetsDone(a, n0, c, n', ts + [t], misses + [missed], gs + [g])
  {
    EntriesSyncedStep(a, n0, b, n, c, n', gs, g);
    LookedUpStep(a.users, ts, misses, gs, t, missed, g);
  }

  lemma TotalsStep(a: Store, n0: Tally, b: Store, n: Tally, c: Store, n': Tally, gs: seq<Goal>, g: Goal)
    requires EntriesSynced(a, n0, b, n, gs) && TeamSynced(b, n, c, n', g) && Agreeing(gs + [g])
    ensures TotalDistance(c, gs + [g]) + n'.successes <= TotalDistance(a, gs + [g]) + n0.successes
  {
    AgreeingStep(gs, g);
    assert (gs + [g])[..|gs|] == gs;
    TotalDistanceStep(b, c, gs, g.team, g.want);
    assert GoalsEffect(a, b, gs, g.team);
  }

  lemma EntriesEffectStep(a: Store, b: Store, c: Store, gs: seq<Goal>, g: Goal)
    requires EntriesEffect(a, b, gs) && TeamEffect(b, c, g)
    ensures EntriesEffect(a, c, gs + [g])
  {
    KeptTransitive(a, b, c);
    forall n ensures GoalsEffect(a, c, gs + [g], n) {
      assert GoalsEffect(a, b, gs, n);
      GoalsEffectStep(a, b, c, gs, g, n);
    }
    forall n | MembersOf(a, n).None? && MembersOf(c, n).Some? ensures Targeted(gs + [g], n) {
      OneMoreGoal(gs, g, n);
    }
  }

  lemma EntriesDoneStep(a: Store, b: Store, c: Store, gs: seq<Goal>, g: Goal)
    requires TeamEffect(b, c, g)
    ensures EntriesDone(a, b, gs) && MembersOf(c, g.team) == Some(g.want) ==> EntriesDone(a, c, gs + [g])
    ensures AllReached(a, gs + [g]) <==> AllReached(a, gs) && MembersOf(a, g.team) == Some(g.want)
  {
    var all := gs + [g];
    assert all[..|all| - 1] == gs && all[|gs|] == g;
    assert forall k | 0 <= k < |gs| :: all[k] == gs[k];
  }

  lemma NextTarget(table: map<string, string>, entries: seq<Entry>, i: nat)
    requires i < |entries|
    ensures var e, ts := entries[i], Targets(table, entries[..i]);
      Targets(table, entries[..i + 1]) == if e.group in table then ts + [Target(table[e.group], e.members)] else ts
  {
    assert entries[..i + 1][..i] == entries[..i];
  }

  /** The folder's table was asked to be replaced once, or not at all and then
      something failed or there is no such folder. */
  ghost predicate FolderCalls(a: Store, n0: Tally, b: Store, n: Tally, title: string) {
    || n.replaced == n0.replaced + FolderUid(a, title)
    || (n.replaced == n0.replaced && b.tables == a.tables && n0.dirty < n.dirty)
  }

  /** One synchronized folder: stores and tallies before and after. */
  ghost predicate FolderSynced(a: Store, n0: Tally, b: Store, n: Tally, title: string, fps: seq<FolderPermission>) {
    && Later(n0, n) && n.missed == n0.missed && n.successes == n0.successes
    && (n.writes == n0.writes ==> b.teams == a.teams)
    && FolderCalls(a, n0, b, n, title)
    && FolderEffect(a, b, title, fps)
    && (n.dirty == n0.dirty && FolderNamed(a.folders, title).Some? ==> FolderDone(b, title, fps))
    && (n.dirty == n0.dirty && (FolderNamed(a.folders, title).Some? ==> forall fp | fp in fps :: Taken(a, fp.team))
        ==> n.writes == n0.writes)
  }

  /** What the folder loop has done once the folders in `done` were visited. */
  ghost predicate FoldersEffect(a: Store, b: Store, perms: seq<FolderPermission>, done: set<string>) {
    && Kept(a, b)
    && (forall n :: MembersOf(b, n) == MembersOf(a, n)
                    || (MembersOf(a, n).None? && MembersOf(b, n) == Some(a.founders)
                        && NeededByFolder(a.folders, perms, n)))
    && (forall uid | uid in a.tables :: b.tables[uid] == a.tables[uid] || Rewritten(b, perms, done, uid))
  }

  /** The table of `uid` is the complete one of its configured folder. */
  ghost predicate Rewritten(b: Store, perms: seq<FolderPermission>, done: set<string>, uid: string) {
    exists title :: title in done && FolderNamed(b.folders, title) == Some(uid)
                    && uid in b.tables && Renders(b, b.tables[uid], PermissionsOf(perms, title))
  }

  ghost predicate Visited(a: Store, done: set<string>, uid: string) {
    exists title :: title in done && FolderNamed(a.folders, title) == Some(uid)
  }

  /** The table `uid` was asked to be replaced at most once, and only if it was its
      `turn`; then exactly once if nothing failed. If it was not, it is as before. */
  ghost predicate TableCalls(a: Store, n0: Tally, b: Store, n: Tally, uid: string, turn: bool) {
    && n0.replaced[uid] <= n.replaced[uid] <= n0.replaced[uid] + (if turn then 1 else 0)
    && (n.dirty == n0.dirty ==> n.replaced[uid] == n0.replaced[uid] + if turn then 1 else 0)
    && (n.replaced[uid] == n0.replaced[uid] && uid in a.tables && uid in b.tables ==> b.tables[uid] == a.tables[uid])
  }

  ghost predicate FoldersSynced(a: Store, n0: Tally, b: Store, n: Tally,
                                perms: seq<FolderPermission>, done: set<string>) {
    && Later(n0, n) && n.missed == n0.missed && n.successes == n0.successes
    && (n.writes == n0.writes ==> b.teams == a.teams)
    && (forall uid :: TableCalls(a, n0, b, n, uid, Visited(a, done, uid)))
    && FoldersEffect(a, b, perms, done)
    && (n.dirty == n0.dirty ==>
          forall title | title in done && FolderNamed(a.folders, title).Some? ::
            FolderDone(b, title, PermissionsOf(perms, title)))
    && (n.dirty == n0.dirty && (forall t | NeededByFolder(a.folders, perms, t) :: Taken(a, t)) ==>
          n.writes == n0.writes)
  }

  lemma FoldersEffectStep(a: Store, b: Store, c: Store, perms: seq<FolderPermission>, done: set<string>, title: string)
    requires ValidStore(b) && FoldersEffect(a, b, perms, done)
    requires FolderEffect(b, c, title, PermissionsOf(perms, title))
    ensures FoldersEffect(a, c, perms, done + {title})
  {
    KeptTransitive(a, b, c);
    forall n | MembersOf(c, n) != MembersOf(b, n) ensures NeededByFolder(a.folders, perms, n) {
      assert NewTeam(b, c, n, PermissionsOf(perms, title));
      var fp :| fp in PermissionsOf(perms, title) && fp.team == n;
      PermissionsOfCounts(perms, title, fp);
      assert fp in multiset(PermissionsOf(perms, title));
      assert fp in multiset(perms);
    }
    forall uid | uid in a.tables && c.tables[uid] != a.tables[uid] ensures Rewritten(c, perms, done + {title}, uid) {
      if FolderNamed(b.folders, title) == Some(uid) && c.tables != b.tables {
        assert title in done + {title};
      } else {
        assert c.tables[uid] == b.tables[uid];
        assert Rewritten(b, perms, done, uid);
        var t :| t in done && FolderNamed(b.folders, t) == Some(uid)
          && uid in b.tables && Renders(b, b.tables[uid], PermissionsOf(perms, t));
        RendersKept(b, c, b.tables[uid], PermissionsOf(perms, t));
        assert t in done + {title};
      }
    }
  }

  lemma OtherFolderStaysDone(b: Store, c: Store, title: string, fps: seq<FolderPermission>,
                             other: string, otherFps: seq<FolderPermission>)
    requires ValidStore(b) && FolderEffect(b, c, title, fps) && FolderDone(b, other, otherFps) && other != title
    ensures FolderDone(c, other, otherFps)
  {
    var uid := FolderNamed(b.folders, other).value;
    RendersKept(b, c, b.tables[uid], otherFps);
    if FolderNamed(b.folders, title) == Some(uid) {
      OneTitlePerFolder(b, other, title);
    }
  }

  lemma VisitedOnce(a: Store, done: set<string>, title: string, uid: string)
    requires ValidStore(a) && title !in done && FolderNamed(a.folders, title) == Some(uid)
    ensures !Visited(a, done, uid) && Visited(a, done + {title}, uid)
  {
    assert title in done + {title};
    if Visited(a, done, uid) {
      var t :| t in done && FolderNamed(a.folders, t) == Some(uid);
      OneTitlePerFolder(a, t, title);
    }
  }

  lemma NeededTeamsTaken(a: Store, b: Store, perms: seq<FolderPermission>, title: string)
    requires ValidStore(b) && Kept(a, b) && FolderNamed(a.folders, title).Some?
    requires forall t | NeededByFolder(a.folders, perms, t) :: Taken(a, t)
    ensures forall fp | fp in PermissionsOf(perms, title) :: Taken(b, fp.team)
  {
    forall fp | fp in PermissionsOf(perms, title) ensures Taken(b, fp.team) {
      PermissionsOfCounts(perms, title, fp);
      assert fp in multiset(PermissionsOf(perms, title));
      assert fp in multiset(perms);
      assert NeededByFolder(a.folders, perms, fp.team);
      KeptNames(a, b, fp.team);
    }
  }

  lemma TableCallsStep(a: Store, n0: Tally, b: Store, n: Tally, c: Store, n': Tally,
                       perms: seq<FolderPermission>, done: set<string>, title: string, uid: string)
    requires ValidStore(a) && Kept(a, b) && title !in done && Later(n0, n)
    requires TableCalls(a, n0, b, n, uid, Visited(a, done, uid))
    requires FolderSynced(b, n, c, n', title, PermissionsOf(perms, title))
    ensures TableCalls(a, n0, c, n', uid, Visited(a, done + {title}, uid))
  {
    if FolderNamed(a.folders, title) == Some(uid) {
      VisitedOnce(a, done, title, uid);
      assert FolderUid(b, title) == multiset{uid};
    } else {
      VisitedElsewhere(a, done, title, uid);
      assert FolderUid(b, title)[uid] == 0;
    }
  }

  lemma VisitedElsewhere(a: Store, done: set<string>, title: string, uid: string)
    requires FolderNamed(a.folders, title) != Some(uid)
    ensures Visited(a, done + {title}, uid) <==> Visited(a, done, uid)
  {
    if Visited(a, done, uid) {
      var t :| t in done && FolderNamed(a.folders, t) == Some(uid);
      assert t in done + {title};
    }
  }

  lemma FoldersSyncedStep(a: Store, n0: Tally, b: Store, n: Tally, c: Store, n': Tally,
                          perms: seq<FolderPermission>, done: set<string>, title: string)
    requires ValidStore(a) && ValidStore(b) && title !in done
    requires FoldersSynced(a, n0, b, n, perms, done)
    requires FolderSynced(b, n, c, n', title, PermissionsOf(perms, title))
    ensures FoldersSynced(a, n0, c, n', perms, done + {title})
  {
    FoldersEffectStep(a, b, c, perms, done, title);
    forall uid ensures TableCalls(a, n0, c, n', uid, Visited(a, done + {title}, uid)) {
      assert TableCalls(a, n0, b, n, uid, Visited(a, done, uid));
      TableCallsStep(a, n0, b, n, c, n', perms, done, title, uid);
    }
    if n'.dirty == n0.dirty {
      forall t | t in done && FolderNamed(a.folders, t).Some? ensures FolderDone(c, t, PermissionsOf(perms, t)) {
        OtherFolderStaysDone(b, c, title, PermissionsOf(perms, title), t, PermissionsOf(perms, t));
      }
    }
    if FolderNamed(b.folders, title).Some? && (forall t | NeededByFolder(a.folders, perms, t) :: Taken(a, t)) {
      NeededTeamsTaken(a, b, perms, title);
    }
  }

  /** What a pass with these goals does when any calls may fail. */
  ghost predicate PassBounds(a: Store, b: Store, cfg: Config, gs: seq<Goal>) {
    && Kept(a, b)
    && (forall n :: GoalsEffect(a, b, gs, n))
    && (forall n | MembersOf(a, n).None? && MembersOf(b, n).Some? ::
          Targeted(gs, n) || NeededByFolder(a.folders, cfg.folderPermissions, n))
    && (forall uid | uid in a.tables ::
          b.tables[uid] == a.tables[uid]
          || exists title :: Configures(a.folders, cfg.folderPermissions, title, uid)
                             && Renders(b, b.tables[uid], PermissionsOf(cfg.folderPermissions, title)))
  }

  /** Nothing is left for a pass to do: every goal is reached and every team
      that a folder needs exists. */
  ghost predicate Converged(a: Store, cfg: Config, gs: seq<Goal>) {
    && AllReached(a, gs)
    && forall n | NeededByFolder(a.folders, cfg.folderPermissions, n) :: Taken(a, n)
  }

  /** `uid` is the folder of some configured title. */
  ghost predicate IsConfigured(a: Store, cfg: Config, uid: string) {
    exists title :: Configures(a.folders, cfg.folderPermissions, title, uid)
  }

  /** The contract of a whole pass: stores and tallies before and after. */
  ghost predicate PassDone(a: Store, n0: Tally, b: Store, n: Tally, cfg: Config, gs: seq<Goal>) {
    && Later(n0, n)
    && PassBounds(a, b, cfg, gs)
    && (forall uid :: TableCalls(a, n0, b, n, uid, IsConfigured(a, cfg, uid)))
    && (Agreeing(gs) ==> TotalDistance(b, gs) + n.successes <= TotalDistance(a, gs) + n0.successes)
    && (n.writes == n0.writes ==> b.teams == a.teams)
    && (n.dirty == n0.dirty ==> PassResult(a, b, cfg, gs) && (Converged(a, cfg, gs) <==> n.writes == n0.writes))
  }

  /** A pass over an LDAP answer in which, at the `k`-th mapped entry, the
      lookups of `misses[k]` failed. */
  ghost predicate PassOf(a: Store, n0: Tally, b: Store, n: Tally, cfg: Config, entries: seq<Entry>,
                         misses: seq<multiset<string>>, gs: seq<Goal>) {
    && LookedUp(a.users, Mapped(cfg, entries), misses, gs)
    && n.missed == n0.missed + AllMissed(misses)
    && PassDone(a, n0, b, n, cfg, gs)
  }

  lemma PassIsDone(a: Store, n0: Tally, b: Store, n: Tally, c: Store, n': Tally,
                   cfg: Config, gs: seq<Goal>, groups: map<string, seq<FolderPermission>>)
    requires ValidStore(a) && ValidStore(b) && ValidStore(c)
    requires EntriesSynced(a, n0, b, n, gs)
    requires IsRegrouping(groups, cfg.folderPermissions)
    requires FoldersSynced(b, n, c, n', cfg.folderPermissions, groups.Keys)
    ensures PassDone(a, n0, c, n', cfg, gs)
  {
    FoldersKeepBounds(a, b, c, cfg, gs, groups);
    TotalDistanceSame(b, c, gs);
    PassTableCalls(a, n0, b, n, c, n', cfg, gs, groups);
    if n'.dirty == n0.dirty {
      PassIsClean(a, b, c, cfg, gs, groups);
      PassIsQuietIff(a, n0, b, n, c, n', cfg, gs, groups);
    }
  }

  lemma PassTableCalls(a: Store, n0: Tally, b: Store, n: Tally, c: Store, n': Tally,
                       cfg: Config, gs: seq<Goal>, groups: map<string, seq<FolderPermission>>)
    requires EntriesSynced(a, n0, b, n, gs)
    requires IsRegrouping(groups, cfg.folderPermissions)
    requires FoldersSynced(b, n, c, n', cfg.folderPermissions, groups.Keys)
    ensures forall uid :: TableCalls(a, n0, c, n', uid, IsConfigured(a, cfg, uid))
  {
    forall uid ensures TableCalls(a, n0, c, n', uid, IsConfigured(a, cfg, uid)) {
      assert TableCalls(b, n, c, n', uid, Visited(b, groups.Keys, uid));
      ConfiguredIsVisited(a, b, cfg, groups, uid);
    }
  }

  lemma PassIsQuietIff(a: Store, n0: Tally, b: Store, n: Tally, c: Store, n': Tally,
                       cfg: Config, gs: seq<Goal>, groups: map<string, seq<FolderPermission>>)
    requires ValidStore(a) && ValidStore(c) && PassResult(a, c, cfg, gs) && n'.dirty == n0.dirty
    requires EntriesSynced(a, n0, b, n, gs)
    requires FoldersSynced(b, n, c, n', cfg.folderPermissions, groups.Keys)
    ensures Converged(a, cfg, gs) <==> n'.writes == n0.writes
  {
    if n'.writes == n0.writes {
      SilentIsConverged(a, c, cfg, gs);
    }
  }

  lemma ConfiguredIsVisited(a: Store, b: Store, cfg: Config, groups: map<string, seq<FolderPermission>>, uid: string)
    requires b.folders == a.folders && IsRegrouping(groups, cfg.folderPermissions)
    ensures IsConfigured(a, cfg, uid) <==> Visited(b, groups.Keys, uid)
  {
    if IsConfigured(a, cfg, uid) {
      var title :| Configures(a.folders, cfg.folderPermissions, title, uid);
      assert title in groups.Keys;
    }
    if Visited(b, groups.Keys, uid) {
      var title :| title in groups.Keys && FolderNamed(b.folders, title) == Some(uid);
      assert Configures(a.folders, cfg.folderPermissions, title, uid);
    }
  }

  /** A clean pass that leaves the teams alone had no team to create. */
  lemma SilentIsConverged(a: Store, c: Store, cfg: Config, gs: seq<Goal>)
    requires ValidStore(a) && ValidStore(c) && PassResult(a, c, cfg, gs) && c.teams == a.teams && AllReached(a, gs)
    ensures Converged(a, cfg, gs)
  {
    forall n | NeededByFolder(a.folders, cfg.folderPermissions, n) ensures Taken(a, n) {
      assert MembersOf(c, n) == Expected(a, cfg, gs, n);
      assert LiveAs(a, IdOf(c, n), n);
    }
  }

  lemma FoldersKeepBounds(a: Store, b: Store, c: Store, cfg: Config, gs: seq<Goal>,
                          groups: map<string, seq<FolderPermission>>)
    requires EntriesEffect(a, b, gs)
    requires IsRegrouping(groups, cfg.folderPermissions)
    requires FoldersEffect(b, c, cfg.folderPermissions, groups.Keys)
    ensures PassBounds(a, c, cfg, gs)
  {
    var perms := cfg.folderPermissions;
    KeptTransitive(a, b, c);
    forall n ensures GoalsEffect(a, c, gs, n) {
      assert GoalsEffect(a, b, gs, n);
    }
    forall uid | uid in a.tables && c.tables[uid] != a.tables[uid]
      ensures exists title :: Configures(a.folders, perms, title, uid)
                              && Renders(c, c.tables[uid], PermissionsOf(perms, title))
    {
      assert Rewritten(c, perms, groups.Keys, uid);
      var title :| title in groups.Keys && FolderNamed(c.folders, title) == Some(uid)
        && uid in c.tables && Renders(c, c.tables[uid], PermissionsOf(perms, title));
      assert Configures(a.folders, perms, title, uid);
    }
  }

  lemma PassIsClean(a: Store, b: Store, c: Store, cfg: Config, gs: seq<Goal>,
                    groups: map<string, seq<FolderPermission>>)
    requires ValidStore(b) && ValidStore(c) && Kept(a, b) && b.tables == a.tables
    requires EntriesDone(a, b, gs)
    requires IsRegrouping(groups, cfg.folderPermissions)
    requires FoldersEffect(b, c, cfg.folderPermissions, groups.Keys)
    requires forall title | title in groups.Keys && FolderNamed(b.folders, title).Some? ::
               FolderDone(c, title, PermissionsOf(cfg.folderPermissions, title))
    ensures PassResult(a, c, cfg, gs)
  {
    var perms := cfg.folderPermissions;
    KeptTransitive(a, b, c);
    forall n ensures MembersOf(c, n) == Expected(a, cfg, gs, n) {
      if MembersOf(b, n).None? && NeededByFolder(b.folders, perms, n) {
        var p :| p in perms && p.team == n && FolderNamed(b.folders, p.folder).Some?;
        assert p.folder in groups;
        NeededIsTaken(c, perms, p);
      }
    }
    forall title, uid | Configures(a.folders, perms, title, uid)
      ensures uid in c.tables && Renders(c, c.tables[uid], PermissionsOf(perms, title))
    {
      assert title in groups;
      assert FolderDone(c, title, PermissionsOf(perms, title));
    }
    forall uid | uid in a.tables && (forall title :: !Configures(a.folders, perms, title, uid))
      ensures c.tables[uid] == a.tables[uid]
    {
      if Rewritten(c, perms, groups.Keys, uid) {
        var title :| title in groups.Keys && FolderNamed(c.folders, title) == Some(uid);
        assert Configures(a.folders, perms, title, uid);
      }
    }
  }

  lemma NeededIsTaken(c: Store, perms: seq<FolderPermission>, p: FolderPermission)
    requires p in perms && FolderDone(c, p.folder, PermissionsOf(perms, p.folder))
    ensures Taken(c, p.team)
  {
    PermissionsOfCounts(perms, p.folder, p);
    assert p in multiset(perms);
    assert p in multiset(PermissionsOf(perms, p.folder));
    var fps := PermissionsOf(perms, p.folder);
    var k :| 0 <= k < |fps| && fps[k] == p;
    assert LiveAs(c, c.tables[FolderNamed(c.folders, p.folder).value][k].team, fps[k].team);
  }
}
