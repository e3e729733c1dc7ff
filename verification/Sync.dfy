/** The reconciler of internal/sync/sync.go. Each loop over a Go map takes an
    arbitrary remaining key, so what is proved holds for every iteration order;
    each API call has an arbitrary fate, so it holds for every pattern of
    failures unless the contract asks for clean calls. */
module Sync {
  import opened Common
  import opened Grafana
  import opened Plan
  import opened Effects
  import Serial

  datatype FolderOutcome = FolderError | Unresolved | Rejected | Synced

  class SyncWorker {
    const cfg: Config
    const client: Client

    constructor (cfg: Config, client: Client)
      ensures this.cfg == cfg && this.client == client
    {
      this.cfg, this.client := cfg, client;
    }

    method ResolveTeam(name: string) returns (r: Option<int>)
      requires client.Valid()
      modifies client
      ensures client.Valid() && old(client.trace) <= client.trace && Later(old(client.calls), client.calls)
      ensures Ensured(old(client.db), client.db, name)
      ensures Resolution(old(client.trace), client.trace, name, r)
      ensures r.Some? ==> LiveAs(client.db, r.value, name)
      ensures client.calls.dirty == old(client.calls).dirty ==>
                r.Some? && (Taken(old(client.db), name) ==> client.calls.writes == old(client.calls).writes)
      ensures client.calls.writes == old(client.calls).writes ==> client.db == old(client.db)
      ensures client.calls.missed == old(client.calls).missed
      ensures client.calls.successes == old(client.calls).successes
      ensures client.calls.replaced == old(client.calls).replaced
    {
      ghost var t0, at := client.trace, client.db;
      var team := client.GetTeamByName(name);
      ghost var t1 := client.trace;
      match team {
        case Missing =>
          r := client.CreateTeam(name);
          SearchThenCreate(t0, t1, client.trace, at, name, r);
        case Broken =>
          r := None;
          SearchBroken(t0, t1, at, name);
        case Found(id) =>
          var detail := client.GetTeam(id);
          ghost var t2 := client.trace;
          if detail != Some(name) {
            r := client.CreateTeam(name);
            SearchThenRecreate(t0, t1, t2, client.trace, at, name, id, r);
          } else {
            r := Some(id);
            SearchThenConfirm(t0, t1, t2, at, name, id);
          }
      }
    }

    /** Lines 217-228; `missed` are the logins whose lookup failed. */
    method LookupMembers(logins: seq<string>) returns (ids: seq<int>, ghost missed: multiset<string>)
      requires client.Valid()
      modifies client
      ensures client.Valid() && old(client.trace) <= client.trace && client.db == old(client.db)
      ensures LooksUp(client.db.users, logins, missed, ids)
      ensures Called(old(client.trace), client.trace, Lookups(logins))
      ensures client.calls == old(client.calls).(missed := old(client.calls).missed + missed)
    {
      ids, missed := [], multiset{};
      var i := 0;
      NothingCalled(client.trace);
      assert Lookups(logins[..0]) == {};
      while i < |logins|
        invariant 0 <= i <= |logins|
        invariant client.Valid() && client.db == old(client.db)
        invariant Called(old(client.trace), client.trace, Lookups(logins[..i]))
        invariant LooksUp(client.db.users, logins[..i], missed, ids)
        invariant client.calls == old(client.calls).(missed := old(client.calls).missed + missed)
      {
        var login := logins[i];
        LooksUpStep(client.db.users, logins, i, missed, ids);
        ghost var before, t := client.calls.missed, client.trace;
        if login != "" {
          var user := client.LookupUser(login);
          if user.Some? {
            ids := ids + [user.value];
          } else if client.calls.missed != before {
            missed := missed + multiset{login};
          }
        }
        LookupsStep(old(client.trace), t, client.trace, logins, i);
        i := i + 1;
      }
      assert logins[..i] == logins;
    }

    /** Up to three attempts. Success is reported at most once and means that
        the user is in the team; a failure leaves the user in or out. */
    method AddTeamMemberWithRetry(team: int, user: int) returns (ok: bool, ghost m: set<int>)
      requires client.Valid() && team in client.db.teams
      modifies client
      ensures client.Valid() && Later(old(client.calls), client.calls)
      ensures Called(old(client.trace), client.trace, {AddMember(team, user)})
      ensures Attempts(old(client.trace), client.trace, AddMember(team, user), ok)
      ensures client.db == WithMembers(old(client.db), team, m)
      ensures m == old(client.db).teams[team].members || m == old(client.db).teams[team].members + {user}
      ensures ok ==> user in m
      ensures client.calls.successes == old(client.calls).successes + if ok then 1 else 0
      ensures client.calls.dirty == old(client.calls).dirty ==> ok
      ensures client.calls.writes == old(client.calls).writes + |client.trace| - |old(client.trace)|
      ensures client.calls.dirty == old(client.calls).dirty ==> |client.trace| == |old(client.trace)| + 1
      ensures client.calls.missed == old(client.calls).missed
      ensures client.calls.replaced == old(client.calls).replaced
    {
      ghost var m0 := client.db.teams[team].members;
      m := m0;
      WithSameMembers(client.db, team);
      NothingCalled(client.trace);
      var attempt := 0;
      while attempt <= 2
        invariant 0 <= attempt <= 3
        invariant client.Valid() && Later(old(client.calls), client.calls)
        invariant Called(old(client.trace), client.trace, if attempt == 0 then {} else {AddMember(team, user)})
        invariant |client.trace| == |old(client.trace)| + attempt
        invariant forall k | |old(client.trace)| <= k < |client.trace| ::
                    client.trace[k].call == AddMember(team, user) && client.trace[k].fate.fails
        invariant client.db == WithMembers(old(client.db), team, m) && (m == m0 || m == m0 + {user})
        invariant client.calls.successes == old(client.calls).successes
        invariant attempt > 0 ==> client.calls.dirty > old(client.calls).dirty
        invariant client.calls.writes == old(client.calls).writes + attempt
        invariant client.calls.missed == old(client.calls).missed
        invariant client.calls.replaced == old(client.calls).replaced
      {
        ghost var s, t := client.db, client.trace;
        WithMembersAgain(old(client.db), s, team, m + {user});
        ok := client.AddTeamMember(team, user);
        SameCallAgain(old(client.trace), t, client.trace, AddMember(team, user));
        if client.db != s {
          m := m + {user};
        }
        if ok {
          return ok, s.teams[team].members + {user};
        }
        attempt := attempt + 1;
      }
      ok := false;
    }

    /** Adds, in any order, the desired users that are not current members. */
    method AddMissing(team: int, current: set<int>, desired: set<int>) returns (ghost m: set<int>)
      requires client.Valid() && team in client.db.teams && current == client.db.teams[team].members
      modifies client
      ensures client.Valid() && Later(old(client.calls), client.calls)
      ensures Called(old(client.trace), client.trace, Adds(team, desired - current))
      ensures client.db == WithMembers(old(client.db), team, m) && Adding(current, desired, {}, m)
      ensures Distance(m, desired) + client.calls.successes <= Distance(current, desired) + old(client.calls).successes
      ensures client.calls.dirty == old(client.calls).dirty ==> desired <= m
      ensures MostTimes(old(client.trace), client.trace, 3)
      ensures client.calls.dirty == old(client.calls).dirty ==> MostTimes(old(client.trace), client.trace, 1)
      ensures desired <= current ==> client.calls.writes == old(client.calls).writes
      ensures client.calls.writes == old(client.calls).writes ==> desired <= current && m == current
      ensures client.calls.missed == old(client.calls).missed
      ensures client.calls.replaced == old(client.calls).replaced
    {
      m := current;
      WithSameMembers(client.db, team);
      var toVisit := desired;
      NothingCalled(client.trace);
      assert Adds(team, desired - toVisit - current) == {};
      while toVisit != {}
        invariant toVisit <= desired
        invariant client.Valid() && Later(old(client.calls), client.calls)
        invariant Called(old(client.trace), client.trace, Adds(team, desired - toVisit - current))
        invariant client.db == WithMembers(old(client.db), team, m) && Adding(current, desired, toVisit, m)
        invariant Distance(m, desired) + client.calls.successes
                  <= Distance(current, desired) + old(client.calls).successes
        invariant client.calls.dirty == old(client.calls).dirty ==> desired - toVisit <= m
        invariant MostTimes(old(client.trace), client.trace, 3)
        invariant client.calls.dirty == old(client.calls).dirty ==> MostTimes(old(client.trace), client.trace, 1)
        invariant desired <= current ==> client.calls.writes == old(client.calls).writes
        invariant client.calls.writes == old(client.calls).writes ==> desired - toVisit <= current && m == current
        invariant client.calls.missed == old(client.calls).missed
        invariant client.calls.replaced == old(client.calls).replaced
        decreases toVisit
      {
        var id := PickAny(toVisit);
        ghost var t := client.trace;
        if id !in current {
          ghost var s := client.db;
          ghost var m';
          var ok;
          ok, m' := AddTeamMemberWithRetry(team, id);
          AttemptsAreFew(old(client.trace), t, client.trace, team, desired - toVisit - current, id);
          WithMembersAgain(old(client.db), s, team, m');
          AddedIsCloser(current, desired, toVisit, m, id);
          m := m';
        }
        AddsStep(old(client.trace), t, client.trace, team, desired, toVisit, current, id);
        toVisit := toVisit - {id};
      }
      assert desired - toVisit - current == desired - current;
    }

    /** Removes, in any order, the current members that are not desired. */
    method RemoveExtra(team: int, current: set<int>, desired: set<int>) returns (ghost m: set<int>)
      requires client.Valid() && team in client.db.teams && current <= client.db.teams[team].members
      modifies client
      ensures client.Valid() && Later(old(client.calls), client.calls)
      ensures Called(old(client.trace), client.trace, Removes(team, current - desired))
      ensures client.db == WithMembers(old(client.db), team, m)
      ensures Removing(old(client.db).teams[team].members, current, desired, {}, m)
      ensures Distance(m, desired) + client.calls.successes
              <= Distance(old(client.db).teams[team].members, desired) + old(client.calls).successes
      ensures client.calls.dirty == old(client.calls).dirty ==> (current - desired) !! m
      ensures MostTimes(old(client.trace), client.trace, 1)
      ensures current <= desired ==> client.calls.writes == old(client.calls).writes
      ensures client.calls.writes == old(client.calls).writes ==> current <= desired && client.db == old(client.db)
      ensures client.calls.missed == old(client.calls).missed
      ensures client.calls.replaced == old(client.calls).replaced
    {
      ghost var m0 := client.db.teams[team].members;
      m := m0;
      WithSameMembers(client.db, team);
      var toVisit := current;
      NothingCalled(client.trace);
      assert Removes(team, current - toVisit - desired) == {};
      while toVisit != {}
        invariant toVisit <= current
        invariant client.Valid() && Later(old(client.calls), client.calls)
        invariant Called(old(client.trace), client.trace, Removes(team, current - toVisit - desired))
        invariant client.db == WithMembers(old(client.db), team, m) && Removing(m0, current, desired, toVisit, m)
        invariant Distance(m, desired) + client.calls.successes <= Distance(m0, desired) + old(client.calls).successes
        invariant client.calls.dirty == old(client.calls).dirty ==> ((current - desired) - toVisit) !! m
        invariant MostTimes(old(client.trace), client.trace, 1)
        invariant current <= desired ==> client.calls.writes == old(client.calls).writes
        invariant client.calls.writes == old(client.calls).writes ==> current - toVisit <= desired && m == m0
        invariant client.calls.missed == old(client.calls).missed
        invariant client.calls.replaced == old(client.calls).replaced
        decreases toVisit
      {
        var id := PickAny(toVisit);
        ghost var t := client.trace;
        if id !in desired {
          ghost var s := client.db;
          NothingCalled(t);
          var ok := client.RemoveTeamMember(team, id);
          SameCallAgain(t, t, client.trace, RemoveMember(team, id));
          MostTimesStep(old(client.trace), t, client.trace, Removes(team, current - toVisit - desired),
                        RemoveMember(team, id), 1);
          WithMembersAgain(old(client.db), s, team, m - {id});
          RemovedIsCloser(m0, current, desired, toVisit, m, id);
          if client.db != s {
            m := m - {id};
          }
        }
        RemovesStep(old(client.trace), t, client.trace, team, current, toVisit, desired, id);
        toVisit := toVisit - {id};
      }
      assert current - toVisit - desired == current - desired;
    }

    /** Lines 244-276: bring one team's members to the desired set. Whatever
        fails, no wanted member is lost and no unwanted user gained, and each
        call reported successful brought the team one user closer. */
    method ReconcileMembers(team: int, members: set<int>, desiredIDs: seq<int>) returns (ghost m: set<int>)
      requires client.Valid() && team in client.db.teams && members == client.db.teams[team].members
      modifies client
      ensures client.Valid() && Later(old(client.calls), client.calls)
      ensures Called(old(client.trace), client.trace, DiffCalls(team, members, ToSet(desiredIDs)))
      ensures client.db == WithMembers(old(client.db), team, m)
      ensures members * ToSet(desiredIDs) <= m <= members + ToSet(desiredIDs)
      ensures Distance(m, ToSet(desiredIDs)) + client.calls.successes
              <= Distance(members, ToSet(desiredIDs)) + old(client.calls).successes
      ensures client.calls.dirty == old(client.calls).dirty ==> m == ToSet(desiredIDs)
      ensures client.calls.writes == old(client.calls).writes <==> members == ToSet(desiredIDs)
      ensures client.calls.writes == old(client.calls).writes ==> m == members
      ensures client.calls.missed == old(client.calls).missed
      ensures client.calls.replaced == old(client.calls).replaced
    {
      var desired := ToSet(desiredIDs);
      ghost var m1 := AddMissing(team, members, desired);
      ghost var before, t := client.db, client.trace;
      AddingBounds(members, desired, m1);
      m := RemoveExtra(team, members, desired);
      WithMembersAgain(old(client.db), before, team, m);
      CalledThen(old(client.trace), t, client.trace, Adds(team, desired - members), Removes(team, members - desired));
      RemovingBounds(m1, members, desired, m);
    }

    /** Lines 214-276: one LDAP entry that is mapped to `team`. */
    method SyncTeam(team: string, logins: seq<string>) returns (ghost g: Goal, ghost missed: multiset<string>)
      requires client.Valid()
      modifies client
      ensures client.Valid() && old(client.trace) <= client.trace
      ensures TargetDone(old(client.db), old(client.calls), client.db, client.calls, Target(team, logins), missed, g)
    {
      ghost var n0 := client.calls;
      var ids;
      ids, missed := LookupMembers(logins);
      g := Goal(team, ToSet(ids));
      ghost var a, n1 := client.db, client.calls;
      SyncMembers(team, ids);
      LookupsThenGoal(a, n0, n1, client.db, client.calls, Target(team, logins), missed, ids);
    }

    /** Lines 230-276: the users found for the entry are now known. */
    method SyncMembers(team: string, desiredIDs: seq<int>)
      requires client.Valid()
      modifies client
      ensures client.Valid() && old(client.trace) <= client.trace && client.calls.missed == old(client.calls).missed
      ensures TeamSynced(old(client.db), old(client.calls), client.db, client.calls, Goal(team, ToSet(desiredIDs)))
    {
      ghost var a, n0, g := client.db, client.calls, Goal(team, ToSet(desiredIDs));
      var teamID := ResolveTeam(team);
      ghost var b := client.db;
      if teamID.None? {
        ResolvedOnlyIsSynced(a, n0, b, client.calls, g);
        return;
      }
      var members := client.GetTeamMembers(teamID.value);
      if members.None? {
        ResolvedOnlyIsSynced(a, n0, b, client.calls, g);
        return;
      }
      ghost var n1 := client.calls;
      ghost var m := ReconcileMembers(teamID.value, members.value, desiredIDs);
      ReconciledIsSynced(a, n0, b, n1, client.calls, teamID.value, m, g);
    }

    /** Lines 280-283. */
    method GroupByFolder(perms: seq<FolderPermission>) returns (groups: map<string, seq<FolderPermission>>)
      ensures IsRegrouping(groups, perms)
    {
      groups := map[];
      var i := 0;
      while i < |perms|
        invariant 0 <= i <= |perms|
        invariant IsRegrouping(groups, perms[..i])
      {
        var fp := perms[i];
        RegroupStep(groups, perms, i);
        groups := groups[fp.folder := (if fp.folder in groups then groups[fp.folder] else []) + [fp]];
        i := i + 1;
      }
      assert perms[..i] == perms;
    }

    /** Lines 293-317. */
    method SyncFolderPermissions(folderName: string, fps: seq<FolderPermission>) returns (r: FolderOutcome)
      requires client.Valid()
      modifies client
      ensures client.Valid() && old(client.trace) <= client.trace
      ensures FolderSynced(old(client.db), old(client.calls), client.db, client.calls, folderName, fps)
      ensures !r.Synced? && !r.Rejected? ==> client.db.tables == old(client.db).tables
      ensures r.Synced? ==> FolderDone(client.db, folderName, fps)
    {
      ghost var a, n0 := client.db, client.calls;
      var folder := client.GetFolderByTitle(folderName);
      if !folder.FolderAt? {
        return FolderError;
      }
      var newPerms: seq<TeamPermission> := [];
      var i := 0;
      while i < |fps|
        invariant 0 <= i <= |fps| && |newPerms| == i
        invariant client.Valid() && old(client.trace) <= client.trace
        invariant TeamsResolved(a, n0, client.db, client.calls, fps)
        invariant Resolves(client.db, newPerms, fps[..i])
      {
        ghost var b, n := client.db, client.calls;
        var fp := fps[i];
        i := i + 1;
        var teamID := ResolveTeam(fp.team);
        TeamsResolvedStep(a, n0, b, n, client.db, client.calls, fps, fp);
        if teamID.None? {
          return Unresolved;
        }
        ResolvesStep(b, client.db, newPerms, fps, i - 1, teamID.value);
        newPerms := newPerms + [TeamPermission(teamID.value, fp.permission)];
      }
      assert fps[..i] == fps;
      TableIsReplaced(a, client.db, folderName, fps, newPerms);
      var ok := client.UpdateFolderPermissions(folder.uid, newPerms);
      r := if ok then Synced else Rejected;
    }

    /** Lines 284-288: every folder of the grouping, in any order. */
    method SyncFolders(groups: map<string, seq<FolderPermission>>)
      requires client.Valid() && IsRegrouping(groups, cfg.folderPermissions)
      modifies client
      ensures client.Valid() && old(client.trace) <= client.trace
      ensures FoldersSynced(old(client.db), old(client.calls), client.db, client.calls,
                            cfg.folderPermissions, groups.Keys)
    {
      ghost var a, n0 := client.db, client.calls;
      var toVisit := groups.Keys;
      while toVisit != {}
        invariant toVisit <= groups.Keys
        invariant client.Valid() && old(client.trace) <= client.trace
        invariant FoldersSynced(a, n0, client.db, client.calls, cfg.folderPermissions, groups.Keys - toVisit)
        decreases toVisit
      {
        var folderName := PickAny(toVisit);
        ghost var done := groups.Keys - toVisit;
        toVisit := toVisit - {folderName};
        assert groups.Keys - toVisit == done + {folderName};
        ghost var b, n := client.db, client.calls;
        var outcome := SyncFolderPermissions(folderName, groups[folderName]);
        FoldersSyncedStep(a, n0, b, n, client.db, client.calls, cfg.folderPermissions, done, folderName);
      }
      assert groups.Keys - toVisit == groups.Keys;
    }

    /** Lines 197-200. */
    method BuildTeamTable() returns (adToGrafana: map<string, string>)
      ensures adToGrafana == TeamTable(cfg.groupsMapping)
    {
      adToGrafana := map[];
      var ms := cfg.groupsMapping;
      var i := 0;
      while i < |ms|
        invariant 0 <= i <= |ms|
        invariant adToGrafana == TeamTable(ms[..i])
      {
        assert ms[..i + 1][..i] == ms[..i];
        adToGrafana := adToGrafana[ms[i].adGroup := ms[i].grafanaTeam];
        i := i + 1;
      }
      assert ms[..i] == ms;
    }

    /** Lines 204-277: every LDAP entry that is mapped, in the order of the answer. */
    method SyncEntries(table: map<string, string>, entries: seq<Entry>)
      returns (ghost misses: seq<multiset<string>>, ghost gs: seq<Goal>)
      requires client.Valid()
      modifies client
      ensures client.Valid() && old(client.trace) <= client.trace
      ensures TargetsDone(old(client.db), old(client.calls), client.db, client.calls,
                          Targets(table, entries), misses, gs)
    {
      ghost var a, n0 := client.db, client.calls;
      misses, gs := [], [];
      var i := 0;
      while i < |entries|
        invariant 0 <= i <= |entries|
        invariant client.Valid() && old(client.trace) <= client.trace
        invariant TargetsDone(a, n0, client.db, client.calls, Targets(table, entries[..i]), misses, gs)
      {
        var entry := entries[i];
        NextTarget(table, entries, i);
        ghost var ts := Targets(table, entries[..i]);
        i := i + 1;
        if entry.group in table {
          ghost var b, n := client.db, client.calls;
          ghost var g, missed := SyncTeam(table[entry.group], entry.members);
          TargetsDoneStep(a, n0, b, n, client.db, client.calls, ts, misses, gs,
                          Target(table[entry.group], entry.members), missed, g);
          misses, gs := misses + [missed], gs + [g];
        }
      }
      assert entries[..i] == entries;
    }

    /** Lines 148-291: one pass, given the LDAP answer; `None` when dialing,
        binding or searching failed. */
    method SyncOnce(ldap: Option<seq<Entry>>)
      returns (ok: bool, ghost misses: seq<multiset<string>>, ghost gs: seq<Goal>)
      requires client.Valid()
      modifies client
      ensures client.Valid() && old(client.trace) <= client.trace
      ensures ok <==> ldap.Some?
      ensures !ok ==> client.db == old(client.db) && client.trace == old(client.trace)
      ensures ok ==> PassOf(old(client.db), old(client.calls), client.db, client.calls, cfg, ldap.value, misses, gs)
    {
      misses, gs := [], [];
      if ldap.None? {
        return false, misses, gs;
      }
      ghost var a, n0 := client.db, client.calls;
      var adToGrafana := BuildTeamTable();
      misses, gs := SyncEntries(adToGrafana, ldap.value);
      ghost var b, n := client.db, client.calls;
      var folderPerms := GroupByFolder(cfg.folderPermissions);
      SyncFolders(folderPerms);
      PassIsDone(a, n0, b, n, client.db, client.calls, cfg, gs, folderPerms);
      ok := true;
    }

    /** Lines 84-86. What it does is a solo run, started in the present store and
        tally, of a program that returns and has then done a pass. */
    method SyncNow(ldap: Option<seq<Entry>>)
      returns (ok: bool, ghost misses: seq<multiset<string>>, ghost gs: seq<Goal>)
      requires client.Valid()
      modifies client
      ensures client.Valid() && ok == ldap.Some? && old(client.trace) <= client.trace
      ensures var w, n := Serial.Recorded(client.trace[|old(client.trace)|..]), |client.trace| - |old(client.trace)|;
        && Serial.Returns(w, 0, old(client.db), n)
        && Serial.Solo(w, 0, old(client.db), n).0 == client.db
        && Serial.SoloTally(w, 0, old(client.db), old(client.calls), n) == client.calls
      ensures ok ==> PassOf(old(client.db), old(client.calls), client.db, client.calls, cfg, ldap.value, misses, gs)
      ensures ok ==> Serial.IsPassCode(client.trace[|old(client.trace)|..], old(client.db), old(client.calls),
                                       cfg, ldap.value)
    {
      ghost var from := |client.trace|;
      ok, misses, gs := SyncOnce(ldap);
      Serial.StretchStarts(client);
      Serial.StretchReturns(client, from);
      if ok {
        Serial.RecordedDoesPass(client, from, cfg, ldap.value, misses, gs);
      }
    }
  }
}
