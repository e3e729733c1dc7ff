/** Passes that exist: the stores and tallies of a pass that loses a user by one
    failed lookup, and of a clean pass that undoes its own work. */
module Inputs {
  import opened Common
  import opened Grafana
  import opened Plan
  import opened Effects
  import Passes

  /** A store with one team, whose id is 1. */
  function OneTeam(members: set<int>, users: map<string, int>): Store {
    Store(map[1 := Team("team", members)], 2, {}, users, [], map[])
  }

  lemma OneTeamIsValid(members: set<int>, users: map<string, int>)
    ensures ValidStore(OneTeam(members, users))
    ensures MembersOf(OneTeam(members, users), "team") == Some(members)
  {
    MembersOfLive(OneTeam(members, users), 1, "team");
  }

  /** The tally after `k` more membership calls, all successful, and the lookups
      of `missed` failed. */
  function Worked(n: Tally, k: nat, missed: multiset<string>): Tally {
    n.(writes := n.writes + k, successes := n.successes + k, missed := n.missed + missed)
  }

  /** One goal reached, with one call for each user out of place. */
  lemma GoalReached(m: set<int>, d: set<int>, users: map<string, int>, n0: Tally, missed: multiset<string>)
    requires m != d
    ensures TeamSynced(OneTeam(m, users), n0, OneTeam(d, users), Worked(n0, Distance(m, d), missed), Goal("team", d))
  {
    var a, g := OneTeam(m, users), Goal("team", d);
    OneTeamIsValid(m, users);
    assert (d - d) + (d - d) == {};
    if Distance(m, d) == 0 {
      Passes.ZeroDistance(m, d);
    }
    assert WithMembers(a, 1, d) == OneTeam(d, users);
    ReconciledIsSynced(a, n0, a, n0, Worked(n0, Distance(m, d), missed), 1, d, g);
  }

  lemma NothingYet(a: Store, n: Tally)
    ensures EntriesSynced(a, n, a, n, [])
  {
  }

  /** With no folders configured the entries are the whole pass. */
  lemma EntriesAreThePass(a: Store, n0: Tally, b: Store, n: Tally, ms: seq<GroupMapping>, gs: seq<Goal>)
    requires ValidStore(a) && ValidStore(b) && EntriesSynced(a, n0, b, n, gs)
    ensures PassDone(a, n0, b, n, Config(ms, []), gs)
  {
    var none: map<string, seq<FolderPermission>> := map[];
    assert FoldersSynced(b, n, b, n, [], none.Keys);
    PassIsDone(a, n0, b, n, b, n, Config(ms, []), gs, none);
  }

  lemma OneGoalPass(m: set<int>, d: set<int>, users: map<string, int>, n0: Tally, missed: multiset<string>,
                    ms: seq<GroupMapping>)
    requires m != d
    ensures PassDone(OneTeam(m, users), n0, OneTeam(d, users), Worked(n0, Distance(m, d), missed),
                     Config(ms, []), [Goal("team", d)])
  {
    var a, b, n, g := OneTeam(m, users), OneTeam(d, users), Worked(n0, Distance(m, d), missed), Goal("team", d);
    OneTeamIsValid(m, users);
    OneTeamIsValid(d, users);
    GoalReached(m, d, users, n0, missed);
    NothingYet(a, n0);
    EntriesSyncedStep(a, n0, a, n0, b, n, [], g);
    assert [] + [g] == [g];
    EntriesAreThePass(a, n0, b, n, ms, [g]);
  }

  lemma TwoGoals(a: Store, n0: Tally, b: Store, n1: Tally, c: Store, n: Tally, g: Goal, h: Goal)
    requires TeamSynced(a, n0, b, n1, g) && TeamSynced(b, n1, c, n, h)
    ensures EntriesSynced(a, n0, c, n, [g, h])
  {
    NothingYet(a, n0);
    EntriesSyncedStep(a, n0, a, n0, b, n1, [], g);
    EntriesSyncedStep(a, n0, b, n1, c, n, [] + [g], h);
    assert [] + [g] + [h] == [g, h];
  }

  /** To another set of users and back again. */
  lemma ThereAndBack(m: set<int>, d: set<int>, users: map<string, int>, n0: Tally, ms: seq<GroupMapping>)
    requires m != d
    ensures PassDone(OneTeam(m, users), n0, OneTeam(m, users), Worked(n0, Distance(m, d) + Distance(d, m), multiset{}),
                     Config(ms, []), [Goal("team", d), Goal("team", m)])
  {
    var a, b, n1 := OneTeam(m, users), OneTeam(d, users), Worked(n0, Distance(m, d), multiset{});
    var n, g, h := Worked(n1, Distance(d, m), multiset{}), Goal("team", d), Goal("team", m);
    OneTeamIsValid(m, users);
    GoalReached(m, d, users, n0, multiset{});
    GoalReached(d, m, users, n1, multiset{});
    TwoGoals(a, n0, b, n1, a, n, g, h);
    EntriesAreThePass(a, n0, a, n, ms, [g, h]);
  }

  /** From a team that is as wanted, a pass whose only failure is one lookup, and
      that removes the user. */
  lemma FailedLookupPass(n0: Tally) returns (a: Store, b: Store, n: Tally, gs: seq<Goal>)
    ensures ValidStore(a) && a.users == map["u" := 1] && MembersOf(a, "team") == Some({1})
    ensures ValidStore(b) && MembersOf(b, "team") == Some({}) && n == Worked(n0, 1, multiset{"u"})
    ensures PassOf(a, n0, b, n, Config([GroupMapping("g", "team")], []), [Entry("g", ["u"])], [multiset{"u"}], gs)
  {
    var users := map["u" := 1];
    a, b, n, gs := OneTeam({1}, users), OneTeam({}, users), Worked(n0, 1, multiset{"u"}), [Goal("team", {})];
    OneTeamIsValid({1}, users);
    OneTeamIsValid({}, users);
    assert ({1} - {}) + ({} - {1}) == {1};
    assert Distance({1}, {}) == 1;
    OneGoalPass({1}, {}, users, n0, multiset{"u"}, [GroupMapping("g", "team")]);
    Passes.OneMappedEntry("g", "team", ["u"]);
    FailedLookup(users, gs);
  }

  lemma FailedLookup(users: map<string, int>, gs: seq<Goal>)
    requires gs == [Goal("team", {})]
    ensures LookedUp(users, [Target("team", ["u"])], [multiset{"u"}], gs)
    ensures AllMissed([multiset{"u"}]) == multiset{"u"}
  {
    assert FoundUsers(users, ["u"], multiset{"u"}) == {};
    assert LookedUpNth(users, [Target("team", ["u"])], [multiset{"u"}], gs, 0);
    assert AllMissed([multiset{"u"}][..0]) == multiset{};
  }

  lemma FoundOne(users: map<string, int>, l: string)
    requires l != "" && l in users
    ensures FoundUsers(users, [l], multiset{}) == {users[l]}
  {
    assert l in [l];
    forall u ensures u in FoundUsers(users, [l], multiset{}) <==> u in {users[l]} {}
  }

  /** A clean pass over two disagreeing entries of one team: it puts the second
      user out and in again, with four calls, and leaves the store as it was. */
  lemma RivalPass(n0: Tally) returns (a: Store, n: Tally, misses: seq<multiset<string>>, gs: seq<Goal>)
    ensures ValidStore(a) && a.users == Passes.RIVAL_USERS && MembersOf(a, "team") == Some({2})
    ensures n == Worked(n0, 4, multiset{}) && Passes.AllClean(n0, n)
    ensures PassOf(a, n0, a, n, Config(Passes.RIVAL_MAPPING, []), Passes.RIVAL_ENTRIES, misses, gs)
  {
    a, n, gs := OneTeam({2}, Passes.RIVAL_USERS), Worked(n0, 4, multiset{}), [Goal("team", {1}), Goal("team", {2})];
    misses := [multiset{}, multiset{}];
    OneTeamIsValid({2}, Passes.RIVAL_USERS);
    RivalDistance();
    ThereAndBack({2}, {1}, Passes.RIVAL_USERS, n0, Passes.RIVAL_MAPPING);
    RivalLookups(misses, gs);
  }

  lemma RivalDistance()
    ensures Distance({2}, {1}) == 2 == Distance({1}, {2})
  {
    assert ({2} - {1}) + ({1} - {2}) == {1, 2} == ({1} - {2}) + ({2} - {1});
  }

  lemma RivalLookups(misses: seq<multiset<string>>, gs: seq<Goal>)
    requires misses == [multiset{}, multiset{}] && gs == [Goal("team", {1}), Goal("team", {2})]
    ensures LookedUp(Passes.RIVAL_USERS, Mapped(Config(Passes.RIVAL_MAPPING, []), Passes.RIVAL_ENTRIES), misses, gs)
    ensures AllMissed(misses) == multiset{}
  {
    Passes.RivalTargets();
    FoundOne(Passes.RIVAL_USERS, "u");
    FoundOne(Passes.RIVAL_USERS, "v");
    var ts := [Target("team", ["u"]), Target("team", ["v"])];
    forall k | 0 <= k < 2 ensures LookedUpNth(Passes.RIVAL_USERS, ts, misses, gs, k) {}
    assert misses[..1] == [multiset{}] && misses[..1][..0] == [];
    assert AllMissed(misses[..1]) == multiset{};
  }
}
