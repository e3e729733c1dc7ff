/** Consequences of the contract of one pass, for single passes read by team
    name and for runs of many passes. */
module Passes {
  import opened Common
  import opened Grafana
  import opened Plan
  import opened Effects

  // ------------------------------------------------------------ one pass, by name

  /** Nothing went wrong between two moments: every call was clean, the user
      lookups included. */
  ghost predicate AllClean(n0: Tally, n: Tally) {
    n.dirty == n0.dirty && n.missed == n0.missed
  }

  lemma CleanGoals(a: Store, n0: Tally, b: Store, n: Tally, cfg: Config, entries: seq<Entry>,
                   misses: seq<multiset<string>>, gs: seq<Goal>)
    requires PassOf(a, n0, b, n, cfg, entries, misses, gs) && n.missed == n0.missed
    ensures gs == Planned(a.users, Mapped(cfg, entries))
  {
    forall l: string ensures AllMissed(misses)[l] == 0 {
      assert n.missed[l] == n0.missed[l] + AllMissed(misses)[l];
    }
    assert AllMissed(misses) == multiset{};
    NoneMissed(a.users, Mapped(cfg, entries), misses, gs);
  }

  lemma GoalIsReached(a: Store, b: Store, cfg: Config, gs: seq<Goal>, k: nat)
    requires PassResult(a, b, cfg, gs)
    requires k < |gs| && forall j | k < j < |gs| :: gs[j].team != gs[k].team
    ensures MembersOf(b, gs[k].team) == Some(gs[k].want)
  {
    LastWantedIsLast(gs, gs[k].team);
    assert MembersOf(b, gs[k].team) == Expected(a, cfg, gs, gs[k].team);
  }

  /** Entry `k` is the last one mapped to its team. */
  ghost predicate IsLast(ts: seq<Target>, k: nat) {
    k < |ts| && forall j | k < j < |ts| :: ts[j].team != ts[k].team
  }

  /** After a clean pass a team holds exactly the users that the last LDAP
      entry mapped to it wants, whatever it held before. */
  lemma LastEntryWins(a: Store, n0: Tally, b: Store, n: Tally, cfg: Config, entries: seq<Entry>,
                      misses: seq<multiset<string>>, gs: seq<Goal>, k: nat)
    requires PassOf(a, n0, b, n, cfg, entries, misses, gs) && AllClean(n0, n)
    requires IsLast(Mapped(cfg, entries), k)
    ensures var t := Mapped(cfg, entries)[k]; MembersOf(b, t.team) == Some(Wanted(a.users, t.logins))
  {
    CleanGoals(a, n0, b, n, cfg, entries, misses, gs);
    PlannedIsReached(a, n0, b, n, cfg, a.users, Mapped(cfg, entries), k);
  }

  lemma PlannedIsReached(a: Store, n0: Tally, b: Store, n: Tally, cfg: Config, users: map<string, int>,
                         ts: seq<Target>, k: nat)
    requires PassDone(a, n0, b, n, cfg, Planned(users, ts)) && n.dirty == n0.dirty && IsLast(ts, k)
    ensures MembersOf(b, ts[k].team) == Some(Wanted(users, ts[k].logins))
  {
    GoalIsReached(a, b, cfg, Planned(users, ts), k);
  }

  // --------------------------------------------------------- failed user lookups

  /** Every lookup of every login that stands for user `u` failed. */
  ghost predicate NeverFound(users: map<string, int>, logins: seq<string>, missed: multiset<string>, u: int) {
    forall l | l in logins && l != "" && l in users && users[l] == u :: missed[l] == multiset(logins)[l]
  }

  /** When nothing but user lookups fails, a user wanted by a team's last entry
      is in the team after the pass exactly if one of that entry's lookups found
      the user. Before the pass the user may have been a member or not. */
  lemma WantedUserIsInIff(a: Store, n0: Tally, b: Store, n: Tally, cfg: Config, entries: seq<Entry>,
                          misses: seq<multiset<string>>, gs: seq<Goal>, k: nat, u: int)
    requires PassOf(a, n0, b, n, cfg, entries, misses, gs) && n.dirty == n0.dirty
    requires IsLast(Mapped(cfg, entries), k) && u in Wanted(a.users, Mapped(cfg, entries)[k].logins)
    ensures var t := Mapped(cfg, entries)[k];
      MembersOf(b, t.team).Some?
      && (u in MembersOf(b, t.team).value <==> !NeverFound(a.users, t.logins, misses[k], u))
  {
    var ts := Mapped(cfg, entries);
    GoalsNameTargets(a.users, ts, misses, gs);
    GoalIsReached(a, b, cfg, gs, k);
    assert LookedUpNth(a.users, ts, misses, gs, k);
    FoundIff(a.users, ts[k].logins, misses[k], u);
  }

  lemma GoalsNameTargets(users: map<string, int>, ts: seq<Target>, misses: seq<multiset<string>>, gs: seq<Goal>)
    requires LookedUp(users, ts, misses, gs)
    ensures forall k | 0 <= k < |ts| :: gs[k].team == ts[k].team
  {
    forall k | 0 <= k < |ts| ensures gs[k].team == ts[k].team {
      assert LookedUpNth(users, ts, misses, gs, k);
    }
  }

  lemma FoundIff(users: map<string, int>, logins: seq<string>, missed: multiset<string>, u: int)
    requires u in Wanted(users, logins) && missed <= multiset(logins)
    ensures u in FoundUsers(users, logins, missed) <==> !NeverFound(users, logins, missed, u)
  {
  }

  /** Whatever else fails, a member whom every entry of the team wants is lost
      only if all lookups of that user failed in one of these entries. A failed
      lookup in an entry of another team does no harm. */
  lemma LostOnlyIfNeverFound(a: Store, n0: Tally, b: Store, n: Tally, cfg: Config, entries: seq<Entry>,
                             misses: seq<multiset<string>>, gs: seq<Goal>, team: string, u: int) returns (k: nat)
    requires PassOf(a, n0, b, n, cfg, entries, misses, gs)
    requires MembersOf(a, team).Some? && u in MembersOf(a, team).value
    requires forall j | 0 <= j < |Mapped(cfg, entries)| && Mapped(cfg, entries)[j].team == team ::
               u in Wanted(a.users, Mapped(cfg, entries)[j].logins)
    requires MembersOf(b, team).Some? ==> u !in MembersOf(b, team).value
    ensures var ts := Mapped(cfg, entries);
      k < |ts| && ts[k].team == team && NeverFound(a.users, ts[k].logins, misses[k], u)
  {
    var ts := Mapped(cfg, entries);
    assert GoalsEffect(a, b, gs, team);
    assert !WantedByAll(gs, team, u);
    k :| 0 <= k < |gs| && gs[k].team == team && u !in gs[k].want;
    GoalsNameTargets(a.users, ts, misses, gs);
    assert LookedUpNth(a.users, ts, misses, gs, k);
    FoundIff(a.users, ts[k].logins, misses[k], u);
  }

  /** One failed lookup is enough to remove a user who should stay. */
  lemma OneFailedLookupRemoves(a: Store, n0: Tally, b: Store, n: Tally, gs: seq<Goal>)
    requires a.users == map["u" := 1] && MembersOf(a, "team") == Some({1}) && n.dirty == n0.dirty
    requires PassOf(a, n0, b, n, Config([GroupMapping("g", "team")], []), [Entry("g", ["u"])], [multiset{"u"}], gs)
    ensures MembersOf(b, "team") == Some({})
  {
    var cfg, entries := Config([GroupMapping("g", "team")], []), [Entry("g", ["u"])];
    OneMappedEntry("g", "team", ["u"]);
    GoalsNameTargets(a.users, Mapped(cfg, entries), [multiset{"u"}], gs);
    assert LookedUpNth(a.users, Mapped(cfg, entries), [multiset{"u"}], gs, 0);
    GoalIsReached(a, b, cfg, gs, 0);
  }

  lemma OneMappedEntry(group: string, team: string, logins: seq<string>)
    ensures Mapped(Config([GroupMapping(group, team)], []), [Entry(group, logins)]) == [Target(team, logins)]
  {
    assert TeamTable([GroupMapping(group, team)][..0]) == map[];
    assert TeamTable([GroupMapping(group, team)]) == map[group := team];
    assert Targets(map[group := team], [Entry(group, logins)][..0]) == [];
  }

  /** Entry `t` wants `d`, and no lookup of its logins failed from `n0` to `n`. */
  ghost predicate EntryWants(users: map<string, int>, t: Target, d: set<int>, n0: Tally, n: Tally) {
    Wanted(users, t.logins) == d && forall l | l in t.logins :: n.missed[l] == n0.missed[l]
  }

  /** When all entries of a team want `d` and none of their lookups fails, all
      goals for the team want `d`, whatever other lookups fail. */
  lemma EntriesWantAll(a: Store, n0: Tally, b: Store, n: Tally, cfg: Config, entries: seq<Entry>,
                       misses: seq<multiset<string>>, gs: seq<Goal>, team: string, d: set<int>)
    requires PassOf(a, n0, b, n, cfg, entries, misses, gs)
    requires forall j | 0 <= j < |Mapped(cfg, entries)| && Mapped(cfg, entries)[j].team == team ::
               EntryWants(a.users, Mapped(cfg, entries)[j], d, n0, n)
    ensures AllWant(gs, team, d)
  {
    var ts := Mapped(cfg, entries);
    forall j | 0 <= j < |gs| && gs[j].team == team ensures gs[j].want == d {
      assert LookedUpNth(a.users, ts, misses, gs, j);
      assert EntryWants(a.users, ts[j], d, n0, n);
      AtMostAllMissed(misses, j);
      AllFound(a.users, ts[j].logins, misses[j]);
    }
  }

  lemma AllFound(users: map<string, int>, logins: seq<string>, missed: multiset<string>)
    requires forall l | l in logins :: missed[l] == 0
    ensures FoundUsers(users, logins, missed) == Wanted(users, logins)
  {
    assert forall l | l in logins :: l in multiset(logins);
  }

  // ---------------------------------------------------- other teams, other orders

  /** A pass leaves every existing team alone that no entry is mapped to,
      whatever fails in it. */
  lemma UntargetedIsUnchanged(a: Store, n0: Tally, b: Store, n: Tally, cfg: Config, entries: seq<Entry>,
                              misses: seq<multiset<string>>, gs: seq<Goal>, team: string)
    requires PassOf(a, n0, b, n, cfg, entries, misses, gs) && Taken(a, team)
    requires forall k | 0 <= k < |Mapped(cfg, entries)| :: Mapped(cfg, entries)[k].team != team
    ensures MembersOf(b, team) == MembersOf(a, team)
  {
    GoalsNameTargets(a.users, Mapped(cfg, entries), misses, gs);
    assert GoalsEffect(a, b, gs, team);
  }

  /** A permission table read by team name; an item of a team that does not
      exist has no name. */
  ghost function NamedTable(s: Store, uid: string): seq<(Option<string>, int)>
    requires uid in s.tables
  {
    var items := s.tables[uid];
    seq(|items|, k requires 0 <= k < |items| =>
      (if items[k].team in s.teams then Some(s.teams[items[k].team].name) else None, items[k].level))
  }

  /** Two clean passes from one store agree on everything that can be read by
      name, whatever orders the map ranges took and whatever ids new teams got. */
  lemma {:induction false} OrderDoesNotMatter(a: Store, b1: Store, b2: Store, cfg: Config, gs: seq<Goal>)
    requires ValidStore(a) && PassResult(a, b1, cfg, gs) && PassResult(a, b2, cfg, gs)
    ensures forall n :: MembersOf(b1, n) == MembersOf(b2, n)
    ensures forall uid | uid in a.tables :: NamedTable(b1, uid) == NamedTable(b2, uid)
  {
    forall n ensures MembersOf(b1, n) == MembersOf(b2, n) {
      assert MembersOf(b1, n) == Expected(a, cfg, gs, n);
    }
    forall uid | uid in a.tables ensures NamedTable(b1, uid) == NamedTable(b2, uid) {
      if title :| Configures(a.folders, cfg.folderPermissions, title, uid) {
        RenderedTable(b1, uid, PermissionsOf(cfg.folderPermissions, title));
        RenderedTable(b2, uid, PermissionsOf(cfg.folderPermissions, title));
      } else {
        KeptTable(a, b1, uid);
        KeptTable(a, b2, uid);
      }
    }
  }

  lemma RenderedTable(b: Store, uid: string, fps: seq<FolderPermission>)
    requires uid in b.tables && Renders(b, b.tables[uid], fps)
    ensures NamedTable(b, uid)
            == seq(|fps|, k requires 0 <= k < |fps| => (Some(fps[k].team), LevelOf(fps[k].permission)))
  {
    assert forall k | 0 <= k < |fps| :: LiveAs(b, b.tables[uid][k].team, fps[k].team);
  }

  lemma KeptTable(a: Store, b: Store, uid: string)
    requires ValidStore(a) && Kept(a, b) && uid in a.tables && b.tables[uid] == a.tables[uid]
    ensures NamedTable(b, uid) == NamedTable(a, uid)
  {
    forall k | 0 <= k < |a.tables[uid]| ensures NamedTable(b, uid)[k] == NamedTable(a, uid)[k] {
      var id := a.tables[uid][k].team;
      if id in a.teams {
        assert LiveAs(a, id, a.teams[id].name);
      } else if id in b.teams {
        assert LiveAs(b, id, b.teams[id].name);
      }
    }
  }

  // ---------------------------------------------------------------- idempotence

  /** A clean pass over the outcome of a clean pass leaves teams, ids, members
      and permission tables exactly as they are. */
  lemma SecondPassChangesNothing(a: Store, b: Store, c: Store, cfg: Config, gs: seq<Goal>)
    requires ValidStore(b) && ValidStore(c)
    requires PassResult(a, b, cfg, gs) && PassResult(b, c, cfg, gs)
    ensures c == b
  {
    forall n ensures MembersOf(c, n) == MembersOf(b, n) {
      assert MembersOf(b, n) == Expected(a, cfg, gs, n);
      assert MembersOf(c, n) == Expected(b, cfg, gs, n);
    }
    SameTeams(b, c);
    forall uid | uid in b.tables ensures c.tables[uid] == b.tables[uid] {
      if title :| Configures(b.folders, cfg.folderPermissions, title, uid) {
        var fps := PermissionsOf(cfg.folderPermissions, title);
        assert Configures(a.folders, cfg.folderPermissions, title, uid);
        forall k | 0 <= k < |fps| ensures c.tables[uid][k] == b.tables[uid][k] {
          assert LiveAs(b, b.tables[uid][k].team, fps[k].team);
          assert LiveAs(c, c.tables[uid][k].team, fps[k].team);
        }
      }
    }
    assert c.tables == b.tables;
  }

  lemma SameTeams(b: Store, c: Store)
    requires ValidStore(b) && ValidStore(c) && Kept(b, c)
    requires forall n :: MembersOf(c, n) == MembersOf(b, n)
    ensures c.teams == b.teams && c.nextId == b.nextId
  {
    forall id | id in c.teams ensures id in b.teams && c.teams[id] == b.teams[id] {
      var n := c.teams[id].name;
      MembersOfLive(c, id, n);
      MembersOfLive(b, IdOf(b, n), n);
      assert LiveAs(c, IdOf(b, n), n) && LiveAs(c, id, n);
    }
    assert b.teams.Keys == c.teams.Keys;
  }

  /** After a pass in which nothing but lookups went wrong, nothing is left to
      do exactly when goals for one team want the same users. */
  lemma NothingLeftIff(a: Store, b: Store, cfg: Config, gs: seq<Goal>)
    requires PassResult(a, b, cfg, gs)
    ensures Converged(b, cfg, gs) <==> Agreeing(gs)
  {
    forall n | NeededByFolder(b.folders, cfg.folderPermissions, n) ensures Taken(b, n) {
      assert MembersOf(b, n) == Expected(a, cfg, gs, n);
    }
    if Agreeing(gs) {
      forall k | 0 <= k < |gs| ensures MembersOf(b, gs[k].team) == Some(gs[k].want) {
        GoalIsReached(a, b, cfg, gs, LastGoal(gs, k));
      }
    }
    if AllReached(b, gs) {
      forall j, k | 0 <= j < |gs| && 0 <= k < |gs| && gs[j].team == gs[k].team ensures gs[j].want == gs[k].want {
        assert MembersOf(b, gs[j].team) == Some(gs[j].want);
        assert MembersOf(b, gs[k].team) == Some(gs[k].want);
      }
    }
  }

  /** The position of the last goal for the team of goal `k`. */
  ghost function LastGoal(gs: seq<Goal>, k: nat): (j: nat)
    requires k < |gs|
    ensures k <= j < |gs| && gs[j].team == gs[k].team
    ensures forall i | j < i < |gs| :: gs[i].team != gs[k].team
    decreases |gs| - k
  {
    if i :| k < i < |gs| && gs[i].team == gs[k].team then LastGoal(gs, i) else k
  }

  /** All entries mapped to one team want the same users. */
  ghost predicate Consistent(users: map<string, int>, ts: seq<Target>) {
    Agreeing(Planned(users, ts))
  }

  lemma SameGoalsAgain(a: Store, n0: Tally, b: Store, n1: Tally, c: Store, n2: Tally, cfg: Config, gs: seq<Goal>)
    requires ValidStore(b) && ValidStore(c)
    requires PassDone(a, n0, b, n1, cfg, gs) && n1.dirty == n0.dirty
    requires PassDone(b, n1, c, n2, cfg, gs) && n2.dirty == n1.dirty
    ensures c == b && (n2.writes == n1.writes <==> Agreeing(gs))
  {
    SecondPassChangesNothing(a, b, c, cfg, gs);
    NothingLeftIff(a, b, cfg, gs);
  }

  /** Two clean passes in a row over the same LDAP answer: the second leaves the
      store as it is, and makes no create, add or remove call exactly when
      entries mapped to one team want the same users; in particular when no team
      has two entries. */
  lemma {:induction false} SecondPassIsQuiet(a: Store, n0: Tally, b: Store, n1: Tally, c: Store, n2: Tally,
                                             cfg: Config, entries: seq<Entry>,
                                             misses: seq<multiset<string>>, gs: seq<Goal>,
                                             misses': seq<multiset<string>>, gs': seq<Goal>)
    requires ValidStore(b) && ValidStore(c)
    requires PassOf(a, n0, b, n1, cfg, entries, misses, gs) && AllClean(n0, n1)
    requires PassOf(b, n1, c, n2, cfg, entries, misses', gs') && AllClean(n1, n2)
    ensures c == b
    ensures n2.writes == n1.writes <==> Consistent(a.users, Mapped(cfg, entries))
  {
    CleanGoals(a, n0, b, n1, cfg, entries, misses, gs);
    CleanGoals(b, n1, c, n2, cfg, entries, misses', gs');
    SameGoalsAgain(a, n0, b, n1, c, n2, cfg, gs);
  }

  const RIVAL_MAPPING := [GroupMapping("g", "team"), GroupMapping("h", "team")]
  const RIVAL_ENTRIES := [Entry("g", ["u"]), Entry("h", ["v"])]
  const RIVAL_USERS := map["u" := 1, "v" := 2]

  lemma RivalTargets()
    ensures Mapped(Config(RIVAL_MAPPING, []), RIVAL_ENTRIES) == [Target("team", ["u"]), Target("team", ["v"])]
  {
    var ms, entries := RIVAL_MAPPING, RIVAL_ENTRIES;
    assert ms[..1] == [GroupMapping("g", "team")] && entries[..1] == [Entry("g", ["u"])];
    assert TeamTable(ms[..1][..0]) == map[];
    assert TeamTable(ms) == map["g" := "team", "h" := "team"];
    assert Targets(TeamTable(ms), entries[..1][..0]) == [];
    assert Targets(TeamTable(ms), entries[..1]) == [Target("team", ["u"])];
  }

  lemma WantedOne(users: map<string, int>, l: string)
    requires l != "" && l in users
    ensures Wanted(users, [l]) == {users[l]}
  {
    assert l in [l];
    forall u ensures u in Wanted(users, [l]) <==> u in {users[l]} {}
  }

  lemma RivalsDisagree()
    ensures !Consistent(RIVAL_USERS, Mapped(Config(RIVAL_MAPPING, []), RIVAL_ENTRIES))
    ensures Wanted(RIVAL_USERS, ["v"]) == {2}
  {
    RivalTargets();
    WantedOne(RIVAL_USERS, "u");
    WantedOne(RIVAL_USERS, "v");
    assert 1 in Planned(RIVAL_USERS, [Target("team", ["u"]), Target("team", ["v"])])[0].want;
    var planned := Planned(RIVAL_USERS, [Target("team", ["u"]), Target("team", ["v"])]);
    assert planned[0].team == planned[1].team && planned[0].want != planned[1].want;
  }

  /** Two entries of one team that want different users are never settled: each
      clean pass after the first adds and removes again, and ends where it began. */
  lemma {:induction false} RivalEntriesNeverSettle(a: Store, n0: Tally, b: Store, n1: Tally, c: Store, n2: Tally,
                                                   misses: seq<multiset<string>>, gs: seq<Goal>,
                                                   misses': seq<multiset<string>>, gs': seq<Goal>)
    requires ValidStore(b) && ValidStore(c) && a.users == RIVAL_USERS
    requires PassOf(a, n0, b, n1, Config(RIVAL_MAPPING, []), RIVAL_ENTRIES, misses, gs) && AllClean(n0, n1)
    requires PassOf(b, n1, c, n2, Config(RIVAL_MAPPING, []), RIVAL_ENTRIES, misses', gs') && AllClean(n1, n2)
    ensures MembersOf(b, "team") == Some({2}) && c == b && n2.writes > n1.writes
  {
    var cfg := Config(RIVAL_MAPPING, []);
    RivalTargets();
    RivalsDisagree();
    LastEntryWins(a, n0, b, n1, cfg, RIVAL_ENTRIES, misses, gs, 1);
    SecondPassIsQuiet(a, n0, b, n1, c, n2, cfg, RIVAL_ENTRIES, misses, gs, misses', gs');
  }

  // ------------------------------------------------------ runs with failing calls

  /** Any number of passes with these goals, in which any calls may fail, and may
      fail after they took effect. The goals of pass `i` are what its LDAP
      answer and its user lookups, failed ones included, made them. */
  ghost predicate Run(ss: seq<Store>, gss: seq<seq<Goal>>, cfg: Config) {
    && |ss| == |gss| + 1
    && forall i | 0 <= i < |gss| :: Pass(ss, gss, i, cfg)
  }

  ghost predicate Pass(ss: seq<Store>, gss: seq<seq<Goal>>, i: nat, cfg: Config)
    requires i < |gss| < |ss|
  {
    PassBounds(ss[i], ss[i + 1], cfg, gss[i])
  }

  lemma RunFront(ss: seq<Store>, gss: seq<seq<Goal>>, cfg: Config)
    requires Run(ss, gss, cfg) && gss != []
    ensures Run(ss[..|gss|], gss[..|gss| - 1], cfg)
    ensures PassBounds(ss[|gss| - 1], ss[|gss|], cfg, gss[|gss| - 1])
  {
    var front, gfront := ss[..|gss|], gss[..|gss| - 1];
    forall i | 0 <= i < |gfront| ensures Pass(front, gfront, i, cfg) {
      assert Pass(ss, gss, i, cfg);
    }
    assert Pass(ss, gss, |gss| - 1, cfg);
  }

  /** While all goals of a team want the same users `d` in every pass, its
      distance from `d` never grows, no wanted member is ever lost and nobody
      unwanted ever gained, whatever happens to other teams and their lookups. */
  lemma {:induction false} DistanceNeverGrows(ss: seq<Store>, gss: seq<seq<Goal>>, cfg: Config, n: string, d: set<int>)
    requires Run(ss, gss, cfg) && forall i | 0 <= i < |gss| :: AllWant(gss[i], n, d)
    ensures var m0, m := StartOf(ss[0], n), StartOf(ss[|ss| - 1], n);
      Distance(m, d) <= Distance(m0, d) && m0 * d <= m <= m0 + d
    ensures Kept(ss[0], ss[|ss| - 1])
    ensures MembersOf(ss[0], n).Some? ==>
              && MembersOf(ss[|ss| - 1], n).Some?
              && Between(MembersOf(ss[0], n).value, MembersOf(ss[|ss| - 1], n).value, d)
  {
    if gss != [] {
      var k := |gss| - 1;
      RunFront(ss, gss, cfg);
      DistanceNeverGrows(ss[..|gss|], gss[..k], cfg, n, d);
      KeptTransitive(ss[0], ss[k], ss[k + 1]);
      OnePass(ss[k], ss[k + 1], cfg, gss[k], n, d);
    }
  }

  lemma BetweenTransitive(m0: set<int>, m1: set<int>, m2: set<int>, d: set<int>)
    requires Between(m0, m1, d) && Between(m1, m2, d)
    ensures Between(m0, m2, d)
  {
    forall u | u in m0 * d ensures u in m2 {
      assert u in m1 * d;
    }
    forall u | u in m2 ensures u in m0 + d {
      assert u in m1 + d;
    }
  }

  lemma OnePass(a: Store, b: Store, cfg: Config, gs: seq<Goal>, n: string, d: set<int>)
    requires PassBounds(a, b, cfg, gs) && AllWant(gs, n, d)
    ensures Between(StartOf(a, n), StartOf(b, n), d)
    ensures MembersOf(a, n).Some? ==> MembersOf(b, n).Some?
  {
    assert GoalsEffect(a, b, gs, n);
    if MembersOf(b, n).Some? {
      var m := MembersOf(b, n).value;
      assert MembersEffect(a, gs, n, m);
      forall u | u in m ensures u in StartOf(a, n) + d {
        assert u !in StartOf(a, n) ==> WantedBySome(gs, n, u);
      }
      forall u | u in StartOf(a, n) * d ensures u in m {
        assert WantedByAll(gs, n, u);
      }
    }
  }

  /** A run with the tallies between its passes and the same goals in each. */
  ghost predicate TalliedRun(ss: seq<Store>, ns: seq<Tally>, cfg: Config, gs: seq<Goal>) {
    && ss != [] && |ns| == |ss|
    && forall i | 0 <= i < |ss| - 1 :: TalliedPass(ss, ns, i, cfg, gs)
  }

  ghost predicate TalliedPass(ss: seq<Store>, ns: seq<Tally>, i: nat, cfg: Config, gs: seq<Goal>)
    requires i + 1 < |ss| == |ns|
  {
    PassDone(ss[i], ns[i], ss[i + 1], ns[i + 1], cfg, gs)
  }

  lemma TalliedFront(ss: seq<Store>, ns: seq<Tally>, cfg: Config, gs: seq<Goal>)
    requires TalliedRun(ss, ns, cfg, gs) && |ss| > 1
    ensures TalliedRun(ss[..|ss| - 1], ns[..|ns| - 1], cfg, gs)
    ensures PassDone(ss[|ss| - 2], ns[|ss| - 2], ss[|ss| - 1], ns[|ss| - 1], cfg, gs)
  {
    var front, nfront := ss[..|ss| - 1], ns[..|ns| - 1];
    forall i | 0 <= i < |front| - 1 ensures TalliedPass(front, nfront, i, cfg, gs) {
      assert TalliedPass(ss, ns, i, cfg, gs);
    }
    assert TalliedPass(ss, ns, |ss| - 2, cfg, gs);
  }

  /** Every membership call reported successful in a run brought the teams one
      user closer, so no run reports more of them than the initial distance. */
  lemma {:induction false} SuccessesAreProgress(ss: seq<Store>, ns: seq<Tally>, cfg: Config, gs: seq<Goal>)
    requires TalliedRun(ss, ns, cfg, gs) && Agreeing(gs)
    ensures TotalDistance(ss[|ss| - 1], gs) + ns[|ns| - 1].successes <= TotalDistance(ss[0], gs) + ns[0].successes
  {
    if |ss| > 1 {
      TalliedFront(ss, ns, cfg, gs);
      SuccessesAreProgress(ss[..|ss| - 1], ns[..|ns| - 1], cfg, gs);
    }
  }

  /** Once as many calls were reported successful as users were out of place,
      every team that exists holds exactly the wanted users. */
  lemma AllAppliedMeansReached(ss: seq<Store>, ns: seq<Tally>, cfg: Config, gs: seq<Goal>, k: nat)
    requires TalliedRun(ss, ns, cfg, gs) && Agreeing(gs) && k < |gs|
    requires ns[|ns| - 1].successes == ns[0].successes + TotalDistance(ss[0], gs)
    ensures var s := ss[|ss| - 1];
      Taken(s, gs[k].team) ==> MembersOf(s, gs[k].team) == Some(gs[k].want)
  {
    var s := ss[|ss| - 1];
    SuccessesAreProgress(ss, ns, cfg, gs);
    ZeroEverywhere(s, gs, k);
    ZeroDistance(StartOf(s, gs[k].team), gs[k].want);
  }

  lemma {:induction false} ZeroEverywhere(s: Store, gs: seq<Goal>, k: nat)
    requires k < |gs| && Agreeing(gs) && TotalDistance(s, gs) == 0
    ensures Distance(StartOf(s, gs[k].team), gs[k].want) == 0
  {
    var front, g := gs[..|gs| - 1], gs[|gs| - 1];
    assert gs == front + [g];
    AgreeingStep(front, g);
    if k < |front| {
      ZeroEverywhere(s, front, k);
    } else if Targeted(front, g.team) {
      var j :| 0 <= j < |front| && front[j].team == g.team;
      ZeroEverywhere(s, front, j);
    }
  }

  /** The users out of place, each with the team. */
  ghost function OutOfPlace(s: Store, gs: seq<Goal>): set<(string, int)> {
    if gs == [] then {}
    else OutOfPlace(s, gs[..|gs| - 1]) + MisfitsOf(s, gs[|gs| - 1])
  }

  ghost function MisfitsOf(s: Store, g: Goal): set<(string, int)> {
    Pairs(g.team, (StartOf(s, g.team) - g.want) + (g.want - StartOf(s, g.team)))
  }

  ghost function Pairs<T>(team: string, us: set<T>): set<(string, T)> {
    set u | u in us :: (team, u)
  }

  lemma {:induction false} PairsAreAsMany<T>(team: string, us: set<T>)
    ensures |Pairs(team, us)| == |us|
  {
    if us != {} {
      var u :| u in us;
      PairsAreAsMany(team, us - {u});
      assert Pairs(team, us) == Pairs(team, us - {u}) + {(team, u)};
    }
  }

  lemma {:induction false} OutOfPlaceIff(s: Store, gs: seq<Goal>, p: (string, int))
    ensures p in OutOfPlace(s, gs) <==> exists k :: 0 <= k < |gs| && p in MisfitsOf(s, gs[k])
  {
    if gs != [] {
      var front := gs[..|gs| - 1];
      OutOfPlaceIff(s, front, p);
      if p in OutOfPlace(s, front) {
        var k :| 0 <= k < |front| && p in MisfitsOf(s, front[k]);
        assert p in MisfitsOf(s, gs[k]);
      }
    }
  }

  /** The total distance is the number of users out of place. */
  lemma {:induction false} TotalDistanceCounts(s: Store, gs: seq<Goal>)
    requires Agreeing(gs)
    ensures TotalDistance(s, gs) == |OutOfPlace(s, gs)|
  {
    if gs != [] {
      var front, g := gs[..|gs| - 1], gs[|gs| - 1];
      assert gs == front + [g];
      AgreeingStep(front, g);
      TotalDistanceCounts(s, front);
      PairsAreAsMany(g.team, (StartOf(s, g.team) - g.want) + (g.want - StartOf(s, g.team)));
      OneMoreOutOfPlace(s, front, g);
    }
  }

  lemma OneMoreOutOfPlace(s: Store, front: seq<Goal>, g: Goal)
    requires AllWant(front, g.team, g.want)
    ensures |OutOfPlace(s, front) + MisfitsOf(s, g)|
            == |OutOfPlace(s, front)| + if Targeted(front, g.team) then 0 else |MisfitsOf(s, g)|
  {
    if Targeted(front, g.team) {
      var k :| 0 <= k < |front| && front[k].team == g.team;
      forall p | p in MisfitsOf(s, g) ensures p in OutOfPlace(s, front) {
        OutOfPlaceIff(s, front, p);
        assert p in MisfitsOf(s, front[k]);
      }
      assert OutOfPlace(s, front) + MisfitsOf(s, g) == OutOfPlace(s, front);
    } else {
      forall p | p in MisfitsOf(s, g) ensures p !in OutOfPlace(s, front) {
        OutOfPlaceIff(s, front, p);
      }
      assert OutOfPlace(s, front) !! MisfitsOf(s, g);
    }
  }

  lemma ZeroDistance(m: set<int>, d: set<int>)
    requires Distance(m, d) == 0
    ensures m == d
  {
    assert (m - d) + (d - m) == {};
    assert m - d == {} && d - m == {};
  }

  /** A team that no entry is mapped to keeps its members over a whole run,
      whatever fails in it, user lookups included. */
  lemma {:induction false} UntargetedOverRuns(ss: seq<Store>, gss: seq<seq<Goal>>, cfg: Config, n: string)
    requires Run(ss, gss, cfg) && Taken(ss[0], n) && forall i | 0 <= i < |gss| :: !Targeted(gss[i], n)
    ensures MembersOf(ss[|ss| - 1], n) == MembersOf(ss[0], n)
  {
    if gss != [] {
      var k := |gss| - 1;
      RunFront(ss, gss, cfg);
      UntargetedOverRuns(ss[..|gss|], gss[..k], cfg, n);
      assert GoalsEffect(ss[k], ss[k + 1], gss[k], n);
    }
  }
}
