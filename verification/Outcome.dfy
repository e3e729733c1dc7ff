/** What a pass means for teams and folders, said of the configuration, the LDAP
    answer and the stores alone. */
module Outcome {
  import opened Common
  import opened Grafana
  import opened Plan
  import opened Effects
  import opened Passes

  /** The last mapping line that names the group maps it to this team. */
  ghost predicate MapsTo(ms: seq<GroupMapping>, group: string, team: string) {
    exists k :: 0 <= k < |ms| && ms[k] == GroupMapping(group, team)
                && forall j | k < j < |ms| :: ms[j].adGroup != group
  }

  /** One of the logins stands for user `u`. */
  ghost predicate Lists(users: map<string, int>, logins: seq<string>, u: int) {
    exists l :: l in logins && l != "" && l in users && users[l] == u
  }

  lemma {:induction false} TableMapsTo(ms: seq<GroupMapping>, group: string, team: string)
    ensures MapsTo(ms, group, team) <==> group in TeamTable(ms) && TeamTable(ms)[group] == team
  {
    if ms != [] {
      var n := |ms| - 1;
      var front := ms[..n];
      TableMapsTo(front, group, team);
      if ms[n].adGroup == group {
        assert MapsTo(ms, group, team) ==> ms[n].grafanaTeam == team;
        assert ms[n] == GroupMapping(group, team) ==> MapsTo(ms, group, team);
      } else {
        MapsInFront(ms, group, team);
      }
    }
  }

  lemma MapsInFront(ms: seq<GroupMapping>, group: string, team: string)
    requires ms != [] && ms[|ms| - 1].adGroup != group
    ensures MapsTo(ms, group, team) <==> MapsTo(ms[..|ms| - 1], group, team)
  {
    var front := ms[..|ms| - 1];
    if MapsTo(ms, group, team) {
      var k :| 0 <= k < |ms| && ms[k] == GroupMapping(group, team) && forall j | k < j < |ms| :: ms[j].adGroup != group;
      assert front[k] == GroupMapping(group, team) && forall j | k < j < |front| :: front[j] == ms[j];
    }
    if MapsTo(front, group, team) {
      var k :| 0 <= k < |front| && front[k] == GroupMapping(group, team)
        && forall j | k < j < |front| :: front[j].adGroup != group;
      assert ms[k] == GroupMapping(group, team);
      assert forall j | k < j < |ms| :: ms[j].adGroup != group by {
        assert forall j | k < j < |front| :: front[j] == ms[j];
      }
    }
  }

  /** After a clean pass the team of the last entry mapped to it has exactly the
      users that this entry lists. */
  lemma TeamHasLastEntry(a: Store, n0: Tally, b: Store, n: Tally, cfg: Config, entries: seq<Entry>,
                         misses: seq<multiset<string>>, gs: seq<Goal>, i: nat, team: string)
    requires PassOf(a, n0, b, n, cfg, entries, misses, gs) && AllClean(n0, n)
    requires i < |entries| && MapsTo(cfg.groupsMapping, entries[i].group, team)
    requires forall j | i < j < |entries| :: !MapsTo(cfg.groupsMapping, entries[j].group, team)
    ensures exists id :: LiveAs(b, id, team)
                         && forall u :: u in b.teams[id].members <==> Lists(a.users, entries[i].members, u)
  {
    var table := TeamTable(cfg.groupsMapping);
    TableMapsTo(cfg.groupsMapping, entries[i].group, team);
    var k := TargetOf(table, entries, i);
    forall k' | k < k' < |Mapped(cfg, entries)| ensures Mapped(cfg, entries)[k'].team != team {
      assert IsFromLater(table, entries, i, k');
      var i' :| i < i' && IsTargetOf(table, entries, i', k');
      TableMapsTo(cfg.groupsMapping, entries[i'].group, team);
    }
    LastEntryWins(a, n0, b, n, cfg, entries, misses, gs, k);
    forall u ensures u in Wanted(a.users, entries[i].members) <==> Lists(a.users, entries[i].members, u) {}
    assert LiveAs(b, IdOf(b, team), team);
  }

  /** A pass, whatever fails in it, leaves every existing team alone to which no
      entry is mapped. */
  lemma OtherTeamsStay(a: Store, n0: Tally, b: Store, n: Tally, cfg: Config, entries: seq<Entry>,
                       misses: seq<multiset<string>>, gs: seq<Goal>, id: int)
    requires ValidStore(a) && ValidStore(b) && PassOf(a, n0, b, n, cfg, entries, misses, gs) && id in a.teams
    requires forall i | 0 <= i < |entries| :: !MapsTo(cfg.groupsMapping, entries[i].group, a.teams[id].name)
    ensures id in b.teams && b.teams[id] == a.teams[id]
  {
    var table, team := TeamTable(cfg.groupsMapping), a.teams[id].name;
    MembersOfLive(a, id, team);
    forall k | 0 <= k < |Mapped(cfg, entries)| ensures Mapped(cfg, entries)[k].team != team {
      var i := EntryOf(table, entries, k);
      TableMapsTo(cfg.groupsMapping, entries[i].group, team);
    }
    UntargetedIsUnchanged(a, n0, b, n, cfg, entries, misses, gs, team);
    assert LiveAs(b, id, team);
    MembersOfLive(b, id, team);
  }

  /** Whatever fails in a pass, nobody becomes a member of an existing team whom
      no entry mapped to the team lists. */
  lemma NobodyElseJoins(a: Store, n0: Tally, b: Store, n: Tally, cfg: Config, entries: seq<Entry>,
                        misses: seq<multiset<string>>, gs: seq<Goal>, id: int, u: int) returns (i: nat)
    requires ValidStore(a) && ValidStore(b) && PassOf(a, n0, b, n, cfg, entries, misses, gs) && id in a.teams
    requires id in b.teams && u in b.teams[id].members && u !in a.teams[id].members
    ensures i < |entries| && MapsTo(cfg.groupsMapping, entries[i].group, a.teams[id].name)
    ensures Lists(a.users, entries[i].members, u)
  {
    var team := a.teams[id].name;
    MembersOfLive(a, id, team);
    assert LiveAs(b, id, team);
    MembersOfLive(b, id, team);
    assert GoalsEffect(a, b, gs, team);
    assert WantedBySome(gs, team, u);
    var k :| 0 <= k < |gs| && gs[k].team == team && u in gs[k].want;
    assert LookedUpNth(a.users, Mapped(cfg, entries), misses, gs, k);
    i := EntryOf(TeamTable(cfg.groupsMapping), entries, k);
    TableMapsTo(cfg.groupsMapping, entries[i].group, team);
  }

  /** Whatever fails in a pass, a member stays for whom every entry mapped to the
      team lists a login whose lookups all succeed. */
  lemma ListedMembersStay(a: Store, n0: Tally, b: Store, n: Tally, cfg: Config, entries: seq<Entry>,
                          misses: seq<multiset<string>>, gs: seq<Goal>, id: int, u: int)
    requires ValidStore(a) && ValidStore(b) && PassOf(a, n0, b, n, cfg, entries, misses, gs) && id in a.teams
    requires u in a.teams[id].members
    requires forall i | 0 <= i < |entries| && MapsTo(cfg.groupsMapping, entries[i].group, a.teams[id].name) ::
               ListsFound(a.users, entries[i].members, u, n0, n)
    ensures id in b.teams && u in b.teams[id].members
  {
    var team, ts, table := a.teams[id].name, Mapped(cfg, entries), TeamTable(cfg.groupsMapping);
    MembersOfLive(a, id, team);
    assert LiveAs(b, id, team);
    MembersOfLive(b, id, team);
    forall k | 0 <= k < |ts| && ts[k].team == team
      ensures u in Wanted(a.users, ts[k].logins) && ListsFound(a.users, ts[k].logins, u, n0, n)
    {
      var i := EntryOf(table, entries, k);
      TableMapsTo(cfg.groupsMapping, entries[i].group, team);
      assert ListsFound(a.users, entries[i].members, u, n0, n);
    }
    forall k | 0 <= k < |ts| && ts[k].team == team ensures !NeverFound(a.users, ts[k].logins, misses[k], u) {
      assert LookedUpNth(a.users, ts, misses, gs, k);
      AtMostAllMissed(misses, k);
      var l :| l in ts[k].logins && l != "" && l in a.users && a.users[l] == u && n.missed[l] == n0.missed[l];
      assert l in multiset(ts[k].logins);
    }
    if u !in b.teams[id].members {
      var k := LostOnlyIfNeverFound(a, n0, b, n, cfg, entries, misses, gs, team, u);
    }
  }

  /** One of the logins stands for `u`, and no lookup of it failed. */
  ghost predicate ListsFound(users: map<string, int>, logins: seq<string>, u: int, n0: Tally, n: Tally) {
    exists l :: l in logins && l != "" && l in users && users[l] == u && n.missed[l] == n0.missed[l]
  }

  /** When nothing but lookups fails, the first folder of a configured title has,
      for each permission configured for the title and in that order, an item of
      the live team of that name: level 2 for "Edit", 4 for "Admin", otherwise 1. */
  lemma FolderHasPermissions(a: Store, n0: Tally, b: Store, n: Tally, cfg: Config, entries: seq<Entry>,
                             misses: seq<multiset<string>>, gs: seq<Goal>, f: nat, title: string, j: nat)
    requires PassOf(a, n0, b, n, cfg, entries, misses, gs) && n.dirty == n0.dirty
    requires f < |a.folders| && a.folders[f].title == title
    requires forall g | 0 <= g < f :: a.folders[g].title != title
    requires j < |cfg.folderPermissions| && cfg.folderPermissions[j].folder == title
    ensures var perms, uid := cfg.folderPermissions, a.folders[f].uid;
      && uid in b.tables
      && |b.tables[uid]| == |PlacesOf(perms, title, |perms|)|
      && |PlacesOf(perms, title, j)| < |b.tables[uid]|
      && var item := b.tables[uid][|PlacesOf(perms, title, j)|];
         && item.team in b.teams && b.teams[item.team].name == perms[j].team
         && item.level == if perms[j].permission == "Edit" then 2 else if perms[j].permission == "Admin" then 4 else 1
  {
    var perms := cfg.folderPermissions;
    FolderNamedIsFirst(a.folders, title);
    assert IsFirstTitle(a.folders, title, f);
    assert perms[j] in perms;
    assert Configures(a.folders, perms, title, a.folders[f].uid);
    PermissionsOfPlaces(perms, title);
    assert Renders(b, b.tables[a.folders[f].uid], PermissionsOf(perms, title));
  }

  /** A pass, whatever fails in it, leaves the table of every folder alone that is
      not the first folder of a configured title. */
  lemma OtherTablesStay(a: Store, n0: Tally, b: Store, n: Tally, cfg: Config, entries: seq<Entry>,
                        misses: seq<multiset<string>>, gs: seq<Goal>, uid: string)
    requires PassOf(a, n0, b, n, cfg, entries, misses, gs) && uid in a.tables
    requires forall f, j | 0 <= f < |a.folders| && a.folders[f].uid == uid && 0 <= j < |cfg.folderPermissions|
                        && cfg.folderPermissions[j].folder == a.folders[f].title ::
               exists g :: 0 <= g < f && a.folders[g].title == a.folders[f].title
    ensures uid in b.tables && b.tables[uid] == a.tables[uid]
  {
    if b.tables[uid] != a.tables[uid] {
      var title :| Configures(a.folders, cfg.folderPermissions, title, uid);
      FolderNamedIsFirst(a.folders, title);
    }
  }
}
