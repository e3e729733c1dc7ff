/** What a synchronization pass is supposed to achieve, stated without loops,
    team ids or iteration orders: from the configuration, the LDAP answer and
    the store the pass starts from. */
module Plan {
  import opened Common
  import opened Grafana

  datatype GroupMapping = GroupMapping(adGroup: string, grafanaTeam: string)
  datatype FolderPermission = FolderPermission(folder: string, team: string, permission: string)
  datatype Config = Config(groupsMapping: seq<GroupMapping>, folderPermissions: seq<FolderPermission>)

  /** One group of the LDAP answer: its name and its member attribute values. */
  datatype Entry = Entry(group: string, members: seq<string>)

  /** One mapped group: the team it must become and the logins it must hold. */
  datatype Target = Target(team: string, logins: seq<string>)

  // ------------------------------------------------------------ groups to teams

  /** The lookup table built from the mapping list; later lines win. */
  function TeamTable(ms: seq<GroupMapping>): map<string, string> {
    if ms == [] then map[]
    else TeamTable(ms[..|ms| - 1])[ms[|ms| - 1].adGroup := ms[|ms| - 1].grafanaTeam]
  }

  /** A group is mapped by the last line that names it, and by no other. */
  lemma {:induction false} LastMappingWins(ms: seq<GroupMapping>, group: string)
    ensures group in TeamTable(ms) <==> exists k :: 0 <= k < |ms| && ms[k].adGroup == group
    ensures forall k | 0 <= k < |ms| && ms[k].adGroup == group
              && (forall j | k < j < |ms| :: ms[j].adGroup != group)
              :: TeamTable(ms)[group] == ms[k].grafanaTeam
  {
    if ms != [] {
      var front := ms[..|ms| - 1];
      LastMappingWins(front, group);
      if group in TeamTable(front) {
        var k :| 0 <= k < |front| && front[k].adGroup == group;
        assert ms[k].adGroup == group;
      }
      assert forall k | 0 <= k < |front| :: front[k] == ms[k];
    }
  }

  /** The mapped groups of the LDAP answer, in its order. */
  function Targets(table: map<string, string>, entries: seq<Entry>): seq<Target> {
    if entries == [] then []
    else
      var e := entries[|entries| - 1];
      Targets(table, entries[..|entries| - 1])
      + if e.group in table then [Target(table[e.group], e.members)] else []
  }

  /** Each mapped entry has its own target, and what follows that target comes
      from later entries. */
  lemma {:induction false} TargetOf(table: map<string, string>, entries: seq<Entry>, i: nat) returns (k: nat)
    requires i < |entries| && entries[i].group in table
    ensures k < |Targets(table, entries)| && IsTargetOf(table, entries, i, k)
    ensures forall k' | k < k' < |Targets(table, entries)| :: IsFromLater(table, entries, i, k')
  {
    var n := |entries| - 1;
    var front := entries[..n];
    if i < n {
      k := TargetOf(table, front, i);
      TargetsOfFront(table, entries);
      forall k' | k < k' < |Targets(table, entries)| ensures IsFromLater(table, entries, i, k') {
        if k' < |Targets(table, front)| {
          assert IsFromLater(table, front, i, k');
          var i' :| i < i' && IsTargetOf(table, front, i', k');
          assert IsTargetOf(table, entries, i', k');
        } else {
          assert IsTargetOf(table, entries, n, k');
        }
      }
    } else {
      k := |Targets(table, front)|;
    }
  }

  /** Every target comes from an entry that is mapped to its team. */
  lemma {:induction false} EntryOf(table: map<string, string>, entries: seq<Entry>, k: nat) returns (i: nat)
    requires k < |Targets(table, entries)|
    ensures IsTargetOf(table, entries, i, k)
  {
    var n := |entries| - 1;
    if k < |Targets(table, entries[..n])| {
      i := EntryOf(table, entries[..n], k);
      TargetsOfFront(table, entries);
    } else {
      i := n;
    }
  }

  ghost predicate IsTargetOf(table: map<string, string>, entries: seq<Entry>, i: int, k: int) {
    && 0 <= i < |entries| && 0 <= k < |Targets(table, entries)| && entries[i].group in table
    && Targets(table, entries)[k] == Target(table[entries[i].group], entries[i].members)
  }

  /** Target `k` comes from an entry after entry `i`. */
  ghost predicate IsFromLater(table: map<string, string>, entries: seq<Entry>, i: int, k: int) {
    exists j :: i < j && IsTargetOf(table, entries, j, k)
  }

  lemma TargetsOfFront(table: map<string, string>, entries: seq<Entry>)
    requires entries != []
    ensures var front := entries[..|entries| - 1];
      && Targets(table, front) <= Targets(table, entries)
      && forall i, k | IsTargetOf(table, front, i, k) :: IsTargetOf(table, entries, i, k)
  {
  }

  /** There are as many targets as mapped entries. */
  lemma {:induction false} OneTargetEach(table: map<string, string>, entries: seq<Entry>)
    ensures |Targets(table, entries)| == |MappedEntries(table, entries)|
  {
    if entries != [] {
      var n := |entries| - 1;
      var front := entries[..n];
      OneTargetEach(table, front);
      assert forall i | 0 <= i < n :: front[i] == entries[i];
      assert MappedEntries(table, entries)
          == MappedEntries(table, front) + if entries[n].group in table then {n} else {};
    }
  }

  function MappedEntries(table: map<string, string>, entries: seq<Entry>): set<nat> {
    set i: nat | i < |entries| && entries[i].group in table
  }

  function Mapped(cfg: Config, entries: seq<Entry>): seq<Target> {
    Targets(TeamTable(cfg.groupsMapping), entries)
  }

  /** The Grafana users a list of logins stands for. Empty values and logins
      without a Grafana user do not count. */
  function Wanted(users: map<string, int>, logins: seq<string>): set<int> {
    set l | l in logins && l != "" && l in users :: users[l]
  }

  /** Those of them that are found when the lookups of `missed` fail: a user is
      found unless every lookup of every login that stands for it fails. */
  function FoundUsers(users: map<string, int>, logins: seq<string>, missed: multiset<string>): set<int> {
    set l | l in logins && l != "" && l in users && missed[l] < multiset(logins)[l] :: users[l]
  }

  /** What a pass makes of a target: the team and the users that were found. */
  datatype Goal = Goal(team: string, want: set<int>)

  /** The goals of a pass in which no lookup fails. */
  function Planned(users: map<string, int>, ts: seq<Target>): seq<Goal> {
    seq(|ts|, k requires 0 <= k < |ts| => Goal(ts[k].team, Wanted(users, ts[k].logins)))
  }

  /** `gs` are the goals of a pass in which, at target `k`, the lookups of
      `misses[k]` failed. */
  ghost predicate LookedUp(users: map<string, int>, ts: seq<Target>, misses: seq<multiset<string>>, gs: seq<Goal>) {
    && |misses| == |gs| == |ts|
    && forall k | 0 <= k < |ts| :: LookedUpNth(users, ts, misses, gs, k)
  }

  ghost predicate LookedUpNth(users: map<string, int>, ts: seq<Target>, misses: seq<multiset<string>>, gs: seq<Goal>,
                              k: nat)
    requires k < |misses| == |gs| == |ts|
  {
    LookedUpAt(users, ts[k], misses[k], gs[k])
  }

  ghost predicate LookedUpAt(users: map<string, int>, t: Target, missed: multiset<string>, g: Goal) {
    g == Goal(t.team, FoundUsers(users, t.logins, missed)) && missed <= multiset(t.logins)
  }

  function AllMissed(misses: seq<multiset<string>>): multiset<string> {
    if misses == [] then multiset{} else AllMissed(misses[..|misses| - 1]) + misses[|misses| - 1]
  }

  lemma LookedUpStep(users: map<string, int>, ts: seq<Target>, misses: seq<multiset<string>>, gs: seq<Goal>,
                     t: Target, missed: multiset<string>, g: Goal)
    requires LookedUp(users, ts, misses, gs) && LookedUpAt(users, t, missed, g)
    ensures LookedUp(users, ts + [t], misses + [missed], gs + [g])
    ensures AllMissed(misses + [missed]) == AllMissed(misses) + missed
  {
    assert (misses + [missed])[..|misses|] == misses;
    forall k | 0 <= k <= |ts| ensures LookedUpNth(users, ts + [t], misses + [missed], gs + [g], k) {
      assert k < |ts| ==> LookedUpNth(users, ts, misses, gs, k);
    }
  }

  lemma {:induction false} NoneMissed(users: map<string, int>, ts: seq<Target>, misses: seq<multiset<string>>,
                                      gs: seq<Goal>)
    requires LookedUp(users, ts, misses, gs) && AllMissed(misses) == multiset{}
    ensures gs == Planned(users, ts)
  {
    forall k | 0 <= k < |ts| ensures gs[k] == Planned(users, ts)[k] {
      AtMostAllMissed(misses, k);
      assert LookedUpNth(users, ts, misses, gs, k);
      assert forall l | l in ts[k].logins :: l in multiset(ts[k].logins);
    }
  }

  lemma {:induction false} AtMostAllMissed(misses: seq<multiset<string>>, k: nat)
    requires k < |misses|
    ensures misses[k] <= AllMissed(misses)
  {
    if k < |misses| - 1 {
      AtMostAllMissed(misses[..|misses| - 1], k);
    }
  }

  /** One more lookup, failed or not. */
  lemma FoundStep(users: map<string, int>, logins: seq<string>, i: nat, missed: multiset<string>, fails: bool)
    requires i < |logins| && missed <= multiset(logins[..i])
    ensures var l, missed' := logins[i], if fails then missed + multiset{logins[i]} else missed;
      && missed' <= multiset(logins[..i + 1])
      && FoundUsers(users, logins[..i + 1], missed')
         == FoundUsers(users, logins[..i], missed) + if !fails && l != "" && l in users then {users[l]} else {}
  {
    var l, front, all := logins[i], logins[..i], logins[..i + 1];
    assert all == front + [l];
    var missed' := if fails then missed + multiset{l} else missed;
    forall x: string
      ensures multiset(all)[x] - missed'[x] == multiset(front)[x] - missed[x] + if x == l && !fails then 1 else 0
    {
    }
    forall x: string ensures missed[x] < multiset(front)[x] ==> x in front {
      assert multiset(front)[x] > 0 ==> x in multiset(front);
    }
    forall x: string ensures x in front ==> x in all {}
    if fails {
      assert missed'[l] < multiset(all)[l] <==> missed[l] < multiset(front)[l];
    }
  }

  /** The members wanted by the last goal that names `team`. */
  function LastWanted(gs: seq<Goal>, team: string): Option<set<int>> {
    if gs == [] then None
    else if gs[|gs| - 1].team == team then Some(gs[|gs| - 1].want)
    else LastWanted(gs[..|gs| - 1], team)
  }

  /** `LastWanted` read off the list: it is what goal `k` wants exactly when
      `k` is the last one for the team, and nothing when the team has no goal. */
  lemma {:induction false} LastWantedIsLast(gs: seq<Goal>, team: string)
    ensures LastWanted(gs, team).None? <==> forall k | 0 <= k < |gs| :: gs[k].team != team
    ensures forall k | 0 <= k < |gs| && gs[k].team == team && (forall j | k < j < |gs| :: gs[j].team != team)
              :: LastWanted(gs, team) == Some(gs[k].want)
  {
    if gs != [] && gs[|gs| - 1].team != team {
      var front := gs[..|gs| - 1];
      LastWantedIsLast(front, team);
      assert forall k | 0 <= k < |front| :: front[k] == gs[k];
    }
  }

  // --------------------------------------------------------- folder permissions

  /** The configured permissions of one folder, in configuration order. */
  function PermissionsOf(perms: seq<FolderPermission>, folder: string): seq<FolderPermission> {
    if perms == [] then []
    else
      var p := perms[|perms| - 1];
      PermissionsOf(perms[..|perms| - 1], folder) + if p.folder == folder then [p] else []
  }

  /** The places of the permissions of a folder before place `n`. */
  function PlacesOf(perms: seq<FolderPermission>, folder: string, n: nat): set<nat> {
    set j: nat | j < n && j < |perms| && perms[j].folder == folder
  }

  /** The permissions of a folder are as many as its places in the list, and each
      stands behind as many as come before it there. */
  lemma {:induction false} PermissionsOfPlaces(perms: seq<FolderPermission>, folder: string)
    ensures |PermissionsOf(perms, folder)| == |PlacesOf(perms, folder, |perms|)|
    ensures forall j: nat | j < |perms| && perms[j].folder == folder ::
              var k := |PlacesOf(perms, folder, j)|;
              k < |PermissionsOf(perms, folder)| && PermissionsOf(perms, folder)[k] == perms[j]
  {
    if perms != [] {
      var n := |perms| - 1;
      var front := perms[..n];
      PermissionsOfPlaces(front, folder);
      PlacesInFront(perms, folder);
    }
  }

  lemma PlacesInFront(perms: seq<FolderPermission>, folder: string)
    requires perms != []
    ensures var n := |perms| - 1;
      && (forall j: nat | j <= n :: PlacesOf(perms[..n], folder, j) == PlacesOf(perms, folder, j))
      && |PlacesOf(perms, folder, |perms|)| == |PlacesOf(perms, folder, n)| + if perms[n].folder == folder then 1 else 0
  {
    var n := |perms| - 1;
    forall j: nat | j <= n ensures PlacesOf(perms[..n], folder, j) == PlacesOf(perms, folder, j) {
      forall x: nat ensures x in PlacesOf(perms[..n], folder, j) <==> x in PlacesOf(perms, folder, j) {}
    }
    assert PlacesOf(perms, folder, |perms|)
        == PlacesOf(perms, folder, n) + if perms[n].folder == folder then {n} else {};
  }

  /** The grouping of lines 280-283: each folder with its permissions. */
  ghost predicate IsRegrouping(groups: map<string, seq<FolderPermission>>, perms: seq<FolderPermission>) {
    && (forall f :: f in groups <==> exists p :: p in perms && p.folder == f)
    && (forall f | f in groups :: groups[f] == PermissionsOf(perms, f))
  }

  /** The groups one after another, in the order in which the folders are visited. */
  function Flatten(groups: map<string, seq<FolderPermission>>, order: seq<string>): seq<FolderPermission>
    requires forall f | f in order :: f in groups
  {
    if order == [] then [] else groups[order[0]] + Flatten(groups, order[1..])
  }

  /** Grouping neither loses, repeats nor invents a permission, in whatever
      order the folders are visited. */
  lemma {:induction false} RegroupingKeepsAll(groups: map<string, seq<FolderPermission>>,
                                              perms: seq<FolderPermission>, order: seq<string>)
    requires IsRegrouping(groups, perms)
    requires forall f :: f in order <==> f in groups
    requires forall i, j | 0 <= i < j < |order| :: order[i] != order[j]
    ensures multiset(Flatten(groups, order)) == multiset(perms)
  {
    forall p: FolderPermission ensures multiset(Flatten(groups, order))[p] == multiset(perms)[p] {
      FlattenCounts(groups, perms, order, p);
      if p.folder !in order {
        assert p !in perms;
      }
    }
  }

  lemma {:induction false} FlattenCounts(groups: map<string, seq<FolderPermission>>,
                                         perms: seq<FolderPermission>, order: seq<string>, p: FolderPermission)
    requires forall f | f in groups :: groups[f] == PermissionsOf(perms, f)
    requires forall f | f in order :: f in groups
    requires forall i, j | 0 <= i < j < |order| :: order[i] != order[j]
    ensures multiset(Flatten(groups, order))[p] == if p.folder in order then multiset(perms)[p] else 0
  {
    if order != [] {
      FlattenCounts(groups, perms, order[1..], p);
      PermissionsOfCounts(perms, order[0], p);
      assert order == [order[0]] + order[1..];
    }
  }

  lemma {:induction false} PermissionsOfCounts(perms: seq<FolderPermission>, folder: string, p: FolderPermission)
    ensures multiset(PermissionsOf(perms, folder))[p] == if p.folder == folder then multiset(perms)[p] else 0
  {
    if perms != [] {
      PermissionsOfCounts(perms[..|perms| - 1], folder, p);
      assert perms == perms[..|perms| - 1] + [perms[|perms| - 1]];
    }
  }

  /** Grouping keeps the configuration order inside a folder: two permissions
      of the folder stand in the group as they stand in the list. */
  lemma {:induction false} RegroupingKeepsOrder(perms: seq<FolderPermission>, i: nat, j: nat)
    requires i < j < |perms| && perms[i].folder == perms[j].folder
    ensures exists a, b :: 0 <= a < b < |PermissionsOf(perms, perms[i].folder)|
                           && PermissionsOf(perms, perms[i].folder)[a] == perms[i]
                           && PermissionsOf(perms, perms[i].folder)[b] == perms[j]
  {
    var folder := perms[i].folder;
    var front := perms[..|perms| - 1];
    if j < |front| {
      RegroupingKeepsOrder(front, i, j);
      var a, b :| 0 <= a < b < |PermissionsOf(front, folder)|
        && PermissionsOf(front, folder)[a] == front[i] && PermissionsOf(front, folder)[b] == front[j];
      assert PermissionsOf(perms, folder)[a] == perms[i] && PermissionsOf(perms, folder)[b] == perms[j];
    } else {
      PermissionsOfCounts(front, folder, perms[i]);
      assert front[i] == perms[i];
      assert perms[i] in multiset(front);
      assert perms[i] in multiset(PermissionsOf(front, folder));
      assert perms[i] in PermissionsOf(front, folder);
      var a :| 0 <= a < |PermissionsOf(front, folder)| && PermissionsOf(front, folder)[a] == perms[i];
      var b := |PermissionsOf(front, folder)|;
      assert PermissionsOf(perms, folder)[a] == perms[i] && PermissionsOf(perms, folder)[b] == perms[j];
    }
  }

  /** A folder permission asks for this team, and its folder exists. */
  ghost predicate NeededByFolder(folders: seq<Folder>, perms: seq<FolderPermission>, team: string) {
    exists p :: p in perms && p.team == team && FolderNamed(folders, p.folder).Some?
  }

  /** A permission table that says, with live team ids, what `fps` says with names. */
  ghost predicate Renders(s: Store, items: seq<Item>, fps: seq<FolderPermission>) {
    && |items| == |fps|
    && forall k | 0 <= k < |items| ::
         LiveAs(s, items[k].team, fps[k].team) && items[k].level == LevelOf(fps[k].permission)
  }

  /** `title` is configured and is the folder `uid` of the store. */
  ghost predicate Configures(folders: seq<Folder>, perms: seq<FolderPermission>, title: string, uid: string) {
    (exists p :: p in perms && p.folder == title) && FolderNamed(folders, title) == Some(uid)
  }

  /** One replacement for each permission, where the source makes one for each
      folder. */
  function ReplaceEach(s: Store, uid: string, items: seq<Item>): Store {
    if items == [] then s
    else Answer(ReplaceEach(s, uid, items[..|items| - 1]), SetPermissions(uid, [items[|items| - 1]]), ALL_WELL).0
  }

  /** Replaced once for each permission, a table keeps the last one only; so
      the grouping makes a difference exactly when there are two or more. */
  lemma {:induction false} ReplacingEachKeepsLast(s: Store, uid: string, items: seq<Item>)
    requires uid in s.tables && items != [] && forall k | 0 <= k < |items| :: items[k].team in s.teams
    ensures ReplaceEach(s, uid, items) == WithTable(s, uid, [items[|items| - 1]])
    ensures Answer(s, SetPermissions(uid, items), ALL_WELL).0 == WithTable(s, uid, items)
    ensures ReplaceEach(s, uid, items) == Answer(s, SetPermissions(uid, items), ALL_WELL).0 <==> |items| == 1
  {
    var front, last := items[..|items| - 1], items[|items| - 1];
    if front != [] {
      ReplacingEachKeepsLast(s, uid, front);
    }
    assert WithTable(s, uid, items).tables[uid] == items;
    assert WithTable(s, uid, [last]).tables[uid] == [last];
    assert |items| == 1 ==> items == [last];
  }

  /** Two titles never stand for the same folder. */
  lemma OneTitlePerFolder(s: Store, t1: string, t2: string)
    requires ValidStore(s)
    requires FolderNamed(s.folders, t1).Some? && FolderNamed(s.folders, t1) == FolderNamed(s.folders, t2)
    ensures t1 == t2
    ensures FolderNamed(s.folders, t1).value in s.tables
  {
    FolderNamedIsFirst(s.folders, t1);
    FolderNamedIsFirst(s.folders, t2);
    var i :| IsFirstTitle(s.folders, t1, i);
    var j :| IsFirstTitle(s.folders, t2, j);
    assert i == j;
  }

  // ------------------------------------------------------------- a pass's result

  /** What every pass keeps, whatever goes wrong: teams, with their ids and
      names, users, folders; a new team has an id never used before. */
  ghost predicate Kept(a: Store, b: Store) {
    && b.users == a.users && b.folders == a.folders && b.founders == a.founders
    && b.tables.Keys == a.tables.Keys
    && a.nextId <= b.nextId
    && a.teams.Keys <= b.teams.Keys
    && (forall id, n | LiveAs(a, id, n) :: LiveAs(b, id, n))
    && (forall id, n | LiveAs(b, id, n) && id !in a.teams :: a.nextId <= id)
    && (a.teams.Keys == b.teams.Keys ==> a.nextId == b.nextId)
  }

  lemma KeptTransitive(a: Store, b: Store, c: Store)
    requires Kept(a, b) && Kept(b, c)
    ensures Kept(a, c)
  {
    forall id, n | LiveAs(c, id, n) && id !in a.teams ensures a.nextId <= id {
      if id in b.teams {
        assert LiveAs(b, id, b.teams[id].name);
      }
    }
  }

  lemma KeptNames(a: Store, b: Store, n: string)
    requires ValidStore(b) && Kept(a, b) && Taken(a, n)
    ensures Taken(b, n) && IdOf(a, n) == IdOf(b, n)
  {
    MembersOfLive(b, IdOf(a, n), n);
  }

  lemma RendersKept(a: Store, b: Store, items: seq<Item>, fps: seq<FolderPermission>)
    requires Kept(a, b) && Renders(a, items, fps)
    ensures Renders(b, items, fps)
  {
  }

  /** The members that team `n` must have after a pass started in `a`; `None`
      when there is no such team. */
  ghost function Expected(a: Store, cfg: Config, gs: seq<Goal>, n: string): Option<set<int>> {
    var wanted := LastWanted(gs, n);
    if wanted.Some? then wanted
    else if MembersOf(a, n).Some? then MembersOf(a, n)
    else if NeededByFolder(a.folders, cfg.folderPermissions, n) then Some(a.founders)
    else None
  }

  /** `b` is what a pass with these goals makes of `a` if nothing goes wrong. */
  ghost predicate PassResult(a: Store, b: Store, cfg: Config, gs: seq<Goal>) {
    && Kept(a, b)
    && (forall n :: MembersOf(b, n) == Expected(a, cfg, gs, n))
    && (forall title, uid | Configures(a.folders, cfg.folderPermissions, title, uid) ::
          uid in b.tables && Renders(b, b.tables[uid], PermissionsOf(cfg.folderPermissions, title)))
    && (forall uid | uid in a.tables && (forall title :: !Configures(a.folders, cfg.folderPermissions, title, uid)) ::
          b.tables[uid] == a.tables[uid])
  }

  // -------------------------------------------------- bounds when calls do fail

  /** How many users separate the members `m` from the wanted set `d`. */
  ghost function Distance(m: set<int>, d: set<int>): nat {
    |(m - d) + (d - m)|
  }

  /** The members team `n` has, or will have when it is created. */
  ghost function StartOf(s: Store, n: string): set<int> {
    var m := MembersOf(s, n);
    if m.Some? then m.value else s.founders
  }

  /** What synchronizing one goal does to all teams when any calls may fail. */
  ghost predicate TeamEffect(a: Store, b: Store, g: Goal) {
    && Kept(a, b) && b.tables == a.tables
    && (forall n | n != g.team :: MembersOf(b, n) == MembersOf(a, n))
    && (MembersOf(b, g.team).None? ==> MembersOf(a, g.team).None?)
    && (MembersOf(b, g.team).Some? ==> Between(StartOf(a, g.team), MembersOf(b, g.team).value, g.want))
  }

  /** `m'` keeps what `m` and the wanted set share, adds only wanted users and is
      no farther from the wanted set. */
  ghost predicate Between(m: set<int>, m': set<int>, d: set<int>) {
    m * d <= m' <= m + d && Distance(m', d) <= Distance(m, d)
  }

  /** What a whole list of goals does to team `n` when any calls may fail. */
  ghost predicate GoalsEffect(a: Store, b: Store, gs: seq<Goal>, n: string) {
    && (MembersOf(b, n).None? ==> MembersOf(a, n).None?)
    && (MembersOf(b, n).Some? ==> MembersEffect(a, gs, n, MembersOf(b, n).value))
  }

  ghost predicate MembersEffect(a: Store, gs: seq<Goal>, n: string, m: set<int>) {
    && (!Targeted(gs, n) ==> m == StartOf(a, n))
    && (forall u | u in m :: u in StartOf(a, n) || WantedBySome(gs, n, u))
    && (forall u | u in StartOf(a, n) && WantedByAll(gs, n, u) :: u in m)
    && (forall d | AllWant(gs, n, d) :: Distance(m, d) <= Distance(StartOf(a, n), d))
  }

  ghost predicate Targeted(gs: seq<Goal>, n: string) {
    exists k :: 0 <= k < |gs| && gs[k].team == n
  }

  ghost predicate WantedBySome(gs: seq<Goal>, n: string, u: int) {
    exists k :: 0 <= k < |gs| && gs[k].team == n && u in gs[k].want
  }

  ghost predicate WantedByAll(gs: seq<Goal>, n: string, u: int) {
    forall k | 0 <= k < |gs| && gs[k].team == n :: u in gs[k].want
  }

  /** Every goal for team `n` wants `d`. */
  ghost predicate AllWant(gs: seq<Goal>, n: string, d: set<int>) {
    forall k | 0 <= k < |gs| && gs[k].team == n :: gs[k].want == d
  }

  /** How one more goal changes what is wanted of team `n`. */
  lemma OneMoreGoal(gs: seq<Goal>, g: Goal, n: string)
    ensures Targeted(gs + [g], n) <==> Targeted(gs, n) || g.team == n
    ensures forall u :: WantedBySome(gs + [g], n, u) <==> WantedBySome(gs, n, u) || (g.team == n && u in g.want)
    ensures forall u :: WantedByAll(gs + [g], n, u) <==> WantedByAll(gs, n, u) && (g.team == n ==> u in g.want)
    ensures forall d :: AllWant(gs + [g], n, d) <==> AllWant(gs, n, d) && (g.team == n ==> g.want == d)
  {
    var all := gs + [g];
    assert all[|gs|] == g;
    assert forall k | 0 <= k < |gs| :: all[k] == gs[k];
  }

  lemma GoalsEffectStep(a: Store, b: Store, c: Store, gs: seq<Goal>, g: Goal, n: string)
    requires Kept(a, b) && GoalsEffect(a, b, gs, n)
    requires MembersOf(b, n).Some? && MembersOf(a, n).None? ==> Targeted(gs, n)
    requires TeamEffect(b, c, g)
    ensures GoalsEffect(a, c, gs + [g], n)
  {
    OneMoreGoal(gs, g, n);
    if n == g.team && MembersOf(c, n).Some? {
      var m, m' := StartOf(b, n), MembersOf(c, n).value;
      assert MembersEffect(a, gs, n, m);
      forall d | AllWant(gs + [g], n, d) ensures Distance(m', d) <= Distance(StartOf(a, n), d) {
        assert AllWant(gs, n, d) && d == g.want;
      }
    }
  }
}
