/** The remote Grafana as the sync worker sees it: a store of teams, users,
    folders and folder permission tables, and the API calls of
    internal/grafana/client.go that read or change it.

    Everything the worker cannot control about one call is its `Fate`: whether
    the call reports failure, whether it took effect all the same, and what the
    possibly stale team search index answers. */
module Grafana {
  import opened Common

  datatype Team = Team(name: string, members: set<int>)
  datatype Folder = Folder(uid: string, title: string)
  datatype Item = Item(team: int, level: int)

  /** `founders` are the users Grafana itself puts in a new team (the API user). */
  datatype Store = Store(
    teams: map<int, Team>,
    nextId: int,
    founders: set<int>,
    users: map<string, int>,
    folders: seq<Folder>,
    tables: map<string, seq<Item>>)

  predicate Taken(s: Store, name: string) {
    exists id | id in s.teams :: s.teams[id].name == name
  }

  predicate LiveAs(s: Store, id: int, name: string) {
    id in s.teams && s.teams[id].name == name
  }

  /** What Grafana's database guarantees: ids are issued once, team names are
      unique, folder uids are unique and each folder has a permission table. */
  ghost predicate ValidStore(s: Store) {
    && 0 < s.nextId
    && (forall id, n | LiveAs(s, id, n) :: 0 < id < s.nextId)
    && (forall i, j, n | LiveAs(s, i, n) && LiveAs(s, j, n) :: i == j)
    && (forall i, j | 0 <= i < j < |s.folders| :: s.folders[i].uid != s.folders[j].uid)
    && (forall f | f in s.folders :: f.uid in s.tables)
    && (forall uid, k | uid in s.tables && 0 <= k < |s.tables[uid]| :: s.tables[uid][k].team < s.nextId)
  }

  datatype Call =
    | SearchTeams(query: string)
    | GetTeam(id: int)
    | CreateTeam(name: string)
    | GetMembers(id: int)
    | AddMember(id: int, user: int)
    | RemoveMember(id: int, user: int)
    | LookupUser(login: string)
    | ListFolders
    | SetPermissions(uid: string, items: seq<Item>)

  datatype Hit = Hit(id: int, name: string)

  datatype Fate = Fate(
    fails: bool,          // the caller is told the call failed
    applies: bool,        // a failed call changed the store all the same
    saysNotFound: bool,   // the error text contains "not found"
    hits: seq<Hit>,       // answer of the search index, current or not
    skip: nat,            // ids the database skips before the next one
    hideTeamId: bool,     // the create reply carries no "teamId"
    hideId: bool)         // the create reply carries no "id"

  const ALL_WELL := Fate(false, false, false, [], 0, false, false)

  datatype Reply =
    | Failed(saysNotFound: bool)
    | Done
    | Hits(hits: seq<Hit>)
    | TeamNamed(name: string)
    | Created(teamId: int, id: int)
    | MembersAre(members: set<int>)
    | UserIs(user: int)
    | FoldersAre(folders: seq<Folder>)

  function WithMembers(s: Store, id: int, members: set<int>): Store
    requires id in s.teams
  {
    s.(teams := s.teams[id := s.teams[id].(members := members)])
  }

  function WithTeam(s: Store, id: int, name: string): Store {
    s.(teams := s.teams[id := Team(name, s.founders)], nextId := id + 1)
  }

  function WithTable(s: Store, uid: string, items: seq<Item>): Store {
    s.(tables := s.tables[uid := items])
  }

  /** The store after a write whose full effect would be `after`. */
  function Effect(before: Store, after: Store, f: Fate): Store {
    if f.fails && !f.applies then before else after
  }

  /** Grafana's side of one API call. */
  function Answer(s: Store, c: Call, f: Fate): (Store, Reply) {
    var refusal := Failed(f.saysNotFound);
    match c
    case SearchTeams(_) => (s, if f.fails then refusal else Hits(f.hits))
    case GetTeam(id) =>
      (s, if f.fails || id !in s.teams then refusal else TeamNamed(s.teams[id].name))
    case CreateTeam(name) =>
      if Taken(s, name) then (s, refusal)
      else
        var id := s.nextId + f.skip;
        (Effect(s, WithTeam(s, id, name), f),
         if f.fails then refusal
         else Created(if f.hideTeamId then 0 else id, if f.hideId then 0 else id))
    case GetMembers(id) =>
      (s, if f.fails || id !in s.teams then refusal else MembersAre(s.teams[id].members))
    case AddMember(id, user) =>
      if id !in s.teams then (s, refusal)
      else (Effect(s, WithMembers(s, id, s.teams[id].members + {user}), f), if f.fails then refusal else Done)
    case RemoveMember(id, user) =>
      if id !in s.teams then (s, refusal)
      else (Effect(s, WithMembers(s, id, s.teams[id].members - {user}), f), if f.fails then refusal else Done)
    case LookupUser(login) =>
      (s, if f.fails || login !in s.users then refusal else UserIs(s.users[login]))
    case ListFolders => (s, if f.fails then refusal else FoldersAre(s.folders))
    case SetPermissions(uid, items) =>
      if uid !in s.tables || exists k | 0 <= k < |items| :: items[k].team !in s.teams then (s, refusal)
      else (Effect(s, WithTable(s, uid, items), f), if f.fails then refusal else Done)
  }

  /** No call, whatever its fate, breaks the database's guarantees; in
      particular a taken team name is never given out twice. */
  lemma AnswerKeepsValid(s: Store, c: Call, f: Fate)
    requires ValidStore(s)
    ensures ValidStore(Answer(s, c, f).0)
  {
    match c
    case CreateTeam(name) =>
      if !Taken(s, name) {
        MembersAfterCreate(s, s.nextId + f.skip, name);
      }
    case AddMember(id, user) =>
      if id in s.teams {
        MembersAfterSet(s, id, s.teams[id].members + {user});
      }
    case RemoveMember(id, user) =>
      if id in s.teams {
        MembersAfterSet(s, id, s.teams[id].members - {user});
      }
    case SetPermissions(uid, items) =>
      var t := Answer(s, c, f).0;
      forall id, n | LiveAs(t, id, n) ensures LiveAs(s, id, n) {}
      forall k | 0 <= k < |items| && t != s ensures items[k].team < s.nextId {
        assert LiveAs(s, items[k].team, s.teams[items[k].team].name);
      }
    case _ =>
  }

  // ---------------------------------------------------------------- team names

  ghost function IdOf(s: Store, name: string): (id: int)
    requires Taken(s, name)
    ensures LiveAs(s, id, name)
  {
    var id :| id in s.teams && s.teams[id].name == name;
    id
  }

  /** The members of the team with this name, whatever its id. */
  ghost function MembersOf(s: Store, name: string): Option<set<int>> {
    if Taken(s, name) then Some(s.teams[IdOf(s, name)].members) else None
  }

  lemma MembersOfLive(s: Store, id: int, name: string)
    requires ValidStore(s) && LiveAs(s, id, name)
    ensures Taken(s, name) && IdOf(s, name) == id && MembersOf(s, name) == Some(s.teams[id].members)
  {
    assert LiveAs(s, IdOf(s, name), name);
  }

  lemma MembersAfterSet(s: Store, id: int, members: set<int>)
    requires ValidStore(s) && id in s.teams
    ensures ValidStore(WithMembers(s, id, members))
    ensures forall n :: MembersOf(WithMembers(s, id, members), n)
                        == if n == s.teams[id].name then Some(members) else MembersOf(s, n)
  {
    var t := WithMembers(s, id, members);
    forall i, n ensures LiveAs(t, i, n) <==> LiveAs(s, i, n) {}
    forall n ensures MembersOf(t, n) == if n == s.teams[id].name then Some(members) else MembersOf(s, n) {
      if n == s.teams[id].name {
        MembersOfLive(t, id, n);
      } else if Taken(s, n) {
        MembersOfLive(t, IdOf(s, n), n);
      } else {
        forall i ensures !LiveAs(t, i, n) {
          assert LiveAs(s, i, n) ==> Taken(s, n);
        }
      }
    }
  }

  lemma MembersAfterCreate(s: Store, id: int, name: string)
    requires ValidStore(s) && !Taken(s, name) && s.nextId <= id
    ensures ValidStore(WithTeam(s, id, name)) && id !in s.teams
    ensures forall n :: MembersOf(WithTeam(s, id, name), n)
                        == if n == name then Some(s.founders) else MembersOf(s, n)
  {
    var t := WithTeam(s, id, name);
    assert id in s.teams ==> LiveAs(s, id, s.teams[id].name);
    forall i, n ensures LiveAs(t, i, n) <==> (i == id && n == name) || LiveAs(s, i, n) {}
    forall i ensures !LiveAs(s, i, name) {
      assert LiveAs(s, i, name) ==> Taken(s, name);
    }
    forall n ensures MembersOf(t, n) == if n == name then Some(s.founders) else MembersOf(s, n) {
      if n == name {
        MembersOfLive(t, id, n);
      } else if Taken(s, n) {
        MembersOfLive(t, IdOf(s, n), n);
      } else {
        forall i ensures !LiveAs(t, i, n) {
          assert LiveAs(s, i, n) ==> Taken(s, n);
        }
      }
    }
  }

  // ------------------------------------------------------------------ the client

  /** What the calls made so far amount to: calls other than user lookups that
      were not clean, the logins whose lookup failed, calls that create a team or
      change a membership, membership calls reported successful, and the folders
      whose permission table the client asked to replace. */
  datatype Tally = Tally(dirty: nat, missed: multiset<string>, writes: nat, successes: nat, replaced: multiset<string>)

  /** One API call of a run: the store and the tally it met, the call and its fate. */
  datatype Event = Event(at: Store, calls: Tally, call: Call, fate: Fate)

  /** Hit `k` is the first that bears exactly this name. */
  ghost predicate IsFirstHit(hits: seq<Hit>, name: string, k: int) {
    0 <= k < |hits| && hits[k].name == name && forall j | 0 <= j < k :: hits[j].name != name
  }

  /** Nothing went wrong in this call: it did not fail, its reply was usable,
      and a search for a live team found that team. The index may still hold
      phantom and renamed entries for names that are not taken. */
  ghost predicate Clean(e: Event) {
    && !e.fate.fails
    && (e.call.CreateTeam? ==> !(e.fate.hideTeamId && e.fate.hideId))
    && (e.call.SearchTeams? && Taken(e.at, e.call.query) ==> FindsTeam(e))
  }

  ghost predicate FindsTeam(e: Event)
    requires e.call.SearchTeams?
  {
    exists k :: IsFirstHit(e.fate.hits, e.call.query, k) && LiveAs(e.at, e.fate.hits[k].id, e.call.query)
  }

  ghost function TallyAfter(e: Event): Tally {
    var n := e.calls;
    var membership := e.call.AddMember? || e.call.RemoveMember?;
    Tally(
      n.dirty + (if Clean(e) || e.call.LookupUser? then 0 else 1),
      n.missed + (if e.call.LookupUser? && e.fate.fails then multiset{e.call.login} else multiset{}),
      n.writes + (if e.call.CreateTeam? || membership then 1 else 0),
      n.successes + (if membership && !e.fate.fails then 1 else 0),
      n.replaced + (if e.call.SetPermissions? then multiset{e.call.uid} else multiset{}))
  }

  function StoreAfter(e: Event): Store {
    Answer(e.at, e.call, e.fate).0
  }

  /** The call before position `i`, or the first store, left what call `i` met,
      or, at the end of the trace, what there is now. */
  ghost predicate Follows(t: seq<Event>, i: int, origin: Store, db: Store, calls: Tally)
    requires 0 <= i <= |t|
  {
    && (if i == 0 then origin else StoreAfter(t[i - 1])) == (if i < |t| then t[i].at else db)
    && (if i == 0 then ZERO else TallyAfter(t[i - 1])) == (if i < |t| then t[i].calls else calls)
    && ValidStore(if i < |t| then t[i].at else db)
  }

  const ZERO := Tally(0, multiset{}, 0, 0, multiset{})

  lemma TakenStays(e: Event, name: string)
    requires ValidStore(e.at) && Taken(e.at, name)
    ensures Taken(StoreAfter(e), name)
  {
    var id :| id in e.at.teams && e.at.teams[id].name == name;
    assert LiveAs(e.at, id, name);
    assert id in StoreAfter(e).teams && StoreAfter(e).teams[id].name == name;
  }

  lemma {:induction false} TakenAlongTrace(c: Client, i: nat, j: nat, name: string)
    requires c.Valid() && i <= j < |c.trace| && Taken(c.trace[i].at, name)
    ensures Taken(c.trace[j].at, name)
  {
    if i < j {
      TakenAlongTrace(c, i, j - 1, name);
      assert Follows(c.trace, j - 1, c.origin, c.db, c.calls);
      TakenStays(c.trace[j - 1], name);
      assert Follows(c.trace, j, c.origin, c.db, c.calls);
    }
  }

  /** A client creates each name at most once: after a call that created a team,
      reported successful or not, every later call that creates a team of this
      name is refused. */
  lemma EachNameCreatedOnce(c: Client, i: nat, j: nat, name: string)
    requires c.Valid() && i < j < |c.trace|
    requires c.trace[i].call == CreateTeam(name) && StoreAfter(c.trace[i]) != c.trace[i].at
    requires c.trace[j].call == CreateTeam(name)
    ensures StoreAfter(c.trace[j]) == c.trace[j].at
    ensures Answer(c.trace[j].at, c.trace[j].call, c.trace[j].fate).1.Failed?
  {
    var e := c.trace[i];
    var id := e.at.nextId + e.fate.skip;
    assert StoreAfter(e) == WithTeam(e.at, id, name);
    assert StoreAfter(e).teams[id] == Team(name, e.at.founders);
    assert Follows(c.trace, i + 1, c.origin, c.db, c.calls);
    TakenAlongTrace(c, i + 1, j, name);
  }

  /** One more membership call, reported successful or not. */
  function Written(n: Tally, ok: bool): Tally {
    if ok then n.(writes := n.writes + 1, successes := n.successes + 1)
    else n.(writes := n.writes + 1, dirty := n.dirty + 1)
  }

  datatype Search = Found(id: int) | Missing | Broken

  /** One call was recorded since `t0`, made in the store `at`. */
  ghost predicate OneCall(t0: seq<Event>, t: seq<Event>, at: Store, c: Call) {
    t0 <= t && |t| == |t0| + 1 && t[|t0|].call == c && t[|t0|].at == at
  }

  /** What a search answers: the first hit of exactly this name, none exactly when
      no hit bears it; and none, too, when the call fails with "not found". */
  ghost predicate SearchAnswers(f: Fate, name: string, r: Search) {
    if f.fails then r == if f.saysNotFound then Missing else Broken
    else
      && !r.Broken?
      && (r.Missing? <==> forall k | 0 <= k < |f.hits| :: f.hits[k].name != name)
      && (r.Found? ==> exists k :: IsFirstHit(f.hits, name, k) && r.id == f.hits[k].id)
  }

  datatype FolderSearch = FolderAt(uid: string) | NoFolder | ListFailed

  class Client {
    var db: Store
    ghost var trace: seq<Event>
    ghost var calls: Tally
    ghost const origin: Store

    constructor (db: Store)
      requires ValidStore(db)
      ensures Valid() && this.db == db && trace == [] && calls == ZERO
    {
      this.db, trace, calls, origin := db, [], ZERO, db;
    }

    ghost predicate Valid()
      reads this
    {
      && ValidStore(db)
      && forall i | 0 <= i <= |trace| :: Follows(trace, i, origin, db, calls)
    }

    method Do(c: Call) returns (r: Reply, ghost f: Fate)
      requires Valid()
      modifies this
      ensures Valid() && trace == old(trace) + [Event(old(db), old(calls), c, f)]
      ensures (db, r) == Answer(old(db), c, f)
      ensures calls == TallyAfter(Event(old(db), old(calls), c, f))
    {
      var fate: Fate := *;
      AnswerKeepsValid(db, c, fate);
      ghost var e := Event(db, calls, c, fate);
      ghost var t := trace;
      var answer := Answer(db, c, fate);
      trace, calls := t + [e], TallyAfter(e);
      db, r := answer.0, answer.1;
      f := fate;
      forall i | 0 <= i <= |trace| ensures Follows(trace, i, origin, db, calls) {
        if i <= |t| {
          assert Follows(t, i, origin, old(db), old(calls));
        }
      }
    }

    method GetTeamByName(name: string) returns (r: Search)
      requires Valid()
      modifies this
      ensures Valid() && OneCall(old(trace), trace, old(db), SearchTeams(name)) && db == old(db)
      ensures calls == old(calls).(dirty := calls.dirty) && old(calls).dirty <= calls.dirty
      ensures SearchAnswers(trace[|old(trace)|].fate, name, r)
      ensures calls.dirty == old(calls).dirty
              <==> !trace[|old(trace)|].fate.fails && (Taken(db, name) ==> r.Found? && LiveAs(db, r.id, name))
    {
      var reply, f := Do(SearchTeams(name));
      if reply.Failed? {
        return if reply.saysNotFound then Missing else Broken;
      }
      var i := 0;
      while i < |reply.hits|
        invariant 0 <= i <= |reply.hits|
        invariant forall k | 0 <= k < i :: reply.hits[k].name != name
      {
        if reply.hits[i].name == name {
          assert IsFirstHit(f.hits, name, i);
          return Found(reply.hits[i].id);
        }
        i := i + 1;
      }
      r := Missing;
    }

    method GetTeam(id: int) returns (name: Option<string>)
      requires Valid()
      modifies this
      ensures Valid() && OneCall(old(trace), trace, old(db), Call.GetTeam(id)) && db == old(db)
      ensures calls == old(calls).(dirty := calls.dirty) && old(calls).dirty <= calls.dirty
      ensures calls.dirty == old(calls).dirty <==> !trace[|old(trace)|].fate.fails
      ensures name.None? <==> trace[|old(trace)|].fate.fails || id !in db.teams
      ensures name.Some? ==> LiveAs(db, id, name.value)
    {
      var reply, f := Do(Call.GetTeam(id));
      name := if reply.Failed? then None else Some(reply.name);
    }

    /** The id of the new team; `None` also when the reply carries no id. */
    method CreateTeam(name: string) returns (r: Option<int>)
      requires Valid()
      modifies this
      ensures Valid() && OneCall(old(trace), trace, old(db), Call.CreateTeam(name))
      ensures calls == old(calls).(dirty := calls.dirty, writes := old(calls).writes + 1)
              && old(calls).dirty <= calls.dirty
      ensures db == old(db)
              || (!Taken(old(db), name) && exists id :: old(db).nextId <= id && db == WithTeam(old(db), id, name))
      ensures r.Some? ==> !Taken(old(db), name) && old(db).nextId <= r.value && db == WithTeam(old(db), r.value, name)
      ensures var f := trace[|old(trace)|].fate;
        && (r.Some? <==> !f.fails && !Taken(old(db), name) && !(f.hideTeamId && f.hideId))
        && (calls.dirty == old(calls).dirty <==> !f.fails && !(f.hideTeamId && f.hideId))
    {
      var reply, f := Do(Call.CreateTeam(name));
      if reply.Failed? {
        return None;
      }
      var teamId := reply.teamId;
      if teamId == 0 {
        teamId := reply.id;
      }
      if teamId == 0 {
        return None;
      }
      r := Some(teamId);
    }

    method LookupUser(login: string) returns (r: Option<int>)
      requires Valid()
      modifies this
      ensures Valid() && OneCall(old(trace), trace, old(db), Call.LookupUser(login)) && db == old(db)
      ensures calls == old(calls).(missed := calls.missed)
      ensures calls.missed == old(calls).missed + if trace[|old(trace)|].fate.fails then multiset{login} else multiset{}
      ensures r.Some? ==> login in db.users && r.value == db.users[login] && calls.missed == old(calls).missed
      ensures r.None? && login in db.users ==> calls.missed == old(calls).missed + multiset{login}
    {
      var reply, f := Do(Call.LookupUser(login));
      r := if reply.Failed? then None else Some(reply.user);
    }

    method AddTeamMember(team: int, user: int) returns (ok: bool)
      requires Valid() && team in db.teams
      modifies this
      ensures Valid() && OneCall(old(trace), trace, old(db), AddMember(team, user))
      ensures ok <==> !trace[|old(trace)|].fate.fails
      ensures db == old(db) || db == WithMembers(old(db), team, old(db).teams[team].members + {user})
      ensures ok ==> db == WithMembers(old(db), team, old(db).teams[team].members + {user})
      ensures calls == Written(old(calls), ok)
    {
      var reply, f := Do(AddMember(team, user));
      ok := reply.Done?;
    }

    method RemoveTeamMember(team: int, user: int) returns (ok: bool)
      requires Valid() && team in db.teams
      modifies this
      ensures Valid() && OneCall(old(trace), trace, old(db), RemoveMember(team, user))
      ensures ok <==> !trace[|old(trace)|].fate.fails
      ensures db == old(db) || db == WithMembers(old(db), team, old(db).teams[team].members - {user})
      ensures ok ==> db == WithMembers(old(db), team, old(db).teams[team].members - {user})
      ensures calls == Written(old(calls), ok)
    {
      var reply, f := Do(RemoveMember(team, user));
      ok := reply.Done?;
    }

    method GetTeamMembers(team: int) returns (r: Option<set<int>>)
      requires Valid()
      modifies this
      ensures Valid() && OneCall(old(trace), trace, old(db), GetMembers(team)) && db == old(db)
      ensures calls == old(calls).(dirty := calls.dirty) && old(calls).dirty <= calls.dirty
      ensures r.Some? ==> team in db.teams && r.value == db.teams[team].members
      ensures calls.dirty == old(calls).dirty <==> !trace[|old(trace)|].fate.fails
      ensures r.None? <==> trace[|old(trace)|].fate.fails || team !in db.teams
    {
      var reply, f := Do(GetMembers(team));
      r := if reply.Failed? then None else Some(reply.members);
    }

    method GetFolderByTitle(title: string) returns (r: FolderSearch)
      requires Valid()
      modifies this
      ensures Valid() && OneCall(old(trace), trace, old(db), ListFolders) && db == old(db)
      ensures calls == old(calls).(dirty := calls.dirty) && old(calls).dirty <= calls.dirty
      ensures r.ListFailed? <==> old(calls).dirty < calls.dirty
      ensures r.ListFailed? <==> trace[|old(trace)|].fate.fails
      ensures r.FolderAt? ==> exists k :: IsFirstTitle(db.folders, title, k) && r.uid == db.folders[k].uid
      ensures r.NoFolder? ==> forall k | 0 <= k < |db.folders| :: db.folders[k].title != title
      ensures r.FolderAt? ==> FolderNamed(db.folders, title) == Some(r.uid)
      ensures r.NoFolder? ==> FolderNamed(db.folders, title) == None
    {
      var reply, f := Do(ListFolders);
      if reply.Failed? {
        return ListFailed;
      }
      FolderNamedIsFirst(db.folders, title);
      var i := 0;
      while i < |reply.folders|
        invariant 0 <= i <= |reply.folders|
        invariant forall k | 0 <= k < i :: reply.folders[k].title != title
      {
        if reply.folders[i].title == title {
          assert IsFirstTitle(db.folders, title, i);
          return FolderAt(reply.folders[i].uid);
        }
        i := i + 1;
      }
      r := NoFolder;
    }

    /** Replaces the whole permission table of a folder. */
    method UpdateFolderPermissions(uid: string, perms: seq<TeamPermission>) returns (ok: bool)
      requires Valid()
      modifies this
      ensures Valid() && old(trace) <= trace && |trace| == |old(trace)| + 1
      ensures var c := trace[|old(trace)|].call;
        && c.SetPermissions? && c.uid == uid && |c.items| == |perms|
        && forall k | 0 <= k < |perms| ::
             c.items[k].team == perms[k].team && MeansLevel(perms[k].permission, c.items[k].level)
      ensures calls == old(calls).(dirty := calls.dirty, replaced := old(calls).replaced + multiset{uid})
              && old(calls).dirty <= calls.dirty
      ensures db == old(db) || db == WithTable(old(db), uid, ItemsFor(perms))
      ensures db.tables.Keys == old(db).tables.Keys
      ensures ok ==> db == WithTable(old(db), uid, ItemsFor(perms))
      ensures (calls.dirty == old(calls).dirty && uid in db.tables
               && forall k | 0 <= k < |perms| :: perms[k].team in db.teams) ==> ok
    {
      var permMap := map["View" := 1, "Edit" := 2, "Admin" := 4];
      var items: seq<Item> := [];
      var i := 0;
      while i < |perms|
        invariant 0 <= i <= |perms| && |items| == i
        invariant forall k | 0 <= k < i :: items[k] == ItemsFor(perms)[k]
      {
        var v := if perms[i].permission in permMap then permMap[perms[i].permission] else 1;
        items := items + [Item(perms[i].team, v)];
        i := i + 1;
      }
      assert items == ItemsFor(perms);
      var reply, f := Do(SetPermissions(uid, items));
      ok := reply.Done?;
    }
  }

  /** 1 is View, 2 is Edit, 4 is Admin, and any other word means View. */
  ghost predicate MeansLevel(permission: string, level: int) {
    && (permission == "View" ==> level == 1)
    && (permission == "Edit" ==> level == 2)
    && (permission == "Admin" ==> level == 4)
    && (permission != "View" && permission != "Edit" && permission != "Admin" ==> level == 1)
  }

  /** The integer the permissions endpoint takes. */
  function LevelOf(permission: string): int {
    if permission == "Edit" then 2 else if permission == "Admin" then 4 else 1
  }

  datatype TeamPermission = TeamPermission(team: int, permission: string)

  function ItemsFor(perms: seq<TeamPermission>): seq<Item> {
    seq(|perms|, k requires 0 <= k < |perms| => Item(perms[k].team, LevelOf(perms[k].permission)))
  }

  /** The first folder with this title. */
  function FolderNamed(folders: seq<Folder>, title: string): Option<string> {
    if folders == [] then None
    else if folders[0].title == title then Some(folders[0].uid)
    else FolderNamed(folders[1..], title)
  }

  ghost predicate IsFirstTitle(folders: seq<Folder>, title: string, k: int) {
    0 <= k < |folders| && folders[k].title == title && forall j | 0 <= j < k :: folders[j].title != title
  }

  /** It is the first folder of this title, and none exactly when there is none. */
  lemma {:induction false} FolderNamedIsFirst(folders: seq<Folder>, title: string)
    ensures FolderNamed(folders, title).None? <==> forall k | 0 <= k < |folders| :: folders[k].title != title
    ensures forall k | IsFirstTitle(folders, title, k) :: FolderNamed(folders, title) == Some(folders[k].uid)
    ensures FolderNamed(folders, title).Some? ==> exists k :: IsFirstTitle(folders, title, k)
  {
    if folders != [] {
      var rest := folders[1..];
      FolderNamedIsFirst(rest, title);
      assert forall k | 0 < k < |folders| :: folders[k] == rest[k - 1];
      if folders[0].title == title {
        assert IsFirstTitle(folders, title, 0);
      } else {
        forall k | IsFirstTitle(folders, title, k) ensures FolderNamed(folders, title) == Some(folders[k].uid) {
          assert forall j | 0 <= j < k - 1 :: rest[j] == folders[j + 1];
          assert IsFirstTitle(rest, title, k - 1);
        }
        if FolderNamed(rest, title).Some? {
          var k :| IsFirstTitle(rest, title, k);
          assert IsFirstTitle(folders, title, k + 1);
        }
      }
    }
  }
}
