# Savras: verified model of the sync pass, the Grafana monitor and the token lifecycle

Savras runs beside Grafana. It copies Active Directory groups to Grafana teams and
folder permissions, watches whether Grafana is alive, blocks traffic during an outage,
and after each outage synchronizes again and invalidates all tokens. This project models
these three parts and proves what they guarantee over all inputs, all failures of the
remote server and all interleavings.

| file | content |
|---|---|
| `Common.dfy` | `Option`, the choice of an arbitrary map key |
| `Grafana.dfy` | the remote store, the fate of each API call, the API client |
| `Plan.dfy` | what one pass should achieve, without loops, ids or orders |
| `Effects.dfy` | the effect of each part of a pass under any failures, and how the parts add up |
| `Sync.dfy` | the reconciler itself: team resolution, diff of members, retry, folder regrouping, the pass |
| `Passes.dfy` | what follows: last writer wins, order independence, idempotence, runs with failures |
| `Outcome.dfy` | what a pass means for teams and folders, said of the configuration, the LDAP answer and the stores alone |
| `Serial.dfy` | many passes at once, interleaved at single API calls, under the lock `runMu` |
| `Locks.dfy` | `m.mu` and `runMu` across any number of goroutines |
| `Inputs.dfy` | stores and tallies of passes with a failed lookup and with disagreeing entries |
| `Backoff.dfy` | the jittered, capped probe interval, through float64 |
| `Monitor.dfy` | the monitor as a transition system with any number of callers and probe loops |
| `Queue.dfy` | the coalescing trigger queue |
| `Auth.dfy` | token generation and validation, with signing abstract |
| `Lifecycle.dfy` | monitor, queue, lock, generations and requests together |

How to read the model:

- Every API call has an arbitrary `Fate`. It may fail, fail after it took effect, or
  answer a team search from a stale index with phantom and renamed teams. The client
  counts in a `Tally` what its calls amounted to. A call is *clean* when it did not fail
  and, for a search that names a live team, found that team. `dirty` counts calls that
  were not clean, user lookups apart; `missed` holds the logins whose lookup failed. A
  *clean pass* leaves both as they were (`Passes.AllClean`).
- A failed lookup makes the desired set smaller (`internal/sync/sync.go:222-226`). A pass
  therefore has *goals*: for each mapped entry, the team and the users that its lookups
  found (`Plan.LookedUp`). All bounds under failures are about these goals, entry by
  entry, so a failed lookup concerns its own team only.
- Every `range` over a Go map takes an arbitrary remaining key.
- Results of a pass are read by team name, so that they do not depend on the ids that
  new teams happen to get.
- Each entity that the source changes in place (client and store, worker, monitor,
  queue, auth package variables) is a class. The transition systems
  of `Monitor`, `Queue` and `Lifecycle` have one step for each lock section, channel
  operation or HTTP outcome, and the methods of `GrafanaMonitor` and `SyncQueue` are
  proved to do what those steps say.

Where the code differs from its comments, the model follows the code:

- `internal/proxy/grafana_monitor.go:35-37` promises recovery before traffic resumes,
  but lines 187-195 assign `StateUp` first and run the callback afterwards. The model
  has both orders: the promise holds for the documented one
  (`Lifecycle.CallbackFirstAdmits`), fails for the written one
  (`Lifecycle.UpFirstBreaksPromise`). `Lifecycle.PromiseKeptIff`, for the moment a request
  passes, and `Lifecycle.ForwardKeepsPromiseIff`, for the moment it is forwarded, say
  exactly when it is kept.
- `internal/proxy/sync_queue.go:9-10` promises a single sync for all triggers of an
  outage. It can be two (`Queue.MergedTriggersMaySyncTwice`). Exactly those triggers cause
  a sync of their own that find no token buffered and no drain under way
  (`Queue.EachCountingTriggerIsOneSync`), so there is a single one if and only if one
  trigger counts (`Queue.SingleSyncIff`).
- `Stop` does not reach a probe loop that has not registered yet or that has already
  passed the check of its context; `Monitor.StopMissesIff` is the exact
  condition, and `Monitor.StopMissesNewLoop` a run.
- A failed lookup removes a user who should stay (`Passes.OneFailedLookupRemoves`, and
  `Inputs.FailedLookupPass` for such a pass);
  `Passes.WantedUserIsInIff` is the exact condition.
- A second clean pass makes no call that writes if and only if entries mapped to one team
  want the same users (`Passes.SecondPassIsQuiet`); `Passes.RivalEntriesNeverSettle` is an
  input for which every pass writes again, and `Inputs.RivalPass` such a pass.
- Tokens are invalidated after an outage only when sync is enabled
  (`cmd/savras/main.go:53-71`): in the model, when there is a callback.
- `BlockWhenDown` guards the `/` route only (`internal/proxy/proxy.go:82-96`); the
  admission results speak of that route.

## Model

| member | source | states |
|---|---|---|
| `Grafana.AnswerKeepsValid` | internal/grafana/client.go:94-111 | No API call, whatever its fate, makes two live teams share a name or an id, reuses an id or loses a folder's table |
| `Grafana.Client.Do` | internal/grafana/client.go:94-128 | One call: the new store and the reply are the server's answer for an arbitrary fate, and the call is recorded |
| `Grafana.Client.GetTeamByName` | internal/grafana/client.go:164-182 | Changes nothing; in a search that does not fail the first hit of exactly this name is found, and nothing exactly when no hit bears it; a failed search is missing or broken by its error text; the call counts as clean exactly when it did not fail and found the live team if there is one |
| `Grafana.Client.GetTeam` | internal/grafana/client.go:294-305 | Answers the name of the live team with that id, and nothing exactly when the call fails or there is none |
| `Grafana.Client.CreateTeam` | internal/grafana/client.go:130-152 | Answers an id exactly when the call does not fail, the name is free and the reply carries an id in one of its two fields; it is the fresh id of the new team; a failed call created that team or nothing |
| `Grafana.EachNameCreatedOnce` | internal/sync/sync.go:111-145 | Along everything a client ever did, once a call has created a team, reported successful or not, every later call that creates a team of this name is refused |
| `Grafana.Client.LookupUser` | internal/grafana/client.go:236-247 | A user it returns is the one with that login; a known login is missed only when the lookup failed, and that is recorded |
| `Grafana.Client.AddTeamMember` | internal/grafana/client.go:184-195 | One call; adds exactly this user, or, exactly when it reports failure, possibly nothing |
| `Grafana.Client.RemoveTeamMember` | internal/grafana/client.go:197-207 | One call; removes exactly this user, or, exactly when it reports failure, possibly nothing |
| `Grafana.Client.GetTeamMembers` | internal/grafana/client.go:209-233 | Returns the whole current membership, or an error exactly when the call fails or the team does not exist |
| `Grafana.Client.GetFolderByTitle` | internal/grafana/client.go:249-264 | Answers the first folder with the title; none only when no folder has it; an error exactly when the list call fails |
| `Grafana.FolderNamedIsFirst` | internal/grafana/client.go:258-263 | The folder that a title names is the first one of that title, and there is none exactly when no folder has it |
| `Grafana.Client.UpdateFolderPermissions` | internal/grafana/client.go:266-292 | Sends, in order, one item for each permission with its team and level 1 for View, 2 for Edit, 4 for Admin and 1 for any other word; the folder's table becomes these items or everything stays |
| `Plan.LastMappingWins` | internal/sync/sync.go:197-200 | A group is mapped exactly when a mapping line names it, and then by the last such line |
| `Plan.TargetOf` | internal/sync/sync.go:204-212 | Each mapped entry has a target with its team and all its members, and later targets come from later entries |
| `Plan.EntryOf` | internal/sync/sync.go:204-212 | Each target comes from an entry that is mapped to its team |
| `Plan.OneTargetEach` | internal/sync/sync.go:204-212 | There are as many targets as mapped entries |
| `Plan.LastWantedIsLast` | internal/sync/sync.go:204-277 | The wanted members of a team are those of the last goal for it, and there are none exactly when it has no goal |
| `Plan.RegroupingKeepsAll` | internal/sync/sync.go:278-288 | Grouped by folder and visited in any order, the permissions are the configured multiset |
| `Plan.RegroupingKeepsOrder` | internal/sync/sync.go:280-283 | Two permissions of one folder stay in configuration order |
| `Plan.PermissionsOfPlaces` | internal/sync/sync.go:280-283 | A folder has as many permissions as places in the list, and each stands behind as many as come before it there |
| `Plan.ReplacingEachKeepsLast` | internal/sync/sync.go:278-283 | One replacement for each permission would keep the last permission only, and so differs from one replacement for the folder exactly when there are two or more |
| `Plan.OneTitlePerFolder` | internal/grafana/client.go:249-264 | Two titles never resolve to the same folder, so each table has one writer in a pass |
| `Effects.AddedIsCloser` | internal/sync/sync.go:257-265 | A user that is added brings the team exactly one user closer to the desired set |
| `Effects.RemovedIsCloser` | internal/sync/sync.go:266-276 | A user that is removed brings the team exactly one user closer |
| `Effects.TableIsReplaced` | internal/sync/sync.go:311-313 | Replacing a folder's table by items with live ids makes it say what the configuration says with names, and touches no team and no other table |
| `Effects.PassIsDone` | internal/sync/sync.go:204-288 | The entries loop followed by the folder loop fulfil the contract of a pass: bounds under any failures for the goals found; only configured folders are asked to be replaced, at most once, and tables not asked for stay; exact result when no other call fails, each configured existing folder then replaced exactly once, and no writing call if and only if nothing was left to do |
| `Sync.SyncWorker.ResolveTeam` | internal/sync/sync.go:111-145 | The exact calls: a search; then a create call if no hit bears the name or the search fails with not found; nothing more if it fails otherwise; for the first hit of the name a look at the team, and a create call unless that confirms the name. A success is the id of a live team of exactly that name; at most that one team is created, only if the name is free |
| `Sync.SyncWorker.LookupMembers` | internal/sync/sync.go:217-228 | Looks up exactly the logins that are not empty; finds exactly the users for whom some lookup of some login did not fail; repeated logins count one by one |
| `Sync.SyncWorker.AddTeamMemberWithRetry` | internal/sync/sync.go:319-335 | Up to three calls that add this user to this team: all but the last failed, and a failure is reported after exactly three; changes at most this membership, success means membership, one success counted once |
| `Sync.SyncWorker.AddMissing` | internal/sync/sync.go:257-265 | In any order: exactly the missing wanted users are asked to be added, each at most three times and once if nothing fails; wanted users only are gained, distance falls by each reported success, all are in when nothing fails |
| `Sync.SyncWorker.RemoveExtra` | internal/sync/sync.go:266-276 | In any order: exactly the unwanted users read are asked to be removed, each once; only they are lost, distance falls by each reported success |
| `Sync.SyncWorker.ReconcileMembers` | internal/sync/sync.go:244-276 | The calls made are exactly the difference; result lies between the intersection and the union of members and desired set, distance falls by at least the reported successes, equality when nothing fails, no call if and only if already equal |
| `Sync.SyncWorker.SyncTeam` | internal/sync/sync.go:214-276 | One mapped entry under any failures, read by team name: bounds for the users found, exact when no other call fails; other teams and all tables unchanged |
| `Sync.SyncWorker.SyncMembers` | internal/sync/sync.go:230-276 | The same for one goal, once the users are known; without a writing call the store is unchanged |
| `Sync.SyncWorker.GroupByFolder` | internal/sync/sync.go:280-283 | The grouping has exactly the configured folders, each with its permissions in order |
| `Sync.SyncWorker.SyncFolderPermissions` | internal/sync/sync.go:293-317 | The folder's table becomes the complete one or stays; it stays when the folder or any team does not resolve; one replace call, or none if something failed or there is no such folder |
| `Sync.SyncWorker.SyncFolders` | internal/sync/sync.go:284-288 | All folders in any order, each replaced at most once, exactly once if nothing fails; tables not asked to be replaced stay |
| `Sync.SyncWorker.BuildTeamTable` | internal/sync/sync.go:197-200 | Builds the table in which the last mapping line wins |
| `Sync.SyncWorker.SyncEntries` | internal/sync/sync.go:204-277 | All mapped entries in the order of the LDAP answer, with skipped entries leaving no trace; each failed lookup is charged to its entry |
| `Sync.SyncWorker.SyncOnce` | internal/sync/sync.go:147-291 | The pass: from any store and under any failures each team stays within the bounds of its own entries' goals and reported progress is real; when no other call fails it makes exactly the result planned for the users found, and it makes no create, add or remove call if and only if nothing was left to do |
| `Sync.SyncWorker.SyncNow` | internal/sync/sync.go:84-86 | A pass is a solo run of a program that returns, started in the present store and tally: its store and its tally are those of the run, they fulfil the contract of a pass, and so does every caller that makes the same calls from there |
| `Passes.LastEntryWins` | internal/sync/sync.go:204-277 | After a clean pass from any store, a team has exactly the users wanted by the last entry mapped to it |
| `Outcome.TeamHasLastEntry` | internal/sync/sync.go:197-277 | After a clean pass the team to which the last mapping line for a group maps an entry, and to which no later entry is mapped, has exactly the users for whom that entry lists a login |
| `Outcome.OtherTeamsStay` | internal/sync/sync.go:204-213 | A pass, whatever fails in it, leaves an existing team as it was to which no entry is mapped |
| `Outcome.NobodyElseJoins` | internal/sync/sync.go:257-265 | Whatever fails, a new member of an existing team is listed by some entry mapped to the team |
| `Outcome.ListedMembersStay` | internal/sync/sync.go:217-276 | Whatever fails, a member stays for whom every entry mapped to the team lists a login whose lookups all succeed |
| `Outcome.FolderHasPermissions` | internal/sync/sync.go:278-317 | When nothing but lookups fails, the first folder of a configured title has one item for each permission configured for the title, in order: the live team of that name, and level 2 for Edit, 4 for Admin, otherwise 1 |
| `Outcome.OtherTablesStay` | internal/sync/sync.go:278-288 | A pass, whatever fails in it, leaves the table of every folder alone that is not the first of a configured title |
| `Passes.WantedUserIsInIff` | internal/sync/sync.go:217-228 | When nothing but lookups fails, a user wanted by a team's last entry is in the team afterwards if and only if one of that entry's lookups of that user succeeded |
| `Passes.LostOnlyIfNeverFound` | internal/sync/sync.go:217-276 | Whatever else fails, a member whom all entries of the team want is lost only if every lookup of that user failed in one of these entries |
| `Passes.OneFailedLookupRemoves` | internal/sync/sync.go:222-226 | An input for which one failed lookup empties a team that was as wanted |
| `Inputs.FailedLookupPass` | internal/sync/sync.go:222-226 | Stores and tallies of such a pass |
| `Passes.UntargetedIsUnchanged` | internal/sync/sync.go:204-213 | A pass leaves the members of an existing team alone that no entry is mapped to, whatever fails in it |
| `Passes.OrderDoesNotMatter` | internal/sync/sync.go:258-288 | Any two passes from one store with the same goals and no failing call agree on all memberships and all tables read by team name, whatever the map orders and new ids |
| `Passes.SecondPassChangesNothing` | internal/sync/sync.go:204-288 | A second such pass with the same goals leaves the store equal, ids included |
| `Passes.NothingLeftIff` | internal/sync/sync.go:204-288 | After such a pass nothing is left to do if and only if goals for one team want the same users |
| `Passes.SecondPassIsQuiet` | internal/sync/sync.go:204-288 | Of two clean passes over one LDAP answer the second leaves the store as it is, and makes no create, add or remove call if and only if entries mapped to one team want the same users |
| `Passes.RivalEntriesNeverSettle` | internal/sync/sync.go:204-277 | Two entries of one team with different users: the second clean pass writes again and ends where it began |
| `Inputs.RivalPass` | internal/sync/sync.go:204-277 | Store and tallies of such a clean pass: four calls, and the store is as before |
| `Passes.DistanceNeverGrows` | internal/sync/sync.go:244-276 | Over any number of passes with failing calls, while all goals of a team want the same users in every pass, its distance from them never grows, no wanted member is lost and no unwanted one gained, whatever happens to other teams and their lookups |
| `Passes.OnePass` | internal/sync/sync.go:244-276 | The same for one pass |
| `Passes.SuccessesAreProgress` | internal/sync/sync.go:257-276 | Over any run whose passes have the same goals, with goals for one team agreeing, total distance and successes reported together never exceed the distance at the start |
| `Passes.TotalDistanceCounts` | internal/sync/sync.go:257-276 | The total distance is the number of users out of place, each counted with its team |
| `Passes.AllAppliedMeansReached` | internal/sync/sync.go:257-276 | In such a run, once as many calls succeeded as users were out of place, every targeted team that exists is exactly as wanted |
| `Passes.UntargetedOverRuns` | internal/sync/sync.go:204-213 | Teams without a goal keep their members over any run with failures, failed lookups included |
| `Serial.EveryRunIsSerial` | internal/sync/sync.go:148-150 | For any number of callers and any schedule of single API calls, the store is that of whole passes one after another in lock order, and each caller saw the replies of that serial run |
| `Serial.SomeCallerCanMove` | internal/sync/sync.go:148-150 | While some caller has not finished, some caller can take the lock, make a call or return |
| `Serial.ConcurrentPasses` | internal/sync/sync.go:84-109 | If every caller, alone and started where it took the lock, fulfils the contract of a pass, then for any schedule, whenever the lock is free, each caller that took it fulfilled that contract in the concurrent run, clean results and tallies included, from the store and tally its predecessor left to those its successor found |
| `Serial.LastHolderWins` | internal/sync/sync.go:148-277 | If nothing went wrong for the last caller that took the lock, each team has exactly the users wanted by the last of that caller's entries for it, whatever the others did |
| `Serial.NextHolderIsQuiet` | internal/sync/sync.go:148-288 | Of two clean callers in a row with one LDAP answer the second changes nothing, and makes no create, add or remove call if and only if entries mapped to one team want the same users |
| `Serial.ConcurrentPassesAreARun` | internal/sync/sync.go:84-109 | In lock order the passes are a run from the first store to the present one; the goals of each are those of its LDAP answer with the users that its lookups found |
| `Serial.ConcurrentDistance` | internal/sync/sync.go:84-109 | For any concurrent callers, while all entries of a team want the same users and none of their lookups fails, the team's distance from them never grows, no wanted member is lost and no unwanted one gained, whatever other calls fail, other lookups included, and however the LDAP answers differ |
| `Serial.ConcurrentProgress` | internal/sync/sync.go:148-276 | Over all concurrent callers with one LDAP answer and no failed lookup, total distance and calls reported successful never exceed the distance at the start, for agreeing entries |
| `Serial.RecordedIsSolo` | internal/sync/sync.go:84-109 | What a client did since any moment is a run of one caller alone, with the same stores, replies and tallies |
| `Serial.RecordedPassesAreDone` | internal/sync/sync.go:148-150 | Callers that each play a recorded pass, started where it was recorded, meet the hypothesis of the results on concurrent callers |
| `Serial.LockIsNeeded` | internal/sync/sync.go:24 | Two reconciliations that both read a team before either writes, their calls mixed in any way, end where one of the two serial orders ends if and only if, in one order, the later wants all that the earlier adds and the earlier removes nobody the later wants |
| `Serial.MixedVersusOrder` | internal/sync/sync.go:257-276 | The same condition for one given order, whose outcome is what the later one wants |
| `Serial.LockMatters` | internal/sync/sync.go:24 | Calls of two reconciliations of an empty team whose mixed outcome is neither serial one |
| `Backoff.NextInterval` | internal/proxy/grafana_monitor.go:202-211 | The wait is the capped double of the interval plus what the random generator draws below half of that |
| `Backoff.NextRange` | internal/proxy/grafana_monitor.go:202-211 | The possible waits are exactly those from the capped double up to, not including, one and a half times that |
| `Backoff.Float64Nearest` | internal/proxy/grafana_monitor.go:205 | The conversion to float64 gives a multiple of a power of two with 53 significant bits, and no nearer one exists |
| `Backoff.NextKeepsBounds` | internal/proxy/grafana_monitor.go:202-211 | One more failure: the argument of the random draw is positive, the product is exact, and min(2^n base, max) <= wait < min(3^n base, 3/2 max) is kept |
| `Backoff.FailedProbes` | internal/proxy/grafana_monitor.go:149-183 | Every wait of a loop whose probes keep failing obeys those bounds |
| `Backoff.DefaultTotal` | internal/proxy/grafana_monitor.go:53-55 | With the default constants n >= 3 waits total at least 14s + 10s(n-3) and less than 15s n |
| `Monitor.Reachable` | internal/proxy/grafana_monitor.go:127-200 | The invariant of the monitor holds in every reachable state |
| `Monitor.SingleLiveProber` | internal/proxy/grafana_monitor.go:127-199 | In every reachable state transitions to down exceed those to up by one exactly while down, each has one loop, at most one loop has not assigned StateUp, and none while up |
| `Monitor.OneRecoveryPerOutage` | internal/proxy/grafana_monitor.go:185-199 | Completed and running callbacks together are the transitions to up, however callbacks overlap |
| `Monitor.CancelIsNewest` | internal/proxy/grafana_monitor.go:142-147 | A stored cancel function belongs to the most recently registered loop, and a loop that registers is newer than all registered ones |
| `Monitor.CancelledSendsAtMostOne` | internal/proxy/grafana_monitor.go:152-183 | A cancelled loop starts at most one more request in any future, and only from past its check |
| `Monitor.StopAllowsOneRequest` | internal/proxy/grafana_monitor.go:60-71 | A Stop that finds the live loop registered allows at most one more health request |
| `Monitor.StopMissesIff` | internal/proxy/grafana_monitor.go:60-71 | After a Stop the live loop can still assign StateUp if and only if it had not registered or had already passed its context check |
| `Monitor.StopMissesNewLoop` | internal/proxy/grafana_monitor.go:127-146 | A run whose live loop a Stop misses |
| `Monitor.StopTouchesContextsOnly` | internal/proxy/grafana_monitor.go:60-71 | Stop cancels the stored loop and drops both cancel functions; no loop moves, and the state and all counts stay |
| `Monitor.BackgroundStaysStopped` | internal/proxy/grafana_monitor.go:60-71 | After a Stop that found the background check active it is stopped in every later state |
| `Monitor.EachFailureIsWaitedFor` | internal/proxy/grafana_monitor.go:149-183 | In every run the waits of a loop follow one another as the backoff demands, each failed probe makes one, the loop holds the last, and all its requests but an unfailed last one have failed |
| `Monitor.FailedProbeWaits` | internal/proxy/grafana_monitor.go:160-183 | After a failed probe a loop does nothing but wait, until its timer fires or it is cancelled, and it can do either |
| `Monitor.GrafanaMonitor.OnProxyError` | internal/proxy/grafana_monitor.go:127-138 | The state is down afterwards, and the caller starts a loop exactly if it was up, as the transition system says |
| `Monitor.GrafanaMonitor.Start` | internal/proxy/grafana_monitor.go:73-86 | Stores the cancel function of the background check, as the transition system says |
| `Monitor.GrafanaMonitor.RegisterProbe` | internal/proxy/grafana_monitor.go:142-147 | Stores the loop's cancel function, as the transition system says |
| `Monitor.GrafanaMonitor.ReportUp` | internal/proxy/grafana_monitor.go:185-195 | Assigns StateUp, then calls back exactly if there is a callback |
| `Monitor.GrafanaMonitor.Stop` | internal/proxy/grafana_monitor.go:60-71 | Cancels the stored loop and the background check if there are any, drops both cancel functions and leaves the state, as the transition system says |
| `Monitor.GrafanaMonitor.ShouldBlock` | internal/proxy/grafana_monitor.go:111-115 | Blocks exactly while down |
| `Queue.NoLostTrigger` | internal/proxy/sync_queue.go:36-62 | In every reachable state an unserved trigger has a token buffered or a consumer on its way to the sync; the guarded receive of the drain never blocks; syncs never exceed accepted triggers |
| `Queue.TokensAreConserved` | internal/proxy/sync_queue.go:36-49 | The accepted triggers are the tokens that the consumer took and the one that is buffered |
| `Queue.EachCountingTriggerIsOneSync` | internal/proxy/sync_queue.go:36-62 | In any run the syncs started and owed grow by exactly the triggers that find no token and no drain under way |
| `Queue.SingleSyncIff` | internal/proxy/sync_queue.go:7-12 | Between two moments of rest a single sync runs if and only if exactly one trigger counts |
| `Queue.AtMostTwoMore` | internal/proxy/sync_queue.go:43-62 | From any state, once triggers cease, the syncs started and owed stay the same in number; when the queue is at rest two have started if and only if a token was buffered while the consumer waited for StateUp or was about to start, none if and only if it was idle or syncing without a token |
| `Queue.OneStartWhileDown` | internal/proxy/sync_queue.go:53-60 | While every look finds Grafana down at most one sync starts, the one whose look had succeeded |
| `Queue.MergedTriggersMaySyncTwice` | internal/proxy/sync_queue.go:44-56 | A run in which triggers of one outage cause two syncs |
| `Queue.TriggerIsServed` | internal/proxy/sync_queue.go:43-62 | While a trigger is unserved the consumer can move unless it looks at a Grafana that is down, and the moves before the next sync start are bounded |
| `Queue.SyncQueue.Trigger` | internal/proxy/sync_queue.go:36-41 | Never blocks, buffers at most one token, as the transition system says |
| `Queue.SyncQueue.Collect` | internal/proxy/sync_queue.go:44-49 | Receive and drain empty the channel under any number of triggers arriving meanwhile, and count them all |
| `Auth.Service.Init` | internal/auth/auth.go:44-49 | Sets configuration and a generation never drawn before and drops the cached key; no token of an earlier generation is accepted |
| `Auth.Service.InvalidateTokens` | internal/auth/auth.go:251-256 | Replaces the generation by one never drawn before and nothing else; no token of an earlier generation is accepted |
| `Auth.Service.GetPrivateKey` | internal/auth/auth.go:51-87 | The cached key if there is one; otherwise the configured key, and the environment's only if none is configured; a bad configured key gives none; what is found is cached |
| `Auth.Service.GenerateJWT` | internal/auth/auth.go:171-201 | The claims carry the user's own name, e-mail and groups, the current generation, the last whole second of issue and of expiry and no not-before date; signed with the private key, or with the secret if there is none; an error exactly if neither exists or the user is missing |
| `Auth.Service.ValidateJWT` | internal/auth/auth.go:203-249 | Accepts exactly tokens of the key in use, before their expiry, not before their not-before date and of the current generation, with their own claims; otherwise the first error in the source's order |
| `Auth.AcceptedAfterRunIff` | internal/auth/auth.go:44-256 | After any run of the package with fresh generations, a token with the claims of a user is accepted if and only if nothing was invalidated or configured anew, the second of expiry has not begun (section 4.1.4 of RFC 7519) and, for a token signed with the secret, no private key has appeared since; and then with the user's own claims |
| `Locks.ProgramIsFlat` | internal/proxy/grafana_monitor.go:60-200 | Whatever a goroutine is made of, it acquires `m.mu` or `runMu` only while it holds neither, releases each the way it acquired it, makes passes only under `runMu` and touches the monitor's fields only under `m.mu` |
| `Locks.CodeDoes` | internal/proxy/grafana_monitor.go:60-200 | Which procedures make a pass, change the state, change the cancel function or look at the state |
| `Locks.ConflictsNeverMeet` | internal/sync/sync.go:24 | In every reachable state no two passes overlap, and nobody reads or changes the monitor's fields while another goroutine changes them |
| `Locks.NoHoldAndWait` | internal/sync/sync.go:148-150 | In every reachable state a goroutine that holds `m.mu` or `runMu` waits for no lock and can move, and a writer excludes all others |
| `Locks.NoDeadlock` | internal/proxy/grafana_monitor.go:127-195 | For any number of goroutines and any schedule, while one has something left to do some goroutine can move, even if waiting writers keep new readers out |
| `Lifecycle.Reachable` | cmd/savras/main.go:48-74 | The joint invariant of monitor, queue, lock and generations holds in every reachable state |
| `Lifecycle.HolderCanRelease` | internal/sync/sync.go:148-150 | Whenever `runMu` is held its holder has a step that releases it |
| `Lifecycle.PassesExclude` | internal/sync/sync.go:148-150 | While a callback's pass runs it holds the lock, no other callback's pass runs and nobody else can take the lock |
| `Lifecycle.RotatesAfterPass` | cmd/savras/main.go:67-70 | In any run a callback that is about to rotate the generation has taken the lock and then released it |
| `Lifecycle.FreeLockIsTaken` | internal/sync/sync.go:148-150 | A free lock can be taken by every waiting callback, the consumer and the ticker |
| `Lifecycle.SomeoneCanMove` | internal/proxy/grafana_monitor.go:185-195 | While the lock is held or a callback runs, one of them can make a step that is progress |
| `Lifecycle.RecoveriesCanFinish` | cmd/savras/main.go:67-70 | From every reachable state the lock holder and the callbacks alone can reach a state with the lock free, no callback running and one rotation for each outage that is over |
| `Lifecycle.TriggerCanBeServed` | internal/proxy/sync_queue.go:43-62 | From every reachable state in which Grafana is up and a trigger is unserved, the lock holder, the callbacks and the consumer alone can reach one more sync start |
| `Lifecycle.RejectedStaysRejected` | internal/auth/auth.go:220-224 | A token rejected for its generation is rejected in every later state, also one from an earlier process whose generation is never drawn again |
| `Lifecycle.OlderThanRecoveryIsRejected` | cmd/savras/main.go:67-70 | No token whose generation was read before a recovery's invalidation is accepted in any state after it |
| `Lifecycle.RotationsMatchRecoveries` | cmd/savras/main.go:53-71 | Generations are one more than completed callbacks, callbacks match the transitions to up, and without sync the generation never changes |
| `Lifecycle.AuthCheckIsValidate` | internal/proxy/proxy.go:129-161 | The admission step forwards exactly what token validation accepts |
| `Lifecycle.ForwardedWasAdmitted` | internal/proxy/proxy.go:80-96 | In any run, every forwarded request found Grafana up at an earlier step and at its later check held a token of the generation then current |
| `Lifecycle.CallbackFirstAdmits` | internal/proxy/grafana_monitor.go:35-37 | With the documented order, in every run a forwarded request's token is newer than the recoveries from all outages detected when it passed |
| `Lifecycle.UpFirstBreaksPromise` | internal/proxy/grafana_monitor.go:187-195 | A run of the order as written that forwards, after the first outage and before its callback has begun to sync, a request whose token is from before the outage |
| `Lifecycle.PromiseKeptIff` | internal/proxy/grafana_monitor.go:187-195 | In the order as written a request let through while up keeps the promise if and only if no callback is running |
| `Lifecycle.ForwardKeepsPromiseIff` | internal/proxy/proxy.go:80-96 | A request that is forwarded keeps the promise if and only if the recoveries completed at its token check are as many as the outages detected when it passed |
| `Lifecycle.QueueRunsAlone` | internal/proxy/sync_queue.go:43-62 | Every run of the whole system is, for the queue, a run of the queue alone, so the results on the queue carry over |
| `Lifecycle.OneSyncPerOutage` | internal/proxy/sync_queue.go:51-60 | While the monitor stays down the queue starts at most one sync, whose look had succeeded before |
| `Lifecycle.EachCountingTriggerIsOneSync` | internal/proxy/sync_queue.go:36-62 | In the whole system too the queued syncs started and owed grow by exactly the counting triggers |
| `Lifecycle.AtMostTwoMoreSyncs` | internal/proxy/sync_queue.go:43-62 | Once triggers cease exactly the owed queued syncs start, with the same conditions for two and for none, whatever monitor, callbacks and requests do |

## Left out

- LDAP dialing, binding and searching: a pass takes the answer, a sequence of groups with their member values, or the failure to get one.
- HTTP and JSON: API calls are operations on the store. Replies are taken to be accurate except those of the team search; a reply that cannot be decoded counts as a failed call.
- Grafana itself is assumed to keep team names and folder uids unique, to refuse the creation of a taken name and never to reuse a team id. Renames and deletions by others between passes are covered, since a pass may start from any valid store; during a pass Savras is the only writer.
- Grafana.Client.GetTeamMembers: the reply is read as a set of user ids, which is all that the pass uses of it.
- Signing, PEM parsing and UUID generation: a token carries the key it was signed with, and a new generation is assumed to be one never drawn before. Concurrent first uses of the cached key are not modelled.
- Lifecycle.HolderCanRelease: speaks of `runMu` only, because a section under `m.mu` is a single step there. `Locks` has both locks as separate operations, but only names what the sections do; that requests and pauses end is assumed.
- The classes `GrafanaMonitor` and `SyncQueue` are proved section by section against the transition systems; the interleaving itself is in the transition systems.
- Queue.SyncQueue.Collect: at most one trigger is let in after each receive, since one more would be dropped by the full channel; the wait for StateUp and the sync are steps of the transition system only.
- Wiring: the queue's and the middleware's checks for a missing monitor are dropped, because `cmd/savras/main.go:61-76` sets the monitor before the handler that triggers them exists.
- Real time: durations are integer nanoseconds, the pauses of the retry and of the polling loop are not timed, and a health request always ends.
- The background check itself: it is one more caller of `OnProxyError`, which may call at any time; only the storing and calling of its cancel function is modelled.
- Serial.ConcurrentPasses: callers are programs there, so the contract of a pass, at the store and tally where each caller takes the lock, is a hypothesis about them. `Sync.SyncWorker.SyncNow` discharges it for every execution of the code, and `Serial.RecordedPassesAreDone` puts these executions together; which executions a caller makes is left open.
- Passes.SuccessesAreProgress: teams whose entries want different users are excluded, because no distance to all of them can fall; `Passes.RivalEntriesNeverSettle` is the example.
- The worker's own `trigger`, `stop` and `ready` channels and its ticker: any number of callers may ask for a pass at any time, which includes them.
- Login and logout handlers, health and trigger endpoints, templates, cookies, redirects and header injection: each is settled by reading one function.
- Config loading and logging: the configuration is an input, log lines are dropped.
