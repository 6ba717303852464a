# Chronista Hub: a verified model

The Hub is a registry: people and organizations under handles, resources ingested as events, nodes that find and
reach each other, publications behind readable addresses, and tokens for the apps. This project models its state
machines in Dafny and proves what every run of them keeps. `dafny verify dfyconfig.toml` checks all of it.

The database is modelled as tables with atomic statements and transactions, unique indexes checked at commit,
outcomes (success, unique violation, stale row, write conflict) chosen by the environment, and a clock that only
moves forward. Code that changes things in place is a class with methods, proved against functions on values; the
theorems are about those functions, over runs of any length.

| files | what they are about |
|---|---|
| `Names` | canonical handles and slugs |
| `Roster`, `HandleRuns`, `HandleStore` | claim, rename, 100-day reserve, 30-day cooldown, as atomic operations and as the stored code |
| `HandleRaces`, `KeptNames` | the same with pre-checks, transactions and re-reads of many requests interleaved |
| `Connection` | replacing the database connection under concurrent checks |
| `Envelope`, `Feed`, `Drain`, `Consumer` | validation, event log, consumer |
| `Nodes`, `NodeStore`, `Relay`, `RelayStore` | node registry, discovery, relay map |
| `Publishing`, `PublishingStore`, `PublishingRaces`, `Redirects` | who may publish, the publication index, one request at a time and interleaved, where links end |
| `Tokens` | issue, rotate, revoke |

## Where the code does not do what one might expect

Where a lemma is named, it gives the run or the exact condition.

- A rename checks for somebody else's reserve before its transaction. When the name is left between check and
  commit it can be taken although it is kept (`HandleRaces.ReserveCanBeTaken`). It happens exactly when the reserve on
  the name is live and somebody else's at the commit and was written after the check (`HandleRaces.TheftNeedsARelease`);
  a release whose reserve is gone or expired by then does no harm. While the thief holds the name, the owner's take-back
  answers "taken" (`KeptNames.StolenNotTakenBack`) and links under it lead to the thief (`Redirects.StolenLinksPart`).
  Both work exactly as long as nobody holds the kept name (`KeptNames.TakeBackExactly`, `Redirects.LinksSurvive`), and
  nobody will if no request of somebody else for the name was past its check when it was left
  (`KeptNames.KeptNameSafe`).
- A claim that committed can answer "taken": the caller's other request may rename them before the last read, and after
  a claim that needs no cooldown (`HandleRaces.ClaimMayNotShow`, `HandleRaces.ClaimShows`).
- "Committed but the row does not show the new handle" can be reached when the re-read comes a whole cooldown later
  (`HandleRaces.CommitMayNotShow`, `HandleRaces.CommitShows`).
- A checker can ping the same failed connection twice (`Connection.RetryMayRepeat`), exactly when it took the connection
  after a swap whose bump it had not seen and the connection is still current (`Connection.ReplacesExactly`,
  `Connection.RetryRepeatsExactly`).
- ADR-004 asks for monotonic order per resource. The consumer goes on after a failure, so a failed mark lets an older
  event win (`Feed.FailedMarkReverses`). An append draws its time stamp before it creates its row, so without any failure
  an event can be created, and applied, after a newer one (`Feed.CrossedStampsReverse`). At every moment the event applied last decides (`Feed.LastAppliedDecides`), and
  once all are processed the order of the marks (`Feed.MarkOrderDecides`).
- An event whose marks always fail is polled and applied for ever, as only failures to apply are counted
  (`Drain.UnsettledNeverDrain`).
- ADR-004 scopes deduplication to the app and the key for 24 hours. The code and its unique index use the key alone,
  for ever; the model follows the code.
- The relay map is sound but not complete: closing an older channel, or a stranger's Unregister, can drop a live node
  (`Relay.OlderCloseLosesName`, `Relay.StrangerDropsName`); `Relay.CloseLosesExactly` and `Relay.SyncLosesExactly` say
  exactly when.
- A put or delete of a publication looks whose the row is and then writes without asking again. Two apps can overwrite
  each other (`PublishingRaces.PutTakesOver`), and an app's delete can remove another app's row
  (`PublishingRaces.DeleteTakesAway`), exactly when that row was put after the look
  (`PublishingRaces.ForeignChangeExactly`); `PublishingRaces.PersistsExactly` says when a row is safe.
- A put can go through and answer "vanished" (`PublishingRaces.PutVanishes`, `PublishingRaces.RereadExactly`).
- An empty rotation after the last token ran out makes a token without scopes (`Tokens.EmptyRotationExact`).
- The comment on revoking speaks of active tokens; the code also revokes, and answers true for, one that has expired
  (`Tokens.Store.Revoke`).

## Model

| member | source | states |
|---|---|---|
| `Names.HandleInputsExact` | crates/chronista-hub-server/src/model.rs:208-218 | the inputs that name a handle are exactly its spellings in any case with any white space around it; an ill-formed handle is named by nothing |
| `Names.SlugInputsExact` | crates/chronista-hub-server/src/model.rs:190-206 | the same for slugs; a reserved word is named by no input, whatever its case or padding |
| `Names.HandleFixedPoint` | crates/chronista-hub-server/src/model.rs:208-218 | the canonical handles are exactly the fixed points, and one step reaches one |
| `Names.SlugFixedPoint` | crates/chronista-hub-server/src/model.rs:195-206 | the same for slugs |
| `Names.HandleShape` | crates/chronista-hub-server/src/model.rs:208-218 | a handle is 1 to 31 lower-case letters, digits and hyphens that do not start with a hyphen, character by character |
| `Names.SlugShape` | crates/chronista-hub-server/src/model.rs:190-206 | a slug is the same up to 63, and none of the nine words of the tree below a handle |
| `Names.CaseDoesNotMatter` | crates/chronista-hub-server/src/model.rs:208-218 | any mix of upper and lower case of a handle names that handle |
| `Roster.ClaimExact` | crates/chronista-hub-server/src/storage.rs:361-411 | a claim goes through exactly for a person without a handle on a name nobody controls, changes the control of that one name, and otherwise changes nothing |
| `Roster.RenameExact` | crates/chronista-hub-server/src/storage.rs:453-570 | a rename goes through exactly for a person who still holds the old name, is past the cooldown and asks for a name that is free or kept for them; `until` is 30 days after the last rename; any other answer changes nothing |
| `Roster.RenameMovesControl` | crates/chronista-hub-server/src/storage.rs:513-533 | after a rename the new name is held, the old one is kept for 100 days, the name kept before is free unless taken back, and no other name changes hands |
| `Roster.RenameInPlace` | crates/chronista-hub-server/src/app.rs:718-724 | a rename onto the name already held goes through for every person past the cooldown who holds it, and would break the invariant exactly then, which is why the handler answers before it |
| `Roster.CooldownTestsAgree` | crates/chronista-hub-server/src/storage.rs:492-521 | at one instant the cooldown pre-check refuses exactly when the WHERE of the transaction does |
| `Roster.SeedExact` | migrations/013_orgs_and_publications.surql:53-65 | a migration adds an organization exactly when nobody controls the name and the id is free, and changes nothing else |
| `HandleRuns.RunKeepsInv` | crates/chronista-hub-server/src/storage.rs:366-570 | with requests one at a time, in every state reachable by contacts, claims, renames, seeded organizations and waiting: handles and subjects are unique, each user has at most one reserve, its owner holds exactly its `new_handle`, it expires 100 days after the last rename, and no row holds a name whose reserve is live |
| `HandleRuns.HandlerIsLegalRun` | crates/chronista-hub-server/src/app.rs:694-748 | the handler of `PUT /v1/me/handle` only issues operations the run theorems cover, for every input |
| `HandleRuns.PutHandleMeans` | crates/chronista-hub-server/src/app.rs:690-748 | an accepted request leaves the caller holding the canonical form of what was asked; every other answer leaves all names under the same control |
| `HandleRuns.PutHandleExact` | crates/chronista-hub-server/src/app.rs:694-748 | which answer the handler gives to somebody on the roster: cooling down exactly for another name within 30 days of the last rename, with `until` the end of them; accepted exactly for the name already held, a claim of a free name, or a later rename onto a name that is free or kept for the caller; else a conflict |
| `HandleRuns.PutHandleNewcomer` | crates/chronista-hub-server/src/app.rs:694-748 | and to a newcomer: an error exactly when the fresh id is taken, else accepted exactly when nobody controls the name |
| `HandleRuns.KeptNameStaysKept` | crates/chronista-hub-server/src/storage.rs:412-428 | with requests one at a time: until it expires, a reserve is ended only by a rename of its owner |
| `HandleRuns.TakeBackSucceeds` | crates/chronista-hub-server/src/storage.rs:455-461 | with requests one at a time: from 30 to 100 days after a rename the owner can rename back; the reserve taken back is gone and the only one left is on the name just left |
| `HandleRuns.TakeBackEnabled` | crates/chronista-hub-server/src/storage.rs:455-461 | the same read off any state reachable with requests one at a time |
| `HandleRuns.RenamesSpaced` | crates/chronista-hub-server/src/storage.rs:492-506 | with requests one at a time, two completed renames of a user are at least 30 days apart |
| `HandleRuns.RenameRate` | crates/chronista-hub-server/src/storage.rs:492-506 | with requests one at a time, in a window of length L a user completes at most L/30d + 1 renames |
| `HandleRuns.AtMostTwoNames` | crates/chronista-hub-server/src/storage.rs:453-461 | at any instant a user controls at most the current handle and one live reserve |
| `HandleStore.Store.EnsureUser` | crates/chronista-hub-server/src/storage.rs:314-347 | three attempts around the create and the re-read, each with its own fresh id, are the atomic first contact, or a conflict that changed nothing |
| `HandleStore.Store.ClaimHandle` | crates/chronista-hub-server/src/storage.rs:366-411 | the checks, the UPDATE and the re-read, with their retries, are the atomic claim, or a conflict error that changed nothing |
| `HandleStore.Store.RenameTransaction` | crates/chronista-hub-server/src/storage.rs:513-533 | statement by statement with roll-back, the transaction commits exactly when the row matches and no other row holds the name, and otherwise restores both tables |
| `HandleStore.Store.RenameHandle` | crates/chronista-hub-server/src/storage.rs:465-570 | pre-checks, transaction, classification and three attempts are the atomic rename; three conflicts answer `Taken` and change nothing |
| `HandleStore.Store.PutHandle` | crates/chronista-hub-server/src/app.rs:694-748 | the handler over the stored operations is the handler of `HandleRuns`, unless the writes of one operation all conflict; a first contact that only conflicts changes nothing |
| `HandleRaces.FirstContactConverges` | crates/chronista-hub-server/src/storage.rs:314-347 | in every interleaving there is one row per subject, all first contacts that succeed answer with its id, and the row never vanishes after the create |
| `HandleRaces.FirstContactSucceeds` | crates/chronista-hub-server/src/storage.rs:314-347 | in every interleaving, an answered first contact has its subject's row exactly when no step broke, not all three writes lost and no drawn id was in the table; losing the race on the subject is a success |
| `HandleRaces.FirstContactAdvances` | crates/chronista-hub-server/src/storage.rs:320-347 | step by step: the look finds the row or goes on, a write with a fresh id always reaches the re-read, and the re-read always answers with the row |
| `HandleRaces.EndsExactly` | crates/chronista-hub-server/src/storage.rs:316-570 | every error of every request over every interleaving, exactly: broken steps, three lost writes (`Taken` for a rename), a drawn id that was taken, and nothing else but a rename that misses its name at the last read |
| `HandleRaces.ClaimRefusedExactly` | crates/chronista-hub-server/src/storage.rs:374-411 | a claim step is refused exactly where the name is held, kept for somebody else, lost at the unique index, or not on the own row in the end; a write that matches no row decides nothing |
| `HandleRaces.NamesConserved` | crates/chronista-hub-server/src/storage.rs:374-533 | in every interleaving, acquisitions minus releases of a name is the difference between held now and held at the start, and no name is held twice |
| `HandleRaces.AnswersAreHonest` | crates/chronista-hub-server/src/storage.rs:465-570 | a rename answers `Renamed` exactly when one of its attempts changed the tables; a claim that answers with a row answers with the caller's own under the name asked for |
| `HandleRaces.WroteIffTouched` | crates/chronista-hub-server/src/storage.rs:465-570 | whether a request wrote is exactly whether some step of it changed the tables |
| `HandleRaces.CommitShows` | crates/chronista-hub-server/src/storage.rs:562-568 | the read after a commit misses the new name exactly when the user has moved on, which takes a whole cooldown |
| `HandleRaces.CommitMayNotShow` | crates/chronista-hub-server/src/storage.rs:562-568 | a run in which the branch "committed but the row does not show" is reached |
| `HandleRaces.ClaimShows` | crates/chronista-hub-server/src/storage.rs:400-406 | the read after a claim answers None exactly when the caller's row does not carry the name then; for a committed claim this means a rename since, and without one the claim is shown |
| `HandleRaces.ClaimMayNotShow` | crates/chronista-hub-server/src/storage.rs:400-406 | a run in which a committed claim answers None |
| `HandleRaces.TheftNeedsARelease` | crates/chronista-hub-server/src/storage.rs:507-513 | a commit takes a name kept for somebody else exactly when that name was left after this request had looked for a reserve |
| `HandleRaces.StampsAreCommits` | crates/chronista-hub-server/src/storage.rs:513-533 | the step number of a reserve row moves only when a rename away from its name commits in that step |
| `HandleRaces.ReserveCanBeTaken` | crates/chronista-hub-server/src/storage.rs:507-533 | a run in which it happens: the reserve check passes before the owner leaves the name, the transaction commits after |
| `HandleRaces.SoloIsAtomic` | crates/chronista-hub-server/src/storage.rs:316-570 | without anybody in between, the interleaved steps add up to the atomic operations |
| `KeptNames.RunKeepsCoherent` | crates/chronista-hub-server/src/storage.rs:374-533 | in every interleaving the handles and subjects stay unique, a user has at most one reserve row, and its owner holds exactly its `new_handle`, differs from the name kept and last moved 100 days before it expires |
| `KeptNames.TakeBackExactly` | crates/chronista-hub-server/src/storage.rs:486-533 | past the cooldown, the owner of a live reserve takes the name back exactly when nobody holds it |
| `KeptNames.KeptNameSafe` | crates/chronista-hub-server/src/storage.rs:374-533 | with requests interleaved: a live reserve on an unheld name stays, and the name stays unheld, until it expires or its owner's rename commits, as long as no request of somebody else for the name is already past its look for a reserve |
| `KeptNames.TakeBackInRaces` | crates/chronista-hub-server/src/storage.rs:453-533 | under the same premise, take-back works from 30 to 100 days after the rename and leaves one reserve, on the name just left |
| `KeptNames.StolenNotTakenBack` | crates/chronista-hub-server/src/storage.rs:507-533 | a run after which the take-back answers `Taken` with the reserve still live |
| `KeptNames.CommitsSpaced` | crates/chronista-hub-server/src/storage.rs:513-521 | in every interleaving, renames of one user commit at least 30 days apart |
| `KeptNames.CommitRate` | crates/chronista-hub-server/src/storage.rs:513-521 | in every interleaving, in a window of length L a user's renames commit at most L/30d + 1 times |
| `Connection.RunKeepsInv` | crates/chronista-hub-server/src/db.rs:212-255 | the invariant of the replacement protocol, over every interleaving of any number of checks |
| `Connection.DiscardsOwnFailure` | crates/chronista-hub-server/src/db.rs:209-237 | each replacement discards the connection its own checker's ping failed on, never a newer one; with the mutex free the generation is the connection version and the reconnect count |
| `Connection.OneReplacementPerGeneration` | crates/chronista-hub-server/src/db.rs:209-220 | checkers that saw the same generation cause at most one replacement |
| `Connection.VerdictsEarned` | crates/chronista-hub-server/src/db.rs:241-255 | in every interleaving, a check that says "up" had one of its own pings work; one that says "down" had its reopening or second ping fail, or for an embedded database its only ping |
| `Connection.WaitsForMutex` | crates/chronista-hub-server/src/db.rs:216-216 | a checker that finds the mutex taken waits and one that finds it free takes it |
| `Connection.EmbeddedNeverReplaced` | crates/chronista-hub-server/src/db.rs:212-215 | an embedded database is never reopened |
| `Connection.RetryIsOnNewer` | crates/chronista-hub-server/src/db.rs:241-255 | the second ping is on a connection newer than the generation read first, and newer than the first ping's unless that was newer already |
| `Connection.RetryMayRepeat` | crates/chronista-hub-server/src/db.rs:229-247 | a run in which a checker pings the same connection twice, having read the generation between the swap and the bump |
| `Connection.ReplacesExactly` | crates/chronista-hub-server/src/db.rs:216-220 | in the mutex, a checker whose failed connection is still current replaces it exactly when that is the version of the generation it had read |
| `Connection.RetryRepeatsExactly` | crates/chronista-hub-server/src/db.rs:212-255 | undisturbed from the mutex on and with an open that works, the second ping is on the same connection as the first exactly when that is still current and the generation read was older |
| `Connection.AloneIsCheckAlone` | crates/chronista-hub-server/src/db.rs:239-255 | left alone, the steps of a check have the result of the sequential check, for every combination of answers |
| `DbHandle.Db.ReconnectFrom` | crates/chronista-hub-server/src/db.rs:212-237 | nothing happens when embedded or when the generation has moved on; a failed open changes nothing |
| `DbHandle.Db.Record` | crates/chronista-hub-server/src/db.rs:257-277 | a good result keeps the last error on record, a bad one replaces it |
| `DbHandle.Db.Check` | crates/chronista-hub-server/src/db.rs:239-255 | the whole check on one handle, with the health it leaves behind |
| `Feed.ConsumerRefinesFold` | crates/chronista-hub-server/src/consumer.rs:27-64 | for any batches, failed polls, crashes and arrivals with any stamps, a resource none of whose events failed to apply or be marked, and none of whose rows was created after one with a later stamp had been applied, is always what a prefix of the log in stamp order makes it, with everything before the prefix's end processed and everything after it pending, and what the whole log makes it once drained, whatever failed elsewhere |
| `Feed.SparedExactly` | crates/chronista-hub-server/src/consumer.rs:41-62 | the premise of the refinement read off the run: a resource is spared exactly when none of its events met a failure of apply or mark and none of its rows was overtaken |
| `Feed.HandleRecords` | crates/chronista-hub-server/src/consumer.rs:41-61 | fate by fate: the index changes exactly when the event is applied, also when the mark then fails or the process dies after it |
| `Feed.LastAppliedDecides` | crates/chronista-hub-server/src/consumer.rs:41-62 | for every run, with failures and overtaken stamps, at every moment: the index agrees with the fold of the log in stamp order on a resource exactly when what was last applied to it has the effect of the event with the latest stamp |
| `Feed.MarkOrderDecides` | crates/chronista-hub-server/src/consumer.rs:41-62 | once every event of a resource is processed, the index agrees with the fold exactly when the event marked last has the same effect as the event with the latest stamp |
| `Feed.FailedMarkReverses` | crates/chronista-hub-server/src/consumer.rs:43-48 | one failed mark makes the older of two events win |
| `Feed.CrossedStampsReverse` | crates/chronista-hub-server/src/event_log.rs:66-95 | a run without any failure in which the older of two events wins, because its row was created after the newer one had been applied |
| `Feed.RunKeepsTrace` | crates/chronista-hub-server/src/consumer.rs:41-62 | the index always holds the effect of the row applied last, whose mark is the latest of its resource |
| `Feed.RunDeduplicates` | crates/chronista-hub-server/src/event_log.rs:44-58 | over every run no idempotency key and no event id is accepted twice |
| `Feed.ArrivalIsLogged` | crates/chronista-hub-server/src/event_log.rs:44-80 | an arrival is a new pending row with its stamp, or its key or id was there before and nothing changes |
| `Feed.ReplayIsRefused` | crates/chronista-hub-server/src/event_log.rs:44-50 | an envelope already in the log is refused as a duplicate key |
| `Feed.AppendAnswersExactly` | crates/chronista-hub-server/src/event_log.rs:44-80 | the sender is told of a duplicate key, of a duplicate id under a new key, or of acceptance, each exactly then |
| `Feed.RacedAppend` | crates/chronista-hub-server/src/event_log.rs:44-80 | an append with others between its look-ups and its CREATE is an arrival at the CREATE with the stamp drawn before, and is refused with an error exactly when its key or id arrived in between |
| `Feed.WorkKeepsEvents` | crates/chronista-hub-server/src/consumer.rs:41-62 | a tick never changes what was received |
| `Drain.Drains` | crates/chronista-hub-server/src/event_log.rs:82-116 | with n events pending and no arrivals, 5n/b + 5 ticks that go through process or dead-letter every event, whatever fails, and with other ticks in between |
| `Drain.LostRecordsNeverDrain` | crates/chronista-hub-server/src/consumer.rs:51-59 | the bound needs the records: an event whose failures never reach the log is polled for ever |
| `Drain.UnsettledNeverDrain` | crates/chronista-hub-server/src/consumer.rs:41-62 | an event that is never marked and never fully recorded as failed stays pending through any run, so failing marks alone never dead-letter it |
| `Drain.WorkUses` | crates/chronista-hub-server/src/consumer.rs:41-62 | a tick that goes through brings every polled event at least one attempt closer to its end and leaves all other rows as they are |
| `Drain.FiveTries` | crates/chronista-hub-server/src/event_log.rs:97-116 | over every run the retry count is the number of counted failures, a dead letter has had at least five, and with every record completed exactly five make one |
| `Drain.FourFailuresSurvive` | crates/chronista-hub-server/src/event_log.rs:97-116 | an event with at most four counted failures is still pending or processed |
| `Drain.TickMeets` | crates/chronista-hub-server/src/consumer.rs:28-64 | a tick that runs to its end does to every polled event what its fate says, once, and nothing to any other |
| `Drain.PollsOldest` | crates/chronista-hub-server/src/event_log.rs:82-95 | a poll takes the pending rows with the oldest stamps, as many as the batch allows |
| `Consumer.EventStore.LookUp` | crates/chronista-hub-server/src/event_log.rs:45-64 | the look-ups answer by key first, then by id |
| `Consumer.EventStore.Create` | crates/chronista-hub-server/src/event_log.rs:66-76 | the CREATE adds the pending row or is refused by a unique index and changes nothing |
| `Consumer.EventStore.Append` | crates/chronista-hub-server/src/event_log.rs:44-80 | undisturbed, look-ups and CREATE are the log's append step and never fail |
| `Consumer.EventStore.RecordFailure` | crates/chronista-hub-server/src/event_log.rs:97-116 | the two statements count the failure and dead-letter at the limit, and stop where the database stops |
| `Consumer.EventStore.HandleEvent` | crates/chronista-hub-server/src/consumer.rs:41-61 | apply, then mark or record: exactly the model's step, marked when and only when it was applied and marked |
| `Consumer.EventStore.HandleAll` | crates/chronista-hub-server/src/consumer.rs:39-63 | the loop is the model's work on the polled events, and its counters add up |
| `Consumer.EventStore.Tick` | crates/chronista-hub-server/src/consumer.rs:27-64 | one tick takes the model's step; `processed` is the number of rows that became processed, every other polled event is an error, and a failed poll is one error |
| `Nodes.OwnershipPersists` | crates/chronista-hub-server/src/storage.rs:840-939 | over any run by any principals, an owned record changes only by its owner's own requests, also where ids from `node_id` and from `handle` coincide |
| `Nodes.RefusedExactly` | crates/chronista-hub-server/src/unison_server.rs:442-470 | unauthorized is exactly no principal where one is required, or an app without the method's scope; a refused request changes nothing |
| `Nodes.FailsExactly` | crates/chronista-hub-server/src/unison_server.rs:301-434 | each other refusal has its one cause: missing fields, a visibility other than public or private, another owner; and the default visibility follows the owner |
| `Nodes.AnswersEcho` | crates/chronista-hub-server/src/unison_server.rs:369-428 | an answer names the node id, handle and endpoints of its request and the time of the registration |
| `Nodes.OthersCannotTouch` | crates/chronista-hub-server/src/storage.rs:840-939 | a request by anyone else is refused or removes nothing |
| `Nodes.OwnerKeepsControl` | crates/chronista-hub-server/src/unison_server.rs:331-377 | the owner's next Register replaces the record and its next Unregister removes it |
| `Nodes.RegisterThenDiscover` | crates/chronista-hub-server/src/unison_server.rs:331-404 | a registered node is listed exactly for its owner and, when public, for everybody, with the endpoints and name given and `connected` from the snapshot |
| `Nodes.UnregisterThenDiscover` | crates/chronista-hub-server/src/storage.rs:907-939 | the count is 1 exactly when the guard lets the caller remove the record, and lists lose exactly that record |
| `Nodes.NonInterference` | crates/chronista-hub-server/src/storage.rs:846-986 | two runs that differ only in other owners' steps on their own non-public records give the viewer the same Discover lists, liveness and Unregister counts |
| `Nodes.PurgeUnseen` | crates/chronista-hub-server/src/storage.rs:846-986 | everything a viewer is told is the same with the secret steps left out |
| `Nodes.RegisterTells` | crates/chronista-hub-server/src/storage.rs:881-890 | a viewer who tries to register a record is refused exactly when another user owns it |
| `NodeStore.Store.RegisterNode` | crates/chronista-hub-server/src/storage.rs:846-891 | the guarded UPSERT on the rows is the registry's register step |
| `NodeStore.Store.UnregisterNode` | crates/chronista-hub-server/src/storage.rs:907-939 | both forms of the DELETE are the registry's unregister step; naming nothing is an error |
| `NodeStore.Store.HandleNodes` | crates/chronista-hub-server/src/unison_server.rs:322-434 | the dispatch, gate by gate, is the model's request step |
| `Relay.RunKeepsSound` | crates/chronista-hub-server/src/unison_server.rs:68-205 | over every run of interleaved registrations, takeovers, removals and closes, each entry is backed by an open channel on its connection with the name in its own list |
| `Relay.SnapshotIsBacked` | crates/chronista-hub-server/src/unison_server.rs:153-156 | every node in a liveness snapshot had an open channel at that moment |
| `Relay.CloseLeavesNothing` | crates/chronista-hub-server/src/unison_server.rs:196-204 | a close removes exactly the names the channel registered, and leaves no entry for its connection unless another channel is open on it |
| `Relay.RelayReaches` | crates/chronista-hub-server/src/unison_server.rs:481-520 | a message is only forwarded on a connection with an open channel that registered the addressee |
| `Relay.RelayExactly` | crates/chronista-hub-server/src/unison_server.rs:481-520 | refused, missing addressee, offline, or established on the connection of the map: each exactly when |
| `Relay.OneAtATime` | crates/chronista-hub-server/src/unison_server.rs:144-200 | a channel serves one request at a time and closes only in between |
| `Relay.CloseLosesExactly` | crates/chronista-hub-server/src/unison_server.rs:196-204 | a close makes a registered node unreachable exactly when another open channel registered one of its names too |
| `Relay.SyncLosesExactly` | crates/chronista-hub-server/src/unison_server.rs:82-99 | an answer does so exactly when it is to an Unregister of a node id another open channel registered, whatever `removed` says |
| `Relay.OthersLoseNothing` | crates/chronista-hub-server/src/unison_server.rs:144-205 | no step but a close or the handling of an answer makes a registered node unreachable |
| `Relay.SecretRequestStaysSecret` | crates/chronista-hub-server/src/unison_server.rs:75-99 | a secret request changes the relay map and the channels' lists only at names of secret records, so the liveness that others see differs only there |
| `Relay.OlderCloseLosesName` | crates/chronista-hub-server/src/unison_server.rs:196-204 | a run in which closing the older channel takes a live node off the map |
| `Relay.StrangerDropsName` | crates/chronista-hub-server/src/unison_server.rs:93-96 | a run in which another user's Unregister, answered with nothing removed, does |
| `RelayStore.NodesChannel.SyncRelayRegistry` | crates/chronista-hub-server/src/unison_server.rs:73-99 | map and list after an answer are the model's, with the name noted once and all others kept in order |
| `RelayStore.NodesChannel.Cleanup` | crates/chronista-hub-server/src/unison_server.rs:196-204 | the loop of removals at close removes exactly the registered names |
| `Publishing.PublishersAgree` | crates/chronista-hub-server/src/app.rs:815-1018 | for every person and every current handle, the handle is on `my_publishers` exactly when `check_publisher` accepts that person for it |
| `Publishing.ListedExact` | crates/chronista-hub-server/src/app.rs:815-845 | a handle is listed exactly for the person who holds it and for those with a publishing role in the organization that holds it |
| `Publishing.ListedRight` | crates/chronista-hub-server/src/app.rs:827-845 | every entry of the list is the own row without a role, or an organization with the publishing role of a membership, with its own id, handle and kind |
| `Publishing.OrgsExactly` | crates/chronista-hub-server/src/storage.rs:649-678 | a person's organizations are exactly those with a handle that a membership names, with its role |
| `Publishing.ResolvesExactly` | crates/chronista-hub-server/src/storage.rs:445-451 | a name leads elsewhere exactly while its reserve is live and its owner is a person with a handle |
| `Publishing.PublicExactly` | crates/chronista-hub-server/src/model.rs:130-150 | persons and organizations with a handle are public, reserved names and the nameless are not |
| `Publishing.CheckExact` | crates/chronista-hub-server/src/app.rs:955-1018 | the check accepts a current handle exactly for the same people, and answers with that row and that person |
| `Publishing.FirstContactPublishesNothing` | crates/chronista-hub-server/src/app.rs:827-845 | on first contact the list is empty and the check refuses |
| `Publishing.MovedNameChecksTheSame` | crates/chronista-hub-server/src/app.rs:974-979 | while nobody holds a kept name, it and the current one get the same answer; once somebody does, it never leads to the owner's row |
| `Publishing.SiteRunKeepsInv` | crates/chronista-hub-server/src/app.rs:1055-1170 | with requests one at a time, over every run of the whole site the roster invariant holds, memberships are unique and publications are keyed by existing publishers and canonical slugs |
| `Publishing.PublicationPersists` | crates/chronista-hub-server/src/app.rs:1055-1170 | with requests one at a time: over any run a publication stays as it is until its own app changes it for someone who may publish under that name at that moment |
| `PublishingRaces.ForeignChangeExactly` | crates/chronista-hub-server/src/app.rs:1103-1170 | over every interleaved run, a step changes another app's publication exactly when it is a put's or delete's write that goes through and the last write to the key is another app's put made after this request looked whose the row is |
| `PublishingRaces.PersistsExactly` | crates/chronista-hub-server/src/app.rs:1103-1170 | a publication is safe from other apps over all further interleaved runs in which its own app does not write it, exactly when no other app's request is already past that look |
| `PublishingRaces.LetInMayPublish` | crates/chronista-hub-server/src/app.rs:1074-1077 | a request gets past its first check only for someone who may publish under the name at that moment |
| `PublishingRaces.RereadExactly` | crates/chronista-hub-server/src/app.rs:1120-1127 | a put is shown the row of the key's last writer, or fails as vanished exactly when the last write is a removal |
| `PublishingRaces.SoloIsAtomic` | crates/chronista-hub-server/src/app.rs:1055-1170 | without anybody in between, put and delete are the operations of `Publishing`, and a put is shown its own row |
| `PublishingRaces.EndsExactly` | crates/chronista-hub-server/src/app.rs:1055-1170 | over every interleaved run: a request fails as broken exactly when the database failed under a step of it, with a conflict exactly when all three writes of a put or the one of a delete lost, and otherwise only a put whose row vanished |
| `PublishingRaces.LostPutLooksAgain` | crates/chronista-hub-server/src/storage.rs:721-747 | a put whose write lost looks for the row again, and says "created" by what it finds then |
| `PublishingRaces.LookIsStamped` | crates/chronista-hub-server/src/app.rs:1103-1111 | the look at whose the row is lets through exactly then, and no later step of the request moves that moment |
| `PublishingRaces.PutTakesOver` | crates/chronista-hub-server/src/app.rs:1103-1120 | a run in which two apps are both told that they created the same slug |
| `PublishingRaces.DeleteTakesAway` | crates/chronista-hub-server/src/app.rs:1153-1169 | a run in which an app's delete removes another app's row |
| `PublishingRaces.PutVanishes` | crates/chronista-hub-server/src/app.rs:1120-1127 | a run in which a put that went through answers with the vanished error |
| `PublishingStore.Store.OrgsOf` | crates/chronista-hub-server/src/storage.rs:649-678 | the loop collects the organizations with a handle, in the order of joining |
| `PublishingStore.Store.MyPublishers` | crates/chronista-hub-server/src/app.rs:815-845 | first contact, own name and the loop over organizations give the specified list |
| `PublishingStore.Store.MembershipRole` | crates/chronista-hub-server/src/storage.rs:606-625 | the first matching membership's role |
| `PublishingStore.Store.CheckPublisher` | crates/chronista-hub-server/src/app.rs:955-1018 | the look-ups from name to person give the specified verdict |
| `PublishingStore.Store.PutPublication` | crates/chronista-hub-server/src/app.rs:1055-1133 | the checks in order and the retried write give the specified index and answer; three conflicts change nothing |
| `PublishingStore.Store.DeletePublication` | crates/chronista-hub-server/src/app.rs:1135-1170 | the specified index and answer, error by error |
| `PublishingStore.Store.AddMember` | crates/chronista-hub-server/src/storage.rs:626-646 | a second membership for the same pair is refused |
| `Redirects.RedirectsEnd` | crates/chronista-hub-server/src/profile.rs:42-165 | from any request, however spelled, in every state racing requests can leave, at most two internal 301 answers lead to the answer the roster and the index prescribe: 200, 404 or a 302 out |
| `Redirects.TwoHopsNeeded` | crates/chronista-hub-server/src/profile.rs:42-86 | two hops are needed for a kept name with a trailing slash |
| `Redirects.LinksSurvive` | crates/chronista-hub-server/src/profile.rs:125-150 | while a reserve is live, every link under the old handle ends where the same link under the current one ends, on all four routes and for every string as slug, exactly as long as nobody holds the old handle |
| `Redirects.LinksSurviveRename` | crates/chronista-hub-server/src/profile.rs:72-86 | with requests one at a time, links survive for 100 days after a rename |
| `Redirects.LinksSurviveInRaces` | crates/chronista-hub-server/src/profile.rs:72-150 | with requests interleaved, links survive until the reserve expires or the owner renames, as long as no request of somebody else for the name was already past its look for a reserve |
| `Redirects.StolenLinksPart` | crates/chronista-hub-server/src/profile.rs:72-86 | a run after which a kept name leads to somebody else's page with the reserve still live |
| `Redirects.PublicationReachedExactly` | crates/chronista-hub-server/src/profile.rs:125-165 | a publication is reached exactly through a name its publisher controls and a spelling of its slug |
| `Redirects.ProfileListsPages` | crates/chronista-hub-server/src/profile.rs:87-118 | a profile lists exactly the slugs in the index under whoever answers to the name, and each listed link leads out to its app |
| `Redirects.OwnerControls` | crates/chronista-hub-server/src/storage.rs:444-451 | whoever answers to a name holds it, or has it kept while nobody holds it |
| `Redirects.PutThenFollow` | crates/chronista-hub-server/src/app.rs:1055-1133 | an accepted publication is reached at once under the name and slug it was put with, in that spelling |
| `Redirects.DeleteThenFollow` | crates/chronista-hub-server/src/app.rs:1135-1170 | a deleted one is reached no more |
| `Redirects.ApiAgrees` | crates/chronista-hub-server/src/app.rs:768-809 | the public row and the pages agree on who answers to a name, and a moved name moves only once |
| `Redirects.CheckedExactly` | crates/chronista-hub-server/src/app.rs:955-1018 | the publisher check error by error, for any name: nobody answers to it, no actor given, or the actor may not publish under it; else the row and the person |
| `Redirects.PutExactly` | crates/chronista-hub-server/src/app.rs:1058-1133 | when a put is accepted and which refusal comes otherwise, in the order of the handler; what an accepted put stores, and that it changes no other row |
| `Redirects.DeleteExactly` | crates/chronista-hub-server/src/app.rs:1137-1170 | the same for a delete |
| `Redirects.RoutePage` | crates/chronista-hub-server/src/app.rs:165-168 | a canonical page address is routed back to its two segments |
| `Redirects.RoutesExactly` | crates/chronista-hub-server/src/app.rs:165-168 | the four routes answer exactly the paths of one or two non-empty segments with or without a last slash, and hand over exactly those segments |
| `Redirects.PlainSegmentIsNotFound` | crates/chronista-hub-server/src/profile.rs:18-21 | a first segment without `@` ends in 404 on every route |
| `Tokens.ExpiryClosedForm` | crates/chronista-hub-server/src/product_token.rs:177-247 | after any run a token expires at its original time or 30 days after the first rotation of its app that found it unrevoked, whichever is earlier |
| `Tokens.RotationClosedForm` | crates/chronista-hub-server/src/product_token.rs:177-247 | for a token made by a rotation: 365 days, or 30 days after the next rotation |
| `Tokens.IssuedExactly` | crates/chronista-hub-server/src/product_token.rs:91-137 | an issued token is for the app, scopes and days given, a year by default, verifies as such at once, and touches no other; a taken name is refused |
| `Tokens.RotatedExactly` | crates/chronista-hub-server/src/product_token.rs:177-247 | a rotated token is for the app and a year, with the scopes given or a newest active token's; unrevoked tokens of the app are cut to 30 days and all others left alone |
| `Tokens.RotationRollsBack` | crates/chronista-hub-server/src/product_token.rs:190-222 | a taken name rolls the whole rotation back |
| `Tokens.NeverExtended` | crates/chronista-hub-server/src/product_token.rs:171-266 | no run ever extends an expiry, changes what a token stands for or undoes a revocation |
| `Tokens.VerifiesExactly` | crates/chronista-hub-server/src/product_token.rs:139-170 | a token verifies exactly until the closed form runs out or it is revoked, always as the same app and scopes, and never again after it stopped |
| `Tokens.RevokedExactly` | crates/chronista-hub-server/src/product_token.rs:250-266 | exactly a revoke that names the token and its own app revokes it |
| `Tokens.RevokeMarksOne` | crates/chronista-hub-server/src/product_token.rs:250-266 | a revoke marks exactly the named token if it is the app's own and unrevoked |
| `Tokens.ChainKeepsScopes` | crates/chronista-hub-server/src/product_token.rs:171-200 | a chain of empty rotations, each while a token of the chain is active, keeps the first token's scopes, also when rotations fall on the same instant; the app's other tokens in that time must name the same scopes, since the newest one is inherited from |
| `Tokens.EmptyRotationExact` | crates/chronista-hub-server/src/product_token.rs:186-200 | an empty rotation makes a token without scopes exactly when the app has no active token or the newest has none |
| `Tokens.NewestExists` | crates/chronista-hub-server/src/product_token.rs:199-203 | an app with an active token has a newest one |
| `Tokens.Store.Issue` | crates/chronista-hub-server/src/product_token.rs:91-137 | issue in place, with the default term |
| `Tokens.Store.Inherited` | crates/chronista-hub-server/src/product_token.rs:199-203 | the scan finds a newest active token's scopes, or none |
| `Tokens.Store.Rotate` | crates/chronista-hub-server/src/product_token.rs:177-247 | read, shorten, create and roll back are one step of the model |
| `Tokens.Store.Revoke` | crates/chronista-hub-server/src/product_token.rs:250-266 | true exactly when the token is the app's and not revoked, expired or not |
| `Tokens.Store.VerifyToken` | crates/chronista-hub-server/src/product_token.rs:139-170 | the look-up is the specified verdict |
| `Envelope.ValidateEnvelope` | crates/chronista-hub-server/src/model.rs:279-330 | the errors are the specified list, Ok comes exactly for a well-typed input and no unwrap fails |
| `Envelope.ValidateResource` | crates/chronista-hub-server/src/model.rs:332-398 | errors are moved to the caller's list with the prefix, and a resource is returned only without any |
| `Envelope.NoErrorsIffWellTyped` | crates/chronista-hub-server/src/model.rs:279-330 | the error list is empty exactly for a well-typed envelope |
| `Envelope.NamesReadExactly` | crates/chronista-hub-server/src/model.rs:293-305 | a kind and a visibility are read exactly from their own names; any other string is refused |
| `Envelope.OwnerWritten` | crates/chronista-hub-server/src/model.rs:22-27 | the serialised form names an owner exactly when there is one |
| `Envelope.ErrorsExact` | crates/chronista-hub-server/src/model.rs:262-398 | the reported fields are exactly the missing or ill-typed parts, parts of the resource under `resource.` |
| `Envelope.EncodeRoundTrip` | crates/chronista-hub-server/src/model.rs:310-330 | the serialised form of an envelope is accepted exactly when its payload is an object, and gives the envelope back without owner |
| `Envelope.AcceptedIsStable` | crates/chronista-hub-server/src/model.rs:279-398 | what was accepted is accepted again unchanged after serialising |

## Left out

- SurrealDB, SQL text, error strings and their matching, serde: statements are atomic steps with a chosen outcome, and
  a statement that loses or fails has no effect.
- Events with equal `received_at` are taken in the order in which they were created. A stored row that
  no longer parses, which fails a whole poll, is not modelled.
- Fresh ids, token hashes and random bytes come in with the operations; a collision is an error. The token prefix test
  and hashing of `verify` are not modelled, tokens are named by their hash.
- JWT and JWKS checking, the scope gate of `require_app`, admin keys: requests arrive with a principal.
- QUIC, TLS, certificates, HTTP routing beyond the four profile routes, timeouts, frame forwarding of `handle_relay`.
- Cancellation and panics in the channel loop: clean-up is claimed for normal exit.
- The node registry holds only records written through the `nodes` channel; `upsert_resource` has no owner guard, so
  ingested ids are taken to be disjoint from `vp-node:` ids.
- Discover lists are maps keyed by record id; the order by `createdAt` is not modelled.
- Page handlers and the publisher check read one consistent state; a change between their reads is not modelled.
  `PublishingRaces` does model changes between the check, the look at whose the row is, the write and the re-read.
- `app_url` is an opaque accepted or refused value; `canonical_handle` and `canonical_slug` count characters where the
  code counts bytes, which is the same for what they accept.
- Times are whole seconds; `created_at`, `updated_at`, `updated_by`, notes and last-error texts are not stored where
  nothing depends on them.
- `display_name`, `/settings`, `/start`, HTML, health pages, tree reads, app roster fields other than active.
- Watchdog timing, `kick` and the sorting of errors into kinds: checks begin at any time.
- Migrations runner, configuration, main, scripts and the TypeScript packages.
- `publications_of` answers with the branches of `user_by_handle` and is not modelled separately.
