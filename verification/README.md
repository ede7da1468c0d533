# Verified model of the mail gateway's protocols

The gateway keeps mail, boards and credentials for agents. It has no single algorithm at its centre; it
has a set of small stateful protocols, each with a promise about whole runs. This project models those
protocols in Dafny and proves the promises for every run, every interleaving and every input.

Each component that the gateway writes as an object with fields is a class here; its methods are proved
equal to functions on values, and the theorems are about those functions. A run is a sequence of events,
`After(es, n)` is the state after the first `n` of them, and theorems quantify over all sequences and all
positions. A database call or the time a mutex is held is one step. Clocks, random values, the answers of
the role table and the success of a transaction are inputs. The cryptographic primitives are parameters,
with the laws the theorem needs and no others.

| file | component |
|---|---|
| `PendingNotifier.dfy`, `PendingProtocol.dfy`, `PendingTraces.dfy` | wake-up registry; writers and waiters around it; what a waiter's result says of the run |
| `WaitRefines.dfy`, `StreamWait.dfy`, `WrappedWait.dfy` | the loop as part of a run; the stream's order of query and snapshot; what a wrapped counter costs |
| `SlotLock.dfy` | single-slot mailbox lock with lease and grace |
| `BoardModel.dfy`, `BoardSpec.dfy`, `BoardRuns.dfy`, `BoardAuthority.dfy`, `BoardBatches.dfy` | board task engine: rows, commands as functions, runs; who may do what, and every field after every command; where a batch stops |
| `BoardReadiness.dfy`, `BoardRelease.dfy`, `TableWalk.dfy`, `BoardEngine.dfy` | Ready and its parents, releasing a Todo task, walking a table, the engine itself |
| `DomainCache.dfy`, `DomainLifecycle.dfy` | domain table with its lookup cache; how a domain is registered and freed |
| `SignatureCache.dfy`, `ReplayProtection.dfy`, `SignatureBase.dfy` | replay cache, its guarantees with the freshness window, what is signed |
| `Framing.dfy`, `DedupKey.dfy`, `DedupPieces.dfy`, `DedupHash.dfy` | identity of an outgoing mail, as hashed and as its callers pass it; what the hash itself cannot confuse |
| `SendDeduper.dfy`, `WrappedDedup.dfy` | duplicate suppression; its 64-bit counter |
| `Activation.dfy`, `ActivationRules.dfy` | redemption of activation codes by concurrent redeemers; what a code must be |
| `WhitelistRename.dfy`, `WhitelistPattern.dfy`, `WhitelistGlobs.dfy` | renaming an address in the whitelist; pattern matching; what a glob is |
| `Sealing.dfy`, `Authentication.dfy` | sealing of stored credentials; which requests authenticate |
| `BoardTokens.dfy`, `TokenHistory.dfy`, `BoardRefresh.dfy` | board member tokens and their lazy migration; accepted tokens told by the history; the refresh in engine and table |
| `LastUsed.dfy`, `LastUsedSound.dfy` | batched `last_used_at`: no use lost, none made up |
| `Basics.dfy`, `Options.dfy` | shared notions |

## What turned out not to hold as written

* The stale queue entry of a key that expired and was recorded again evicts the *new* record; the comment
  that such keys are skipped (src/core/factory.rs:121-133) is not what the code does.
  `ReplayProtection.RerecordedKeyForgotten` shows it, `ReplayProtection.OutlastsIff` says exactly which
  keys are safe.
* A re-send inside the window is caught for sure only if the signed timestamp was no later than the
  recording time less the time between window check and cache check: `ReplayProtection.TtlCoversWindowIff`,
  `ReplayProtection.LateReplayAccepted`.
* A `SlotGuard` dropped after the same client has reconnected frees the new stream's slot:
  `SlotLock.LateDropFreesNewStream`. It leaves other streams alone exactly when no other grant of its client
  stands: `SlotLock.DropEndsOnlyOwnIff`. A second release has an effect exactly when a request granted since
  the first still stands: `SlotLock.SecondReleaseIff`.
* A waiter that times out has seen every bump exactly when its 64-bit counter did not wrap meanwhile
  (`PendingProtocol.NoBumpSinceSnapshotIff`); after 2^64 bumps it gives up on a stored row
  (`WrappedWait.WrapMissesRow`).
* The nonce key leaves out the body: two requests that differ only in the body count as a replay of each
  other (`SignatureBase.NonceDeterminesRequest`).
* A NUL in a subject or recipient can make two different mails one for duplicate suppression
  (`DedupPieces.NulConfuses`): nothing before the check refuses one. Without NULs the mails that the gateway
  receives are told apart (`DedupPieces.CallersIdentify`). A mail without NUL cannot be taken for one with a NUL
  exactly when it has at most one recipient on each side and no empty one (`DedupPieces.UnconfusedIff`).
* A mark made at capacity evicts even when its key is already in the table
  (`SendDeduper.RepeatedMarkEvicts`), so the exact retention condition (`SendDeduper.ReportedIff`) counts the
  distinct keys before the last mark.
* After 2^64 marks the insertion counter of the duplicate table wraps, and the newest entry is evicted for the
  oldest (`WrappedDedup.WrapForgetsNewest`); before that the condition above is exact for the table as it is
  (`WrappedDedup.TableReportsIff`).
* The stream waiter takes its snapshot after its first query. It misses, until the heartbeat queries again,
  exactly the rows committed after that query and bumped before the snapshot (`StreamWait.MissedIff`,
  `StreamWait.MissedRow`).
* The whitelist documentation says that only the first `*` is a wildcard; every `*` is
  (`WhitelistPattern.CompileMeansGlob`, `WhitelistGlobs.StarIff`). It allows 128 characters; the code counts
  bytes, so shorter values with wide characters are refused (`WhitelistGlobs.TooLongIff`).
* The final UPDATE of the whitelist rename never matches a row (`WhitelistRename.BatchIsRename`).
* Looking a key up by a string that is itself a sealed form changes with resealing, and only then
  (`Sealing.LookupStableIff`). Resealing fails exactly when the table holds some
  value both sealed and unsealed (`Sealing.KeyTable.Reseal`).
* A token handed out by a refresh need not work: a new member listed twice is handed two, and only the first
  is accepted (`BoardTokens.SecondListingRejected`, exactly when: `BoardTokens.HandedAcceptedIff`). A refresh
  refused for an unknown role or permission leaves the members it has processed with credentials nobody was
  mailed, for good (`BoardTokens.StrandedIff`, `BoardTokens.StrandedForGood`).
* Overlapping flushes can lose a use of a key (`LastUsed.OverlapLosesNote`), and they can overlap: the final
  flush waits only five seconds for the worker's (src/server.rs:211-222). A use is lost exactly by a commit
  stamped before it when nothing else is known of the key (`LastUsed.StepLosesIff`).
* Ready does not mean that the parents are done (`BoardReadiness.ReadyBeforeParents`,
  `BoardReadiness.UnblockedParentLeavesChild`); `BoardReadiness.AheadStepIff` says exactly how that comes about.
* Parent references are not checked, so a Todo task can wait for a task that does not exist
  (`BoardRelease.WaitsForNothing`: a run on any board that has a member); completing tasks releases it exactly
  when all its parents name other tasks (`BoardRelease.ReleasableIff`).
* Renaming a board member copies the row without its salt, so a hashed token stops working; the tokens are
  kept exactly when the row held a plaintext token (`BoardTokens.RenameKeepsTokensIff`).
* Freezing and expiry of a code are asked for at its look-up alone: a code that expires before the claim still
  makes a key (`ActivationRules.ExpiresMeanwhile`; what is asked where: `ActivationRules.ClaimTraces`).
* A claimed code whose key cannot be stored is burnt for good (`Activation.BurnsIff`, `Activation.BurntForGood`).

## Model

| member | source | states |
|---|---|---|
| `PendingNotifier.Notifier.Slot` | src/core/pending_notifier.rs:91-107 | creating a slot changes no counter of any key |
| `PendingNotifier.Notifier.Snapshot` | src/core/pending_notifier.rs:109-112 | the snapshot is the key's counter, and taking it changes none |
| `PendingNotifier.Notifier.NotifySystem` | src/core/pending_notifier.rs:114-120 | bumps exactly the system's counter, modulo 2^64 |
| `PendingNotifier.Notifier.NotifyEmail` | src/core/pending_notifier.rs:122-132 | bumps exactly the counter of system and address |
| `PendingNotifier.Notifier.WaitSince` | src/core/pending_notifier.rs:134-166 | against any behaviour of the other tasks and the timer, outcome and final poll are those of the looks at the counter on entry, at each signal and at the deadline; only the others' bumps change counters |
| `PendingNotifier.OutcomeFits` | src/core/pending_notifier.rs:134-166 | Woke only with the counter above the snapshot; Timeout only past the deadline with the counter not above it |
| `PendingNotifier.WokenAtSignal` | src/core/pending_notifier.rs:143-152 | a signalled poll that finds the counter above the snapshot ends the wait there, with Woke |
| `WaitRefines.WaitIsRun` | src/core/pending_notifier.rs:141-166 | whatever enabled steps the other tasks take between the polls, with the loop's own steps, each enabled where it is taken, a run goes on as a run and ends with the waiter in the phase of the outcome |
| `WaitRefines.LoopGivesUp` | src/core/pending_notifier.rs:153-163 | a loop that times out after an empty query is a waiter that gave up, so the theorems on timed-out waiters hold of it |
| `StreamWait.MissedIff` | src/core/api/http.rs:3585-3589 | while the stream sees no bump since its snapshot, every bumped and still stored row was bumped before the snapshot, and its connect query missed the row exactly when it was committed after the query |
| `StreamWait.MissedRow` | src/core/api/http.rs:3585-3589 | a run in which that happens |
| `StreamWait.HeartbeatSees` | src/core/api/http.rs:3585-3603 | a query at the end of the wait sees every such row |
| `PendingNotifier.ComparisonSeesBumpsIff` | src/core/pending_notifier.rs:145-161 | the comparison with the snapshot sees fewer than 2^64 bumps exactly when the counter did not wrap |
| `PendingProtocol.GenCountsBumps` | src/core/pending_notifier.rs:114-132 | in every run each key's counter is the number of bumps on that key alone, modulo 2^64 |
| `PendingProtocol.CounterSeesBumps` | src/core/pending_notifier.rs:134-146 | short of a wrap, the counter exceeds a snapshot exactly when a bump came between |
| `PendingProtocol.WaiterRemembers` | src/core/pending_notifier.rs:134-166 | a waiter keeps key and snapshot over all its polls, and waits only after an empty query |
| `PendingProtocol.NoBumpSinceSnapshot` | src/core/pending_notifier.rs:153-163 | a waiter that times out had no bump on its key since its snapshot, even if every signal was lost |
| `PendingProtocol.NoBumpSinceSnapshotIff` | src/core/pending_notifier.rs:153-163 | exactly when the counter did not wrap between snapshot and final look |
| `WrappedWait.WrapMissesRow` | src/core/pending_notifier.rs:141-166 | for every key and row: a run with 2^64 bumps in which the waiter gives up on the stored row |
| `PendingProtocol.TimeoutMissedNothing` | src/core/pending_notifier.rs:91-166 | in every interleaving, each row bumped before the deadline re-read was already removed when the timed-out waiter queried |
| `PendingProtocol.NoStrandedRow` | src/core/pending_notifier.rs:91-166 | a row still stored at a timeout has not been bumped on that key yet, so the next wait sees it |
| `PendingProtocol.WokeSeesBumpedRows` | src/core/pending_notifier.rs:134-166 | a woken waiter was woken by a bump, and its re-query returns the row behind every bump since its snapshot unless it was removed |
| `PendingProtocol.RowHistory` | src/core/pending_notifier.rs:20-30 | a committed row stays until removed and never returns |
| `PendingTraces.AnswerTraces` | src/core/api/http.rs:3585-3589 | what the first query answers is not empty, and is exactly the stored rows of the waiter's system and address at that instant |
| `PendingTraces.WokeTraces` | src/core/api/http.rs:3585-3603 | so is what a woken waiter is given, be it nothing |
| `PendingTraces.TimeoutTraces` | src/core/pending_notifier.rs:141-163 | in every run a waiter gives up no earlier than the beginning of its wait and the time it was to hold |
| `SlotLock.SingleSlotLock.TryAcquire` | src/core/api/types.rs:92-139 | grants and updates as specified; a refused request changes nothing |
| `SlotLock.SingleSlotLock.ReleaseSlot` | src/core/api/types.rs:141-152 | starts the grace of a slot its client actively holds, else nothing |
| `SlotLock.SingleSlotLock.HolderId` | src/core/api/types.rs:154-165 | the client id in the key's entry, none without an entry |
| `SlotLock.HolderIff` | src/core/api/types.rs:154-165 | in every run a key has an entry exactly when some request for it was granted, naming the client of the latest grant |
| `SlotLock.SlotGuard.ReleaseOnRotation` | src/core/api/types.rs:198-206 | releases with the rotation grace |
| `SlotLock.SlotGuard.Drop` | src/core/api/types.rs:209-217 | releases with no grace |
| `SlotLock.SlotGuard.RotateAndDrop` | src/core/api/types.rs:198-217 | the drop right after a rotation keeps the rotation's grace |
| `SlotLock.SecondReleaseIff` | src/core/api/types.rs:145-152 | whatever calls come between, a client's second release changes something exactly when a request it was granted since the first still stands |
| `SlotLock.TableRemembersRun` | src/core/api/types.rs:92-152 | in every run the table entry is the latest standing grant's deadline or the standing release's grace |
| `SlotLock.GrantedIff` | src/core/api/types.rs:92-139 | a request is granted exactly when every standing lease of another client is over and every standing grace of another client is over |
| `SlotLock.LeasesExclude` | src/core/api/types.rs:92-139 | unless its client released, a lease has ended when another client gets the slot |
| `SlotLock.GraceExcludes` | src/core/api/types.rs:114-152 | until its client returns, a release keeps others out for its whole grace, the first grace of repeated releases |
| `SlotLock.DeadlineFreesSlot` | src/core/api/types.rs:97-126 | once all earlier leases and graces have passed, any request succeeds |
| `SlotLock.FreedIff` | src/core/api/types.rs:145-152 | in every run a release takes effect, and changes the table, exactly when a grant to its client stands |
| `SlotLock.EndsIff` | src/core/api/types.rs:145-152 | the grants it ends are exactly the standing ones of its client |
| `SlotLock.DropEndsOnlyOwnIff` | src/core/api/types.rs:209-217 | a guard's drop ends no other stream's grant exactly when each other grant of its client was followed by an effective release or another client's grant |
| `SlotLock.LateDropFreesNewStream` | src/core/api/types.rs:180-217 | a run in which a late drop frees the same client's new stream for a stranger |
| `BoardModel.StatusRoundTripIff` | src/board/db.rs:944-956 | stored status text reads back as itself for all statuses but Triage and Archived, which read as Todo |
| `BoardModel.DecimalRoundTrip` | src/board/db.rs:960-970 | the number in a short id can be read back |
| `BoardModel.TaskIdInjective` | src/board/db.rs:972-974 | distinct short ids make distinct task ids |
| `BoardModel.IdsDisjoint` | src/board/db.rs:745-770 | no full id is a short id |
| `BoardSpec.ShortIdsDistinct` | src/board/db.rs:960-974 | distinct rows carry distinct short ids |
| `BoardSpec.BothReferencesResolve` | src/board/db.rs:745-770 | a task's full id and its short id both resolve to that task |
| `BoardRuns.TransitionRewrites` | src/board/commands.rs:180-606 | every accepted command on a row keeps ids and parents, stamps completion and cancellation, sets Reviewing only with a reviewer, and never enters Todo |
| `BoardRuns.CreateConstraintIff` | src/board/commands.rs:758-851 | past the membership checks an insert fails exactly for the empty assignee: the counter never repeats an id |
| `BoardRuns.StepKeepsInv` | src/board/commands.rs:180-1169 | each command and sweep keeps the board invariant |
| `BoardRuns.ReopenKeepsInv` | src/board/commands.rs:1052-1107 | reopening, with its demotions, leaves no task stuck in Todo |
| `BoardRuns.SweepKeepsInv` | src/board/sweeper.rs:18-59 | blocking stale tasks leaves no task stuck in Todo |
| `BoardRuns.WriteLeavesNoneStuck` | src/board/commands.rs:180-222 | a written row followed by promotion of its children leaves no task in Todo with all parents done |
| `BoardRuns.RunKeepsInv` | src/board/commands.rs:180-1169 | the invariant, including "no Todo task has all its parents done", holds in every reachable state |
| `BoardRuns.ReachableRow` | src/board/commands.rs:180-851 | in every reachable state: Todo has an unfinished parent, Reviewing a reviewer, Done and Cancelled their stamps, the assignee is a member, the status survives storage, both references find the row, short ids are bounded and unique |
| `BoardRuns.PromotesExactlyUnblocked` | src/board/commands.rs:1147-1169 | a task becoming done changes exactly the Todo rows whose last unfinished parent it was, to Ready |
| `BoardRuns.PromoteKeepsDone` | src/board/commands.rs:1147-1169 | promotion never changes the set of done tasks |
| `BoardRuns.TodoOnlyByReopen` | src/board/commands.rs:1079-1099 | a task enters Todo only by an accepted reopen that demotes it from Ready because a parent was done |
| `BoardRuns.TodoTracesToReopen` | src/board/commands.rs:1052-1107 | behind every Todo task of every run lies such a reopen |
| `BoardAuthority.NamedAnswer` | src/board/commands.rs:97-606 | exactly when each one-row verb is accepted, refused for want of authority, or refused for its arguments or the task's status; a refused one changes nothing |
| `BoardAuthority.UnknownAnswer` | src/board/db.rs:745-770 | a reference that is no task's full or short id is not found, except that a review without reviewer is refused first |
| `BoardAuthority.RowAfter` | src/board/commands.rs:180-1169 | every stored row after every command and sweep, field by field: what the verb used on it sets, released, reopened, demoted, blocked as stale, and otherwise untouched |
| `BoardAuthority.NewRowIff` | src/board/commands.rs:758-851 | a command adds exactly the rows of the entries it creates, with the entry's texts, assignee, reviewer and parents, Ready and unstamped |
| `BoardAuthority.EntersIff` | src/board/commands.rs:180-1169 | for each status, exactly the commands and senders that take a task into it |
| `BoardAuthority.StatusTraces` | src/board/commands.rs:180-1169 | behind the status of every task of every run lies such a command, and the task kept the status since |
| `BoardAuthority.DoneTraces` | src/board/commands.rs:180-299 | a Done task with a reviewer was approved by that reviewer while under review; one without was completed by its assignee |
| `BoardAuthority.RowTraces` | src/board/commands.rs:758-851 | every row of every run comes from an entry of a permitted create, and keeps its parents |
| `BoardAuthority.OutputAnswer` | src/board/commands.rs:608-653 | an output is accepted exactly with the role, for a Done task, with every task Done or Cancelled; each refusal, and what is written |
| `BoardAuthority.AwaitsIff` | src/board/commands.rs:608-653 | a board comes to await its owner exactly by an accepted output |
| `BoardAuthority.AwaitingTraces` | src/board/commands.rs:608-653 | behind every board awaiting its owner lies an output, at which every task was Done or Cancelled |
| `BoardBatches.CreateCommandAnswer` | src/board/commands.rs:758-851 | every answer to a create command, by its first entry that cannot be created |
| `BoardBatches.CreateAnswer` | src/board/commands.rs:758-851 | a batch ends at its first entry naming a stranger or no assignee, with which answer, and how many short ids it has spent |
| `BoardBatches.JoinsIff` | src/board/commands.rs:918-957 | exactly the members listed before the first unknown role join |
| `BoardBatches.RefreshAnswer` | src/board/commands.rs:853-1007 | each answer to a refresh; an owner's refused one has still reactivated the board and added members |
| `BoardReadiness.AheadStepIff` | src/board/commands.rs:180-1107 | a task comes to be Ready with an unfinished parent exactly when it is created so, or an accepted review, block, unblock or completion with reviewer takes a done parent out of Done; a reopen never does it |
| `BoardReadiness.AheadTraces` | src/board/commands.rs:180-1107 | behind every such task of every run lies such a command |
| `BoardReadiness.UndoesIff` | src/board/commands.rs:180-400 | the verbs that take a done task out of Done |
| `BoardReadiness.CreatedRow` | src/board/commands.rs:758-851 | a batch creates its leading admitted entries under consecutive short ids, all Ready |
| `BoardReadiness.CreatedByEntry` | src/board/commands.rs:758-851 | and nothing else |
| `BoardReadiness.DoneIdsAfter` | src/board/commands.rs:180-299 | a command with its promotion changes the done set by its own task alone |
| `BoardReadiness.ReadyBeforeParents` | src/board/commands.rs:758-851 | a first task with parents is Ready though none of them is done |
| `BoardReadiness.UnblockedParentLeavesChild` | src/board/commands.rs:373-400 | unblocking a done parent leaves its child Ready |
| `BoardRelease.ReleasableIff` | src/board/commands.rs:1147-1169 | completions and approvals of other tasks can make a Todo task Ready exactly when each of its parents names another task |
| `BoardRelease.WaitsForNothing` | src/board/commands.rs:1052-1107 | on every board with a member, a run of five commands leaves a task in Todo waiting for a reference that names no other task |
| `BoardRuns.RunExtends` | src/board/db.rs:864-888 | rows are never lost and keep short id, parents and stamps over every run |
| `BoardRuns.AwaitingOwnerHasOutput` | src/board/commands.rs:608-653 | a board awaiting its owner names an existing task that was completed |
| `TableWalk.WalkAll` | src/board/db.rs:801-862 | rewriting listed rows one at a time gives the same table in every listing order |
| `BoardEngine.Board.ListTasks` | src/board/db.rs:801-862 | lists every row once, with the status it was stored with |
| `BoardEngine.Board.GetTask` | src/board/db.rs:745-770 | full id first, then short id |
| `BoardEngine.Board.PromoteChildren` | src/board/commands.rs:1147-1169 | one scan with the done set read once ends in the promoted table, in every listing order |
| `BoardEngine.Board.PromoteChildrenRereading` | src/board/commands.rs:1147-1169 | the simple loop that re-reads child and parents before every write ends in the same table |
| `BoardEngine.Board.OnTask` | src/board/commands.rs:180-606 | every one-row command answers and writes as specified (in fields: `BoardAuthority.NamedAnswer`, `BoardAuthority.RowAfter`), and keeps the invariant |
| `BoardEngine.Board.ReopenBoard` | src/board/commands.rs:1052-1107 | done tasks return to Running and their Ready children to Todo, over any listing order |
| `BoardEngine.Board.SweepStale` | src/board/sweeper.rs:18-59 | blocks exactly the Running tasks older than the threshold |
| `BoardEngine.Board.VerifyPipeline` | src/board/db.rs:923-940 | the issues are the short ids of exactly the tasks whose stored status is none of done, cancelled, triage and archived |
| `BoardEngine.Board.OutputTask` | src/board/commands.rs:608-653 | accepts only a done task of an intact pipeline |
| `BoardEngine.Board.CreateTasks` | src/board/commands.rs:758-851 | a batch stops at its first failing entry and keeps what came before |
| `BoardEngine.Board.RefreshBoard` | src/board/commands.rs:853-957 | owner only; reactivates the board and adds members up to the first unknown role |
| `BoardEngine.Board.Execute` | src/board/commands.rs:180-1169 | whatever the command, the new database is the specified one and valid |
| `DomainCache.UnevictedUnchanged` | src/core/storage.rs:715-747 | a write leaves alone what it does not evict |
| `DomainCache.WriteKeepsCoherent` | src/core/storage.rs:807-867 | after any write each cached entry is still what the table holds |
| `DomainCache.RunCoherent` | src/core/storage.rs:1012-1063 | so it is in every run of writes and lookups |
| `DomainCache.LookupIsTableRead` | src/core/storage.rs:1034-1063 | at any clock reading, a cached lookup answers what a direct read would |
| `DomainCache.OwnerIsStable` | src/core/factory.rs:291-338 | the owning system seen by lookups is constant until delete or rename |
| `DomainLifecycle.DeletionFrees` | src/core/storage.rs:852-867 | a deletion takes away that row alone and frees its domain |
| `DomainLifecycle.UpdateSets` | src/core/storage.rs:807-850 | an update sets URL and secret even to nothing, keeps the flag if none is given, and changes nothing else |
| `DomainLifecycle.InsertRegisters` | src/core/storage.rs:715-747 | an insert is refused exactly for an id or domain in use, else found under its domain |
| `DomainLifecycle.RenameRefusedIff` | src/core/storage.rs:892-1011 | a rename is refused exactly by another table or when both addresses have rows |
| `DomainLifecycle.RenameMoves` | src/core/storage.rs:892-1011 | else it moves the record under the new address, all else unchanged, and touches no other domain |
| `DomainLifecycle.EvictsOwnEntry` | src/core/storage.rs:830-867 | of a coherent cache, update and delete take out the entry of the record's domain and no other |
| `DomainLifecycle.RenameEvicts` | src/core/storage.rs:1012-1026 | and an accepted rename that of the old address |
| `DomainLifecycle.LookupLeaves` | src/core/storage.rs:1034-1063 | a lookup leaves an entry younger than 30 s for a registered domain, none for another, and drops others only from over 1000 and only at a minute of age |
| `DomainLifecycle.RegistersIff` | src/core/storage.rs:715-1011 | the writes that register a free domain |
| `DomainLifecycle.FreesIff` | src/core/storage.rs:715-1011 | the writes that free a registered one |
| `DomainLifecycle.DeletedStaysFree` | src/core/factory.rs:291-338 | in every run a deleted record's domain answers none to every lookup until something registers it, and any system can |
| `DomainCache.DomainStore.InsertDomain` | src/core/storage.rs:715-747 | inserts and evicts the domain's entry, or, refused by a constraint, changes neither table nor cache |
| `DomainCache.DomainStore.UpdateDomain` | src/core/storage.rs:807-850 | updates the row and evicts the entries holding it |
| `DomainCache.DomainStore.DeleteDomain` | src/core/storage.rs:852-867 | deletes that row alone (`DomainLifecycle.DeletionFrees`) and evicts the entries holding it |
| `DomainCache.DomainStore.RenameDomain` | src/core/storage.rs:892-1028 | re-keys the rows and evicts by key and by record, or, refused, changes neither table nor cache |
| `DomainCache.DomainStore.GetByName` | src/core/storage.rs:1034-1063 | answers the table's row and remembers positive reads |
| `DomainCache.DomainStore.CreateDomain` | src/core/factory.rs:291-338 | refuses a domain of another system and returns the existing or the new row |
| `SignatureCache.EvictFits` | src/core/factory.rs:155-188 | eviction ends with the map within capacity and every live key queued |
| `SignatureCache.Cache.EvictOldest` | src/core/factory.rs:155-188 | the loop ends by queue length; its "exhausted" exit is unreachable |
| `SignatureCache.Cache.CheckAndRecord` | src/core/factory.rs:155-188 | replay answer and new cache as specified; the map never exceeds capacity on return |
| `ReplayProtection.RunQueued` | src/core/factory.rs:155-188 | over all runs every live key waits in the queue |
| `ReplayProtection.EvictionIff` | src/core/factory.rs:172-188 | eviction removes a key exactly when more keys than fit stand behind its first queue entry |
| `ReplayProtection.KeyOutlasts` | src/core/factory.rs:155-188 | a live key outlasts as many recordings as fit behind it |
| `ReplayProtection.ReplayDetected` | src/core/api/auth.rs:321-340 | every re-send inside the window with fewer than `cap` recordings between is answered with the first recording time |
| `ReplayProtection.TtlCoversWindowIff` | src/core/api/auth.rs:64-66 | the record outlives every re-send the window lets through exactly when the timestamp was old enough at recording |
| `ReplayProtection.LateReplayAccepted` | src/core/api/auth.rs:207-217 | otherwise the last such re-send is accepted again |
| `ReplayProtection.RerecordedKeyForgotten` | src/core/factory.rs:155-188 | a run, its timestamp inside the window at every sending, in which a re-recorded key is evicted by its old queue entry and accepted again |
| `ReplayProtection.OutlastsIff` | src/core/factory.rs:155-188 | a key survives every fewer-than-capacity run of new recordings exactly when no live key stands behind it |
| `SignatureBase.BaseDeterminesRequest` | src/core/api/auth.rs:87-92 | equal signed texts exactly for equal method, path, timestamp and body hash |
| `SignatureBase.NonceDeterminesRequest` | src/core/api/auth.rs:321-326 | equal nonce keys exactly for equal identity, timestamp, method and path |
| `SignatureBase.ResendHasSameNonce` | src/core/api/auth.rs:321-326 | a re-sent signed request has the same nonce key |
| `Framing.FieldsUnique` | src/core/api/dedup.rs:70-83 | separator-free fields, empty ones included, are read back from their closed concatenation |
| `DedupKey.StreamIgnoresOrder` | src/core/api/dedup.rs:58-86 | recipient order within `to` and `cc` does not change the stream |
| `DedupPieces.CallersIdentify` | src/core/api/send.rs:117-136 | for NUL-free mails without empty `to` address, as both callers pass them, equal streams mean equal sender, recipient multisets, subject and body digest |
| `DedupPieces.SameStreamIff` | src/core/api/dedup.rs:58-86 | any two mails, NULs or not, have equal streams exactly when they have the same texts between NULs and the same digest |
| `DedupPieces.NulConfuses` | src/core/api/send.rs:117-136 | two different mails that can be received, one with a NUL in its subject, with the same stream |
| `DedupPieces.UnconfusedIff` | src/core/api/send.rs:117-136 | among all mails that can be received, NULs included, the stream of a NUL-free mail identifies it exactly when it has at most one recipient on each side and none empty |
| `DedupPieces.PlainIdentified` | src/core/api/dedup.rs:58-86 | the one half |
| `DedupPieces.Confused` | src/core/api/dedup.rs:58-86 | the other half: two recipients joined by a NUL, or an empty `cc` address moved into the subject |
| `DedupKey.StreamDeterminesMail` | src/core/api/dedup.rs:58-86 | of the hash function on its own: equal streams of NUL-free mails mean the same mail if one has a non-empty `to` address or no empty address |
| `DedupKey.IdentifiesIff` | src/core/api/dedup.rs:58-86 | and that is exactly when its stream identifies a mail among all NUL-free mails, receivable or not |
| `DedupKey.EmptyAddressMoves` | src/core/api/dedup.rs:73-81 | otherwise moving an empty address between the lists changes no byte; its callers pass no empty `to` address |
| `DedupKey.StreamFields` | src/core/api/dedup.rs:70-84 | the stream is its NUL-closed fields and the 32-byte digest |
| `DedupKey.SortedUnique` | src/core/api/dedup.rs:74-75 | a multiset of recipients has one sorted list |
| `DedupKey.LeIff` | src/core/api/dedup.rs:74-75 | recipients are ordered by the first differing byte, a prefix first |
| `DedupHash.OneByteApartDiffer` | src/core/api/dedup.rs:58-86 | two mails whose streams are one byte apart have different keys, hash and all |
| `DedupHash.MixUndone` | src/core/api/dedup.rs:64-69 | the state before a byte is read back from the state after it |
| `DedupHash.FnvInjective` | src/core/api/dedup.rs:64-69 | the same bytes take different states to different states |
| `DedupHash.FnvOfA` | src/core/api/dedup.rs:63-69 | the hash has the published value of 64-bit FNV-1a for "a" |
| `DedupKey.HashKey` | src/core/api/dedup.rs:58-86 | mixing field after field is FNV-1a over the whole stream |
| `SendDeduper.FindOldest` | src/core/api/dedup.rs:116-121 | finds an entry with the lowest insertion number |
| `SendDeduper.Deduper.IsDuplicate` | src/core/api/dedup.rs:90-106 | reports as specified and purges what is expired |
| `SendDeduper.Deduper.Mark` | src/core/api/dedup.rs:110-127 | at capacity one entry with the lowest number goes, and the key is recorded under the next number, modulo 2^64 |
| `SendDeduper.RunBounded` | src/core/api/dedup.rs:110-127 | in every run the table stays within capacity and is a gapless suffix of the table that never forgets |
| `SendDeduper.EvictsIff` | src/core/api/dedup.rs:114-125 | a mark evicts a key exactly when the distinct keys marked since fill the rest of the table |
| `SendDeduper.ReportedIff` | src/core/api/dedup.rs:90-127 | a key is reported exactly when its latest mark is younger than the window and was not crowded out |
| `SendDeduper.RecentMarkReported` | src/core/api/dedup.rs:90-127 | a key marked within the window is reported while fewer than capacity marks followed |
| `SendDeduper.RepeatedMarkEvicts` | src/core/api/dedup.rs:114-125 | with room for two keys, a second mark of `b` crowds out `a` |
| `SendDeduper.MarkedUnwrapped` | src/core/api/dedup.rs:112-126 | short of a wrap a mark has one result, that of the unbounded counter |
| `WrappedDedup.RunUnwrapped` | src/core/api/dedup.rs:112-126 | with fewer than 2^64 marks the table of every run is that of the unbounded counter |
| `WrappedDedup.TableReportsIff` | src/core/api/dedup.rs:90-127 | so the exact report condition holds of it |
| `WrappedDedup.WrapForgetsNewest` | src/core/api/dedup.rs:112-126 | a run across the wrap in which a mark is crowded out by the next one |
| `Activation.Store.ClaimCode` | src/core/storage.rs:1905-1921 | claims exactly an existing unclaimed code |
| `Activation.Store.CreateKey` | src/core/storage.rs:1556-1592 | inserts unless the key hash or the address within its system is taken |
| `Activation.Store.Activate` | src/core/api/activation.rs:68-127 | run alone, the handler does the four steps of a redeemer, with every refusal (in the row's fields: `ActivationRules.RedeemOutcomes`) |
| `ActivationRules.RedeemOutcomes` | src/core/api/activation.rs:68-127 | each outcome of a lone redemption, exactly, in the fields of the row, and what it leaves in both tables |
| `ActivationRules.ClaimTraces` | src/core/storage.rs:1878-1921 | in every interleaving, behind each claim lie a look-up that found the row unclaimed, not frozen, not expired and fitting, and then an update that found it unclaimed |
| `ActivationRules.ExpiresMeanwhile` | src/core/storage.rs:1878-1921 | a run in which a code expires between look-up and claim, and makes a key |
| `ActivationRules.EqIgnoreCaseIff` | src/core/api/activation.rs:80-86 | addresses are equal letter by letter, up to ASCII capitals |
| `Activation.ClaimsBounded` | src/core/storage.rs:1878-1934 | in every interleaving, claims on a code plus an open row never exceed the times it was issued |
| `Activation.AtMostOneKey` | src/core/api/activation.rs:86-97 | of all redeemers of a code issued once, at most one reaches key creation |
| `Activation.KeyMatchesCode` | src/core/api/activation.rs:74-122 | the key has the code's system, exactly the agent scope, the redeemer's address, which equals a non-empty binding up to ASCII case |
| `Activation.BurnsIff` | src/core/api/activation.rs:68-127 | a lone redemption burns its code exactly when the code is usable and fits but the key cannot be stored, and leaves it claimed |
| `Activation.BurntForGood` | src/core/api/activation.rs:86-126 | no redeemer of a burnt code ever gets a key |
| `Activation.EveryKeyRedeemed` | src/core/api/activation.rs:108-126 | every key not stored by other means belongs to a redeemer holding a claim |
| `WhitelistRename.BatchIsRename` | src/core/storage.rs:944-957 | the statements amount to replacing the address on both sides, and the final UPDATE matches nothing |
| `WhitelistRename.RenameKeepsRest` | src/core/storage.rs:944-957 | the key set is the image, no row mentions the old address, unrelated rows and existing targets keep their contents |
| `WhitelistRename.SupplierIsPreimage` | src/core/storage.rs:944-957 | each renamed row takes its contents from a row with that image: the target's own, then the re-addressed one, then the re-valued ones |
| `WhitelistRename.SelfRename` | src/core/storage.rs:944-957 | renaming an address to itself drops its rows, and is harmless exactly when there are none |
| `WhitelistRename.Whitelist.Rename` | src/core/storage.rs:944-957 | the batch in order gives the replacement |
| `Sealing.SealRoundTrip` | src/core/api/seal.rs:68-96 | opening a sealed value gives it back, and it is of the sealed form |
| `Sealing.OpensIff` | src/core/api/seal.rs:81-96 | exactly what opens: the prefix, an encoding of more than twelve bytes, a ciphertext that decrypts to a text |
| `Sealing.SealInjective` | src/core/api/seal.rs:57-78 | different values have different sealed forms |
| `Sealing.ResealTwice` | src/core/api/seal.rs:100-108 | sealing a row keeps its signing material, and sealing it again does nothing |
| `Sealing.VerifyRequestSignature` | src/core/api/auth.rs:120-152 | none exactly when every candidate fails to open or is rejected; else the first that opens and verifies |
| `Authentication.AuthenticatesIff` | src/core/api/auth.rs:120-152 | a request authenticates exactly when its identity is not empty and a live row of that address or system stores, plain or sealed, a value that verifies it, and then as such a row |
| `Authentication.CandidateIff` | src/core/storage.rs:1780-1802 | the candidates of an identity are the live rows of that address or system; an empty one has none |
| `Authentication.AddressFirst` | src/core/storage.rs:1792-1802 | if a row of the address verifies, one is selected |
| `Authentication.KeylessIff` | src/core/api/seal.rs:100-108 | without the sealing key only plaintext rows authenticate |
| `Authentication.MaterialIs` | src/core/api/seal.rs:100-108 | the material is the stored value itself, plain or sealed; without the key a sealed row has none |
| `Authentication.LookupIff` | src/core/storage.rs:1807-1832 | a hash finds a row exactly when a live one stores it, plain or sealed |
| `Sealing.ResealKeepsSignatures` | src/core/api/auth.rs:120-152 | every request selects the same key before, after and at every row of a reseal |
| `Sealing.CandidatesSame` | src/core/storage.rs:1780-1802 | the candidate list of an identity is the same up to sealing |
| `Sealing.MatchesIff` | src/core/storage.rs:1807-1832 | sealing a row changes whether a hash finds it exactly when the hash is its sealed form |
| `Sealing.ResealKeepsLookup` | src/core/storage.rs:1807-1832 | lookup by a hash that is no row's sealed form finds the same key at every row of a reseal |
| `Sealing.LookupStableIff` | src/core/storage.rs:1807-1832 | lookup by a hash is unaffected by resealing in every table exactly when the hash is not the sealed form of an unsealed value |
| `Sealing.SealedFormIff` | src/core/api/seal.rs:81-96 | which is so exactly when it does not open to an unsealed value that seals to it |
| `Sealing.UpdateClashes` | src/core/storage.rs:1530-1534 | an update breaks uniqueness exactly when a row already holds that sealed form |
| `Sealing.ResealKeepsUnique` | src/core/storage.rs:1517-1538 | without a clash hashes stay unique at every row of the migration |
| `Sealing.ResealIdempotent` | src/core/storage.rs:1512-1540 | resealing twice is resealing once, and the second time every row is skipped |
| `Sealing.KeyTable.Reseal` | src/core/storage.rs:1512-1540 | refused without key, rolled back exactly on a clash, else every row sealed, with sealed plus skipped the row count |
| `BoardTokens.ConstantTimeEq` | src/board/db.rs:700-709 | the byte fold decides equality |
| `BoardTokens.MemberTable.VerifyToken` | src/board/db.rs:640-696 | accepts and migrates exactly as specified (by the history: `TokenHistory.VerifiedIff`) |
| `BoardTokens.MemberTable.AddMember` | src/board/db.rs:323-358 | a new row stores a hashed token; an existing row keeps its credential |
| `BoardTokens.MemberTable.Refresh` | src/board/commands.rs:912-957 | members are upserted up to an unknown role; unless the refresh is refused, exactly the listed members without credential are mailed tokens |
| `TokenHistory.VerifiedIff` | src/board/db.rs:640-696 | in every run a token is accepted exactly when it is not empty, the board is that of the member's latest listing, it fits the first credential, and, for a plaintext row not yet migrated, the window is open |
| `TokenHistory.OwnBoardOnly` | src/board/db.rs:640-662 | an accepted token is that of the row, and accepted for no board but the row's |
| `TokenHistory.FirstTokenOnly` | src/board/db.rs:323-358 | from an empty table, the token of a member's first listing is accepted, and no other |
| `TokenHistory.ListingSets` | src/board/db.rs:323-358 | a listing sets role and board, keeps a stored credential, and stores a new one as passed in or as its digest |
| `TokenHistory.MailedIff` | src/board/commands.rs:912-1007 | exactly which tokens a refresh mails |
| `BoardTokens.AcceptedConstant` | src/board/db.rs:640-696 | the accepted tokens of a row never change over verifications, migrations and same-board upserts |
| `BoardTokens.ClosedWindow` | src/board/db.rs:676-681 | with the window closed a plaintext row accepts nothing and no credential is rewritten |
| `BoardTokens.MigratedOnce` | src/board/db.rs:664-693 | once migrated, a credential is fixed |
| `BoardTokens.NewMemberToken` | src/board/commands.rs:942-957 | the token generated at a new member's first listing is accepted |
| `BoardTokens.JoinKeepsCredential` | src/board/commands.rs:908-957 | a refresh leaves every stored credential as it is |
| `BoardTokens.HandedAcceptedIff` | src/board/commands.rs:915-957 | after a completed refresh a handed token works exactly when it is that of its email's first listing and the email had no row, or the row already there accepts it |
| `BoardTokens.SecondListingRejected` | src/board/commands.rs:915-957 | a new member listed twice is handed two tokens, of which only the first works |
| `BoardTokens.StrandedIff` | src/board/commands.rs:921-1007 | a new member is left without a working token exactly when the refresh is refused after its entry was processed |
| `BoardTokens.StrandedForGood` | src/board/commands.rs:912-957 | and no later refresh on that board hands it one |
| `BoardTokens.RenameKeepsTokensIff` | src/core/storage.rs:984-994 | a renamed member keeps its accepted tokens exactly when its row held a plaintext token, or the token is its own digest |
| `BoardTokens.RenamedClosed` | src/core/storage.rs:984-994 | with the plaintext window closed the renamed row accepts nothing |
| `BoardRefresh.SameMembers` | src/board/commands.rs:918-957 | engine and credential table see the same members join, and the same unknown role refused |
| `LastUsed.Tracker.Note` | src/core/factory.rs:99-104 | a noted key is pending |
| `LastUsed.Tracker.Drain` | src/core/factory.rs:106-110 | takes all pending keys |
| `LastUsed.Database.Flush` | src/core/storage.rs:1751-1769 | writes all existing keys of the batch or none |
| `LastUsed.FlushOnce` | src/core/server.rs:686-717 | everything pending is written, or everything is pending again, by the steps of one flush of the protocol |
| `LastUsed.NoLostNote` | src/core/server.rs:686-717 | in every interleaving of notes and any number of overlapping flushes, each use is pending, in a batch, or stored no earlier, as long as no commit puts a stored time back |
| `LastUsed.StepLosesIff` | src/core/server.rs:686-717 | a step loses a use exactly if it commits an earlier stamp for a stored key that is not pending and in no other batch |
| `LastUsed.StaysAccountedIff` | src/core/server.rs:686-717 | in every run a use stays accounted for exactly when no step loses it |
| `LastUsed.SerialLosesNothing` | src/core/server.rs:660-717 | with one flush at a time no use is lost, whatever was stored before |
| `LastUsedSound.NoPhantomUse` | src/core/server.rs:686-717 | in every run, however flushes overlap and fail, a key's stored time is the one at the start or the stamp of a flush taken after a use of that key |
| `LastUsedSound.BatchAfter` | src/core/server.rs:686-717 | a batch is all that was pending, is stamped once, committed only when stamped, and after a failure put back key by key |
| `LastUsedSound.KeysStored` | src/core/storage.rs:1751-1769 | flushing creates no row and removes none |
| `LastUsed.OverlapLosesNote` | src/core/storage.rs:1751-1769 | two flushes at once can store an earlier time last |
| `WhitelistPattern.ReplaceTranslates` | src/core/whitelist.rs:64-67 | the textual replacement finds exactly the value's stars, also next to backslashes |
| `WhitelistPattern.CompilesTo` | src/core/whitelist.rs:55-72 | compilation fails exactly for values over 128 bytes |
| `WhitelistPattern.StarReaches` | src/core/whitelist.rs:66-67 | the rewritten star stands for every newline-free stretch |
| `WhitelistPattern.CompileMeansGlob` | src/core/whitelist.rs:55-72 | a compiled pattern finds a match exactly when the target matches the value as a case-insensitive glob |
| `WhitelistGlobs.StarIff` | src/core/whitelist.rs:66-67 | a star anywhere in a value stands for any text without newline between what matches before and after it |
| `WhitelistGlobs.ConcatIff` | src/core/whitelist.rs:55-72 | values side by side match exactly the targets that can be cut in two for them |
| `WhitelistGlobs.PlainIff` | src/core/whitelist.rs:70-71 | a value without star matches exactly the targets that are the same up to case |
| `WhitelistGlobs.TooLongIff` | src/core/whitelist.rs:56-62 | a value is refused exactly when its characters, each counted once more from U+0080, U+0800 and U+10000 on, are more than 128 |
| `WhitelistGlobs.AsciiTooLongIff` | src/core/whitelist.rs:56-62 | for ASCII, exactly when it has more than 128 characters |
| `WhitelistPattern.Cache.GetOrCompile` | src/core/whitelist.rs:94-116 | gives what compiling gives, for every cache content and clock; leaves the value cached for under 30 s, drops only older entries, and a hit changes nothing |
| `WhitelistPattern.Cache.Invalidate` | src/core/whitelist.rs:119-131 | removes one entry |
| `WhitelistPattern.Cache.IsWhitelisted` | src/core/whitelist.rs:144-151 | true exactly when some value of at most 128 bytes matches as a glob, for every cache content and clock |

## Left out

- Mail lifecycle, scheduler, SMTP, webhook delivery, the stream loop around the slot lock and the notifier: not part of this model.
- Board: `task_events`, tags, metadata, notifications, comment, arbitrate and the read-only commands; they change no modelled field. Role permissions are an input of each command, and a refresh's permission override only as to whether its names are known.
- Board: a sweep threshold of 2^63 seconds or more, which the cast to a signed number would make negative.
- Board lifecycle: archiving completed boards and the freeze and thaw of an out-of-tree caller (`set_board_status`).
- Sweeps racing commands, and a cache fill racing a domain write: runs are sequential there.
- PendingProtocol.NoBumpSinceSnapshot: for waits in which the 64-bit counter does not wrap; otherwise it is false, as `PendingProtocol.NoBumpSinceSnapshotIff` and `WrappedWait.WrapMissesRow` show.
- PendingProtocol.TimeoutMissedNothing: for waits in which the 64-bit counter does not wrap; `WrappedWait.WrapMissesRow` gives a run where it wraps.
- PendingProtocol.NoStrandedRow: the same condition on the counter.
- DedupPieces.CallersIdentify: for NUL-free fields, since it is false otherwise (`DedupPieces.NulConfuses`); and about the stream; of collisions of the 64-bit hash only that streams one byte apart have none (`DedupHash.OneByteApartDiffer`). Trimming, lower-casing and splitting of addresses is done by the callers.
- SendDeduper.ReportedIff: of the table with an unbounded insertion counter; `WrappedDedup.TableReportsIff` carries it over to the wrapping one for fewer than 2^64 marks, and `WrappedDedup.WrapForgetsNewest` shows it fail after that.
- Activation.AtMostOneKey: for a code issued once; a random code drawn twice counts as two.
- Activation: code generation and the rate limiter of the public endpoint.
- WhitelistRename: row ids, the `agent_state` table and the per-board files; the other statements of the batch are `UPDATE`s by key.
- Sealing: key derivation, loading at startup, and the failures of encryption itself; the primitives are parameters with round-trip laws.
- BoardTokens: the digest is a parameter, injective for each salt; member columns other than role, board and credential.
- LastUsed.NoLostNote: for runs whose commits do not put a stored time back, since a use can be lost otherwise (`LastUsed.OverlapLosesNote`); `LastUsed.StaysAccountedIff` is exact for all runs. The direct writes of `last_used_at` are not part of it.
- WhitelistPattern: only the fragment of regular expressions that compiled patterns use; case folding is a parameter; poisoned locks.
- API scopes, configuration, command line, metrics, files, DNS and HTTP clients: thin wrappers around input and output.
