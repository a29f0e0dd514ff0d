# Verified model of an IMAP caching proxy

The proxy keeps a local mirror of upstream mailboxes in SQL tables and an object store, replays
local changes upstream through a retry queue, and serves IMAP clients from the mirror. This Dafny
project models the parts where that is hard to get right, and proves what they promise over every
input, every run and every reachable state.

| modules (`src/`) | what they model |
|---|---|
| `MailboxStore`, `ChangedSince`, `SyncStamps` | one mailbox's rows, UIDs, sequence numbers and modification counter, through sync runs too |
| `BlobLedger`, `BlobConservation`, `Repository` | the tables as a mutable database, reference-counted blobs, account purge |
| `Mirror`, `SyncEngine`, `MirrorConvergence`, `SyncLedger` | the incremental sync run, failing at any step, over whole histories, and what it does to reference counts |
| `MutationQueue` | the retry queue with backoff, failures and crashes |
| `Expunge`, `Idle` | the untagged lines a client replays |
| `Threads`, `ThreadForest`, `ThreadMeaning` | REFERENCES threading |
| `ListPattern` | LIST wildcards |
| `SearchQuery`, `SearchSyntax`, `SearchMeaning`, `SearchKeys`, `SearchDenotation`, `SearchIndex` | the SEARCH compiler, its evaluator and its set algebra |
| `NumberSet`, `Quoting` | printers and parsers of the wire syntax |
| `MimeParts` | numbering of MIME parts |
| `LoginThrottle` | failed-login lockout |
| `Wrappers`, `Ordering`, `Sums`, `Text` | shared vocabulary |

Tables are maps and sequences; a repository method is one atomic step. State that the program
updates in place lives in classes (`Database`, `ObjectStore`, `Engine`, `MutationEngine`,
`Session`, `MemoryLoginThrottle`, `Parser`, `Builder`, `VisitedSet`); each method is tied to a
function or relation on values, and the laws are proved about those. Clocks, network answers,
failures, the text engine, date parsing and MIME parsing are parameters.

## Main results

- **Mirror.** `MirrorConvergence.EverySuccessfulRunMirrors`: after any interleaving of upstream
  arrivals, removals, flag changes, new UIDVALIDITY epochs, local flag changes and sync runs cut
  short at any write, a run that completes leaves UIDs, bodies and normalised flags equal to
  upstream. `RunMirrorsIff` gives the exact condition for a single run on any mailbox filled by
  sync, and `LocalDeleteIsNotHealed` follows the rows that violate it through every later history
  of the epoch.
- **Blobs.** `BlobConservation.HistoryBalances`: in every state of every history, with ingests
  overwriting rows and failing after any write, reference counts are the live references plus an
  exact balance; `ConservedIffNoLeak` and `HistoryConserves` say when that is nothing.
  `SyncLedger.SyncConservesIff` and `SyncLeaksExactly` say which sync runs leak, and how much.
- **Changed since.** `ChangedSince.AnswerExactIff`: the exact condition under which rows above a
  counter value are those changed later, for every mailbox and every run. `ChangedSinceExact` is
  the ordinary case, `ResetAnswerExactIff` and `OldCounterAnswerIff` follow a counter reset.
  `SyncStamps.SyncKeepsBoundIff` and `OldClientAfterSyncIff` do so for a whole sync run, derived
  from its plan: reset, changes, adoption of upstream's value, removals.
- **IDLE and EXPUNGE.** `Idle.ReplicaAmongMailboxes` and `Expunge.ReplayInStep`: replaying the
  emitted lines keeps the client's list equal to the server's, whatever other mailboxes do.
- **Threads.** `ThreadMeaning.ForestMeaning`: every message once and under the message it replies
  to, if and only if replies are acyclic, all in terms of header fields; the construction ends and
  finds its nodes on every input.
- **Search.** `SearchDenotation.SearchSays`: from the words of a command to its verdict on a message.
  Behind it `SearchMeaning.FlatteningExactly` with `FlatteningKeepsMeaning`,
  `FlatteningNeverLoses`, `WronglyAcceptedIff` and `PureKeysIff`; `SearchSyntax.ParsePrint` and
  `ParseIsPrint`; `SearchIndex.SearchMailbox` and `TopExactIff` (the thousand-document limit).
- **Queue, throttle, purge, wire syntax, MIME, LIST.** `MutationQueue.EveryHistoryTells` and
  `FlushDelivers`, `LoginThrottle.ThrottleHolds` and `LockedOutExactly`,
  `Repository.PurgeAccountObjects`, `NumberSet.RoundTrip`, `Quoting.CommandRoundTrip`,
  `MimeParts.PathsDistinct`, `ListPattern.ListPatternMatches` and `StandardIff`.

## Model

| member | source | states |
|---|---|---|
| `Mirror.NormalizeDecides` | crates/sync/src/lib.rs:1232-1236 | Two flag lists normalise to the same list exactly when they hold the same flags. |
| `Mirror.NormalizeTwice` | crates/sync/src/lib.rs:1232-1236 | Normalising is idempotent. |
| `SyncEngine.Engine.SyncMailbox` | crates/sync/src/lib.rs:1001-1119 | A run performs a prefix of its planned writes; it succeeds, having performed all of them, exactly when no step fails, and reports the number of messages it ingested. |
| `SyncEngine.Engine.FetchAll` | crates/sync/src/lib.rs:1047-1082 | The UID loop: the planned writes in reply order, the count, and the last ingested UID for the checkpoint. |
| `SyncEngine.Engine.FetchOne` | crates/sync/src/lib.rs:1047-1082 | One UID: flags rewritten only when they differ after normalisation, body ingested only past the checkpoint. |
| `SyncEngine.Engine.ClearIfChanged` | crates/sync/src/lib.rs:1123-1134 | On a changed UIDVALIDITY every row that came from upstream is dropped, otherwise nothing is. |
| `SyncEngine.Engine.SaveAndReconcile` | crates/sync/src/lib.rs:1084-1150 | Checkpoint and metadata are written before rows missing from the SEARCH reply are dropped. |
| `SyncEngine.Engine.DropAll` | crates/sync/src/lib.rs:1123-1150 | The deletion loop drops the listed rows in order, stopping at the first failure. |
| `MirrorConvergence.FinalState` | crates/sync/src/lib.rs:1136-1150 | After reconciliation exactly the rows upstream still has remain, unchanged. |
| `MirrorConvergence.RunMirrorsIff` | crates/sync/src/lib.rs:1001-1150 | For a mailbox filled by sync and any order of the SEARCH reply, a complete run ends with UIDs, bodies and normalised flags equal to upstream if and only if the epoch changed or nothing at or below the checkpoint was missing or different before it. |
| `MirrorConvergence.SyncKeepsInv` | crates/sync/src/lib.rs:1001-1150 | A run stopped after any number of writes keeps the checkpoint truthful. |
| `MirrorConvergence.HistoryKeepsInv` | crates/sync/src/lib.rs:1001-1150 | The invariant holds after every history of upstream events, local flag changes and partial runs. |
| `MirrorConvergence.EverySuccessfulRunMirrors` | crates/sync/src/lib.rs:1001-1150 | From a fresh account and after any such history, every run that completes mirrors upstream. |
| `MirrorConvergence.StepKeepsGone` | crates/sync/src/lib.rs:1001-1150 | Within an epoch no event, a run cut short at any write included, brings back a row missing at or below the checkpoint. |
| `MirrorConvergence.LocalDeleteIsNotHealed` | crates/sync/src/lib.rs:1025-1066 | A message deleted locally at or below the checkpoint stays missing through every later history of the epoch, so no run mirrors a mailbox whose upstream still has it. |
| `MirrorConvergence.NewEpochHeals` | crates/sync/src/lib.rs:1012-1030 | The first complete run of a new UIDVALIDITY mirrors upstream whatever was missing before. |
| `MirrorConvergence.SilentUpstreamKeepsRows` | crates/sync/src/lib.rs:1017-1022 | Without a reported UIDVALIDITY a complete run drops only rows upstream no longer lists and refetches nothing at or below the checkpoint. |
| `MailboxStore.AssignModseq` | crates/db/src/repository.rs:67-101 | The stamp handed out is the new counter, the counter never falls, and nothing else of the mailbox changes. |
| `MailboxStore.NextUid` | crates/db/src/repository.rs:103-130 | The next UID is free and above every live UID. |
| `MailboxStore.SequenceNumberIsPosition` | crates/db/src/repository.rs:132-152 | Counting rows with smaller UIDs gives the message's position in the UID-ordered listing. |
| `MailboxStore.UpsertWrites` | crates/db/src/repository.rs:1295-1330 | The row holds what was given and the new counter, under the UID asked for or, for 0, one more than the largest; every other row stays. |
| `MailboxStore.FlagsWrite` | crates/db/src/repository.rs:1616-1640 | New flags leave the row's message, keywords and upstream UID, and every other row, alone. |
| `MailboxStore.CopyKeeps` | crates/db/src/repository.rs:1740-1775 | A copy shows the same message with the same flags and keywords, above every row, without an upstream UID. |
| `ChangedSince.ApplyStamps` | crates/db/src/repository.rs:67-101 | One transaction: the counter grows by one short of saturation unless it deletes a missing row, untouched rows keep their stamp, touched rows carry the new counter. |
| `ChangedSince.RunStamps` | crates/db/src/repository.rs:1295-1378 | After any sequence of inserts, flag updates, copies and deletes, with nothing asked of earlier stamps: an untouched row keeps its stamp, a touched row carries the counter of its last touch. |
| `ChangedSince.AnswerExactIff` | crates/db/src/repository.rs:67-101 | For every mailbox, rows above its counter are exactly those changed since if and only if no row left alone has a stamp beyond the counter, and the counter was below saturation or no changed row is left. |
| `ChangedSince.ChangedSinceExact` | crates/db/src/repository.rs:1616-1670 | Rows above a remembered counter are exactly the live rows inserted or changed since, if and only if that value is below i64 saturation or no changed row is left. |
| `ChangedSince.CounterMonotone` | crates/db/src/repository.rs:67-101 | Between any two points of a mailbox's life the counter does not fall, and it bounds every row. |
| `ChangedSince.ResetAnswerExactIff` | crates/db/src/repository.rs:495-560 | After the mailbox row is upserted without a counter, for every later sequence of changes, the rows above the new counter are exactly the changed ones if and only if no row left alone carries a positive stamp. |
| `ChangedSince.OldCounterAnswerIff` | crates/db/src/repository.rs:495-560 | A client holding the counter from before the reset is told of exactly those changed rows whose last change came after more than that many counter moves; its answer is exact if and only if that is all of them. |
| `ChangedSince.ResetHidesChanges` | crates/db/src/repository.rs:495-560 | So it is told of nothing for as many changes as the old value counts. |
| `ChangedSince.RunCounter` | crates/db/src/repository.rs:67-101 | After any sequence of changes the counter has grown by the number of changes that move it, up to saturation. |
| `SyncStamps.SyncIsRuns` | crates/sync/src/lib.rs:1084-1150 | A complete sync run acts on the mailbox as a reset, the changes of clearing and fetching, the adoption of upstream's counter value, and then the removals. |
| `SyncStamps.FinalCounter` | crates/sync/src/lib.rs:1084-1180 | The counter ends at upstream's value, or at the run's own moves if none was reported, plus one for each row removed at the end, up to saturation. |
| `SyncStamps.SyncKeepsBoundIff` | crates/sync/src/lib.rs:1084-1180 | After a complete run the counter bounds every stamp if and only if that final value reaches the stamp of each row left: the old stamp of a row the run left alone, the move count at its last touch of any other. |
| `SyncStamps.ToldAfterSync` | crates/sync/src/lib.rs:911-928 | What a client asking with any value is told of each row after a complete run and any later changes. |
| `SyncStamps.OldClientAfterSyncIff` | crates/sync/src/lib.rs:911-928 | A client holding the counter from before a complete run is told of no unchanged row after any later changes, and of every changed row if and only if the stamp of each passes its value. |
| `Repository.Database.AssignMailboxModseq` | crates/db/src/repository.rs:67-101 | Fails without a mailbox row; otherwise the stored counter and the result are those of the counter function, and no other mailbox moves. |
| `Repository.Database.UpsertMailboxMessage` | crates/db/src/repository.rs:1295-1378 | UID 0 takes the next free UID, any other UID is written or overwritten, and the row carries the new stamp. |
| `Repository.Database.UpdateMailboxMessageFlags` | crates/db/src/repository.rs:1616-1670 | The row gets the flags and a new stamp; the counter moves even without a row. |
| `BlobLedger.HoldsIffTotal` | crates/db/src/repository.rs:1902-1947 | With positive counts an account has a row for a key exactly when its total for the key is positive. |
| `BlobLedger.AddRefCounts` | crates/db/src/repository.rs:1902-1947 | Counting a reference raises the row of its account, object type and key by one and no other. |
| `BlobLedger.AddRefsTotal` | crates/db/src/repository.rs:1902-1947 | Counting a list of references adds exactly its multiplicities, in that account only. |
| `BlobLedger.ReleaseAllTotal` | crates/db/src/repository.rs:2052-2138 | Releasing a list takes its multiplicities off the counts, never below zero, whichever object type's row each release finds. |
| `BlobLedger.RowExactlyWhenDemanded` | crates/db/src/repository.rs:2052-2138 | Under conservation a key has a row exactly when a live mailbox row refers to it. |
| `Repository.Database.UpsertCacheObject` | crates/db/src/repository.rs:1902-1947 | Adds one to an existing row's count or creates it with one. |
| `Repository.Database.DeleteCacheObjectForAccount` | crates/db/src/repository.rs:2052-2138 | Takes one reference from one row of that account and key; answers true exactly when a row went and no other account's message or part uses the key. |
| `Repository.Database.ListMessageCacheObjects` | crates/db/src/repository.rs:1218-1255 | The message blob and the parts with multiplicity, only for the owning account. |
| `Repository.Database.IngestParsedMessage` | crates/sync/src/lib.rs:149-290 | Refused by quota, cut short by a failing step after any number of table writes, or carried through: the tables are those after exactly the writes done. Without the mailbox it fails with the message stored and its parts counted. |
| `Repository.Database.StoreParts` | crates/sync/src/lib.rs:212-246 | As far as the writes go, each part gets its row and then its count, in order. |
| `Repository.Database.CopyMailboxMessage` | crates/db/src/repository.rs:1686-1804 | Error without a destination, nothing without a source row, otherwise a new row and one more reference for each of the message's objects. |
| `Repository.Database.DeleteMailboxMessage` | crates/db/src/repository.rs:1806-1867 | Removes the row and releases each of the message's objects, or does nothing. |
| `BlobConservation.IngestConservesIff` | crates/db/src/repository.rs:1295-1378 | An ingest keeps the counts equal to the live references if and only if the row it overwrites, if any, held no references of the account. |
| `BlobConservation.IngestBalance` | crates/sync/src/lib.rs:212-272 | After any ingest each count exceeds the live references by exactly the overwritten row's references more than before. |
| `BlobConservation.CutIngestBalance` | crates/sync/src/lib.rs:212-246 | An ingest that fails before its mailbox row leaves exactly the parts it counted as surplus. |
| `BlobConservation.CutBeforeBlobCount` | crates/sync/src/lib.rs:247-272 | One that fails between mailbox row and blob count leaves the message blob one count short of its references. |
| `BlobConservation.CopyConserves` | crates/db/src/repository.rs:1686-1804 | A same-account copy keeps counts equal to live references. |
| `BlobConservation.DeleteBalance` | crates/db/src/repository.rs:1806-1867 | A delete from any state changes the surplus by exactly the references it releases in vain because the count was at zero. |
| `BlobConservation.DeleteConserves` | crates/db/src/repository.rs:1806-1867 | A delete keeps counts equal to live references. |
| `BlobConservation.HistoryBalances` | crates/db/src/repository.rs:2052-2138 | In every state of every history, with ingests overwriting rows and failing after any write, each count is the live references plus the net of all leaks, vain releases and missing counts so far, and a row exists exactly when that is positive. |
| `BlobConservation.ConservedIffNoLeak` | crates/db/src/repository.rs:1295-1378 | From a conserved state on, while no failure falls between a mailbox row and its blob count, counts equal live references if and only if no ingest so far overwrote a row with references or failed after counting a part. |
| `BlobConservation.HistoryConserves` | crates/db/src/repository.rs:2052-2138 | In every state of every history of completed ingests at free UIDs, same-account copies, deletes and flag updates, each count is the sum of live references and a row exists exactly when that sum is positive. |
| `SyncLedger.LeaksWhereOverwriting` | crates/sync/src/lib.rs:1047-1082 | Over the tables, the writes of any run leak if and only if some ingest meets a UID that is occupied at that moment. |
| `SyncLedger.SyncConservesIff` | crates/sync/src/lib.rs:1001-1150 | A complete sync keeps counts equal to live references if and only if no message the reply lists past the checkpoint is in the mailbox already or listed twice. |
| `SyncLedger.SyncLeaksExactly` | crates/sync/src/lib.rs:1001-1150 | For any SEARCH reply each count ends above the live references by exactly the references of the rows the run ingests over: those in the mailbox past the checkpoint before it, and, once for each repeated UID, those it had put there itself. |
| `SyncLedger.NextRunCleanIff` | crates/sync/src/lib.rs:1047-1119 | After a complete run, the next run of the epoch leaks nothing if and only if each row upstream still lists is at or below the saved checkpoint. |
| `SyncLedger.NextRunIsClean` | crates/sync/src/lib.rs:1047-1119 | So it leaks nothing after an ascending reply. |
| `SyncLedger.DescendingReplyLeaks` | crates/sync/src/lib.rs:1047-1092 | A descending reply saves the smallest UID past the checkpoint, so with two or more of them the next run leaks as long as upstream still has a larger one. |
| `Repository.ReleaseLowersWeight` | src/admin.rs:422-458 | Every release that finds a row lowers the account's summed counts and touches no other account or key. |
| `Repository.PurgePass` | src/admin.rs:422-458 | One pass over a non-empty listing strictly lowers the summed counts and removes only blobs no other account refers to. |
| `Repository.PurgeUncached` | src/admin.rs:422-458 | Keys known only from messages and parts go unless another account refers to them. |
| `Repository.PurgeAccountObjects` | src/admin.rs:422-458 | The purge ends; the account has no cache rows left, other accounts' rows stand, and the stored blobs are the old ones without exactly those keys the account held that no other account's message or part refers to. |
| `Repository.DoomedMeans` | crates/db/src/repository.rs:2100-2138 | The blobs removed are those the account holds by a cache row, a message or a part, and that no message or part of another account is stored under. |
| `Expunge.SequenceTargets` | crates/imap-server/src/imap.rs:2488-2502 | Ascending positions: the numbers denoted by the set text that name an entry. |
| `Expunge.DeletedTargets` | crates/imap-server/src/imap.rs:920-947 | Ascending positions of exactly the rows flagged \Deleted, among the named UIDs if any. |
| `Expunge.ReplayInStep` | crates/imap-server/src/imap.rs:1198-1220 | After each "* n EXPUNGE" line, highest position first, the client's list is the server's list at that moment. |
| `Expunge.ExpungeTargets` | crates/imap-server/src/imap.rs:1198-1220 | The loop removes exactly the chosen rows and emits lines that replay to the remaining list. |
| `Expunge.ChosenByPosition` | crates/imap-server/src/imap.rs:2488-2502 | A live UID is chosen exactly when its sequence number is a target. |
| `Expunge.ExpungeCommand` | crates/imap-server/src/imap.rs:1198-1220 | EXPUNGE removes exactly the numbered messages, or the \Deleted ones without argument; other rows are unchanged, and the lines replay. |
| `Expunge.UidExpungeCommand` | crates/imap-server/src/imap.rs:920-947 | UID EXPUNGE removes exactly the \Deleted messages among the denoted UIDs, and the lines replay. |
| `Idle.Session.NotificationForEvent` | crates/imap-server/src/imap.rs:4240-4298 | The line and the remembered count for an event, every branch, foreign mailboxes included. |
| `Idle.StepKeepsReplica` | crates/imap-server/src/imap.rs:4240-4298 | The line for any one change takes the client from the old list to the new; FETCH and EXPUNGE name the position of the message that changed or left. |
| `Idle.IdleReplica` | crates/imap-server/src/imap.rs:4240-4298 | Over any run of auto-UID inserts, copies, flag updates and deletes the client never meets a bad number and ends with the server's list of messages and flags. |
| `Idle.EventDescribesChange` | crates/db/src/repository.rs:132-152 | An event names the changed row by UID and by its position in the list that still or already has it, with its flags; only a change of a missing row publishes none. |
| `Idle.ForeignEventIgnored` | crates/imap-server/src/imap.rs:4248-4252 | An event of another account or mailbox causes no line and leaves the session as it was. |
| `Idle.CountNeverDrifts` | crates/imap-server/src/imap.rs:4253-4298 | After an event of its own mailbox the session remembers the live count, and lines that no delete explains state the difference. |
| `Idle.ReplicaAmongMailboxes` | crates/imap-server/src/imap.rs:4240-4298 | For any interleaving of changes over several mailboxes and accounts, a client following one of them never meets a bad number and ends with that mailbox's list. |
| `Idle.ChosenUidReplicaIff` | crates/db/src/repository.rs:1295-1378 | A row written under a chosen UID keeps the replica if and only if the UID is above every live one or neither message nor flags of a live row change. |
| `MutationQueue.RetryDelayCapped` | crates/sync/src/lib.rs:61-64 | The delay is the power of two up to attempt 8 and 300 seconds from attempt 9 on. |
| `MutationQueue.MutationEngine.AttemptOne` | crates/sync/src/lib.rs:492-549 | In flight first, then the recorded outcome; a crash leaves the row in flight. |
| `MutationQueue.MutationEngine.FlushPendingMutations` | crates/sync/src/lib.rs:480-553 | Rows and attempts are those of a flush over the due rows; it returns normally, counting them, exactly when all due rows were tried and succeeded, an error exactly when the last attempt failed, and otherwise the process died. |
| `MutationQueue.FlushInOrder` | crates/sync/src/lib.rs:480-553 | Attempts follow creation order, each due row at most once, all but the last succeed, and every row behind the first failure is untouched. |
| `MutationQueue.EveryHistoryTells` | crates/db/src/repository.rs:2341-2408 | Over every history of enqueues and flushes with failures and crashes: attempts equals attempts started, only failures are followed by another attempt, and none before its backoff is over. |
| `MutationQueue.DueFromLog` | crates/db/src/repository.rs:2341-2361 | In every reachable state a flush lists a mutation exactly when it was never tried, or its last attempt failed and its backoff is over, however often it failed before. |
| `MutationQueue.FlushDelivers` | crates/sync/src/lib.rs:480-553 | A flush in which nothing fails delivers every mutation whose backoff is over. |
| `MutationQueue.DelaysAddUp` | crates/sync/src/lib.rs:61-64 | Attempt n+1 starts at least the sum of the first n delays after the first failure. |
| `MutationQueue.RetriesTakeTime` | crates/sync/src/lib.rs:480-553 | The same for every mutation of every history from an empty queue. |
| `Threads.GraphClosed` | crates/imap-server/src/imap.rs:2866-2946 | Every child list names known messages, so no lookup of the construction fails. |
| `Threads.BuildThreadNode` | crates/imap-server/src/imap.rs:2948-2974 | Terminates on every graph, cycles included, builds the specified tree and restores the visited set. |
| `Threads.BuildRoots` | crates/imap-server/src/imap.rs:2907-2928 | Messages without a known parent, or without an id, head the trees in message order. |
| `Threads.ThreadReferences` | crates/imap-server/src/imap.rs:2866-2946 | The whole construction, with the fallback for a graph without roots. |
| `ThreadForest.SortKeepsPlaces` | crates/imap-server/src/imap.rs:2976-2986 | Sorting keeps every message under its parent and drops or doubles none. |
| `ThreadForest.SortForestSorts` | crates/imap-server/src/imap.rs:2976-2986 | Every level is ordered by date, subject and UID. |
| `ThreadForest.TreeCount` | crates/imap-server/src/imap.rs:2948-2974 | A built tree holds exactly the messages whose chain of parents passes through its root, each once. |
| `ThreadForest.ForestIffAcyclic` | crates/imap-server/src/imap.rs:2866-2986 | With distinct Message-IDs, the sorted forest holds every message exactly once, directly under its chosen parent when that is in the set, if and only if chosen parents are acyclic. |
| `ThreadMeaning.ForestMeaning` | crates/imap-server/src/imap.rs:2866-2986 | In terms of header fields alone: with distinct Message-IDs, the forest holds every message once, with its subject and date, directly under the message whose id ends its References (or, without those, its In-Reply-To), if and only if no chain of replies comes back to itself; siblings are in order of date, subject and UID. |
| `ThreadMeaning.LinkIsReply` | crates/imap-server/src/imap.rs:2886-2905 | A link of the construction is exactly a reply between two of the messages. |
| `ThreadMeaning.WellFoundedIsAcyclic` | crates/imap-server/src/imap.rs:2886-2905 | The links are acyclic exactly when replies can be ranked above what they reply to. |
| `ListPattern.Matches` | crates/imap-server/src/imap.rs:3647-3677 | The recursive matcher answers true exactly when the rest of the name splits into pieces covered by the rest of the pattern. |
| `ListPattern.MatchesStar` | crates/imap-server/src/imap.rs:3653-3653 | The same for a pattern at `*`, trying every end. |
| `ListPattern.MatchesPercent` | crates/imap-server/src/imap.rs:3654-3665 | The same for a pattern at `%`, with the loop that stops at a delimiter. |
| `ListPattern.ListPatternMatches` | crates/imap-server/src/imap.rs:3642-3680 | Sound and complete for the declarative meaning of pattern and name after ASCII folding. |
| `ListPattern.MeansFolded` | crates/imap-server/src/imap.rs:3642-3646 | Folding both sides first does not change the meaning. |
| `ListPattern.StandardIff` | crates/imap-server/src/imap.rs:3642-3665 | The matcher's meaning is the standard's, where `%` stops at the delimiter itself, for all patterns and names if and only if the delimiter is no ASCII letter: the name is folded and the delimiter is not. |
| `ListPattern.WideningKeepsMatches` | crates/imap-server/src/imap.rs:3642-3680 | Replacing `%` by `*` never loses a match. |
| `SearchQuery.Parser.NextToken` | crates/search/src/lib.rs:848-852 | The token at the index, and the index moved only if there was one. |
| `SearchQuery.Parser.ReadTerm` | crates/search/src/lib.rs:677-841 | Reads the term the recursive grammar assigns to the remaining tokens and stops exactly behind it, or fails when the grammar does. |
| `SearchQuery.Parser.Parse` | crates/search/src/lib.rs:638-675 | Fails exactly when some term does; otherwise the compiled form of all terms. |
| `SearchSyntax.ParsePrint` | crates/search/src/lib.rs:677-853 | For every tree of NOT, OR and single keys, in any letter case, and every following token list, parsing the printed tokens returns that tree and leaves those tokens. |
| `SearchSyntax.ParseIsPrint` | crates/search/src/lib.rs:677-853 | Conversely, whatever the parser accepts is the print of some tree. |
| `SearchSyntax.Unambiguous` | crates/search/src/lib.rs:677-853 | One token list cannot be read as two different criteria. |
| `SearchSyntax.KeywordsInAnyCase` | crates/search/src/lib.rs:677-700 | Two words are read alike exactly when they differ in ASCII case only. |
| `SearchMeaning.MergeMeansBoth` | crates/search/src/lib.rs:876-935 | Merging fragments whose ON, SENTON and UID keys agree means requiring both. |
| `SearchMeaning.FlatteningExactly` | crates/search/src/lib.rs:638-675 | For every term list and message, the compiled query accepts exactly when all keys match apart from ON, SENTON and UID, all nested terms match, the first ON and the first SENTON day fit, and some UID set, if there is one, holds the message. |
| `SearchMeaning.WronglyAcceptedIff` | crates/search/src/lib.rs:904-934 | A message some term rejects is accepted if and only if that holds and a further ON or SENTON day, or one of the UID sets, does not fit it. |
| `SearchMeaning.FlatteningKeepsMeaning` | crates/search/src/lib.rs:638-675 | For every term list whose repeated top-level ON, SENTON and UID keys agree, with arbitrary nesting, the compiled query accepts a message exactly when every term does. |
| `SearchMeaning.SingleKeysAgree` | crates/search/src/lib.rs:855-935 | At most one top-level UID, ON and SENTON is such a list. |
| `SearchMeaning.FlatteningNeverLoses` | crates/imap-server/src/imap.rs:3333-3453 | For every term list at all, a message that satisfies all terms satisfies the compiled query. |
| `SearchMeaning.PureKeysIff` | crates/search/src/lib.rs:904-934 | A list of ON, SENTON and UID keys, any number in any order, keeps its meaning if and only if repeated keys agree, or it has UID keys and none of them holds any UID. |
| `SearchMeaning.TwoDaysIff` | crates/search/src/lib.rs:905-905 | Two ON keys keep their meaning if and only if they name the same day. |
| `SearchMeaning.TwoUidSetsIff` | crates/search/src/lib.rs:930-934 | Two UID keys keep their meaning if and only if they denote the same set. |
| `SearchDenotation.SearchSays` | crates/search/src/lib.rs:638-675 | From the words of a command to its verdict: every spelt criteria list is accepted, and where repeated top-level ON, SENTON and UID keys agree the compiled search takes exactly the messages of which each criterion, read directly off its syntax, holds; in any case it takes all of these. |
| `SearchDenotation.TreeMeans` | crates/imap-server/src/imap.rs:3346-3453 | Evaluating the parsed form of any criteria is what they say about the message: flags, keywords, sizes, days, UIDs, headers, NOT and OR. |
| `SearchDenotation.SearchAsks` | crates/search/src/lib.rs:638-853 | A command asks the index for the texts of its top-level keys, space-joined in the order written, an unknown word for itself, and for recent or old messages exactly when some key does. |
| `SearchDenotation.CompiledAlgebra` | crates/imap-server/src/imap.rs:3346-3360 | OR, NOT and a list of terms are union, complement and intersection of what compiled searches find, De Morgan included. |
| `SearchKeys.DayKeysPartition` | crates/search/src/lib.rs:811-834 | What is not BEFORE a day is SINCE it, and ON a day is SINCE it and BEFORE the next, by arrival and by sending. |
| `SearchKeys.UidPartReadsBack` | crates/search/src/lib.rs:967-992 | A printed range reads back as that UID range, up to u64::MAX. |
| `SearchKeys.PrintedSetSelects` | crates/search/src/lib.rs:967-981 | A printed number set used as UID key selects exactly the messages it lists. |
| `SearchKeys.FlatKeepsTexts` | crates/search/src/lib.rs:923-928 | The merged query carries all texts, space-joined in the order written. |
| `SearchKeys.FlatKeepsRecency` | crates/search/src/lib.rs:888-889 | The merged query asks for recent or old messages exactly when some key did. |
| `SearchKeys.QuoteQueryReadsBack` | crates/search/src/lib.rs:942-951 | A term survives the quoting of query texts. |
| `SearchKeys.TextKeysAsk` | crates/search/src/lib.rs:703-754 | The subject and address keys ask the text engine for the field of their own name, BODY and TEXT for every text field. |
| `SearchKeys.HeaderKeyAsks` | crates/search/src/lib.rs:953-965 | A HEADER key asks the engine exactly for the header fields it indexes. |
| `SearchIndex.SearchFlat` | crates/search/src/lib.rs:419-495 | Fails exactly on a text the engine refuses; otherwise the documents among the best thousand hits, or under a leading NOT those of the best thousand documents not among the best thousand hits, that pass the UID filter. |
| `SearchIndex.StripOuterParens` | crates/search/src/lib.rs:563-569 | Strips until no outer pair of parentheses is left, trimming in between. |
| `SearchIndex.NotExcludes` | crates/search/src/lib.rs:424-466 | A leading NOT excludes what the rest of the text matches, parenthesised or not; any other text is asked for as it is; no text asks for everything. |
| `SearchIndex.SearchExpr` | crates/search/src/lib.rs:498-542 | The set algebra, at any index size: complements within the best thousand, empty conjunctions empty; fails exactly when some leaf does. |
| `SearchIndex.SearchMailbox` | crates/search/src/lib.rs:397-415 | Fails exactly when a leaf does; otherwise a strictly ascending list, and in an index of at most 1000 documents and without empty conjunctions exactly the documents satisfying base query and expression. |
| `SearchIndex.ExprIsPointwise` | crates/search/src/lib.rs:498-542 | Within the limit and without empty conjunctions, the set algebra is the pointwise meaning of every expression. |
| `SearchIndex.TopExactIff` | crates/search/src/lib.rs:471-490 | A leaf search, filtered or not, is exact if and only if no hit beyond the thousandth passes the UID filter; under NOT, if and only if each further document that passes is excluded anyway and no further excluded one is among the best thousand. |
| `SearchIndex.UnfilteredExactIff` | crates/search/src/lib.rs:471-473 | Without a UID filter a text search is exact if and only if it has at most 1000 hits. |
| `SearchIndex.EmptyAndDiffers` | crates/search/src/lib.rs:505-509 | An empty conjunction matches nothing in the index and everything pointwise. |
| `SearchIndex.ParsedHasNoEmptyAnd` | crates/search/src/lib.rs:638-675 | No search compiled from parsed criteria contains an empty conjunction. |
| `NumberSet.ParseNumberSet` | crates/protocol/src/lib.rs:111-146 | A strictly ascending list of exactly the positive numbers some part of the text denotes. |
| `NumberSet.RangeSymmetric` | crates/protocol/src/lib.rs:111-146 | The ends of a range may be swapped, and `*` is the maximum. |
| `NumberSet.OpenRange` | crates/protocol/src/lib.rs:118-133 | `n:*` runs from n to the maximum, or back from n when n is beyond it; `*` alone is the maximum. |
| `NumberSet.PartsAreIndependent` | crates/protocol/src/lib.rs:111-146 | A set means what its parts mean alone, and a part that is no number stands for nothing. |
| `Text.ParseSigned` | crates/protocol/src/lib.rs:111-146 | Numbers may carry a plus sign, and a minus where they are signed; other characters make no number. |
| `NumberSet.FormatNumberSet` | crates/protocol/src/lib.rs:247-268 | The text is the print of non-adjacent maximal ranges covering exactly the values, for every u64 list. |
| `NumberSet.FormatSorted` | crates/protocol/src/lib.rs:247-268 | The range loop; `end + 1` stays within 64 bits. |
| `NumberSet.MaximalCoverUnique` | crates/protocol/src/lib.rs:247-268 | A set of values has only one such list of ranges. |
| `NumberSet.RangeReadsBack` | crates/protocol/src/lib.rs:581-587 | A printed range reads back as that interval when its end fits an i64. |
| `NumberSet.RoundTrip` | crates/protocol/src/lib.rs:111-146 | Reading the printed set gives the sorted, duplicate-free list if and only if every value is in 1..i64::MAX, whatever the maximum. |
| `Quoting.QuoteEscapes` | crates/protocol/src/lib.rs:576-579 | The two replacements, in their order, escape each quote and backslash exactly once. |
| `Quoting.Unquote` | crates/upstream/src/lib.rs:769-789 | The escape loop computes the specified text; unquoted input is returned as it is. |
| `Quoting.UnquoteQuote` | crates/upstream/src/lib.rs:702-705 | Unquoting undoes quoting for every string. |
| `Quoting.ReadQuoted` | crates/protocol/src/lib.rs:531-547 | The quoted token and the rest behind its closing quote, escapes resolved. |
| `Quoting.ReadAtom` | crates/protocol/src/lib.rs:549-571 | A non-empty token up to white space outside parentheses and brackets. |
| `Quoting.Tokenize` | crates/protocol/src/lib.rs:521-574 | Never fails, and yields the token list of the specification. |
| `Quoting.TokensQuote` | crates/protocol/src/lib.rs:521-579 | A quoted string in front is one token with the original content, whatever follows. |
| `Quoting.TokensJoin` | crates/protocol/src/lib.rs:521-579 | Tokenizing the space-joined quoted strings gives the list back. |
| `Quoting.ParseCommand` | crates/protocol/src/lib.rs:65-82 | Line end trimmed, empty lines ignored, fewer than two tokens refused, otherwise tag, name and arguments. |
| `Quoting.CommandRoundTrip` | crates/protocol/src/lib.rs:65-82 | Two atoms and any quoted arguments parse back to tag, name and arguments, whatever the line ending. |
| `Quoting.GroupIsOneToken` | crates/protocol/src/lib.rs:549-571 | A parenthesised list or bracketed section is one token, whatever nests or stands inside. |
| `Quoting.ShortLines` | crates/protocol/src/lib.rs:65-74 | A line of line ends only is ignored and a tag alone is refused. |
| `Quoting.UnclosedQuote` | crates/protocol/src/lib.rs:531-547 | A quoted string that is never closed runs to the end of the line, and a backslash with nothing behind it is dropped. |
| `MimeParts.Builder.BuildLeafPart` | crates/mime/src/lib.rs:281-378 | A leaf records its path and bytes, or fails exactly when its body cannot be read. |
| `MimeParts.Builder.BuildMessagePart` | crates/mime/src/lib.rs:168-279 | An embedded message records itself and then its parts under path.1, or fails exactly when it cannot be read. |
| `MimeParts.Builder.BuildPartTree` | crates/mime/src/lib.rs:124-166 | Appends the records of the whole walk, or fails exactly when some part cannot be read. |
| `MimeParts.ExtractPartBytes` | crates/mime/src/lib.rs:88-95 | The first record with the path, nothing, or the parse error. |
| `MimeParts.PathOfInjective` | crates/mime/src/lib.rs:124-166 | Dotted numbers determine the address, prefixes such as 1.1 and 1.10 included. |
| `MimeParts.PathsDistinct` | crates/mime/src/lib.rs:124-378 | No two records of a message share a path, nested messages included. |
| `MimeParts.LookupFindsPart` | crates/mime/src/lib.rs:88-95 | Looking up the number of any leaf or embedded message returns its bytes. |
| `MimeParts.LookupIsHonest` | crates/mime/src/lib.rs:88-95 | Whatever a lookup returns is the content of the part its number leads to. |
| `MimeParts.RecordCount` | crates/mime/src/lib.rs:124-378 | The number of records is leaves plus embedded messages. |
| `LoginThrottle.MemoryLoginThrottle.IsBlocked` | crates/auth/src/lib.rs:114-129 | True exactly during a lockout of the folded name; an expired lockout is cleared. |
| `LoginThrottle.MemoryLoginThrottle.RecordFailure` | crates/auth/src/lib.rs:131-152 | Counts the failure for the folded name and starts a lockout at the limit. |
| `LoginThrottle.MemoryLoginThrottle.RecordSuccess` | crates/auth/src/lib.rs:154-160 | Forgets the folded name and no other. |
| `LoginThrottle.Authenticate` | crates/auth/src/lib.rs:281-298 | Granted exactly to the right password of the expected name outside a lockout; an error exactly when the check breaks; a refusal outside a lockout is one recorded failure of the folded name, and during one nothing is checked or changed. |
| `LoginThrottle.SpellingsShareLockout` | crates/auth/src/lib.rs:114-116 | All spellings of a name share its lockout. |
| `LoginThrottle.LockedOutExactly` | crates/auth/src/lib.rs:131-152 | After every history a name is locked out exactly for one lockout after each full burst of failures since its last success. |
| `LoginThrottle.LogInKeepsInv` | crates/auth/src/lib.rs:281-298 | Every login keeps the throttle state in step with the failures recorded since the last success. |
| `LoginThrottle.RateBound` | crates/auth/src/lib.rs:131-152 | Failures of a name within a window T, no success between, number at most limit × (⌊T/lockout⌋ + 1). |
| `LoginThrottle.ThrottleHolds` | crates/auth/src/lib.rs:113-160 | Over every sequence of logins from a fresh throttle: the rate bound for every name, and no password checked while its name is locked out. |

## Left out

- Sockets, TLS, SASL, HTTP, metrics, configuration, command line, audit log and session records.
- The insides of Postgres, Redis, S3, Tantivy, mailparse and chrono: they appear as maps, an oracle for ranked hits, an abstract mail tree and a date-reading function. Password hashing and secret encryption likewise.
- UIDs are not claimed to be unique over time: the highest one is given out again after its message is deleted.
- MOVE's EXPUNGE lines and HEADER.FIELDS block reconstruction: the code does not keep the natural promise there.
- Mirror convergence covers mailboxes filled by sync only, with a UIDVALIDITY that upstream always reports and that grows with each epoch, and UIDs from 1 up; sync mixed with local APPEND or COPY rows is not covered.
- An ingest is one write of the sync plan; its failing midway is modelled on the tables (`BlobConservation.IngestUpTo`). The contents of the object store, search indexing, quota figures, metrics and the uid_mappings table are not.
- Replay of a queued mutation upstream is an opaque success or failure; database and process read the same clock; attempts is unbounded rather than 32-bit. Several concurrent workers are not modelled.
- Lagging IDLE events: each event is handled before the next change.
- Cache pruning by recency and rehydration of evicted blobs, which change counts without changing mailbox rows.
- Rows marked expunged: the program deletes rows instead, so the mark is never set.
- Object-store failures during the account purge.
- MIME previews, body structure JSON and header decoding; parts carry their bytes and path only.
- THREAD=ORDEREDSUBJECT, and the printing of a forest.
- Evaluation of text criteria and recency on a message: the record evaluator does not look at them either; text criteria are the index oracle's.
- The Redis throttle and the Postgres authenticator.
