# A verified model of a local message store's bookkeeping

The repository syncs messages, calls and contacts from several platforms into one local database. This project models
the bookkeeping that decides whether that store loses, repeats or misattributes data, and proves what it is meant to
guarantee: for every input, every run and every interleaving, not for samples.

SQL tables are finite maps or sequences. Clock readings, fresh ids, other processes, failures and the order of events
are inputs of the steps, so a theorem about all runs covers every choice of them. Objects whose methods change fields
are classes; their methods are proved against specification functions or step relations, and the theorems are about
those.

## What is proved

**WhatsApp resync cache** (`KeysetOrder`, `ResyncPaging`, `ResyncSweep`, `LateWrites`, `SyncCache`, `ResyncBlankKeys`).
Pages walk two tables by keyset cursors over a frozen `updated_at` window. On unchanged tables the pages of a sweep add
up to the two unlimited queries. With writers between pages, and even between the two queries of one page, a sweep never
delivers a row twice, and it ends unless rows keep arriving in its window. If writers stamp what they commit above the
snapshot, every row a sweep misses was deleted or stamped anew, and a next sweep from the `completedAt` this one gave
picks it up. But a transaction reads the clock before it commits, so a row can also appear late, stamped within the
window. `LateWrites` proves, for writers of any kind, that such a row reaches the client exactly when it still lies
ahead of the cursor when it commits; otherwise neither this sweep delivers it nor does the next one match it. All this
needs that no row with a blank chat or id is followed by another row of its window, because a cursor made from such a
row forgets its position; `SweepsCompleteIffBoundariesNonblank` shows that on unchanged tables this is exactly the
condition under which sweeps end at every page size.

**Message rows and history notifications** (`MessageStore`, `HistoryQueue`, `HistoryReplay`). Upserts, receipts and
history batches never clear a revocation, never change a revoked text and never lose a delivery or read time, and the
delayed original of a revoked message changes nothing, under whichever alias of its chat it comes. Notifications survive
every failure and crash, are applied in rowid order, and have the effect of storing each batch exactly once. With live
writes between a batch's commit and its replay that can fail: the replay puts an older text or status back.
`StoringIsHarmlessIff` gives the exact condition for one batch on any table, `LiveRunsStoreOnceIff` for whole runs.

**Sync-run leases** (`SyncRuns`, `RunQueue`). Over every interleaving of workers, a fenced call succeeds exactly while
its claim is current, ended runs never change and are completed or failed as their last call said, at most one finish or
fail succeeds, and a scheduler that sleeps until the next claimable time neither oversleeps nor spins. The service keeps
at most one queued or running sync per account. `SecondEndAcceptedIffUnowned` and `FailedRunCanStillComplete` show where
the fencing does not reach: claims without an owner, and runs failed by `failInProgressRuns`, which leaves owner and
attempt in place.

**Contact merges** (`ContactMerge`, `StalePlans`). Any sequence of merge batches keeps the aliases a forest, so the
cycle error cannot occur; two contacts resolve alike exactly when accepted merges connect them, to what the primary
resolved to; the map can be rebuilt in any order; and memories end up on the canonical id. All this rests on planning
and recording on the same log. For a plan made on one log and recorded on another, `StalePlans` gives the exact
conditions under which chains still end, the log stays well recorded, and memories stay on canonical ids; the last is a
condition of its own.

**Caches and indexes** (`StatusReadCache`, `ProjectionCache`, `RawEvents`, `RawEventRepeats`, `AttachmentEviction`).
Each agrees with a simple form: reading afresh, copying whole maps, inserting one event at a time, evicting the shortest
prefix. A batch of raw events is deduplicated first; `DeduplicationNeutralIff` says exactly when that makes no
difference.

**iMessage ingest** (`Utf8`, `AttributedBody`, `IMessageCursor`). Every text written as a typed string is read back,
even when the terminator's bytes occur inside its length or its characters: cutting there never leaves well-formed UTF-8
(section 4 of RFC 3629), and the length-prefixed reading decides. The forward cursor delivers each row and call once
while the mutation sweep delivers every mutated row once per round, and syncing until nothing is left ends.

**Telemetry queue** (`TelemetryQueue`) and **singleton lock** (`SingletonLock`). Bounds, order, opt-out, no lost wake-up
and silence after close for the queue; at most one owner, no fresh lock judged stale, no harm by losers and torn-write
safety for the lock. Three removals do not look at the file they remove: the one of a takeover, the one that ends a
release, and the one after a failed initialisation. For each the exact condition is proved under which it takes away
another process's lock, over all interleavings. A takeover removes another lock than the one it judged in three cases: a
file was created since, the owner renewed the lock since, or the judged file had no slot written yet and so read like no
lock at all.

`Prelude`, `Ordering` and `Trimming` hold what several modules share.

## Model

| member | source | states |
|---|---|---|
| ResyncPaging.CursorResumesIffNonblank | native/helpers/whatsapp-go/main.go:759-776 | a cursor issued at a row parses back and resumes just behind that row if and only if neither its chat nor its id is blank |
| ResyncPaging.CursorRoundTrip | native/helpers/whatsapp-go/main.go:1200-1220 | a cursor that encodes reads back as it was, unless it holds half a key, which is refused; encoding is refused exactly without a positive snapshot |
| ResyncPaging.PageWithinLimit | native/helpers/whatsapp-go/main.go:674-757 | messages plus calls of any page never exceed the limit (or the default for a limit that is not positive), a page that says there is more is full, and a next cursor is given exactly when there is more |
| ResyncPaging.RefusedIff | native/helpers/whatsapp-go/main.go:1200-1220 | a cursor is refused exactly when it cannot be read, names no positive snapshot, holds half a key or names an unknown phase; without a cursor, when the clock reads no positive time |
| ResyncPaging.PageTakesFirst | native/helpers/whatsapp-go/main.go:674-757 | a page is the first rows of what is left, messages before calls, up to its limit, and says there is more exactly when more than that is left |
| ResyncPaging.PageCompletedAt | native/helpers/whatsapp-go/main.go:674-757 | every page repeats its cursor's snapshot as completedAt, and a first page the clock it was read at |
| ResyncPaging.ListingByColumns | native/helpers/whatsapp-go/main.go:873-897 | a query lists exactly the rows stamped in the window and behind the position, ordered by timestamp, then chat, then id, as texts compare |
| KeysetOrder.BeforeIff | native/helpers/whatsapp-go/main.go:880-897 | positions compare by timestamp, then chat, then id, texts by their first difference |
| SyncCache.SelectRows | native/helpers/whatsapp-go/main.go:873-897 | the row query returns the first n rows of the window behind the cursor in (timestamp, chat, id) order |
| SyncCache.Cache.QueryMessages | native/helpers/whatsapp-go/main.go:857-989 | the limit + 1 query yields the unlimited query cut at the limit, with a cursor at its last row exactly when it was cut |
| SyncCache.Cache.QueryCalls | native/helpers/whatsapp-go/main.go:991-1083 | the same for calls; the position counts only in the calls phase and a limit that is not positive yields nothing |
| SyncCache.Cache.GetResyncPage | native/helpers/whatsapp-go/main.go:674-757 | one page, with its error cases, is the page the unlimited queries determine, including the hand-over when messages fill it exactly |
| SyncCache.Cache.Drain | native/helpers/whatsapp-go/main.go:674-757 | following next cursors on unchanged tables ends, the concatenated messages and calls are exactly the two unlimited queries, and the last completedAt is the snapshot they were taken at |
| SyncCache.StaticDelivery | native/helpers/whatsapp-go/main.go:857-989 | on an unchanged table a finished sweep delivered the whole window, each row once, in order |
| ResyncSweep.LastQueryFinishes | native/helpers/whatsapp-go/main.go:969-975 | a query its limit does not cut leaves no row of the window undelivered |
| ResyncSweep.CutQueryAdvances | native/helpers/whatsapp-go/main.go:969-989 | a cut query delivers a full page, covers everything up to its last row, and leaves strictly fewer rows behind the new cursor |
| ResyncSweep.FetchKeepsInv | native/helpers/whatsapp-go/main.go:674-757 | a page keeps the sweep invariant and shrinks what is left, with writers that stamp above the snapshot before, between and after its two queries |
| ResyncSweep.InterleavedSweepDelivers | native/helpers/whatsapp-go/main.go:674-757 | with writers that stamp above the snapshot anywhere, a finished sweep delivered only rows of its window, strictly ascending and with their original contents, and every row it missed was superseded or deleted |
| ResyncSweep.NextSweepPicksUp | native/helpers/whatsapp-go/main.go:701-704 | a row stamped above a time is matched by any later sweep that starts from that time |
| ResyncSweep.CompletedAtIsSnapshot | native/helpers/whatsapp-go/main.go:674-757 | in every run the completedAt a client holds is its sweep's snapshot, from the first page on and when the sweep has finished |
| ResyncSweep.NoGapBetweenSweeps | native/helpers/whatsapp-go/main.go:693-697 | every row of the final tables newer than since was delivered as it now is, or is matched by a next sweep that starts from the completedAt the finished one gave |
| ResyncSweep.SweepTerminates | native/helpers/whatsapp-go/main.go:674-757 | in every run with such writers the cursor stays readable, and pages fetched plus rows left never exceed the rows there were |
| LateWrites.StampedRunIsAnyRun | native/helpers/whatsapp-go/main.go:674-757 | runs whose writers stamp above the snapshot are among the runs with writers of any kind |
| LateWrites.AnySweepAscends | native/helpers/whatsapp-go/main.go:674-757 | whatever writers commit and when, a sweep's rows are strictly ascending throughout, so none is delivered twice, and its cursor stays readable |
| LateWrites.MessageDeliveredIff | native/helpers/whatsapp-go/main.go:504-531 | a message in the window that stays as it is from some moment on is delivered by the end exactly when the sweep is then still in its messages and before it |
| LateWrites.CallDeliveredIff | native/helpers/whatsapp-go/main.go:504-531 | the same for a call: exactly when the sweep is then still in its messages, or in its calls and before it |
| LateWrites.NextSweepMatchesIff | native/helpers/whatsapp-go/main.go:873-878 | a later sweep from this one's completedAt matches a row exactly when it is stamped above it |
| LateWrites.AnyCompletedAtIsSnapshot | native/helpers/whatsapp-go/main.go:674-757 | whatever writers do, the completedAt a client holds is its sweep's snapshot |
| LateWrites.LateMessageReachesClientIff | native/helpers/whatsapp-go/main.go:504-531 | a message that commits within the window reaches the client, in this sweep or a next one, exactly when it lies ahead of the sweep when it commits |
| LateWrites.LateCallReachesClientIff | native/helpers/whatsapp-go/main.go:504-531 | the same for a call |
| LateWrites.LateCommitIsLost | native/helpers/whatsapp-go/main.go:557-567 | a run in which a message is stamped before the snapshot, commits behind the cursor and never reaches the client, in this sweep or in any that starts from its completedAt |
| LateWrites.AnySweepEnds | native/helpers/whatsapp-go/main.go:674-757 | whatever writers do, the pages of a sweep never outnumber the rows ahead at its start, those that entered the windows since, and one |
| ResyncBlankKeys.BlankBoundaryNeverCompletes | native/helpers/whatsapp-go/main.go:759-765 | a row with a blank chat or id before another row makes a one-row-per-page sweep run for ever or fail, after any number of pages |
| ResyncBlankKeys.SweepsCompleteIffBoundariesNonblank | native/helpers/whatsapp-go/main.go:674-765 | sweeps over unchanging tables complete at every positive page size if and only if no row with a blank chat or id is followed by another row of its window |
| ResyncBlankKeys.BlankIdExample | native/helpers/whatsapp-go/main.go:759-761 | a concrete table on which the sweep never ends |
| MessageStore.MessageCache.UpsertMessage | native/helpers/whatsapp-go/main.go:1125-1167 | an upsert merges the row it finds as the ON CONFLICT clause says and touches no other |
| MessageStore.MessageCache.ReceiptArrives | native/helpers/whatsapp-go/main.go:569-585 | a receipt updates status and times of a stored row where it carries them, and nothing when there is none |
| MessageStore.MessageCache.ApplySnapshot | native/helpers/whatsapp-go/main.go:504-531 | a snapshot's upserts are stored all or, when a statement fails, not at all |
| MessageStore.MessageCache.IsMessageRevoked | native/helpers/whatsapp-go/history_validation.go:21-38 | true exactly when a row under the message's key or one of its aliases is revoked, and an error exactly when a failing query is reached before a revoked row |
| MessageStore.MessageCache.FilterRevokedResends | native/helpers/whatsapp-go/history_validation.go:40-56 | the in-place compaction leaves exactly the messages to keep, in order, unless a check fails |
| MessageStore.KeptSubsequence | native/helpers/whatsapp-go/history_validation.go:40-56 | what the filter keeps are exactly the revocations and the messages not seen revoked, each once |
| MessageStore.StoredKeysAreSameMessages | native/helpers/whatsapp-go/history_validation.go:21-38 | the keys asked for are exactly those with the message's id in its own chat or in one that an alias names alike, in either direction |
| MessageStore.DelayedOriginalChangesNothing | native/helpers/whatsapp-go/history_validation.go:40-56 | the unrevoked original of a message that is revoked under its own key or an alias's leaves the row at its key as it is |
| MessageStore.OtherMessagesAreStored | native/helpers/whatsapp-go/history_validation.go:40-56 | a message that is itself a revocation, or has no such revoked row, is stored with its columns |
| MessageStore.OtherKeysUntouched | native/helpers/whatsapp-go/main.go:504-531 | a batch touches no key but those of its messages |
| MessageStore.UpsertedRowHolds | native/helpers/whatsapp-go/main.go:1125-1167 | column by column: what the row left by an upsert holds, depending on whether the row found was revoked and which times it knew |
| MessageStore.ReceiptedRowHolds | native/helpers/whatsapp-go/main.go:569-585 | column by column: a receipt stamps a stored row, changes status and times where it carries them and nothing else, and creates no row |
| MessageStore.RunKeeps | native/helpers/whatsapp-go/main.go:569-585 | under every run of upserts, receipts and batches rows stay, revocations stay, a revoked text is frozen, delivery and read times never return to null |
| MessageStore.OpsAreWriterSteps | native/helpers/whatsapp-go/main.go:1125-1167 | upserts and receipts stamped above a snapshot are writer steps of its sweep, so that the theorems about such writers cover them |
| MessageStore.UpsertAllRows | native/helpers/whatsapp-go/main.go:504-531 | with distinct keys each message merges with the row found before the batch, and all other rows stay |
| MessageStore.ReplayChangesOnlyStamps | native/helpers/whatsapp-go/main.go:2059-2072 | applying a batch again right after it was applied, with no fewer aliases known, changes nothing but updated_at |
| HistoryQueue.SurvivorIsFirstRevokedOrLast | native/helpers/whatsapp-go/main.go:2150-2153 | of several copies of a message the first revoked one survives, and otherwise the last |
| HistoryQueue.CollectMessages | native/helpers/whatsapp-go/main.go:2145-2201 | a history event becomes its survivors, one per key, in (timestamp, chat, id) order |
| HistoryQueue.HistoryProcessor.EnqueueNotification | native/helpers/whatsapp-go/main.go:625-639 | a notification joins the queue under a rowid never used before |
| HistoryQueue.HistoryProcessor.GetNextNotification | native/helpers/whatsapp-go/main.go:641-658 | the queued notification with the least rowid, and none exactly when the queue is empty |
| HistoryQueue.HistoryProcessor.ApplyHistorySyncData | native/helpers/whatsapp-go/main.go:2066-2072 | filtering in place and storing in one transaction has the effect of the whole batch or, on a failing check or statement, none |
| HistoryQueue.HistoryProcessor.DeleteNotification | native/helpers/whatsapp-go/main.go:660-663 | exactly the rows with that rowid leave the queue, the order of the others stays |
| HistoryQueue.HistoryProcessor.ProcessOne | native/helpers/whatsapp-go/main.go:1357-1372 | one notification is loaded, stored and then deleted, taking exactly the head off the queue, or the pass stops at its first failure with queue and table as that left them |
| HistoryQueue.HistoryProcessor.ProcessQueued | native/helpers/whatsapp-go/main.go:1346-1374 | draining is a run of the queue's steps, succeeds only with an empty queue and always without a fault, and reports whether it had anything to do |
| HistoryQueue.NothingLostAndInOrder | native/helpers/whatsapp-go/main.go:625-663 | whatever fails, crashes or is written live, every notification is still queued or was applied, and batches commit in rowid order |
| HistoryQueue.ExactlyOnceEffect | native/helpers/whatsapp-go/main.go:1346-1374 | without live writes, and with aliases that only accumulate, the table after any run equals, but for updated_at, storing a prefix of the notifications exactly once each |
| HistoryReplay.StoringIsHarmlessIff | native/helpers/whatsapp-go/main.go:1125-1167 | storing a batch on any table changes nothing but updated_at exactly when every message it keeps finds its columns there already |
| HistoryReplay.ReceiptSurvivesReplayIff | native/helpers/whatsapp-go/main.go:569-585 | a receipt between a batch's commit and its replay survives exactly when the message the batch keeps for its row, if any, has its status and does not contradict its times |
| HistoryReplay.LiveMessageSurvivesReplayIff | native/helpers/whatsapp-go/main.go:1132-1147 | a live message in between survives exactly when the message the batch keeps under its key, if any, carries the same columns, but for the text of a revoked row |
| HistoryReplay.ReplayUndoesEdit | native/helpers/whatsapp-go/main.go:1132-1147 | for every message, a live edit is undone when the batch with the old text is stored again |
| HistoryReplay.LiveRunsStoreOnceIff | native/helpers/whatsapp-go/main.go:1346-1374 | over every run, live writes included, the table agrees throughout with storing each notification once exactly when every replay finds what it keeps absorbed |
| Utf8.RoundTrip | src/platforms/imessage/attributed-body.ts:29-37 | decoding undoes encoding on every text |
| Utf8.CutBeforeContinuationIsMalformed | src/platforms/imessage/attributed-body.ts:29-37 | encoded text cut in front of a continuation byte is malformed |
| Utf8.DecodesExactlyEncodings | src/platforms/imessage/attributed-body.ts:29-37 | the fatal decoder accepts exactly the encodings, so overlong forms and surrogates are rejected |
| AttributedBody.ReadLength | src/platforms/imessage/attributed-body.ts:1-24 | the byte loop computes the little-endian value behind a marker, or nothing for a bad marker, a short buffer or an unsafe integer |
| AttributedBody.LengthRoundTrip | src/platforms/imessage/attributed-body.ts:1-24 | every width a length fits in decodes to that length, wherever it stands |
| AttributedBody.DecodedLengthIsEncoded | src/platforms/imessage/attributed-body.ts:1-24 | nothing else decodes: the bytes taken are the encoding of the decoded length |
| AttributedBody.PaddedTextNormalizes | src/platforms/imessage/attributed-body.ts:39-48 | a text without markers comes back as it is whatever white space and attachment markers surround it, unless it starts like a class name |
| AttributedBody.PaddingNormalizes | src/platforms/imessage/attributed-body.ts:39-48 | a text of white space and markers only stands for an attachment exactly when it holds a marker |
| AttributedBody.ExtractTextFromAttributedBody | src/platforms/imessage/attributed-body.ts:84-104 | the scan over all markers returns the first decodable text behind the first marker, and null when there is none |
| AttributedBody.NothingDecodableLater | src/platforms/imessage/attributed-body.ts:88-101 | when nothing decodes behind one marker, nothing decodes behind a later one |
| AttributedBody.EarlyCutIsMalformed | src/platforms/imessage/attributed-body.ts:63-78 | a cut at a terminator byte inside the length or the text is never valid UTF-8 |
| AttributedBody.DelimitedDecodes | src/platforms/imessage/attributed-body.ts:63-78 | the end-delimited reading of a typed string yields its normalised text or nothing, never another text |
| AttributedBody.ExtractionRoundTrip | src/platforms/imessage/attributed-body.ts:50-104 | a blob whose first decodable tag carries a typed string yields exactly its normalised text, for every text, length width and surrounding bytes |
| IMessageCursor.FetchMessageRows | src/platforms/imessage/reader.ts:258-307 | the row query returns the first rows that qualify, in row id order |
| IMessageCursor.SweptIff | src/platforms/imessage/reader.ts:258-307 | a row is swept exactly when it lies in the range, carries a message and was edited or retracted |
| IMessageCursor.ForwardIff | src/platforms/imessage/reader.ts:258-307 | the forward stream takes exactly the rows behind the cursor that carry a message |
| IMessageCursor.CallsAfterMembers | src/platforms/imessage/call-history.ts:180-204 | the call stream takes exactly the calls behind its cursor, each once and in order |
| IMessageCursor.ResolvedCursor | src/platforms/imessage/sync.ts:40-53 | a stored cursor is taken field by field; without its row id a source starts at the row seen last, or at the beginning |
| IMessageCursor.BuildSyncBatch | src/platforms/imessage/reader.ts:214-256 | a batch is refused exactly for a limit that is not positive or a negative cursor, and else pages both streams with the cursors to continue from |
| IMessageCursor.ForwardCut | src/platforms/imessage/reader.ts:225-248 | the rows of a page are those up to its new cursor, and the rows that remain are those beyond it |
| IMessageCursor.MutationCut | src/platforms/imessage/reader.ts:226-231 | the same for the mutation sweep below the forward cursor |
| IMessageCursor.BundleMakesProgress | src/platforms/imessage/sync.ts:204-207 | while a bundle says there is more, the rows and calls ahead, then the mutated rows unswept, decrease lexicographically |
| IMessageCursor.SweepAdvances | src/platforms/imessage/reader.ts:226-231 | a sweep has delivered every mutated row up to its cursor, and up to the forward cursor when it starts over |
| IMessageCursor.SyncUntilDone | src/platforms/imessage/sync.ts:40-53 | from any stored cursor, repeating bundles is refused exactly for a limit that is not positive or a negative position, and else ends; each eligible row and each call behind the cursor is delivered once, in order, and every completed sweep delivered exactly the mutated rows it had to |
| SyncRuns.RunTable.QueueSyncRun | src/db/database.ts:2639-2677 | a new run is queued, unowned, at attempt 0, scheduled as asked and never before now for a delay |
| SyncRuns.RunTable.ClaimNextQueuedRun | src/db/database.ts:3045-3138 | a claim takes the least claimable run by (scheduledAt, queuedAt), raising its attempt, or none when none is claimable |
| SyncRuns.RunTable.GetNextClaimableRunAt | src/db/database.ts:3155-3182 | the earliest time at which a queued or leased run of these types opens |
| SyncRuns.ClaimSucceedsIffDue | src/db/database.ts:3155-3182 | a claim at time t takes a run exactly when the next claimable time exists and is at most t, and takes the first one |
| SyncRuns.ClaimedRunHolds | src/db/database.ts:3107-3128 | column by column: the next status, one attempt more, the claimer, its lease of at least a millisecond, and no error |
| SyncRuns.QueuedRunOpensAtSchedule | src/db/database.ts:3055-3105 | a queued run is open to every claim that allows its type from its scheduled time on |
| SyncRuns.RunTable.UpdateRunProgress | src/db/database.ts:3212-3228 | progress changes the row exactly when id, attempt and owner match |
| SyncRuns.ProgressedRunHolds | src/db/database.ts:3212-3228 | column by column: progress renews the lease and the details when given them and never changes status, owner or attempt |
| SyncRuns.RunTable.FinishRun | src/db/database.ts:3230-3265 | finishing changes the row exactly when the claim matches |
| SyncRuns.RunTable.FailRun | src/db/database.ts:3304-3373 | failing changes the row and adds one error row exactly when the claim matches |
| SyncRuns.RunTable.RecoverInProgressRuns | src/db/database.ts:2622-2637 | active runs are requeued without owner or lease, all others stay, and their number is returned |
| SyncRuns.ClaimedRunOpensAtLeaseEnd | src/db/database.ts:3055-3128 | a claimed run opens again exactly when the lease of its claim or last progress has run out, and never without a lease |
| SyncRuns.RecoveredRunOpensAtOnce | src/db/database.ts:2622-2637 | a recovered run opens at once to every claim that allows its type |
| SyncRuns.RecoveredRunHolds | src/db/database.ts:2622-2637 | column by column: a recovered run is queued for now, unowned, with the reason as its error code and its attempt kept |
| SyncRuns.AttemptNeverDecreases | src/db/database.ts:3045-3138 | attempts never decrease, and grow exactly on a claim of the run |
| SyncRuns.FencedCallSucceedsIffClaimIsCurrent | src/db/database.ts:3184-3265 | in every interleaving a fenced call returns true exactly when no other claim, recovery or end of the run came since its claim, and changes nothing otherwise |
| SyncRuns.HistoryKeepsOwnership | src/db/database.ts:3045-3373 | only active runs are owned |
| SyncRuns.EndedRunsNeverChange | src/db/database.ts:3184-3373 | completed and failed are absorbing under fenced calls |
| SyncRuns.AtMostOneEnd | src/db/database.ts:3230-3373 | at most one finish or fail ever succeeds for a run |
| SyncRuns.EndDecidesStatus | src/db/database.ts:3230-3373 | over every fenced history, a run that was finished is and stays completed and one that was failed is and stays failed, with the time, error code and details of that call |
| SyncRuns.OtherRunsUntouched | src/db/database.ts:2622-3373 | no call changes a run it is not about, and recovery none that is not active |
| SyncRuns.RunsKeepIdentity | src/db/database.ts:2622-3373 | over every history account, type and queue time of a run never change, its start is its first claim, and only recovery moves its schedule |
| SyncRuns.ColumnsShowStage | src/db/database.ts:2639-3373 | over every fenced history a run has a start exactly once it was claimed, is active, owned or leased only then, and has an end exactly when it is completed or failed |
| SyncRuns.ErrorsCountFailures | src/db/database.ts:3304-3373 | the error table only grows, by one row for each fail call that returned true |
| SyncRuns.ErrorsRecordFailures | src/db/database.ts:3350-3371 | over every history the error rows are, in order, those of the failures: run, account, message, code, details and time |
| SyncRuns.SecondEndAcceptedIffUnowned | src/db/database.ts:3184-3195 | after an end the same claim matches again exactly when it names no owner |
| SyncRuns.FailInProgressKeepsClaims | src/db/database.ts:2583-2620 | failing all active runs revokes no claim |
| SyncRuns.FailedRunCanStillComplete | src/db/database.ts:2583-2620 | every run that is failed this way can still be completed by its worker: the finish is accepted and overwrites status and end |
| SyncRuns.FailInProgressTouchesOnlyActive | src/db/database.ts:2583-2593 | runs that are not under way are left alone |
| RunQueue.TargetKeyRoundTrip | src/runtime/run-queue.ts:274-290 | a key parses to a target exactly when it is that target's key, whatever colons the account key holds |
| RunQueue.AtMostOneSyncPerAccount | src/db/database.ts:2952-2968 | over every interleaving of service enqueues and worker calls each account has at most one sync queued or ingesting |
| RunQueue.NeverTwoBusySyncs | src/db/database.ts:2952-2968 | the same in columns: no two sync or resume runs of one account are queued or ingesting together |
| RunQueue.OtherAccountsUnaffected | src/runtime/run-queue.ts:84-111 | queuing runs for other accounts does not change whether an account is busy |
| RunQueue.BatchKeepsOneSync | src/db/database.ts:2679-2730 | queuing a batch of distinct free targets keeps one sync per account |
| RunQueue.AcceptedAreFree | src/runtime/run-queue.ts:84-99 | the accepted targets are exactly the well-formed ones without a busy run, each once |
| RunQueue.AcceptedIff | src/runtime/run-queue.ts:84-99 | a well-formed target is accepted exactly when all its runs, if any, are past ingesting, and no other is |
| RunQueue.AddedRunsHold | src/db/database.ts:2679-2730 | column by column: the run added for each key is queued for now, unstarted, unowned and at attempt 0 |
| RunQueue.RunQueueService.QueueSyncTargets | src/runtime/run-queue.ts:81-122 | a manual sync queues exactly one run for each accepted distinct target and keeps one sync per account |
| RunQueue.RunQueueService.QueueSyncResume | src/runtime/run-queue.ts:141-184 | checking and queuing target by target accepts the same targets as checking all of them first, and keeps one sync per account |
| ContactMerge.ResolveCanonicalContactId | src/db/database.ts:382-397 | resolution returns the end of the alias chain and reports a cycle exactly when the chain has no end |
| ContactMerge.LinkKeepsForest | src/db/database.ts:584-593 | linking one root under another keeps every chain ending and moves exactly the linked root's class |
| ContactMerge.SameRootIffConnected | src/db/database.ts:562-603 | after any batches every chain ends, and two contacts resolve alike exactly when accepted merges connect them |
| ContactMerge.MergeDropsOneClass | src/db/database.ts:584-593 | an accepted merge reduces the number of classes by exactly one |
| Trimming.TrimmedIsInside | src/db/database.ts:572-573 | trimming takes white space off both ends of a text and nothing else |
| Trimming.WhiteIsTrimmed | src/db/database.ts:572-573 | a text without outer white space is what trimming gives, whatever white space surrounds it |
| ContactMerge.AcceptedIff | src/db/database.ts:566-588 | a merge is accepted exactly for two named, existing contacts that do not resolve to the same id yet |
| ContactMerge.PrimaryStaysCanonical | src/db/database.ts:584-600 | after an accepted merge whatever resolved as the secondary resolves as the primary did, and everything else as before |
| ContactMerge.BatchJoins | src/db/database.ts:562-603 | a recorded batch makes every id resolve as joining each secondary's class to its primary's, merge after merge, does without any log |
| ContactMerge.LogIsWellRecorded | src/db/database.ts:592-600 | each secondary id is recorded at most once over the log's life |
| ContactMerge.RebuildOrderIrrelevant | src/db/database.ts:537-560 | the alias map is the same in whatever order the log rows come back |
| ContactMerge.MemoriesFollowMerges | src/db/database.ts:634-663 | memories that sat on canonical ids sit, after a batch, on the canonical id of where they were |
| ContactMerge.MemoriesJoin | src/db/database.ts:634-663 | and memories end up exactly where that joining puts the ids they were on |
| ContactMerge.ContactStore.PlanContactMergeDecisions | src/db/database.ts:562-603 | a batch is planned exactly when each of its merges can be decided in turn, and the plan is those decisions |
| ContactMerge.ContactStore.RecordContactMergeDecisionsBatch | src/db/database.ts:634-663 | a batch is recorded whole with its memories moved, or leaves no trace |
| StalePlans.LinkKeepsForestIff | src/db/database.ts:592-593 | linking one id under another, whether or not it has an alias already, keeps every chain ending exactly when the other does not resolve to it without that alias; for a canonical id, when it is not the other's own |
| StalePlans.PlanKeepsForestIff | src/db/database.ts:640-660 | recording any well-formed plan on any forest leaves a forest exactly when, with the aliases it replaces taken out, no planned merge in turn closes a cycle |
| StalePlans.StalePlanSafeIff | src/db/database.ts:638-660 | a batch planned on one log and recorded on another keeps chains ending exactly under that condition, and the log well recorded exactly when besides none of its secondary ids was recorded meanwhile |
| StalePlans.StalePlanMemoriesIff | src/db/database.ts:640-660 | recording a batch planned on another log, both well recorded, keeps all memories on canonical ids exactly when none of its canonical ids was merged away meanwhile, and then moves each to the canonical id of where it was |
| StalePlans.StalePlanStrandsMemory | src/db/database.ts:655-659 | an instance: the log stays well recorded while a memory is left on an id that was merged away |
| StalePlans.StalePlansCanCycle | src/db/database.ts:638-640 | two plans made on the same log and both recorded can close a cycle |
| StatusReadCache.Cache.Revalidate | src/db/status-read-cache.ts:24-33 | values cached under another revision are dropped, those under the current one kept |
| StatusReadCache.Cache.LoadInTransaction | src/db/status-read-cache.ts:34-35 | the loader and every read nested in it see one committed state, and the counters do not move |
| StatusReadCache.Cache.Read | src/db/status-read-cache.ts:24-39 | a read returns a fresh copy of what its loader returns: on the working state inside a transaction, else on a state committed during the call, and on the current one when nobody commits meanwhile; a key cached under the current revision asks nothing of the database, and an undisturbed read leaves its key cached |
| StatusReadCache.Cache.PreserveAcrossDaemonHeartbeat | src/db/status-read-cache.ts:41-53 | a heartbeat keeps a current cache current, and keeps it valid whatever others commit around it |
| StatusReadCache.Cache.ExternalCommits | src/db/status-read-cache.ts:12-22 | commits by other connections keep the cache valid: no value of an older state passes for a current one |
| StatusReadCache.Cache.LocalWrite | src/db/status-read-cache.ts:12-27 | so do writes of this connection, inside a transaction or not |
| StatusReadCache.Cache.CommitTransaction | src/db/status-read-cache.ts:25-33 | so does a commit, which makes the working state current |
| StatusReadCache.Cache.RollbackTransaction | src/db/status-read-cache.ts:25-33 | so does a rollback, although its changes were counted |
| StatusReadCache.Cache.Session | src/db/status-read-cache.ts:24-53 | over any sequence of reads, writes, commits by others, heartbeats and transactions, the reads return what loading afresh from what the connection sees would return |
| StatusReadCache.Cache.MutatedResultsDoNotLeak | src/db/status-read-cache.ts:37-38 | changing a returned value does not change what a later read returns |
| ProjectionCache.Lookup.Get | src/runtime/projection/projection-cache.ts:32-34 | a lookup through any number of overlays finds what the topmost layer that has the key holds |
| ProjectionCache.Lookup.Has | src/runtime/projection/projection-cache.ts:36-38 | a key is present exactly when the combined view has it |
| ProjectionCache.Lookup.Set | src/runtime/projection/projection-cache.ts:40-42 | a write shows in this layer and leaves everything below as it was |
| ProjectionCache.Lookup.Commit | src/runtime/projection/projection-cache.ts:44-48 | publishing in any order makes the parent's view equal the child's |
| ProjectionCache.OverlaysMatchCopies | src/runtime/projection/projection-cache.ts:51-69 | after any begins, writes, commits and discards on six maps, every level shows what copying whole maps would show |
| ProjectionCache.RunChain | src/runtime/projection/projection-cache.ts:27-69 | after any run of begins, writes, commits and discards on the lookups of a cache, each level's lookup stands for what copying whole maps would hold |
| ProjectionCache.ViewIsCopy | src/runtime/projection/projection-cache.ts:27-69 | lookups that hold the layers of a run stand, level by level, for the whole copies |
| ProjectionCache.CommitTopLookup | src/runtime/projection/projection-cache.ts:44-48 | committing the top lookup of a chain is the layered commit on its cache |
| ProjectionCache.DiscardUndoes | src/runtime/projection/projection-cache.ts:51-69 | discarding undoes everything since its begin, nested overlays and commits included |
| RawEvents.UniqueEventsAreLast | src/db/database.ts:3553-3644 | deduplication keeps, for each id, exactly the last event given with it |
| RawEvents.InsertedIff | src/db/database.ts:3544-3551 | a row is refused exactly when its id, or its platform, account and dedupe key together, are taken; otherwise it comes last with the next rowid |
| RawEvents.InsertAllConcat | src/db/database.ts:3553-3644 | inserting chunk after chunk is inserting the whole list |
| RawEvents.AppendedRows | src/db/database.ts:3553-3644 | the appended rows carry exactly the events whose id is newly present, in the order given |
| RawEvents.ChunkArray | src/db/database.ts:399-405 | chunks are nonempty, no larger than the size, and concatenate to the list |
| RawEvents.RawEventStore.InsertRawEvent | src/db/database.ts:3544-3551 | a single insert appends unless the id or the dedupe key is taken, and says which |
| RawEvents.RawEventStore.InsertRawEvents | src/db/database.ts:3553-3644 | for any chunk size the table is that of inserting the deduplicated events one by one, and the report is exactly the appended rows with first and last their ends |
| RawEventRepeats.DeduplicationNeutralIff | src/db/database.ts:3553-3644 | deduplicating a batch makes no difference on any table exactly when events that share an id share their dedupe key and the first and last of each id are equal |
| RawEvents.LastEventWinsInBatch | src/db/database.ts:3553-3644 | an instance: a batch that repeats an id stores the last event where inserting one by one stores the first |
| RawEvents.DistinctIdsNeedNoDeduplication | src/db/database.ts:3553-3644 | with distinct ids deduplication changes nothing |
| AttachmentEviction.ListReady | src/db/database.ts:2404-2430 | the ready entries, each once, least recently used first |
| AttachmentEviction.EvictsShortestPrefix | src/runtime/attachments.ts:715-749 | the evicted entries are the shortest prefix of the unprotected ones that brings the total within the limit, or all of them |
| AttachmentEviction.LeastRecentlyUsedGoFirst | src/db/database.ts:2424-2426 | no evicted entry was used after an unprotected one that stays, by last access, else fetch, else update; ties go by id |
| AttachmentEviction.RowsAfterPass | src/runtime/attachments.ts:715-749 | column by column: an evicted row was ready and unprotected and loses file and error, every other row stays as it is |
| AttachmentEviction.TotalSizeCounts | src/runtime/attachments.ts:710 | the bytes in use add up over entries, an unknown size counting nothing |
| AttachmentEviction.UnprotectedMembers | src/runtime/attachments.ts:719-725 | every entry but the protected one is considered |
| AttachmentEviction.ReferencesSplit | src/runtime/attachments.ts:703-709 | each reference to a file is evicted or spared, none lost or counted twice |
| AttachmentEviction.AttachmentCache.EnsureWithinLimit | src/runtime/attachments.ts:697-750 | one pass evicts exactly those rows and deletes a file exactly when its last ready reference went |
| AttachmentEviction.AttachmentCache.DropReference | src/runtime/attachments.ts:726-734 | one reference less, and the file goes with the last; a path without a file is left alone |
| AttachmentEviction.SparedKeepTheirFiles | src/runtime/attachments.ts:697-750 | entries still ready keep their files, deleted files have no ready reference, and the protected entry stays as it was |
| TelemetryQueue.DaemonTelemetryQueue.Enqueue | src/telemetry/queue.ts:23-39 | an event is taken unless the queue is closed, full or switched off, and a drain is scheduled when none is |
| TelemetryQueue.DaemonTelemetryQueue.DeliverNext | src/telemetry/queue.ts:83-102 | up to its next await the loop drops the envelopes whose check fails, then sends one, empties the queue on opt-out, or stops |
| TelemetryQueue.DaemonTelemetryQueue.Close | src/telemetry/queue.ts:50-71 | closing clears the timer, starts a last drain if none is running, and happens once |
| TelemetryQueue.OptOutIsHonoured | src/telemetry/queue.ts:83-102 | in every run an event is handed over only by a delivery step whose opt-out check passes, and taken in only while telemetry is on |
| TelemetryQueue.AcceptedIff | src/telemetry/queue.ts:23-39 | in every run an event is buffered, and a drain under way, exactly when telemetry is on, the queue open and there is room; otherwise nothing changes |
| TelemetryQueue.DeliverySendsIff | src/telemetry/queue.ts:83-102 | in every run a delivery step sends exactly the first event whose check does not throw, if that check passes and the queue is not aborted; otherwise it sends nothing and empties the buffer |
| TelemetryQueue.OnlyDeliveryDrops | src/telemetry/queue.ts:23-102 | in every run only a delivery step or the end of a shutdown takes anything out of the buffer |
| TelemetryQueue.ShutdownSteps | src/telemetry/queue.ts:50-71 | in every run shutdown goes forward only: close starts it, the end of its race resolves it with an empty buffer |
| TelemetryQueue.AnyRunCanClose | src/telemetry/queue.ts:50-71 | closing is possible after every run |
| TelemetryQueue.BoundedAndNeverStuck | src/telemetry/queue.ts:23-102 | in every interleaving pending plus in-flight is at most 128, pending work on an open queue has a timer or a drain, and sends are an in-order selection of the accepted events |
| TelemetryQueue.SentOnce | src/telemetry/queue.ts:83-102 | no event is sent twice |
| TelemetryQueue.OneSendAtATime | src/telemetry/queue.ts:73-102 | a request starts only when none is out |
| TelemetryQueue.NothingSentAfterClose | src/telemetry/queue.ts:55-71 | nothing is sent once close has resolved |
| SingletonLock.LeaseHandle.Heartbeat | src/core/singleton-lock.ts:172-189 | an owner's heartbeat writes the next slot of its own file; a loser's closes the lease and writes nothing |
| SingletonLock.LeaseHandle.Release | src/core/singleton-lock.ts:190-203 | a release ends the lease and removes the path only if it still leads to the lease's file |
| SingletonLock.AtMostOneOwner | src/core/singleton-lock.ts:154-165 | however processes interleave, at most one lease at a time owns the path |
| SingletonLock.LostForever | src/core/singleton-lock.ts:77-205 | a lease that lost the path never owns it again |
| SingletonLock.LoserDoesNoHarm | src/core/singleton-lock.ts:172-203 | a loser's heartbeat, release or release check changes no file, no other lease's ownership and schedules no removal |
| SingletonLock.CreationLeadsHere | src/core/singleton-lock.ts:97-108 | exclusive creation succeeds only on an empty path and leads it to a new, still unreadable file |
| SingletonLock.ObtainedOwnsIff | src/core/singleton-lock.ts:97-108 | a new lease owns the path exactly when it still leads to the file its process created, which no lease owned before |
| SingletonLock.PathLossHasACause | src/core/singleton-lock.ts:77-203 | an owner loses the path only by its own release or death, or by one of the three removals that do not look at what they remove |
| SingletonLock.LeaseEnds | src/core/singleton-lock.ts:172-203 | in every run a release, or a loser's heartbeat, ends the lease for good, and an owner's release frees the path |
| SingletonLock.OwnerIsRead | src/core/singleton-lock.ts:207-250 | with forward clocks, whoever reads an owned lock reads what its owner wrote last |
| SingletonLock.HeartbeatIsRead | src/core/singleton-lock.ts:172-189 | with forward clocks, an owner's heartbeat leaves it the owner and is read with its time |
| SingletonLock.OwnedLockJudgedStaleIff | src/core/singleton-lock.ts:110-130 | in every run with forward clocks, a lock that has an owner can be judged stale exactly when no probe finds it active and its last heartbeat is old or its process does not run |
| SingletonLock.TakeoverBeginsOnlyIfStale | src/core/singleton-lock.ts:110-130 | in every run a takeover begins only when nothing fresh of a running process is read and no probe finds it active |
| SingletonLock.PathChangedIffRecreated | src/core/singleton-lock.ts:97-108 | between two moments the path comes to lead to another file exactly when a file was created in between, for which it must have been empty |
| SingletonLock.RemovalTakesUnjudgedIff | src/core/singleton-lock.ts:118-132 | over every interleaving with forward clocks, a takeover's removal takes away another lock than it judged exactly when the path leads somewhere and, since the judgement, a file was created or the owner renewed the lock, or the judged file had no slot written yet |
| SingletonLock.ReadingChangedIffRenewed | src/core/singleton-lock.ts:172-189 | while the path leads to one file, what is read there changes exactly when its owner renews it with a later time |
| SingletonLock.SerialTakeoversAreSafe | src/core/singleton-lock.ts:110-140 | when no two processes acquire at once, a takeover removes another lock than it judged only if the owner renewed it since, or if its creator abandoned it before writing a slot and nobody owns it |
| SingletonLock.UnreadableIffUnwritten | src/core/singleton-lock.ts:207-250 | a lock file reads as nothing exactly until its first slot is written, and no lease owns it then |
| SingletonLock.SecondTakeoverRemovesFreshLock | src/core/singleton-lock.ts:118-140 | the first case happens: a second acquirer that judged the old lock stale removes the first one's new lock |
| SingletonLock.UnwrittenLockIsTakenOver | src/core/singleton-lock.ts:97-132 | the second case happens: a lock judged before its first slot was written is removed once its creator owns it |
| SingletonLock.RenewedLockIsTakenOver | src/core/singleton-lock.ts:118-132 | the third case happens, with no other acquisition around: an owner renews its lock while a taker probes it, and is removed none the less |
| SingletonLock.SplitReleaseTakesAnotherIff | src/core/singleton-lock.ts:190-203 | over every interleaving, a release by an owner interrupted between check and removal takes another file away exactly when the path was emptied and created again in between and still leads there |
| SingletonLock.SplitReleaseRemovesSuccessor | src/core/singleton-lock.ts:190-203 | a run in which such a release removes a successor's lock |
| SingletonLock.FailedInitTakesAnotherIff | src/core/singleton-lock.ts:97-108 | a failed initialisation takes another file away exactly when one was created since its own and the path leads there |
| SingletonLock.ParseContents | src/core/singleton-lock.ts:237-250 | the reader takes the readable slot with the greatest heartbeat time, and nothing only if all slots are torn |
| SingletonLock.ReaderSeesLastOrNewest | src/core/singleton-lock.ts:207-250 | with a clock that never goes back: from creation until the first slot is written, and only then, a reader gets nothing from the file, and afterwards always the last completed or the in-progress metadata |
| SingletonLock.ReaderSeesLastIff | src/core/singleton-lock.ts:237-250 | in every run under any clock, between writes the reader sees what was written last exactly when it is no older than the write before |

## Left out

- SyncCache.Cache.GetResyncPage: contacts and chats, which only the first page carries, are not part of the page, because they are two unpaged queries; `limit + 1` does not wrap around, as limits near the largest integer are not modelled.
- MessageStore.MessageCache.ApplySnapshot: contacts, chats and calls of a snapshot are left out. The columns of a call and `deleteCallsForPeer` enter only as writer steps of a sweep, which may delete or restamp any call.
- MessageStore.MessageCache.IsMessageRevoked: the aliases of a message are fixed while a batch is filtered.
- HistoryQueue.CollectMessages: the two halves of a message key are a pair here. The source joins them with `::`, so keys that differ only in where that separator falls would be one key there.
- HistoryQueue.ExactlyOnceEffect: is about runs without live writes whose known aliases only accumulate; `HistoryReplay.LiveRunsStoreOnceIff` is about all runs.
- HistoryQueue.HistoryProcessor.ApplyHistorySyncData: the identity aliases a notification brings are written to a store that is not part of this model. Each store step takes whatever aliases are known then, and a failing alias write fails the pass before it stores anything.
- ResyncSweep.InterleavedSweepDelivers: is about writers that stamp what they commit above the sweep's snapshot; `LateWrites` is about all writers, those that stamp in the snapshot's own millisecond or by a clock that goes back included.
- ResyncSweep.FetchKeepsInv: the same restriction; `LateWrites.AnySweepAscends` and `LateWrites.MessageDeliveredIff` are without it.
- ResyncSweep.SweepTerminates: the same restriction; `LateWrites.AnySweepEnds` is without it.
- MessageStore.OpsAreWriterSteps: the same restriction, since only such operations are writer steps.
- LateWrites.MessageDeliveredIff: rows whose keys have a blank half are excluded where they would stop the sweep; `ResyncBlankKeys` is about them.
- RunQueue.RunQueueService.QueueSyncTargets: where the target keys come from, the WhatsApp desktop source and the run without an account are left out; `AtMostOneSyncPerAccount` covers such enqueues as steps.
- RunQueue.AtMostOneSyncPerAccount: is about enqueues guarded as in the service. A direct `queueSyncRun` or `updateRunStatus` by other parts of the daemon is left out.
- SyncRuns.RunTable.ClaimNextQueuedRun: runs that tie on (scheduledAt, queuedAt) are taken in any order, as SQLite leaves that open.
- SyncRuns.RunTable.RecoverInProgressRuns: the trigger of a run is left out; nothing modelled depends on it.
- SyncRuns.FailInProgressKeepsClaims: the error rows that `failInProgressRuns` adds are left out.
- ContactMerge.ContactStore.RecordContactMergeDecisionsBatch: planning and recording are one step; `StalePlans.StalePlanSafeIff` says what recording a plan made earlier does. Ids, reasons and times of decisions are left out.
- StatusReadCache.Cache.Read: loaders are pure and belong to one key each; commits by others cannot be seen inside a transaction, as one snapshot serves it.
- RawEvents.RawEventStore.InsertRawEvents: rowids are one more than the largest in the table, without SQLite's fallback at the largest integer; columns that no uniqueness rule reads are one text.
- AttachmentEviction.AttachmentCache.EnsureWithinLimit: a file operation that fails is left out, and so are the columns an eviction copies unchanged (type, hash, expiry).
- IMessageCursor.BuildSyncBatch: attachments, reactions, chats and handles of the rows are left out, each message is in one chat, and the database does not change between bundles. A JavaScript number that is no safe integer is refused by the source and does not exist here.
- AttributedBody.ExtractionRoundTrip: text is a sequence of Unicode characters; a JavaScript string with unpaired surrogates has no UTF-8 form and is left out.
- TelemetryQueue.BoundedAndNeverStuck: envelopes are distinct numbers, and timer, request and deadline are events that may come at any time they can.
- SingletonLock.AtMostOneOwner: a heartbeat's check and write are one step; a lost path between the two only writes to an unlinked file. Syncing to disk is left out, and a slot that is being overwritten reads as nothing until it is complete.
- SingletonLock.RemovalTakesUnjudgedIff: reading the file, probing its owner and judging are one step, since only what was read is kept; an owner's clock does not go back between its heartbeats.
- JID normalisation, base64 and JSON codecs: keys are in normal form and a cursor is its record, as section 5 of RFC 4648 is a bijection on what is encoded.
- Media download, protobuf field extraction, Slack sessions, the projector, the auth service, migrations and command line: they rest on libraries or servers, or hold no bookkeeping of their own.
