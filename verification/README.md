# whereToken: a verified model of its accounting, publication and sync core

whereToken scans the logs of coding agents, keeps what they used in a durable ledger,
publishes a sanitized snapshot to a hosted profile whose verified wall is shown on GitHub,
syncs daily rows from several devices, and ranks volunteers. This project models the parts
of it that are hard to get right and proves what they promise, for every input and over
every run.

Code that changes state step by step is modelled as methods and classes over the same
state (tables, rows, slices, readers). Each method is proved against a function of its
inputs or its old state, and the promises are proved about those functions, as lemmas over
whole runs. Pure code is modelled as functions.

`dafny verify dfyconfig.toml` checks everything.

| modules | what they are about |
|---|---|
| `Int64`, `Clock`, `Wrappers`, `SortedDays`, `Events`, `Snapshots` | machine integers, time, shared records |
| `Jsonl`, `ScanIndex` | resumable reading of a growing log; facts are committed before the checkpoint moves |
| `Identity`, `LedgerFacts`, `Corrections`, `Omissions`, `LedgerDb` | fact identities, the maximum each fact holds, correct / revert / permit, facts a reread left out |
| `Observations`, `Supplements`, `ObservationDb` | dated account observations, their fold into days, and which days are added to a scan |
| `Apportion`, `Retain` | a snapshot's four components split over its days, kept, and put back |
| `ProjectionKeep`, `PublishPolicy` | which upload may replace the stored snapshot; which snapshot may update the wall |
| `WallStore`, `WallProtocol`, `WallAttempt`, `WallServer`, `RefreshClient` | rows and conditional updates, the publication protocol over several processes, how one publication ends, the handlers, the client |
| `SyncBatches`, `SyncOverlap` | revisioned batches, one after another and overlapping |
| `Aggregation`, `Community`, `Scores`, `Ranks`, `Slices`, `RankService`, `Levenshtein` | merging and saturating sums, the rank service, name suggestions |

Some promises turned out to hold only under a condition. The code is modelled as it is, and
these members say exactly when it keeps the promise, or show the input on which it does not:

- `Apportion.SplitsIff`: a total can be split over all days and components exactly while the total
  times one less than itself is inside int64; `LargeTotalFails` is the refused input beyond. While no
  product leaves int64 the split never fails (`AllocateNeverFails`), and an answer conserves
  everything even when one did (`SuccessConserves`).
- `Retain.StopsIff`: the program divides by zero for some daily series of a given true sum exactly
  when that sum is at least 2^64 and its wrapped value is positive; on a snapshot of
  371 days `WallSeriesStops` reaches it for every total whose square is inside int64, and
  `LongSeriesStops` is one of them, five tokens and four days of 2^62.
- `Observations.NoteHoldsIff`: a note shows on its whole window exactly when its content is new, or no
  later observation has another last word on one of the window's days; `RenoteKeepsTheOther`: noting
  a window A, B, A again leaves B.
- `Jsonl.ClampIsHarmless`: the stored offset, cut back to the size from before the read, resumes
  correctly for every parser exactly when no deliverable line came in behind that size;
  `LateLineComesTwice` is a line that did. `ScanIndex.StoredOffsetIff`: that offset is a line boundary
  exactly when no newline came in behind that size, or a line ended right there.
- `ScanIndex.RewriteIsReadIff`: a file written over in place under its inode is read right, whatever
  stands in it, exactly when the stat call leads to a full parse (it is shorter, or as long with
  another time) or nothing was kept of it; a longer one is taken for growth. A file that is replayed is
  read right exactly when size, time or inode tell (`ReplayedRewriteIff`).
- `Identity.KeyRoundTrip` and `Omissions.ReplayedOnce`: a fact reads back under its own key
  exactly when its parts hold no separator and its session no slash; `SlashedSessionIsLost` and
  `SlashedFactIsReplayedAgain` are a session with one.
- `Corrections.CorrectThenRevert`: the permit comes back exactly when the correction did not eat
  into a smaller one; `EatenPermitStaysGone` reaches a permit of 1 by lowering one fact, and
  loses it to a rise of 2 of another fact that is reverted.
- `Corrections.RevertRestoresIff`: a revert restores the facts exactly when the correction's reason
  has no revert tag, or an older untagged revision made the very same step; `TaggedBothWays` shows a
  tagged correction that stays and one that is undone.
- `Levenshtein.Closest`: at the greatest bound, the bound plus one wraps and nothing is found.
- `WallProtocol.StoredDropsIff` and `LostUpdateDrops`: uploads are compared and saved in two steps,
  and after a failed read not compared at all. The stored total goes down exactly when an upload is
  saved over another row than it was compared with and is below it; then the wall can follow, on a
  single process. The whole-run results are for runs
  without such races, to which all runs of uploads that do not overlap belong (`OneByOneIsUnraced`).
- `WallProtocol.StampKeepsTotalIff` and `OvertakenJobDrops`: with two server processes the wall can
  move back, because the row is read before the lease is taken; with one it cannot.
- `WallAttempt.MovedButReportedIff`: a publication that would change the wall is reported as failed
  although the wall has moved exactly when it reached the wall and only its job row could not be
  written; `UnrecordedFirst` is a first publication like that, and by `WallServer.VerifiedIsNotDue`
  its snapshot is not tried again.
- `SyncBatches.RetryIsNeutralIff`: sending a committed batch again never changes a row; it is accepted
  exactly when no key comes in it with two revisions, and `TwoRevisionsAreStale` is one that is not.
- `SyncOverlap.RevisionDropsIff` and `LostUpdateLowers`: a batch reads the rows as they were at its first
  read and writes them by primary key. A commit lowers a revision exactly when it writes a row that is
  below the one stored by then, and two overlapping batches of an account-wide row do that. The
  results on revisions are for runs in which no commit finds other rows than it read, to which all
  runs of calls that do not overlap belong (`SyncOverlap.OneByOneIsUnraced`).
- `Aggregation.RequestsIgnoreOrderIff`: the request counter is the same for every order of the rows
  exactly when the usable rows of each request agree on counting it; swapping two that do not, ahead
  of any others, changes it by one (`OrderChangesRequests`).

Where code and comments differ the code is followed: the comment on `rateLimitLocked` allows a
repeat "when we already have a row", and the code does not look at rows; the comment on the chain
says every positive observation is folded, and the code folds every stored one.

## Model

| member | source | states |
|---|---|---|
| Levenshtein.Distance | internal/fuzzy/levenshtein.go:3-31 | The two swapped rows end at the distance of the full table, the empty strings included |
| Levenshtein.NextRow | internal/fuzzy/levenshtein.go:16-29 | One row of the table is filled from the row above it |
| Levenshtein.DistIsMinimumEdits | internal/fuzzy/levenshtein.go:3-31 | The distance is the least number of single-rune insertions, deletions and replacements: some script has that length and none is shorter |
| Levenshtein.ShortestScript | internal/fuzzy/levenshtein.go:16-29 | Every cell of the table is the length of a script that can be read off it |
| Levenshtein.DistIsMetric | internal/fuzzy/levenshtein.go:3-31 | Symmetry, triangle inequality, and zero exactly for equal strings |
| Levenshtein.Closest | internal/fuzzy/levenshtein.go:33-52 | The earliest of the nearest names within the bound, or nothing exactly when none qualifies; at the greatest bound always nothing |
| Apportion.AllocateComponents | internal/publicprofile/retain.go:182-247 | The nested loops compute the split in machine arithmetic for every input, refusals and the division by zero included |
| Apportion.AllocateRow | internal/publicprofile/retain.go:205-245 | One day's row is the floors plus the left-over units by best remainder, or a refusal |
| Apportion.GrantLeft | internal/publicprofile/retain.go:219-232 | The swapping selection hands each left-over unit to the best remaining component, passing over used-up ones |
| Apportion.AllocateNeverFails | internal/publicprofile/retain.go:182-247 | On positive weights that add up to the vector the split never fails while no product leaves int64, and every cell is the floor or ceiling of its share of the remaining pool, extra units going to the largest remainders |
| Apportion.TotalSuffices | internal/publicprofile/retain.go:213-217 | A total times one less than itself inside int64 keeps every product inside |
| Apportion.SplitsIff | internal/publicprofile/retain.go:182-247 | For every positive int64 total: each way to spread it over days and components is split exactly when the total times one less than itself fits in int64 |
| Apportion.Conserves | internal/publicprofile/retain.go:178-182 | Rows of a largest-remainder split add up to the weights, columns to the vector, and no cell is negative |
| Apportion.SuccessConserves | internal/publicprofile/retain.go:182-247 | Every answered split, wrapped products or not, has the weights as row sums and the vector as column sums: as whole numbers when both sums are inside int64, in register arithmetic otherwise |
| Apportion.SplitIsUnique | internal/publicprofile/retain.go:198-245 | The rule leaves no choice: two splits that follow it are equal |
| Apportion.LargeTotalFails | internal/publicprofile/retain.go:213-217 | Every larger total is refused with one token of one component on a second day |
| Apportion.ZeroDivisorIff | internal/publicprofile/retain.go:188-213 | Some day weights of a given true sum divide by zero exactly when the sum is at least 2^64 and its wrapped value is not negative; below it the divisor is never zero |
| Retain.EventsFromDays | internal/publicprofile/retain.go:33-57 | One retained row per day with a non-zero sum, in order |
| Retain.ApplyRetainedEvents | internal/publicprofile/retain.go:62-85 | Token rows of retained sources are emptied, other rows kept, and the retained rows appended |
| Retain.CheckContiguous | internal/publicprofile/retain.go:163-176 | True exactly when every text is a date and each follows the one before |
| Retain.CollectWeights | internal/publicprofile/retain.go:111-128 | The positive values, their days and their sum, or a refusal at the first negative value |
| Retain.DaysFromSnapshot | internal/publicprofile/retain.go:91-146 | The guards, the split and its two bad ends, for every snapshot: refused, answered, or stopped by a division by zero |
| Retain.FirstRowFor | internal/publicprofile/retain.go:91-110 | The first row of the source is taken |
| Retain.FirstSeriesFor | internal/publicprofile/retain.go:104-114 | The values of its first series of tokens are taken |
| Retain.AnswerSplits | internal/publicprofile/retain.go:86-146 | Every answer pairs the days of positive value with rows that add up to series and vector: in whole numbers when both sums are inside int64, in registers otherwise; with such sums the program never divides by zero, and answers by the largest-remainder split when its products fit |
| Retain.StopsIff | internal/publicprofile/retain.go:111-146 | Some series of that true sum, of any length, divides by zero exactly when the sum is at least 2^64 and wraps to a positive total |
| Retain.WallSeriesStops | internal/publicprofile/retain.go:111-146 | For every total whose square is inside int64 and every number of laps that fits: a snapshot of exactly 371 days that passes the guards and divides by zero |
| Retain.LongSeriesStops | internal/publicprofile/retain.go:111-146 | A concrete snapshot of 371 days, zero but for five of them, that passes all guards and divides by zero |
| Retain.StoreAndReplay | internal/ledger/observe.go:612-640 | Rows stored in an empty chain come back from it unchanged |
| Retain.SnapshotRoundTrip | internal/publicprofile/retain.go:59-146 | After splitting, storing, replaying and applying, the source has the snapshot's vector in total and its series value on each day on top of what was retained before, local token rows of that source adding nothing and other sources untouched: in whole numbers when the snapshot's sums are inside int64, up to laps of the register otherwise |
| ObservationDb.GroupByDay | internal/ledger/observe.go:169-192 | Component totals per UTC day, oldest first; undated rows do not count |
| Observations.ByDayIsSum | internal/ledger/observe.go:169-192 | A day is there exactly when a dated event falls on it, with the register sums of the four counters over its events |
| ObservationDb.ChainDayMap | internal/ledger/observe.go:702-720 | Deleting a window's days from the map while walking over it, then writing its rows, is the fold of the observations |
| ObservationDb.ObservationLog.InsertObservation | internal/ledger/observe.go:194-219 | Known content writes nothing; new content is stored with its non-zero days, and rows that lie inside their windows stay so |
| ObservationDb.ObservationLog.NoteCoveredWindow | internal/ledger/observe.go:399-444 | Rejects an incomplete or reversed window, otherwise stores its rows, measured-empty included, and a note no older than the table shows on its window exactly when it has the last word; a failed transaction changes nothing; every stored row stays inside its window |
| ObservationDb.ObservationLog.SaveObservation | internal/ledger/observe.go:225-266 | Rejects an incomplete call; a batch that measured nothing is no error and no row |
| Observations.SavedIs | internal/ledger/observe.go:225-266 | Nothing is stored without a dated event, without a positive total, or for known content; otherwise one observation from the first to the last day with an event, worth on each what was measured |
| ObservationDb.ObservationLog.AccountSupplement | internal/ledger/observe.go:557-607 | The stored days that are neither present nor fetched, cached inside the lookback and a finished window, retained elsewhere |
| ObservationDb.ObservationLog.DaysOutside | internal/ledger/observe.go:512-550 | The same days, all retained |
| ObservationDb.ObservationLog.ChainedRetainedEvents | internal/ledger/observe.go:612-640 | Every stored day of a source; false exactly when there is none |
| ObservationDb.ObservationLog.SupplementNarrowWindow | internal/ledger/observe.go:317-346 | For each source with a fetched account row once, in whatever order the map gives, the stored days before its fresh window are appended |
| ObservationDb.ObservationLog.DaysBeforeFresh | internal/ledger/observe.go:348-389 | Stored days before the first fresh day, read from observations other than the fresh one |
| Observations.ChainIsDirectRule | internal/ledger/observe.go:702-720 | A day's value comes whole from the last observation that covers or lists it, and is absent if that one has no non-zero row for it |
| Observations.NoteReplacesWindow | internal/ledger/observe.go:396-444 | A newest note of new content decides every day of its window and none outside |
| Observations.NoteHoldsIff | internal/ledger/observe.go:194-208 | On any table whose rows lie inside their windows: after a note its whole window shows what it measured exactly when its content is new, or no later observation than the stored one has another last word on a day of the window |
| Observations.RenoteKeepsTheOther | internal/ledger/observe.go:194-208 | Noting A, B, A for one window leaves B |
| Supplements.SupplementCountsOnce | internal/ledger/observe.go:552-607 | Each stored day that is neither present nor fetched is added exactly once, with its stored value, and nothing else |
| Supplements.SupplementTwice | internal/ledger/observe.go:557-607 | The same supplement on its own output adds nothing |
| Supplements.SupplementTags | internal/ledger/observe.go:552-607 | An added day is a cached account total exactly inside the lookback and a finished window of the account, and a retained one otherwise; noon of its day, no model, vendor or session, no request |
| Supplements.NoteIsFinished | internal/ledger/observe.go:399-444 | A newly noted window counts as finished for all its days |
| Supplements.NarrowedCounts | internal/ledger/observe.go:317-346 | Each source's earlier days are added once, behind the scan, whatever the order of the sources, and each carries the value the table has for it without the fresh content |
| Supplements.EarlierDayIsAdded | internal/ledger/observe.go:348-389 | The pass of a source adds a day exactly when a fetched row of it is dated, none as early as the day, no account or retained row is on the day, and the observations of other content than the fetched have a value for it |
| Supplements.FirstDayIs | internal/ledger/observe.go:348-389 | The first fetched day is the attained least of the dated rows |
| Supplements.ExceptIs | internal/ledger/observe.go:348-389 | Only observations of the fetched content are set aside |
| Supplements.ContentTells | internal/ledger/observe.go:731-746 | Fetched rows are told apart by model, time and four counters, not by their order |
| Supplements.NarrowTwice | internal/ledger/observe.go:314-389 | Narrowing an already narrowed scan adds nothing |
| Jsonl.Reader.ScanJsonl | internal/index/jsonl.go:27-59 | The reading loop, whatever the buffer size, is the reference parse of all complete lines from the start offset |
| Jsonl.Reader.ReadCompleteLine | internal/index/jsonl.go:61-77 | One line however many buffers it takes, or why there is none |
| Jsonl.Reader.DrainOversize | internal/index/jsonl.go:79-93 | A line over the limit is consumed to its newline and reported by its length |
| Jsonl.Resume | internal/index/jsonl.go:27-59 | Parsing grown bytes is the earlier parse followed by a parse from where it ended |
| Jsonl.RecordsAreLines | internal/index/jsonl.go:27-59 | Delivered is every complete line within the limit, without its ending and with the offset of its first byte, in order, and nothing else |
| Jsonl.EventsAreRead | internal/index/jsonl.go:27-59 | A pass that succeeds has handed each delivered line to the parser once, in order |
| Jsonl.PassSucceedsIff | internal/index/jsonl.go:27-59 | It succeeds exactly when the parser takes every line and the unfinished rest is within the limit |
| Jsonl.EndIsBoundary | internal/index/jsonl.go:20-59 | A pass ends on a line boundary with no newline behind it |
| Jsonl.ClampIsHarmless | internal/index/store.go:384-391 | Resuming at the clamped offset is right for every growth exactly when no deliverable line lies behind the recorded size |
| Jsonl.SilentClamp | internal/index/store.go:384-391 | Without such a line it is right for the parser in use |
| Jsonl.LateLineComesTwice | internal/index/store.go:384-391 | A concrete line that arrives behind the recorded size and is delivered twice |
| ScanIndex.LoadIsFullParse | internal/index/store.go:158-230 | One call, of a path that is resumed or replayed, keeps the checkpoint right, and when it succeeds its events are those of one full parse |
| ScanIndex.EveryScanIsFullParse | internal/index/store.go:158-254 | Over every run of appends, partial lines, replacements, rewrites in place that the stat call tells, lost blobs, parse errors and crashes, of a path that is resumed or replayed, a successful scan returns what one full parse returns: nothing lost, nothing twice |
| ScanIndex.RewriteIsReadIff | internal/index/store.go:232-254 | A file of a given size that may have been written over in place is read as its full parse, for all bytes and every line parser, exactly when the stat call leads to a full parse or nothing was kept of it |
| ScanIndex.ReplayedRewriteIff | internal/index/store.go:232-254 | A replayed file that may have been written over in place is read right, for all bytes and every parser, exactly when size, time or inode differ or the events are lost |
| ScanIndex.StoredOffsetIff | internal/index/store.go:384-391 | A scan that stores leaves the offset on a line boundary exactly when no newline arrived behind the recorded size, or a line ended right there |
| ScanIndex.OffsetIsBoundary | internal/index/store.go:384-391 | Over every run the stored offset is a line boundary of a file that was not written over since, as long as no newline arrives behind a recorded size that is not itself one |
| ScanIndex.FactsOnlyGrow | internal/index/store.go:375-382 | Along such runs, resumed or replayed, no fact is removed and no counter decreases |
| ScanIndex.LedgerIsMaximum | internal/index/store.go:375-400 | After each successful scan a fact fed by one append-only log, resumed or replayed, holds, counter by counter, the maximum of all its events in the log |
| ScanIndex.Store.Save | internal/index/store.go:361-400 | Facts are committed first; a failure after that leaves the old checkpoint |
| ScanIndex.Store.LoadAll | internal/index/store.go:211-230 | A full load as one state change and answer, every failure point included |
| ScanIndex.Store.LoadPath | internal/index/store.go:158-209 | Unchanged, incremental or full, with the fallbacks of each, for both kinds of parser |
| ScanIndex.Store.LoadOrParse | internal/index/store.go:140-147 | The stored events are answered exactly while size, time and inode are as stored; bytes are read from the stored offset exactly when the file can only have grown; all else is read whole; what is answered is stored under the stat call's numbers |
| ScanIndex.Store.LoadOrReplay | internal/index/store.go:149-156 | The stored events are answered exactly while size, time and inode are as stored and the events are there; otherwise the whole file is parsed again, whatever the parser, and stored with its recorded size as offset, or the stored row and events stay |
| ScanIndex.ReplayCall | internal/index/store.go:158-230 | The same of one replay call with every fault |
| ScanIndex.ResumeCall | internal/index/store.go:158-254 | When a resumed call answers the cache, goes on from the offset, or starts over, and what it stores |
| ScanIndex.ReplayedOffset | internal/index/store.go:221-224 | Over every run the stored offset of a replayed file is its recorded size |
| Identity.PathTail | internal/ledger/key.go:56-71 | A tail is never empty, holds no slash, and follows a colon |
| Identity.PathTailIff | internal/ledger/key.go:56-71 | A tail is found exactly when the request is a path, a non-empty name without colon, a colon, and a non-empty tail without slash |
| Identity.RequestKeyCases | internal/ledger/key.go:30-51 | Without a slash the request, or what follows the session it begins with; with one its tail, and only within a session |
| Identity.SplitJoin | internal/ledger/ledger.go:832-838 | A key splits back into its parts exactly when none holds the separator |
| Identity.KeyRoundTrip | internal/ledger/key.go:23-51 | The key of a replayed fact is the fact's id exactly when its parts hold no separator and the session no slash |
| Identity.ReplayCarries | internal/ledger/ledger.go:870-891 | A replayed fact has the event's model, vendor, time, counters, quality and origin, and its source, session and request when no part of its key holds the separator |
| Identity.SlashedSessionIsLost | internal/ledger/key.go:23-51 | A concrete event of a session with a slash whose replayed fact loses its id |
| LedgerFacts.ReducedIsMaximum | internal/ledger/ledger.go:796-815 | One fact per identity that has tokens, holding the attained least upper bound of each counter |
| LedgerFacts.ReducedKeepsFirst | internal/ledger/ledger.go:796-868 | All but counters and time of a reduced fact is what the first row of the identity says |
| LedgerFacts.ReducedIsLatest | internal/ledger/ledger.go:847-868 | Its time is the attained latest of the identity's rows |
| LedgerFacts.MaximumIsUnique | internal/ledger/ledger.go:847-868 | The maximum over a batch is one value, whatever the order of merging |
| LedgerFacts.CommitGrows | internal/ledger/ledger.go:893-930 | A commit removes no fact, lowers no counter and keeps identities and versions |
| LedgerFacts.CommitWrites | internal/ledger/ledger.go:893-930 | A new identity is stored as the batch has it; a stored fact is written exactly when the batch covers and exceeds it, and then takes the later time |
| LedgerFacts.CommitTwice | internal/ledger/ledger.go:269-285 | Committing the same batch again changes nothing |
| LedgerFacts.CommitHolds | internal/ledger/ledger.go:893-930 | A batch that repeats all earlier rows leaves each fact at the maximum over the batch |
| LedgerFacts.CoveredBatch | internal/ledger/ledger.go:925-930 | A batch that exceeds no counter leaves the fact alone |
| LedgerDb.Reduce | internal/ledger/ledger.go:796-815 | The loop over the batch yields the reduced facts and counts the rows with tokens and without identity |
| LedgerDb.Ledger.UpsertAll | internal/ledger/ledger.go:269-285 | Upserting in any map order gives the same table |
| LedgerDb.Ledger.CommitUsage | internal/ledger/ledger.go:263-285 | All facts of a batch or none |
| LedgerDb.Ledger.ImportOnce | internal/ledger/ledger.go:291-323 | The import happens once; later calls change nothing |
| LedgerDb.Ledger.NoteComplete | internal/ledger/ledger.go:422-478 | Emitted facts are no longer omitted, stored facts of the reread sessions that were not emitted are |
| LedgerDb.Ledger.Unseen | internal/ledger/ledger.go:485-541 | Each stored, not omitted, not emitted fact of a source without account rows, once |
| LedgerDb.Ledger.Correct | internal/ledger/ledger.go:546-589 | Replacement, revision row and permit together, or a refusal that changes nothing; when applied the permit moves by the change of the four billed counters and not below nothing |
| LedgerDb.Ledger.Revert | internal/ledger/ledger.go:593-647 | The latest untagged revision undone, a no-op when the fact has moved on, or a refusal; when applied a permit moves by the change of the four billed counters, and none appears |
| LedgerDb.Ledger.ClearCorrectionPermit | internal/ledger/ledger.go:669-674 | Only the permit goes |
| Corrections.PermitArithmeticIsExact | internal/ledger/ledger.go:980-1011 | For a non-negative permit the arithmetic never wraps: it is exact or refused |
| Corrections.CorrectAppliesIff | internal/ledger/ledger.go:546-589 | Refused without a one-line reason of at most 200 characters, without a stored fact, at a version that is not higher, or when the exact new permit is no int64; nothing when nothing changes; applied otherwise |
| Corrections.CorrectReplaces | internal/ledger/ledger.go:546-589 | The fact takes the event's model, vendor, time, counters, quality and origin at the new version and keeps its identity; all other facts stay; the revision row holds both sides |
| Corrections.RevertAppliesIff | internal/ledger/ledger.go:593-647 | With a good reason and an untagged revision of the fact: nothing when the fact is not as its latest one left it, refused when the exact permit is no int64, and otherwise payload and version back and a tagged revision row |
| Corrections.RevertIsRefused | internal/ledger/ledger.go:593-620 | Without them it is refused |
| Corrections.TagIsSpelled | internal/ledger/ledger.go:598-620 | A reason is tagged by the seven characters in any letter case; a revert is recorded under the tag once |
| Corrections.TrimIsCore | internal/ledger/ledger.go:1049-1058 | Trimming takes white space off both ends and nothing else |
| Corrections.CorrectMovesPermit | internal/ledger/ledger.go:972-1011 | The new permit is the old one less the change of miss, cache read, cache create and output, never below nothing; reasoning does not move it; its reason is the correction's |
| Corrections.RevertMovesPermit | internal/ledger/ledger.go:972-1011 | The same of a revert, which keeps the permit's reason and makes none |
| Corrections.CorrectThenRevert | internal/ledger/ledger.go:546-647 | A correction followed by a revert restores payload, version and every other fact, and the permit exactly when its condition holds |
| Corrections.EatenPermitStaysGone | internal/ledger/ledger.go:980-1011 | Two committed facts: lowering one by a token leaves a permit of 1, and a rise of 2 tokens of the other, reverted, does not give it back |
| Corrections.RevertRestoresIff | internal/ledger/ledger.go:593-647 | A revert restores the facts exactly when the reason is untagged or the latest untagged revision of the fact made the same step; a tagged correction it does not find is refused or left alone |
| Corrections.TaggedTwinIsUndone | internal/ledger/ledger.go:593-647 | Correcting again the same way with a tagged reason, after a plain correction was reverted, is undone by the next revert |
| Corrections.SecondRevertIsNoOp | internal/ledger/ledger.go:593-647 | After a revert further reverts do nothing, whatever else happens, until the fact is corrected again |
| Corrections.PermitOverRun | internal/ledger/ledger.go:980-1011 | The permit is at most the largest net drop of the four billed counters over all suffixes of a run, and equal to it when the run has only corrections |
| Omissions.ReplayIsNeutral | internal/ledger/ledger.go:485-541 | Committing replayed facts changes no fact, and a scan extended by them has none left to replay |
| Omissions.ReplayedOnce | internal/ledger/ledger.go:870-891 | A replayed fact is taken for unseen again exactly when its key does not read back |
| Omissions.SlashedFactIsReplayedAgain | internal/ledger/ledger.go:485-541 | A concrete fact of a session with a slash that is unseen again after its replay |
| Omissions.OmittedExactly | internal/ledger/ledger.go:415-478 | Over every run a fact is omitted exactly when the last complete reread of its session since it was stored did not emit it |
| Omissions.OmittedAfter | internal/ledger/ledger.go:422-478 | After a complete reread a fact is omitted exactly when no local row has its key, and it was omitted before or a local row is of its source and session |
| Omissions.ReplayedIff | internal/ledger/ledger.go:485-541 | A stored fact is replayed exactly when it is not omitted, no row has its key, and no account or retained row is of its source |
| ProjectionKeep.LostMeasuredProvider | internal/publicprofile/keep.go:127-142 | True exactly when some measured agent is missing or unmeasured in the next snapshot |
| ProjectionKeep.MeasuredSetHeld | internal/publicprofile/keep.go:28-51 | True exactly when some agent was measured and each that was is still, no weaker unless held |
| ProjectionKeep.ShouldReplaceProjection | internal/publicprofile/keep.go:9-23 | The order of tests decides what the declarative rule says |
| ProjectionKeep.ReplacesIff | internal/publicprofile/keep.go:9-72 | Anything replaces an empty snapshot; otherwise every measured agent stays measured, and a worse status needs a measured agent and for each a reading no worse, or a reused account total that did not shrink |
| ProjectionKeep.NothingIsLost | internal/hosted/public_profile_http.go:91-109 | Over every sequence of uploads the stored total never goes down or back to unknown, and a measured agent stays measured |
| ProjectionKeep.RepeatIsAccepted | internal/publicprofile/keep.go:9-23 | Uploading the stored snapshot again is accepted |
| PublishPolicy.Decide | internal/publicprofile/publish_policy.go:99-176 | On every path only a measured candidate of no earlier day, no lower than a proven total unless the permit is exactly the drop, is published, held or retried; a lower one is published exactly when explained and not earlier |
| PublishPolicy.WaitEndsAtRollover | internal/publicprofile/publish_policy.go:142-175 | A wait ends within four hours at the owner's next midnight, and the old day is not published then |
| PublishPolicy.RolloverDecides | internal/publicprofile/publish_policy.go:99-131 | On a later local day a measured snapshot is never held or coalesced: it is published exactly when it may replace the accepted one and the proven total is not above it or explained, as a correction, a theme or the date; else blocked |
| PublishPolicy.UsageNeedsGrowth | internal/publicprofile/publish_policy.go:133-176 | On the verified day publication means an explained drop, or enough growth away from midnight, and nothing else |
| PublishPolicy.FailedIntentIsTheWorkers | internal/publicprofile/publish_policy.go:130-135 | A failed, unverified intent of the proven day is published by the worker without any growth, and coalesced for everybody else |
| PublishPolicy.QuietIntentDecides | internal/publicprofile/publish_policy.go:136-144 | Without a failed intent: never proven is published at once, the proven snapshot is left alone, an unknown proven total blocks |
| PublishPolicy.ThemeIsImmediate | internal/publicprofile/publish_policy.go:122-124 | A theme is published whatever growth, time and failures are |
| PublishPolicy.GrowthDecides | internal/publicprofile/publish_policy.go:145-180 | On the proven day: the growth needed, the wait of at most four owner hours to the owner's midnight, and what is held of a past day |
| PublishPolicy.OthersAreStopped | internal/publicprofile/publish_policy.go:99-121 | Offline, unmeasured, kept out, or lower without a permit for exactly the drop is blocked for that reason; an earlier day is left alone |
| WallStore.Store.SaveProjection | internal/hosted/public_profile_store.go:58-66 | The snapshot and the wanted id change; status, reason, wait, retry count and lease of an existing row stay; a new row has none |
| WallStore.Store.AcquirePublishLease | internal/hosted/public_profile_store.go:191-203 | The lease is given exactly when it is free, expired or already this token's, until the given time, and nothing else changes |
| WallStore.WallShows | internal/hosted/public_profile_http.go:268-292 | The wall is what the README shows; its total and day count only when verified for that snapshot |
| WallStore.DueIff | internal/hosted/public_profile_store.go:96-121 | Due is what is wanted, not shown and pending, failed or blocked, or a failed theme, after its wait and without a held lease |
| WallStore.Store.ReleasePublishLease | internal/hosted/public_profile_store.go:205-208 | Only the holder's lease is cleared, and afterwards this token holds none |
| WallStore.Store.MarkReadmeVerified | internal/hosted/public_profile_store.go:126-172 | The wall takes the snapshot exactly when the caller holds the lease and nothing else was verified later than a second after its start; success means it is verified as this snapshot; otherwise nothing moved |
| WallStore.Store.SetPublicationIntent | internal/hosted/public_profile_store.go:174-184 | The intent columns of an existing row and nothing else: snapshot, total and lease stay |
| WallStore.Store.SetReadmeApplied | internal/hosted/public_profile_store.go:186-189 | The intent is settled only if it still wants this snapshot; snapshot, wanted id and lease stay |
| WallStore.Store.Backfill | internal/hosted/public_profile_store.go:210-262 | What the wall shows stays; at most its unknown total becomes that of the accepted snapshot, and only while that one is shown |
| WallProtocol.NeverAhead | internal/hosted/public_profile_http.go:66-117 | With any number of processes, crashes and failures the verified total never exceeds the stored one, as long as no upload races |
| WallProtocol.StoredOnlyGrows | internal/hosted/public_profile_http.go:91-109 | The stored total never goes down in any such run |
| WallProtocol.StoredDropsIff | internal/hosted/public_profile_http.go:91-113 | In any run a step lowers the stored total exactly when it saves an upload over another row than the one it was compared with, and below it |
| WallProtocol.OneByOneIsUnraced | internal/hosted/public_profile_http.go:91-113 | Uploads that do not overlap never race |
| WallProtocol.LostUpdateDrops | internal/hosted/public_profile_http.go:91-113 | Two overlapping uploads on one process: less is stored than shown, and the next publication moves the wall back |
| WallProtocol.OneProcessWall | internal/hosted/publish_job.go:107-265 | In every run of one process without raced uploads the verified total never decreases or turns unknown and stays within the stored one, also on the paths that skip the gate |
| WallProtocol.Fencing | internal/hosted/public_profile_store.go:126-172 | Between a job's acquiring the lease and its effective stamp no other token acquires and no other stamp takes effect |
| WallProtocol.StampKeepsTotalIff | internal/hosted/publish_job.go:125-141 | Across processes an effective stamp keeps the total from dropping exactly when the wall was not already above the row its job had read when it acquired the lease |
| WallProtocol.OvertakenJobDrops | internal/hosted/publish_job.go:125-141 | Two processes, uploads one by one, a job overtaken between row and lease: the wall goes back |
| WallServer.AnswerStaysDue | internal/hosted/public_profile_store.go:96-121 | What waits for midnight is due from then on, what was coalesced onto a failure when that one was |
| WallServer.FailureStaysDue | internal/hosted/public_profile_http.go:212-257 | A failed publication is due again once its wait is over, however often it failed |
| WallServer.FailureIsDueFrom | internal/hosted/public_profile_http.go:212-257 | When exactly a failure is due again: after six hours, thirty seconds, the rate limit's wait, at once and then hourly, or at once |
| WallServer.VerifiedIsNotDue | internal/hosted/public_profile_store.go:96-121 | A snapshot filed as failed although it is verified is not due again, unless a theme was asked for |
| WallServer.StoredIsNeverNegative | internal/hosted/public_profile_http.go:148-189 | On a single process without raced uploads the stored snapshot is never blocked as a regression |
| WallAttempt.MovedButReportedIff | internal/hosted/publish_job.go:107-265 | A publication that would change the wall is reported as failed although it did exactly when it reached the wall and its job row could not be written |
| WallAttempt.UnrecordedFirst | internal/hosted/publish_job.go:107-265 | A first publication whose job row is lost: reported as a failed write, and shown |
| WallAttempt.ReachesIff | internal/hosted/publish_job.go:107-265 | When an undisturbed attempt reaches the wall, condition by condition on rows, lease, GitHub and clock |
| WallAttempt.ReportedCause | internal/hosted/publish_job.go:107-265 | A publication that is not through is reported by its first cause |
| WallServer.AnswerLeaves | internal/hosted/public_profile_http.go:148-189 | What each answer of the gate leaves in the intent columns |
| WallServer.IntentNames | internal/hosted/public_profile_http.go:294-304 | What a publication is filed under, and what counts as a failed intent |
| WallServer.FollowedIsOutcome | internal/hosted/public_profile_http.go:66-117 | An upload of the wall's own day: coalesced onto a failure; too small or of a day that is over, the wall stays; in the owner's last four hours kept for that very midnight; otherwise shown when the attempt goes through undisturbed |
| WallServer.Server.ReadCompareSave | internal/hosted/public_profile_http.go:91-109 | An upload is invalid, kept out for coverage, kept out as a regression, or stored, by a comparison and a save |
| WallServer.Server.PublishPalette | internal/hosted/publish_job.go:107-265 | The wall ends as the row the job read exactly when the palette is known, nothing refuses the attempt, there is a row, the lease is to be had, GitHub and the presentation row go through and nothing newer is shown, and is as before otherwise; no error exactly then with the job row written, and each error by its cause; verified means the intent is settled; every way through is a sequence of protocol steps, and the lease is given back |
| WallServer.Server.NotePublishFailure | internal/hosted/public_profile_http.go:212-257 | Status, wait and retry count by kind of failure |
| WallServer.Server.PublishUsageNow | internal/hosted/public_profile_http.go:191-210 | The intent is on record, and due, before the job begins; materialized exactly when it is configured and the job succeeds; the wall moves exactly when the job reaches it; a failed job is filed with its failure |
| WallServer.Server.ConsiderPublication | internal/hosted/public_profile_http.go:148-189 | The word and the wall follow the gate and the job exactly; every answer but a publication stores its own intent and nothing else |
| WallServer.Server.PutPublicProjection | internal/hosted/public_profile_http.go:66-117 | Accepted exactly when it validates and may replace the stored one, kept for the stated reason otherwise, and then nothing changes; an accepted one gets the word and the wall that gate and job lead to, and one of the wall's own day what `FollowedIsOutcome` says; materialized it is the verified wall unless another upload was queued ahead of the job; a waiting one is stored for the owner's midnight |
| WallServer.Server.RetryFailedReadmes | internal/hosted/public_profile_http.go:309-345 | Nothing while not due; when due, a failed theme goes to the job and anything else to the gate, with exactly their effect on the wall; a failed intent whose snapshot is measured, not below the wall and of no earlier day is shown when the attempt reaches the wall; all totals are kept |
| WallServer.Server.PostPublicPublish | internal/hosted/public_profile_http.go:521-558 | Accepted exactly when nothing is stored or the gate publishes a theme; the wall then moves exactly when the job reaches it; a refused one changes nothing; all totals are kept |
| WallServer.Server.PostPublicRetry | internal/hosted/public_profile_http.go:560-579 | A retried job has exactly the effect and the report of the job, and keeps all totals although it skips the gate |
| WallServer.Server.Start | internal/hosted/public_profile_store.go:210-262 | A start of the server keeps all totals, its backfill included |
| RefreshClient.DecideRefresh | internal/publicprofile/refresh_policy.go:79-130 | The client uploads exactly on a publication, or on a wait for a snapshot the server does not store, only what the gate holds safe against the wall it saw, and never says VERIFIED by itself |
| RefreshClient.RefreshSays | internal/publicprofile/refresh_policy.go:79-191 | What the client does and says of a drop without a permit, an earlier or a later day, a failed intent, and a first wall |
| RefreshClient.GrowthSays | internal/publicprofile/refresh_policy.go:79-130 | On the wall's own day: too little growth is skipped, enough is sent, or sent once to wait for midnight |
| RefreshClient.WatermarkIs | internal/publicprofile/refresh_policy.go:86-92 | Without a wall in the envelope the stored snapshot is the watermark |
| RefreshClient.EnvelopeTells | internal/hosted/public_profile_http.go:404-466 | What the envelope shows of the rows, to a client that knows of walls and to one that does not |
| RefreshClient.AfterPut | internal/publicprofile/refresh_apply.go:149-181 | VERIFIED is said exactly on the server's word that the wall is materialized |
| RefreshClient.ServerHasTheWord | internal/publicprofile/refresh_apply.go:149-181 | What each word of the server makes of the client's decision |
| RefreshClient.IsStored | internal/publicprofile/refresh_apply.go:183-189 | The second look is positive exactly when the server can be read and stores that snapshot |
| RefreshClient.ApplyRefresh | internal/publicprofile/refresh_apply.go:65-143 | The local snapshot is sent once exactly when the client gets that far and the gate wants one the server does not store, a drop only with a permit that explains it; every other end by its fault; what is cut off before the server changes nothing, what is cut off after it is stored; VERIFIED exactly when the answer arrives and the server accepted, published and completed it, and then it is the verified wall unless another upload was queued ahead of the job; no total is lowered, permit or not |
| SyncBatches.UsageStore.ApplyUsage | internal/hosted/store.go:220-265 | The rows in order, or the first error and no change; only entries of the user change, of the device itself or shared by the account |
| SyncBatches.ChangesOwnOnly | internal/hosted/store.go:226-262 | A batch changes only entries of its user, device-local ones of its device and account-wide ones of none, and what it puts there is one of its rows under the row's own scope and name |
| SyncBatches.RowsArePresent | internal/hosted/store.go:226-262 | After an accepted batch each row is there, at its revision or a higher one |
| SyncBatches.AcceptedIff | internal/hosted/store.go:233-262 | A batch without repeated names is accepted exactly when nothing stored for a row is of a higher revision, or of the same with another miss count |
| SyncBatches.UnwelcomeIs | internal/hosted/store.go:245-258 | A row below the stored revision is stale, at it with another miss count a clash, at it with the same one nothing, above it the new entry |
| SyncBatches.StrangersCommute | internal/hosted/store.go:226-262 | Batches of different users, and device-local batches of different devices, are never refused because of each other and can be applied in either order |
| SyncBatches.AccountRowsMeet | internal/hosted/store.go:228-231 | Account-wide rows of one name from two devices meet in one entry, at the higher revision or above |
| SyncBatches.UsageStore.SyncBatch | internal/hosted/store.go:267-300 | Known keys answer without applying, bodies must match, and the key is recorded only after the commit |
| SyncBatches.KnownKeyAnswers | internal/hosted/store.go:267-300 | A recorded key answers the same rows and refuses others without applying; a key is recorded exactly by a call that completes |
| SyncBatches.RevisionsOnlyRise | internal/hosted/store.go:246-261 | Over every history of calls one after another a stored row is replaced only by a higher revision |
| SyncBatches.RejectedChangesNothing | internal/hosted/store.go:220-225 | A refused batch changes no row and records no key |
| SyncBatches.StoredIsFirstHighest | internal/hosted/store.go:220-265 | After calls one after another the stored counters are those of the first accepted row at the highest accepted revision |
| SyncBatches.RetryIsNeutralIff | internal/hosted/store.go:267-300 | After a crash between commit and record a retry changes no row; it is accepted exactly when no key comes with two revisions, and is stale otherwise |
| SyncBatches.TwoRevisionsAreStale | internal/hosted/store.go:246-261 | One key, of either scope, with revisions 1 and 2 on an empty table: accepted, and stale when sent again |
| SyncOverlap.RevisionsOnlyRise | internal/hosted/store.go:220-300 | Over every run of overlapping, dying and repeated calls in which no commit finds other rows than it read, a stored row is replaced only by a higher revision |
| SyncOverlap.StoredIsFirstHighest | internal/hosted/store.go:220-300 | Over every such run the stored counters are those of the first accepted row, in the order of the commits, at the highest accepted revision |
| SyncOverlap.KeysStand | internal/hosted/store.go:267-300 | Over any run a recorded key stays with its rows, and no call under it begins |
| SyncOverlap.LandsLikeACall | internal/hosted/store.go:220-265 | A commit that finds the rows its transaction read has the effect of the same rows applied to the table by then |
| SyncOverlap.OneByOneIsUnraced | internal/hosted/store.go:220-265 | Calls whose transactions do not overlap never race |
| SyncOverlap.RevisionDropsIff | internal/hosted/store.go:226-262 | In any run a step lowers the revision of a key exactly when it commits a write of it that is below the row stored by then, which is then not the row it read |
| SyncOverlap.LostUpdateLowers | internal/hosted/store.go:226-262 | Two devices read revision 1 of an account-wide row and write 3 and 2: the row ends at 2 |
| Aggregation.MergeByRequest | internal/metric/summary.go:327-347 | The indexed in-place update is the merge of usable rows, one per request |
| Aggregation.MergeTwice | internal/metric/summary.go:327-347 | Merging is idempotent |
| Aggregation.MergedGathers | internal/metric/summary.go:349-372 | A request's merged row holds what all its usable rows amount to |
| Aggregation.RequestIsOneRow | internal/metric/summary.go:327-385 | Of the rows of one source and request without a negative counter one remains: the first, with the attained greatest of each counter, the latest time and the worst quality |
| Aggregation.RequestIsThere | internal/metric/summary.go:327-347 | Such a row remains whenever the request had one |
| Aggregation.WithoutRequestStay | internal/metric/summary.go:331-337 | Rows without a request stay as they are, each of its own, in order |
| Aggregation.GatheredIsGreatest | internal/metric/summary.go:349-365 | Each merged counter is the attained greatest of the request's rows |
| Aggregation.GatheredIsLatest | internal/metric/summary.go:368-370 | The merged time is the latest, zero times aside |
| Aggregation.OrderDoesNotMatter | internal/metric/summary.go:210-216 | Scans that saw the same rows agree on every request's counters and time |
| Aggregation.SatAdd | internal/metric/summary.go:317-325 | The exact sum, or the end of int64 it passed |
| Aggregation.AggregateAt | internal/metric/summary.go:219-311 | One pass fills the whole and every axis: each slice of a source, vendor, source and vendor, or vendor and price-list name holds exactly the merged rows with these fields, every counter their sum or the greatest int64, the worst of their qualities, and the turns of the source; there are no other keys |
| Aggregation.AxesAreRows | internal/metric/summary.go:219-311 | The same of the folds, the joined keys told apart as long as sources and vendors hold no zero character |
| Aggregation.AxisAddsUp | internal/metric/summary.go:232-276 | Folding any counter over the slices of any axis in any order gives the whole's counter: the exact sum, or the greatest int64 |
| Aggregation.SourcesAddUp | internal/metric/summary.go:278-282 | The source axis still adds up with turns in it |
| Aggregation.FirstDecides | internal/metric/summary.go:327-347 | Whether a merged request counts is what its first usable row says |
| Aggregation.WholeIgnoresOrder | internal/metric/summary.go:219-311 | The whole's token counters do not depend on the order the rows were read in, nor does its request counter when the rows of each request agree on counting it |
| Aggregation.RequestsIgnoreOrderIff | internal/metric/summary.go:219-372 | The request counter is the same for every reordering of the rows exactly when the usable rows of each request agree on counting it |
| Aggregation.OrderChangesRequests | internal/metric/summary.go:327-372 | Two rows of one request that disagree on counting it, ahead of any other rows: swapping them changes the request counter by one |
| Community.LeaveLeavesNothing | internal/community/store.go:68-83 | After leaving, the state is that of the same trace without the participant |
| Community.HourlyLimit | internal/community/store.go:168-189 | With a clock that does not run back no hour holds more than thirty recorded stamps of a participant since it last left |
| Slices.Filter | internal/community/store.go:168-178 | Filtering into the array that is being read keeps the right stamps, and moves nothing when all are kept |
| Slices.LimitSlice | internal/community/store.go:168-189 | A refusal leaves the stored slice as it was, although its array was written to |
| RankService.RankStore.RateLimit | internal/community/store.go:168-189 | The verdict and the stored stamps follow the sliding window |
| Community.LimitIs | internal/community/store.go:163-189 | Thirty stamps of the last hour refuse, a repeat within two seconds leaves no stamp, and only the last hour is kept |
| Community.UuidIs | internal/community/snapshot.go:26 | A participant is five groups of hexadecimal digits, eight, four, four, four and twelve, joined by dashes |
| RankService.RankStore.Put | internal/community/store.go:43-66 | An accepted day replaces that day's row; an invalid or limited upload changes nothing |
| Community.PutReplaces | internal/community/store.go:43-66 | An accepted upload is the row of its day; nothing else changes but the participant's stamps; any other changes nothing |
| RankService.RankStore.Leave | internal/community/store.go:68-83 | Days and stamps go together; an unknown id is no error and leaves nothing |
| Scores.Score | internal/community/store.go:127-149 | One day's value or the sum over all days in any order; an incomplete day voids a cost sum |
| Scores.ScoreReads | internal/community/store.go:127-149 | Tokens or micro-dollars as asked, of the one day or summed in a register over all days; a day without a positive cost voids a cost sum |
| RankService.RankStore.Rank | internal/community/store.go:85-125 | One more than the number of better participants, in a large enough crowd, whatever the map order |
| Ranks.RankTells | internal/community/store.go:85-125 | No rank over all costs; too few with a score hide all ranks, no score gives none, and a rank is one more than the number of higher scores |
| Ranks.CompetitionRank | internal/community/rank.go:94-106 | One more than the number of better scores, or zero of none |
| Ranks.Finish | internal/community/rank.go:131-163 | A rank is shown exactly in a large enough crowd |
| Ranks.RanksFollowScores | internal/community/rank.go:94-106 | Higher score, smaller rank; equal scores share a rank; ranks lie between one and the crowd |
| Ranks.DepartedIsUnseen | internal/community/store.go:85-125 | No question about any participant tells a departed id from one never seen |

## Left out

- Apportion.AllocateNeverFails: goes one way for a single input; `SplitsIff` is exact for each total.
- Apportion.SuccessConserves: past int64 an answer is only shown to be conserved in register arithmetic; `WrappedVectorIsAnswered` is one that is conserved in no other sense.
- ScanIndex.EveryScanIsFullParse: assumes, for a path that is resumed, that growth between the stat call and the end of the read brings no deliverable line, that a replaced file gets another inode, that a file written over in place is noticed by its size or time until it is scanned (`RewriteIsReadIff`), and that the line parser is a function of line and offset; `Jsonl.ClampIsHarmless` shows the first is needed.
- ScanIndex.Store.LoadPath: turn events travel beside usage events and are not modelled; a path is always resumed or always replayed, as its adapter has it.
- ScanIndex.LedgerIsMaximum: of a parser that reads the whole file it is assumed that what it read stays in the file as it grows.
- LedgerFacts.CommitHolds: speaks of the five counters; the stored timestamp can lag, because a row is written only when a counter grows.
- Observations.NoteReplacesWindow: needs new content and a time no earlier than any stored one; observation times are integers, while the program orders their texts.
- Supplements.NarrowedCounts: observations written by NoteAPI are inputs, the method itself is not modelled.
- Aggregation.AggregateAt: costs, labels, record counts, derivation texts, calendar and drill-down are left out; the price list is a function from rows to model names.
- RefreshClient.ApplyRefresh: no other upload comes between the fetch and the save of its own; those queued ahead of the job or landing during it are part of the attempt; labels and the detail text are left out.
- WallServer.Server.PutPublicProjection: "a materialized one is the verified wall" holds only if no other upload is saved between its own save and the job's row read (`queued`); the wall is then the row that was read.
- WallServer.Server.ConsiderPublication: the same uploads are part of the attempt, and no other change comes between the gate and the job.
- WallServer.Server.PublishUsageNow: the same.
- Retain.StopsIff: its series may have any length, while a stored snapshot has exactly 371 dates and a fetched body at most 2 MiB; `WallSeriesStops` is for such a snapshot, and not exact.
- SyncBatches.RevisionsOnlyRise: takes a call as one step; `SyncOverlap` has the calls that overlap.
- SyncBatches.StoredIsFirstHighest: takes a call as one step; `SyncOverlap` has the calls that overlap.
- SyncBatches.RetryIsNeutralIff: assumes that no other call commits between the batch and its retry.
- SyncOverlap.RevisionsOnlyRise: for unraced runs, as `LostUpdateLowers` shows is needed; plain reads see the rows as of the transaction's first read, the database's default isolation; deadlocks and lock waits that end a transaction are calls that die.
- SyncOverlap.StoredIsFirstHighest: the same.
- WallServer.Server.PublishPalette: GitHub, rendering and the README rewriting are one outcome of a step; of the job rows only the failing last write is modelled, and intent writes, whose errors the program ignores, succeed.
- WallStore.Store.MarkReadmeVerified: instants are exact, the rounding of a DATETIME column to seconds is not modelled, only the second granted to it.
- WallStore.Store.AcquirePublishLease: one owner's rows are modelled, as every statement is limited to one user id.
- WallProtocol.NeverAhead: assumes that no upload is saved between another one's comparison and its save, nor over a row its comparison failed to read.
- WallProtocol.StoredOnlyGrows: assumes the same.
- WallProtocol.OneProcessWall: assumes the same; `LostUpdateDrops` shows that it is needed.
- ProjectionKeep.NothingIsLost: takes the read, comparison and save of an upload as one step.
- WallProtocol.StampKeepsTotalIff: a server start between acquiring and stamping is excluded, because its backfill may fill in an unknown total.
- SyncBatches.UsageStore.SyncBatch: source states and the time zone, whose errors are ignored, are left out.
- RankService.RankStore.Rank: percentiles, display texts and rounding of costs to micro-dollars are left out.
- SHA-256 is taken as injective: a payload, body or note stands for its hash.
- Dates are day numbers and time zones fixed offsets; white space around a date is not modelled.
- Text lengths are counted in characters, not bytes.
- LatestRetainedEvents, WindowAudit, HasObservation, Status, Breakdown, Digest, backups, NoteAPI and account deletion are not modelled.
- Adapters, encodings, HTTP, OAuth, GitHub App tokens, SVG output, prices, the command line and the device pairing are not modelled.
