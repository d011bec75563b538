# Verified model of the mailbox synchronizer

The synchronizer copies messages between two mailboxes, A and B, in both directions and never
deletes. Each message has a set of match keys (Message-ID, the tag read from a hash header, a
surrogate hash). Each folder of a pair is indexed greedily: a message is dropped as an internal
duplicate if one kept before has one of its keys. What one index holds and the other does not is
appended there, tagged. An optional SQLite cache replaces most header fetches, run bookkeeping
stops users that keep failing, and a worker pool runs the users of a cycle.

This project models that core in Dafny and proves what it is for: nothing is copied twice, a copy
is not copied back, a partly failed pass leaves exactly its rest, the cache agrees with a plain
rescan through crashes, and the text transformations around it keep their meaning.

`dafny verify dfyconfig.toml` checks everything.

## Layout

| file | what it holds |
|---|---|
| `MatchKeys`, `Retention`, `DedupIndex` | match keys; retention and deltas as functions; the index object and its loops |
| `Copying`, `Copies`, `SyncPass`, `SyncRuns`, `Bounce`, `RetentionLaws` | copying one direction; what the copies are; one pass as the code runs it; every run of deliveries and passes; when a copy can travel back; order independence and late Message-IDs |
| `State`, `Incremental`, `CacheLaws`, `CacheRuns` | the store with one method per transaction; incremental indexing; its refinement of a full scan; every run of the cache through crashes |
| `PassFacts`, `CachedViews`, `CachedRuns`, `CachedResidue`, `ModesAgree` | what a cached pass reads, carries over and leaves behind; what the cache shows to the runs of passes; every run with the cache; what a cached pass leaves to do; agreement of both modes |
| `RunStatus`, `Pool` | streak, stop gate and trimmed history; the worker pool as an interleaving protocol |
| `Text`, `Sets`, `Selection` | string functions; sizes of sets; parts of a sequence in their order |
| `Tagging`, `HeaderFields`, `CopyIdentity`, `HeaderStripping`, `StrippedText` | header parsing and tagging on the bytes of a message; what a written header is read as, and its keys; what is appended as a copy; removal of MIME framing headers; the same on a written header |
| `FolderMatching`, `MaildirFolders`, `ImapFolders`, `MaildirNames`, `Batching` | folder pairing; folder names on Maildir and IMAP; Maildir file names; batched fetching with 32-bit numbers |

Two datatypes carry the argument. `Retention.Entry` is a message as the index sees it, and
`Retained`, `Lacking` and `Delta` are the specification of `BuildFrom`, `Missing` and `Delta`.
`State.Slot` is everything the cache tables hold for one side of a folder pair, and
`Incremental.AfterPass` says what a pass makes of it for any set of failing writes.

The parts fit together as follows. `SyncPass.PassIsStep` makes a pass of `SyncPair` a step of the
runs in `SyncRuns`, whatever listings it worked from; `SyncPass.ScanLists` covers the listing of a
full scan. `CachedRuns.CachedPassIsStep` does the same for a pass over the cache and shows that the
cache is fit for the next pass, and `CachedRuns.CachedRunIsRun` carries it through whole runs.
`CopyIdentity.AppendedIsCopy` says of the appended bytes what those runs assume of a copy.

## Where the code and what is said of it differ

- README.md:464-465 calls a message present if any of its keys matches one in the folder. A dropped
  duplicate does not add its keys to the index, so this holds for the messages the index retained.
  `Retention.PresenceIff` gives the exact condition, `Retention.FoundIsPresent` the half that always
  holds, `Retention.DroppedKeyNotFound` a folder for which it fails.
- README.md:475-478 promises that a later Message-ID causes no re-copy. It can
  (`LateMessageID.SharedLateMessageIDCausesRecopy`) when another kept message already has that
  Message-ID. `LateMessageID.LateMessageIDNoRecopyIff` says exactly when it causes none.
- The cache row of a copy stores the surrogate as its tag (internal/syncer/syncer.go:447-452). If the
  source carried another tag, the copy is seen under fewer keys than its source until a rescan of its
  side. Then it can be sent back, and again without bound when the other side is rescanned alone:
  `Bounce.ResentIff` is exact, for any number of times. A delivered message is still copied at most
  once (`SyncRuns.DeliveredCopiedAtMostOnce`, in every mode), and a copy of a message without such a
  tag never travels (`SyncRuns.SafeCopyNeverSent`).
- Such a row also makes an incremental index differ from a full scan: `CacheRuns.EveryPassRefinesFullIff`
  is exact, for every run, and `CacheRuns.ForeignTagMisread` is a run in which it happens.
- With `full_resync_every` at 0, message rows left without an endpoint row by an interrupted first pass
  are adopted under whatever validity token comes next: `CacheLaws.CoherenceKeptIff` is exact, and
  `CacheRuns.AdoptedRowIsWrong` is a run in which a pass then relies on a wrong row.
- The comment at internal/syncer/syncer.go:309-311 says metadata is fetched only for new messages. With
  no new ID the list is nil and everything is fetched: `CacheLaws.FetchedIff` says exactly what is.
- `HasHeader` splits at CRLF only, so a message with bare LF line ends can hide its tag:
  `Tagging.CopyKeepsKeysIff` is exact, `Tagging.BareLFHidesTag` the family of examples.
- `WithHeader` promises to return a tagged literal as it is (internal/endpoint/endpoint.go:122-124),
  but can look only into a buffer: `Tagging.TaggingStreamTwiceIff`.
- `HasHeader` looks for the first empty line behind a CRLF, so a message that begins with an empty line
  is searched up to the next one: `Tagging.HasHeaderIff` excludes exactly these messages,
  `HeaderFields.LeadingEmptyLine` is the family of examples.
- The comment of `ResolveFolder` (internal/mailbox/client.go:164-169) puts the exact name first; the
  code tries the token first: `ImapFolders.TokenResolves`.
- Maildir `CreateFolder` does not trim spaces and `Select` does: `MaildirFolders.SelectReachesIff`.
- The unsigned loop variable of `FetchHeaders` can wrap around: `Batching.LoopEndsIff` says when the
  loop ends in time, `Batching.LoopEverEndsIff` when it ends at all.

## Model

| member | source | states |
|---|---|---|
| `MatchKeys.MatchKeysFrom` | internal/mailbox/message.go:122-135 | the keys are exactly Message-ID, tag and surrogate as far as present, at least one, none twice |
| `MatchKeys.CopyRowKeysIff` | internal/syncer/syncer.go:447-452 | the cached row of a copy has some of its source's keys, and all of them iff the source had no tag or its surrogate as tag |
| `Retention.Coverage` | internal/dedup/index.go:104-126 | every message of a folder, retained or dropped, shares a key with a retained one |
| `Retention.RetainedDisjoint` | internal/dedup/index.go:106-110 | no key belongs to two retained messages |
| `Retention.PresenceIff` | README.md:464-465 | lookup in the index agrees with "any message of the folder has the key", for all key lists, iff dropped duplicates add no key |
| `Retention.FoundIsPresent` | internal/dedup/index.go:53-60 | what the index finds, some message of the folder has |
| `Retention.DroppedKeyNotFound` | README.md:464-465 | a folder in which a key of a dropped duplicate is not found, and the message with that key is sent although the folder has it |
| `Retention.DeltaFacts` | internal/dedup/index.go:129-143 | a delta is exactly the retained messages unknown to the other index; they are disjoint and come from the folder |
| `Retention.ExactResidue` | internal/syncer/syncer.go:236-264 | if exactly the flagged parts of both deltas arrive, each copy anywhere among the old messages and seen under any non-empty part of its source's keys, the next deltas are exactly the unflagged parts in order, and their total size falls by the number of copies |
| `DedupIndex.Index.Has` | internal/dedup/index.go:53-60 | true iff some entry has one of the keys |
| `DedupIndex.BuildFrom` | internal/dedup/index.go:104-126 | the entries are the greedy retention, the key table knows exactly their keys, duplicates and entries add up to the inputs |
| `DedupIndex.Missing` | internal/dedup/index.go:129-137 | exactly the entries none of whose keys the destination has, in order |
| `DedupIndex.Deltas` | internal/dedup/index.go:141-143 | both directions, each relative to the other index |
| `OrderIndependence.RetainedClasses` | internal/dedup/index.go:104-126 | when sharing a key is an equivalence, the index retains one message of every class |
| `OrderIndependence.DeltaClasses` | internal/dedup/index.go:129-137 | and a delta is one message of every class the destination lacks |
| `OrderIndependence.AnyOrderSameDelta` | internal/dedup/index.go:104-143 | so every order of both folders gives the same sizes, duplicates and classes to send |
| `ModesAgree.ModesFindTheSame` | internal/syncer/syncer.go:289-294 | and a full scan and the cache, which list in different orders with different flags and dates, find the same sizes, duplicates and classes to send |
| `LateMessageID.RetentionUnchangedIff` | internal/dedup/index.go:104-126 | a message gaining a key leaves retention unchanged, position by position, iff it is a dropped duplicate or no other kept message has that key |
| `LateMessageID.KeepsStepIff` | internal/dedup/index.go:104-143 | a changed folder causes no copying against any folder that was in step iff its index still knows every key and everything it retains has all keys of something retained before |
| `LateMessageID.LateMessageIDNoRecopyIff` | README.md:475-478 | that condition, for a Message-ID that appears later; it holds if no other kept message has that Message-ID |
| `LateMessageID.LateKeyKeepsDeltasEmpty` | internal/dedup/index.go:104-143 | a key that no other kept message has keeps two empty deltas empty |
| `LateMessageID.LateMessageIDCausesNoRecopy` | README.md:475-478 | a Message-ID no other message of the folder has, appearing later, causes no re-copy either way |
| `LateMessageID.SharedLateMessageIDCausesRecopy` | README.md:475-478 | with a shared Message-ID it does: two in-step folders, then one message due to be sent |
| `Copying.FilterFlags` | internal/syncer/syncer.go:471-479 | exactly the transferable flags, in order |
| `Copying.CopyOne` | internal/syncer/syncer.go:461-468 | a message that is not there is not copied; otherwise the copy has the transferable flags, the date and the header of its source, with the surrogate as the tag unless HasHeader finds one |
| `Copying.CopyMissing` | internal/syncer/syncer.go:431-455 | the folder gains copies of exactly the entries that arrive before the stop, the count is of those confirmed, the cache rows of those confirmed with an ID |
| `SyncPass.IndexFolderFull` | internal/syncer/syncer.go:297-307 | the index of all messages that parse; the others are counted as errors |
| `SyncPass.IndexFolder` | internal/syncer/syncer.go:289-294 | result and cache contents in both modes, for every combination of failing calls |
| `SyncPass.SyncPair` | internal/syncer/syncer.go:215-279 | if a side cannot be selected or indexed nothing is appended, a read-only or excluded side gains nothing, and what happened to each cache is told; otherwise both gain exactly what arrives of deltas taken before any append; the store gains the rows of what was confirmed; skipped plus both deltas is the size of both indexes; after full scans what is left is exactly the rest of each delta, and what each side gained are copies of messages of the other side, in order, with their dates and transferable flags |
| `Copies.EntriesCarry` | internal/dedup/index.go:64-95 | the entries of a full scan are exactly the messages that parse, in order, each with the ID, flags, date, Message-ID, surrogate and keys of its message |
| `Copies.CopyableExactly` | internal/syncer/syncer.go:65-72 | the flags that travel are exactly \Seen, \Answered, \Flagged and \Draft, in order |
| `Copies.FullPassCarries` | internal/syncer/syncer.go:461-479 | after full scans every message that arrives has the date of its source, exactly its flags out of those four in order, its Message-ID and surrogate, and a tag |
| `Copies.StopsExactly` | internal/syncer/syncer.go:434-440 | copying stops at the first multiple of 64 from the cancellation on, or at the end |
| `Copies.SentArrives` | internal/syncer/syncer.go:431-455 | the destination keeps what it has and gains exactly what is opened before the stop and stored, a lost reply included; a direction that is not allowed does nothing |
| `Copies.SentCounts` | internal/syncer/syncer.go:441-446 | the count is the number of messages whose append was confirmed |
| `Copies.SentReports` | internal/syncer/syncer.go:447-452 | a row exactly for what was confirmed with an ID, in the cached mode: the ID of the copy, the surrogate as the tag, and Message-ID, date and transferable flags of the source |
| `SyncPass.CopyRowsArePut` | internal/syncer/syncer.go:266-277 | those rows are in the cache after the pass, the last for an ID, in place of older ones; other rows are as indexing left them |
| `PassFacts.PassInputFrom` | internal/syncer/syncer.go:375-421 | every index input of a cached pass is the message fetched for its ID, with its flags and date, or the stored row of the ID if none was fetched |
| `PassFacts.CachedPassCarries` | internal/syncer/syncer.go:461-468 | so a copy made in a cached pass has the date and the transferable flags of that message or row |
| `PassFacts.NextPassLoads` | internal/syncer/syncer.go:325-403 | what a pass leaves for the next one under the same token: exactly the rows that were there or fetched, less the deleted ones, until the interval since the last rescan is over |
| `SyncPass.PassIsStep` | internal/syncer/syncer.go:236-264 | such a pass is a pass step of the runs below, with the folders it leaves as the next state; in the full mode if HasHeader misses no tag, in the cached mode always |
| `SyncPass.ScanLists` | internal/syncer/syncer.go:297-307 | a full scan lists the folder as those runs require |
| `SyncPass.ErrorFreePassConverges` | internal/syncer/syncer.go:236-264 | after full scans and a pass in which everything arrives, neither side owes the other anything |
| `CachedResidue.CachedResidueExact` | internal/syncer/syncer.go:236-264 | two cached passes in a row whose caches misread at most the new copies: the second finds exactly the rest of each delta, although IDs in string order put the copies anywhere |
| `CachedResidue.CachedPassLeavesRest` | internal/syncer/syncer.go:266-277 | the cache that a pass leaves, from one that misreads nothing and whatever writes fail, meets that condition |
| `CachedResidue.CachedPassConverges` | internal/syncer/syncer.go:236-264 | so after a cached pass in which everything arrives the next one has nothing to do |
| `SyncRuns.RunKeepsInv` | internal/syncer/syncer.go:215-279 | in every run of deliveries and partly failing passes, over folders in any order and copies seen under keys chosen anew in each pass, every copy has its source |
| `SyncRuns.SentMayGo` | internal/syncer/syncer.go:236-264 | what a pass sends is neither a delivered message sent before nor a copy of a safe message |
| `SyncRuns.DeliveredCopiedAtMostOnce` | internal/syncer/syncer.go:215-279 | in every run and mode no delivered message is the source of two copies |
| `SyncRuns.SafeCopyNeverSent` | internal/syncer/syncer.go:236-238 | in every run and mode a copy of a safe message (in the cached mode: no tag, or its surrogate as tag) is never copied |
| `SyncRuns.NothingBounces` | internal/syncer/syncer.go:236-238 | in every run, cached or not, in which the mail that arrives is safe, no copy is copied back and appends never exceed deliveries |
| `Bounce.NeverSentBackIff` | internal/dedup/index.go:104-137 | a copy is known at its source's folder, whatever else that holds, iff it is seen under all keys of its source |
| `Bounce.CachedCopyStaysIff` | internal/syncer/syncer.go:447-452 | for the cached row of a copy: iff the source had no tag or its surrogate as tag |
| `Bounce.ResentIff` | internal/syncer/syncer.go:447-452 | a run in which a copy is sent back n times exists, for every n above zero, iff its source carries a tag that is neither empty nor the surrogate |
| `State.PairKeyInjective` | internal/store/state.go:240-242 | folder pairs have different keys as long as names hold no NUL |
| `State.Store.LoadEndpoint` | internal/store/state.go:103-141 | without an endpoint row, or when the database cannot be read, nothing is loaded; otherwise row and messages of that side |
| `State.Store.SaveEndpoint` | internal/store/state.go:145-160 | one row replaced or nothing, other sides untouched |
| `State.Store.PutCachedMsgs` | internal/store/state.go:164-195 | all rows inserted or replaced, or none, other sides untouched |
| `State.UpsertedIs` | internal/store/state.go:164-195 | of several rows with one ID the last stays, in place of any before; other rows stay |
| `State.Store.DeleteCachedMsgs` | internal/store/state.go:199-218 | a prefix of the IDs in whole chunks of 400 is gone, all of them on success |
| `State.Store.ResetEndpoint` | internal/store/state.go:221-237 | rows and endpoint row go together or not at all |
| `State.Store.RecordRun` | internal/store/state.go:272-331 | history, status and trim of that user as one step or not at all, nobody else's |
| `State.Store.ResumeUser` | internal/store/state.go:390-400 | clears the streak; fails without a status or when the update fails |
| `State.Store.ForgetUser` | internal/store/state.go:455-473 | drops status, history and cache of that user only, all or nothing |
| `Incremental.IndexFolderIncremental` | internal/syncer/syncer.go:312-426 | result, error cases and table contents for every combination of failing calls and writes; if enough delete chunks work, no row of a message that is gone stays |
| `Incremental.LoadedIff` | internal/syncer/syncer.go:320-347 | a stored row is used iff its side has an endpoint row with this token, and there is no interval or a full rescan less than the interval ago |
| `Incremental.StrLeIff` | internal/syncer/syncer.go:353-353 | string order: a prefix first, else the smaller character at the first difference |
| `Incremental.SortIDsSorts` | internal/syncer/syncer.go:353-353 | IDs are put in string order, none lost or added |
| `CacheLaws.FetchedIff` | internal/syncer/syncer.go:355-373 | a listed message is fetched iff it is still there and parses, and it is new or no listed message is |
| `CacheLaws.RowShows` | internal/syncer/syncer.go:405-420 | a parsed row or a copy row shows the message under a non-empty part of its keys, and as it is iff it is not the row of a copy with another tag |
| `CacheLaws.RefinesFullIff` | internal/syncer/syncer.go:349-425 | the index inputs are those of parsing afresh, in ID order, every listed message that is cached or still there, iff no relied-on row is that of a copy with another tag; also when no ID is new |
| `CacheLaws.IncrementalRefinesFull` | internal/syncer/syncer.go:349-425 | then the index is that of the full scan |
| `CacheLaws.NoneVanished` | internal/syncer/syncer.go:349-373 | if no listed message vanishes before the fetch, those are all listed messages |
| `CacheLaws.IncrementalDeltaIsFull` | internal/syncer/syncer.go:227-238 | and two sides indexed so find exactly the deltas of two full scans |
| `CacheLaws.PassKeepsCoherence` | internal/syncer/syncer.go:325-403 | a pass with any failing writes leaves a coherent cache |
| `CacheLaws.CoherenceKeptIff` | internal/syncer/syncer.go:338-347 | for every folder and mail iff a rescan interval is set or no rows lack an endpoint row |
| `CacheLaws.CopyRowMatchesIff` | internal/syncer/syncer.go:447-452 | the row written for a copy equals a re-parse of the copy iff the source had no tag or its surrogate as tag |
| `CacheRuns.CacheRunKeepsInv` | internal/syncer/syncer.go:312-426 | the cache invariant in every run of interrupted passes, rows of any copies, and forgets |
| `CacheRuns.UsedRowsAreSound` | internal/syncer/syncer.go:325-347 | in every such run each row a pass may use was written under the pass's own validity token, less than the rescan interval ago, and shows the message under some of its keys; under all iff it is no row of a copy with another tag |
| `CacheRuns.EveryPassRefinesFullIff` | internal/syncer/syncer.go:312-426 | in every such run a pass indexes what a full scan indexes iff it relies on no such row |
| `CacheRuns.ForeignTagMisread` | internal/syncer/syncer.go:447-452 | a run in which a pass relies on such a row, and its index inputs differ from a full scan |
| `CacheRuns.AdoptedRowIsWrong` | internal/syncer/syncer.go:338-347 | without a rescan interval, a run in which a pass relies on a row of another validity token that tells of another message |
| `CachedViews.CachedListing` | internal/syncer/syncer.go:405-425 | what a pass lists from the cache are the messages it can see, under the views that the runs of passes allow in the cached mode |
| `CachedViews.WrittenRowIff` | internal/syncer/syncer.go:447-452 | the row written for a copy is right about Message-ID and surrogate, and misread iff HasHeader finds at the source a tag that is neither empty nor the surrogate |
| `CachedRuns.CachedPassIsStep` | internal/syncer/syncer.go:215-279 | a cached pass is a pass step of the runs in the cached mode, and the caches it leaves misread only logged copies again |
| `CachedRuns.CachedRunIsRun` | internal/syncer/syncer.go:215-279 | every run of arrivals, cached passes in which anything fails, passes cut off and forgets is a run in the cached mode |
| `CachedRuns.CachedRunCopiesOnce` | internal/syncer/syncer.go:236-238 | so if the mail that arrives carries no tag but its surrogate, the two folders never hold more than two messages per arrival |
| `RunStatus.StreakExact` | internal/store/state.go:295-318 | for every event sequence the streak counts the errors since the last ok, resume or forget and dates from the first of them |
| `RunStatus.LastOkExact` | internal/store/state.go:308-308 | the last ok time is that of the latest good run since a forget |
| `RunStatus.NeverOkExact` | internal/store/state.go:295-308 | and zero without one |
| `RunStatus.LastRunExact` | internal/store/state.go:272-318 | the status shows time and result of the last run since a forget, an empty status as "ok" |
| `RunStatus.NoStatusIff` | internal/store/state.go:295-331 | there is no status iff there was no run since a forget |
| `RunStatus.UserStopped` | internal/syncer/syncer.go:79-94 | stopped iff a limit is set, the status can be read and the streak has reached it |
| `RunStatus.SyncUser` | internal/syncer/syncer.go:98-142 | a stopped user neither uses an endpoint nor changes a row; otherwise the run takes place and, unless that fails, the status shows its time, its number of errors, and "error" iff there were any |
| `RunStatus.SyncPairs` | internal/syncer/syncer.go:109-141 | pair i is attempted iff the user connects, the folders resolve, the run is not cancelled by then and no earlier pair lost its connection without a reconnect; calls and errors are counted over exactly those pairs |
| `RunStatus.WorkAccounts` | internal/syncer/syncer.go:109-141 | the errors are those with single messages, one for each pair not synchronized at first, one for each failed reconnect, one for each second attempt that fails, and one if connecting or resolving fails or a cancellation is met; a lost connection costs one call more, a second attempt another |
| `RunStatus.GoodRunIff` | internal/syncer/syncer.go:514-534 | a run is recorded as good iff the user connects, the folders resolve and every pair is done without an error before a cancellation |
| `RunStatus.StreakNeverExceedsLimit` | internal/syncer/syncer.go:79-107 | behind the gate the streak stays within the limit in every run |
| `RunStatus.StoppedUntilResumed` | internal/syncer/syncer.go:98-101 | so a stopped user makes no endpoint call and keeps its rows until resume or forget, and either lifts the stop |
| `RunStatus.TrimmedRefinesUnbounded` | internal/store/state.go:323-329 | the trimmed history always is the unbounded history cut to its latest 200 seconds, also when the clock goes back |
| `RunStatus.CutKeepsTheLatest` | internal/store/state.go:285-293 | that is: the right number of seconds, the last result of each, none dropped later than one kept |
| `Pool.Workers` | internal/syncer/pool.go:76-85 | the configured number of workers, but no more than users and at least one |
| `Pool.EachUserOnce` | internal/syncer/pool.go:115-138 | in every interleaving started users are a prefix, no user has two workers or finishes twice |
| `Pool.CancelStopsFeeding` | internal/syncer/pool.go:120-138 | after a cancellation the feeder may stop at any user, or still hand one to an idle worker; once it has stopped nobody is started |
| `Pool.NeverStuck` | internal/syncer/pool.go:115-138 | no reachable state before the return is stuck, even if nobody cancels |
| `Pool.EveryCycleEnds` | internal/syncer/pool.go:115-138 | every interleaving is finite, with a bound |
| `Pool.ReturnedMeansDone` | internal/syncer/pool.go:112-114 | on return exactly the started users have finished, and without cancellation all users |
| `FolderMatching.MatchFolders` | internal/syncer/discover.go:119-161 | the two array loops pair exactly the first free fit of each folder, by token and then by name, and return the rest of each side in order; no two leftovers of opposite sides have one name or one token up to case, and each pair after those by token has one name up to case; pairs and leftovers add up to the folders of each side |
| `FolderMatching.MatchingFacts` | internal/syncer/discover.go:119-161 | that pairing is one-to-one, tokens come first and names after, and no two opposite leftovers share a token or a name, up to case |
| `FolderMatching.FirstComeFirstServed` | internal/syncer/discover.go:119-147 | both passes go through A in order, and each folder takes the first fitting one of B that no earlier pair has |
| `FolderMatching.NothingLost` | internal/syncer/discover.go:119-161 | of that pairing: each folder is in exactly one pair, or stands at its place in the leftover list of its side |
| `FolderMatching.TokenPairsMinimum` | internal/syncer/discover.go:119-134 | the token pass of that pairing pairs exactly the smaller count of each token |
| `Tagging.HasHeader` | internal/mailbox/message.go:139-151 | true iff a CRLF line before the first empty one has the name |
| `Tagging.HasHeaderIff` | internal/mailbox/message.go:139-151 | that is a line of the header as a parser reads it, unless the message begins with an empty line |
| `HeaderFields.HasHeaderOfText` | internal/mailbox/message.go:137-151 | in a written CRLF message it finds exactly the names of the fields, in any spelling, and no folded line |
| `HeaderFields.LeadingEmptyLine` | internal/mailbox/message.go:139-151 | behind a leading empty line HasHeader finds a field where the parser sees no header |
| `HeaderFields.ParsesBack` | internal/mailbox/message.go:29-38 | parsing a written header gives back its fields in order, unfolded, for both line ends |
| `HeaderFields.MalformedIff` | internal/mailbox/message.go:35-38 | a header does not parse iff it begins with a folded line, or a line that continues no other has no colon |
| `HeaderFields.MessageIDKey` | internal/mailbox/message.go:41-71 | a first Message-Id field with x, in angle brackets or not, with any blanks, gives the first key "mid:" + x and no other key of that kind |
| `HeaderFields.MessageIDKeyOfText` | internal/mailbox/message.go:29-71 | the same from the bytes of a message, folded or not |
| `HeaderFields.NoMessageIDKey` | internal/mailbox/message.go:41-71 | without that field, or with a blank one, there is no such key |
| `HeaderFields.SameMessageIDShareKey` | internal/mailbox/message.go:111-135 | two messages with the same Message-ID share a key, whatever their other fields |
| `HeaderFields.TagKey` | internal/mailbox/message.go:44-44 | the first field of the hash header gives the key of its trimmed value |
| `HeaderFields.SurrogateKey` | internal/mailbox/message.go:41-50 | the surrogate is taken from the first Date, Subject and From fields, and is always a key |
| `Tagging.CRLFLines` | internal/mailbox/message.go:141-145 | on CRLF messages splitting at CRLF and reading lines as a parser does agree |
| `Tagging.TagComesFirst` | internal/endpoint/endpoint.go:129-133 | parsing a tagged message gives the tag field and then the fields of the message |
| `Tagging.UntaggedHasNoTag` | internal/mailbox/message.go:139-151 | on CRLF messages a tag that HasHeader misses the parser misses too |
| `Tagging.TaggedKeysIff` | internal/mailbox/message.go:156-162 | putting the tag in front keeps the key list iff the tag was absent or the surrogate |
| `Tagging.TaggingPreservesIdentity` | internal/endpoint/endpoint.go:125-134 | the copy of any CRLF message, tagged or not, parses to exactly its match keys |
| `Tagging.CopyKeepsKeysIff` | internal/endpoint/endpoint.go:125-134 | for any line ends: iff HasHeader finds the tag, or there is none, or it is the surrogate |
| `CopyIdentity.AppendedIsCopy` | internal/syncer/syncer.go:461-468 | for every message that parses, the appended bytes parse to a copy as the runs of passes require it, with all keys iff that condition holds |
| `CopyIdentity.AppendedHeader` | internal/syncer/syncer.go:461-468 | the appended bytes parse to the header that a pass gives to a copy, and HasHeader finds the tag in them |
| `Tagging.BareLFHidesTag` | internal/mailbox/message.go:141-145 | messages with bare LF for which HasHeader misses a tag the parser finds |
| `Tagging.LiteralIsExact` | internal/endpoint/endpoint.go:113-134 | the announced length is that of the bytes, and the original is a suffix |
| `Tagging.Stream.Read` | internal/endpoint/endpoint.go:119-119 | a read gives the next bytes, at most as many as asked for, and the end exactly when nothing is left |
| `Tagging.StreamedLength` | internal/endpoint/endpoint.go:125-134 | reading to the end in pieces of any size gives exactly those bytes, as many as announced |
| `Tagging.TaggingStoredCopyTwice` | internal/mailbox/message.go:153-162 | a stored copy is not tagged again |
| `Tagging.TaggingStreamTwiceIff` | internal/endpoint/endpoint.go:122-134 | tagging a literal twice equals tagging it once iff it is a buffer that has the header |
| `HeaderStripping.KeepFields` | internal/endpoint/pst.go:636-661 | the line loop keeps exactly the lines of the kept fields before the first blank line |
| `HeaderStripping.StrippedTransportHeaders` | internal/endpoint/pst.go:634-669 | and they are rendered in order in CRLF |
| `HeaderStripping.StrippedTwice` | internal/endpoint/pst.go:634-669 | stripping twice equals stripping once, for any text |
| `HeaderStripping.StrippedMeans` | internal/endpoint/pst.go:631-633 | a well-formed block parses afterwards to exactly its fields other than MIME-Version and Content-*, with their values |
| `StrippedText.StrippedIs` | internal/endpoint/pst.go:634-669 | of a written header exactly the fields stay that are not called MIME-Version or Content-something up to case and blanks, in order, folded as they were, with CRLF line ends |
| `MaildirNames.MakeFlagSuffix` | internal/endpoint/maildir.go:339-351 | the suffix of the recognized letters in order |
| `MaildirNames.ReadFlags` | internal/endpoint/maildir.go:324-336 | the flags of the recognized letters after the first ":2," |
| `MaildirNames.SuffixLetters` | internal/endpoint/maildir.go:68-69 | S, R, F, D and T stand in the suffix as often as \Seen, \Answered, \Flagged, \Draft and \Deleted are given, in order, and nothing else does |
| `MaildirNames.NameFlags` | internal/endpoint/maildir.go:324-336 | each letter behind the mark gives its flag in order, an unknown one none |
| `MaildirNames.OneOrder` | internal/endpoint/maildir.go:349-350 | there is one ascending order, so the sort used does not matter |
| `MaildirNames.NameRoundTrip` | internal/endpoint/maildir.go:144-149 | a file name gives back its unique ID and each recognized flag as often as given, in letter order, and re-encoding gives the same name |
| `MaildirNames.UniqueNames` | internal/endpoint/maildir.go:210-212 | names are equal only for the same second, process and counter, and hold no colon or slash |
| `MaildirNames.Folder.Scan` | internal/endpoint/maildir.go:124-140 | the index of new/ and then cur/ |
| `MaildirNames.ScannedIs` | internal/endpoint/maildir.go:124-149 | an ID is found iff a file that is not hidden has it as its name up to the first colon: the last such file in cur/, else the last in new/ |
| `MaildirNames.Folder.Append` | internal/endpoint/maildir.go:209-247 | the message is found under the returned ID with its flags, bytes and date, others as before, and the index equals a new scan; a failed write changes nothing |
| `MaildirFolders.Tree.CreateFolder` | internal/endpoint/maildir.go:297-309 | the directory is made, listed under its name and reached by it, for the names below; a directory left without cur/ is reported as an error |
| `MaildirFolders.FailedCreateListsNothing` | internal/endpoint/maildir.go:303-307 | a failed create adds nothing to the listing |
| `MaildirFolders.Tree.Select` | internal/endpoint/maildir.go:98-121 | the folder reached exists afterwards, a created one is reported under its name, the validity is constant; errors of mkdir and of the scan are reported |
| `MaildirFolders.Tree.ListFolders` | internal/endpoint/maildir.go:257-282 | INBOX and every dotted subfolder with a cur/, with its conventional token, or an error |
| `MaildirFolders.ListingIs` | internal/endpoint/maildir.go:257-282 | exactly the directories that begin with a dot, have a cur/ and are not only dots, in order, with inner dots as slashes |
| `MaildirFolders.TokenIs` | internal/endpoint/maildir.go:286-293 | the tokens of Sent, Drafts, Trash, Junk and Archive in any spelling, and none otherwise |
| `MaildirFolders.TokenPath` | internal/endpoint/maildir.go:61-96 | a token leads to .Sent, .Drafts, .Trash, .Junk or .Archive: the directory of that name, else the first that differs in case, else the one to be made |
| `MaildirFolders.NamePath` | internal/endpoint/maildir.go:72-96 | any other name leads so to a dot and the name, slashes as dots and none around it |
| `MaildirFolders.InboxIsRoot` | internal/endpoint/maildir.go:72-76 | a blank name, and INBOX in any spelling, lead to the root |
| `MaildirFolders.TokenRoundTrip` | internal/endpoint/maildir.go:286-293 | the subfolder a token stands for is listed under that token |
| `MaildirFolders.ListedNameIff` | internal/endpoint/maildir.go:297-309 | create-then-list gives back a name iff it has no dot and no edge slash |
| `MaildirFolders.SelectReachesIff` | internal/endpoint/maildir.go:72-96 | of those, select reaches the created directory iff no edge space, not INBOX, not a token |
| `MaildirFolders.DirNamesDiffer` | internal/endpoint/maildir.go:298-302 | distinct canonical names are distinct directories |
| `MaildirFolders.CreateOnlyAdds` | internal/endpoint/maildir.go:297-309 | creating adds that name to the listing and nothing else |
| `ImapFolders.Client.ListFolders` | internal/mailbox/client.go:241-269 | every folder under its canonical name, in order, with its token and whether it can be selected, or an error without a listing |
| `ImapFolders.Client.ResolveFolder` | internal/mailbox/client.go:172-212 | the first folder meant by token, name, translated name or folded name, in that order, or an error without a listing |
| `ImapFolders.TokenResolves` | internal/mailbox/client.go:178-186 | a token resolves to the first folder that carries it in any spelling, whatever the folders are called |
| `ImapFolders.NameResolves` | internal/mailbox/client.go:187-191 | otherwise an exact name resolves to itself |
| `ImapFolders.TranslationResolves` | internal/mailbox/client.go:195-202 | otherwise a name with slashes, on a server with another delimiter, to the first folder of the translated name up to case |
| `ImapFolders.FoldResolves` | internal/mailbox/client.go:203-207 | otherwise a name to the first folder equal up to case |
| `ImapFolders.NotResolvedIff` | internal/mailbox/client.go:172-212 | nothing is found iff none of these applies |
| `ImapFolders.DelimiterIs` | internal/mailbox/client.go:230-237 | the delimiter is the first one reported, else a slash |
| `ImapFolders.SpecialUseIs` | internal/mailbox/client.go:258-265 | the token of a folder is the last of its attributes that is one of the seven |
| `ImapFolders.NoselectIff` | internal/mailbox/client.go:258-261 | a folder cannot be selected iff it has \Noselect in any spelling |
| `ImapFolders.Client.CreateMailbox` | internal/mailbox/client.go:274-289 | the translated name is created and the next listing shows it; without a listing nothing is created |
| `ImapFolders.ListThenResolve` | internal/mailbox/client.go:172-269 | every listed name resolves to the folder it came from |
| `ImapFolders.CreateListIff` | internal/mailbox/client.go:241-289 | create-then-list gives back a name iff it is free of the delimiter and not INBOX in other letters |
| `ImapFolders.CreateThenResolve` | internal/mailbox/client.go:172-289 | a created folder is listed under its name and that name resolves to it |
| `Batching.LoopEndsIff` | internal/mailbox/client.go:356-357 | the loop ends after the batches that cover the folder iff the end of the last batch can be counted in 32 bits; else it starts again below |
| `Batching.CountableIff` | internal/mailbox/client.go:356-357 | the number of batches is the size divided by the batch size, rounded up, and the end can be counted iff one more than all of them is below 2^32 |
| `Batching.FromAtIs` | internal/mailbox/client.go:356-356 | the loop variable after n rounds is 1 + n times the batch size modulo 2^32 |
| `Batching.RequestIs` | internal/mailbox/client.go:357-357 | a request ends one before the next begins, modulo 2^32, or at the last message |
| `Batching.LoopEverEndsIff` | internal/mailbox/client.go:356-357 | it ends at all iff the folder is smaller than the largest number its variable takes, which depends on the power of two in the batch size |
| `Batching.FetchHeaders` | internal/mailbox/client.go:351-377 | the requests of each round in 32-bit numbers and what they are answered with, until the end or the patience of the caller; if the end of the last batch can be counted they tile the folder from 1 to its end and every message is fetched once and in order |
| `Batching.FetchHeadersByUID` | internal/mailbox/client.go:396-427 | the chunks joined are exactly the list, each of the batch size but perhaps the last; without a batch size there is one |
| `Batching.ChunkedFacts` | internal/mailbox/client.go:403-408 | each chunk has the batch size, the last one perhaps less |

## Left out

- Network, authentication and protocol code (IMAP, EWS, NTLM, OAuth), configuration loading, statistics and the command line.
- PST property reading and body building: of pst.go only the header stripping is modelled.
- SQL text, migrations and locking: each transaction is one step, and one daemon owns the database.
- SHA-256, date parsing, encoded words and address parsing: the surrogate is an arbitrary function of the Date, Subject and From fields.
- The header parser of Go's net/mail: fields follow section 2.2 of RFC 5322, and the end of the text ends the header.
- Unicode: EqualFold, ToLower and TrimSpace are ASCII.
- Server-side deletions in `SyncRuns`: a run there only adds messages, and folders are re-ordered freely; the cache runs do include deletions and arrivals between passes.
- Message sizes and the `XHash` field of an index input, which nothing in the core reads.
- Flags and dates in the agreement of cache and full scan, which compares identities: a cache may hold older flags. Which flags and dates a pass carries over is proved apart, in both modes (`Copies.FullPassCarries`, `PassFacts.CachedPassCarries`).
- `pairFolders`, `filterFolders` and the exclusion list: plain filters. `pairFolders` may add a second pair for an existing folder, since creating an existing Maildir folder succeeds.
- `encodeFlags` and `decodeFlags`: plain loops over one list.
- CachedRuns.CachedPassIsStep: is stated for one validity token per side, since another token renames every message, and for passes during which nothing arrives between the listing and the fetch; `CachedViews.CachedListing` and `CacheLaws.RefinesFullIff` need neither.
- ImapFolders.Client.ResolveFolder: a delimiter is one character or absent, and the error text listing the folders is left out.
- Batching.FetchHeaders: what a server answers to a range whose end wrapped around is left open.
