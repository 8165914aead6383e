# Friendfeed server: a verified model

The Go server keeps everything in two ordered key-value stores. This project models what it
builds on them and proves that the parts fit together:

- **Bytes, Flake, Keys** (`Bytes.dfy`, `Flake.dfy`, `Keys.dfy`): byte order, big-endian integers
  and hexadecimal text; 128-bit time-ordered ids and the "maximum minus timestamp" mirror of a
  time; the composite keys rows are stored under.
- **Storage** (`Storage.dfy`, `Messages.dfy`): the store as a map from byte strings to messages, an
  iterator over a sorted snapshot, and the one scan loop everything else reads by.
- **Table, EntryIndex, Reactions, OAuth** (`Table.dfy`, `EntryIndex.dfy`, `Reactions.dfy`,
  `OAuth.dfy`): entries with their per-user reverse index, likes, comments and account bindings.
- **ReactionProtocol** (`ReactionProtocol.dfy`): likes and comments on one entry by requests whose
  reads and writes interleave without a lock.
- **PublicIndex, IndexProtocol** (`PublicIndex.dfy`, `IndexProtocol.dfy`): the buffer of the 500 most
  recent keys behind the public feed, first as whole calls, then cut into its steps with any number
  of callers interleaving.
- **Jobs, JobProtocol** (`Jobs.dfy`, `JobProtocol.dfy`): the job queue, first as whole calls on the
  store, then cut into its database steps with any number of clients interleaving.
- **Feeds, Server, ServerRuns** (`Feeds.dfy`, `Server.dfy`, `ServerRuns.dfy`): paging, the server's
  operations over both stores and the index together, and whole runs of them.

Reading conventions. A Go string is a sequence of bytes. An instant is an unbounded number of
nanoseconds since the epoch; the source's 64-bit conversions, truncating division and saturating
subtraction are written out. UUID and RFC 3339 parsing are arbitrary functions (`Table.Env`), so
every theorem holds for all of them; where a result needs that empty text and text beginning
with `e/` are no UUIDs, it says `EnvOk`. The clock is the sequence of readings it gives. A scan
callback's captured variables are passed through the scan as a state value. Iterators read the
rows as they were when made; puts and deletes succeed.

Where the code falls short of the claim one would like to make, the exact condition is proved:

- ids of one generator increase exactly when no millisecond yields more than 65536 of them
  (`Flake.IncreasingIffFitsSequence`; a clock that stands still reaches that,
  `Flake.SteadyClockIncreases`), and a time source that answers the zero instant repeats ids
  (`Flake.ZeroInstantRepeatsId`);
- reverse ids order whole seconds newest first exactly inside the range of `Flake.ReverseOrder`: dates
  before 1962-02-23 share one id (`Flake.SameReverseId`), and dates after 2254-06-04 sort behind all
  others;
- a `MetaKey`'s string decodes to its bytes only when its text is empty (`Keys.StringDecodes`), so
  finishing a job again as `FinishJob` returned it unmarks another target exactly when that target's
  name is the decoded hex of the job's (`Jobs.FinishingAgainLoses`; "ab" and "6162" are such names);
- a job is queued behind the stored ones exactly when its id is larger than theirs, so a new process
  over an old store keeps the order exactly when its first id is and its ids increase
  (`Jobs.NewProcessKeepsOrder`);
- `rebuild` stays inside its arrays for every queue exactly when the old buffer has a blank or no
  duplicate; a stored buffer of 500 keys with a duplicate makes it run past the end
  (`PublicIndex.InBoundsForEveryQueue`);
- keys queued when the server is shut down are lost to the public feed exactly when they are not
  already the ones it begins with (`Server.Restart`);
- a reader of the buffer without the lock sees all of it exactly when no rebuild is in its loops or
  these have filled as many slots as there will be (`IndexProtocol.UnlockedReadSeesPrefix`); it can
  meet a buffer that holds keys with none at all (`IndexProtocol.UnlockedReadCanBeEmpty`);
- a job is lost exactly when the process stops before its row is put, in `EnqueJob` or between
  `GetFeedJob`'s delete and put (`JobProtocol.LostIff`);
- some like or comment is lost exactly when a request writes the entry between another one's read
  and write (`ReactionProtocol.NothingLostIff`);
- entries and index rows correspond exactly when every first insertion's date parses and no two
  claim one row (`EntryIndex.BijectionIff`); an entry drops out of the feed exactly when its date did
  not parse or a later one, as of one user in one second, claimed its row
  (`EntryIndex.EntryReachedIff`);
- accounts of unknown providers share rows (`OAuth.SharedRow`).

## Model

| member | source | states |
|---|---|---|
| `Bytes.LexPrefixInterval` | storage/table.go:289-290 | the keys under a prefix are an interval of byte order that starts at the prefix, so seeking to it and stopping at the first key without it misses none |
| `Bytes.BigEndianOrder` | storage/flake/flake.go:113-117 | fixed-width big-endian integers sort as numbers and are injective |
| `Bytes.HexRoundTrip` | storage/store.go:331-331 | hex text decodes to the bytes it was made from |
| `Bytes.DecodeStops` | storage/store.go:331-331 | hex decoding ends at the first pair that is not two hex digits, and reports success exactly at the end of the text |
| `Flake.Generator.NextId` | storage/flake/flake.go:96-120 | a reading that is not behind yields an id of its millisecond in 64 bits, the worker's bytes and a sequence number that starts at zero and counts up within the millisecond, wrapping at 65536; a clock that stepped back yields an error and leaves the generator unchanged |
| `Flake.NextIdIncreases` | storage/flake/flake.go:103-117 | an accepted reading gives a larger 16-byte id than the last exactly when the millisecond advanced or a sequence number was left in it |
| `Flake.FreshRunIncreasing` | storage/flake/flake.go:96-120 | for any time source at all, the ids of a whole run increase strictly exactly when each accepted reading after the first met that guard |
| `Flake.IncreasingIffFitsSequence` | storage/flake/flake.go:68-117 | for any time source that never answers the zero instant, even one stepping backwards, the ids increase strictly exactly when no millisecond yields more than 65536 |
| `Flake.SteadyClockIncreases` | storage/flake/flake.go:103-107 | a clock that stands still anywhere but at the zero instant gives increasing ids exactly up to the 65536th |
| `Flake.ZeroInstantRepeatsId` | storage/flake/flake.go:103-105 | a source stuck at the zero instant is taken for an unset clock and repeats one id |
| `Flake.ParseTimestampRecovers` | storage/flake/flake.go:145-148 | the time read back from an id is the reading exactly for whole milliseconds within 64 bits of nanoseconds |
| `Flake.ReverseOrder` | storage/store.go:215-221 | for all whole seconds, the later one gets the smaller reverse id exactly when neither is clamped onto the other and MaxTime is not between them |
| `Flake.ReverseOrderInRange` | storage/store.go:216-217 | between the epoch and MaxTime the duration is exact and newer sorts strictly first as 16 bytes, whatever the worker ids |
| `Flake.ReverseOrderWeak` | storage/store.go:215-221 | for all dates between the epoch and MaxTime, fractions of seconds and the rounding of `Seconds()` included, the later one's timestamp bits are no larger |
| `Flake.RoundsUpRarely` | storage/store.go:216-217 | a duration's seconds as a 64-bit float, truncated, are at most one too many, and only in the last 1024 nanoseconds of a second |
| `Flake.RoundsUpIff` | storage/store.go:216-217 | between 2^e and 2^(e+1) seconds they are one too many exactly when at most 2^(e-53) of a second is missing, half the distance of floats there |
| `Flake.SameReverseId` | storage/store.go:215-221 | two seconds share a reverse id exactly when both are clamped at the same end, as all up to 1962-02-23 are |
| `Flake.ParseReverseTimestampRecovers` | storage/flake/flake.go:151-156 | a reverse id gives back its second exactly between 1962-02-23 and 2262-04-11 |
| `Keys.BytesSplit` | storage/store.go:234-409 | every key is its table in four bytes and then its rest, and Len is its length |
| `Keys.BytesInjective` | storage/store.go:273-397 | equal bytes mean one table, and within a kind one key |
| `Keys.TablePrefix` | storage/store.go:235-239 | a table's scan sees a key exactly when the key is in the table |
| `Keys.UserPrefix` | storage/store.go:388-405 | a UUIDFlakeKey begins with another key's UUIDKey exactly when table and uuid agree, so no user's scan sees another's rows |
| `Keys.UnderOwnPrefix` | storage/store.go:287-289 | every key lies under its own Prefix |
| `Keys.StringDecodes` | storage/store.go:291-293 | hex-decoding String gives Bytes for all other kinds, and for a MetaKey exactly when its text is empty |
| `Keys.StringInjective` | storage/store.go:250-409 | within a kind the string names one key |
| `Storage.Store.NextId` | storage/store.go:198-207 | retrying returns the id of the first reading that is not behind, rejected readings leaving no trace |
| `Storage.TimeTravelReverseId` | storage/store.go:215-221 | the id of a fresh generator whose clock stands at the mirrored second: that second's milliseconds, the worker's bytes, sequence zero; float rounding of the duration included |
| `Storage.PrefixBlock` | storage/table.go:289-290 | from the seek position the keys under the prefix form one contiguous block of the sorted keys |
| `Storage.ForwardTableScan` | storage/table.go:285-307 | the callback runs on exactly the keys under the prefix, ascending, on the snapshot, and count, error and state are those of that sequence of calls |
| `Storage.FoldMeaning` | storage/table.go:296-306 | the count is the index of the first call that did not go on, or the number of keys; StopIteration is not an error, any other error is returned; no later key is visited |
| `Storage.FoldDeletes` | server/job.go:278-280 | a callback that deletes selected rows from the live store while scanning removes exactly those |
| `Table.PutEntry` | storage/table.go:24-93 | malformed uuids change nothing; a stored entry is replaced when updating and left otherwise; a new one is stored, and indexed under its user and date unless the date is malformed; key, error and trimmed entry in each case; on a well-formed table it keeps what `PutKeepsTable` says |
| `Table.PutKeepsTable` | storage/table.go:45-92 | no call makes an index row point to a missing entry or loses an entry; on an existing entry the index is untouched; a call that fails other than on the date changes nothing |
| `EntryIndex.LogReflects` | storage/table.go:45-92 | over any run, entries are the keys first inserted, each once, and each index row holds the last insertion that claimed it |
| `EntryIndex.BijectionIff` | storage/table.go:68-90 | over any run, index rows and entries correspond one to one exactly when every first insertion's date parsed and no two claimed one row |
| `EntryIndex.DatesGiveBijection` | storage/table.go:82-90 | distinct whole-second dates in range per user are enough for that |
| `EntryIndex.BijectionIffDatesDistinct` | storage/table.go:68-90 | when all dates are whole seconds in range and one worker id is used, that is exactly what it takes |
| `EntryIndex.ScanNewestFirst` | server/server.go:364-393 | a user's scan yields that user's entries only, strictly newest first by date of first insertion |
| `EntryIndex.ScanNearlyNewestFirst` | server/server.go:364-393 | for any dates between the epoch and MaxTime, repeated ones and fractions of seconds included, the mirrored time never decreases along a user's scan and no entry comes before one a second or more newer |
| `EntryIndex.ScanComplete` | server/server.go:364-370 | and every entry of the user is met |
| `EntryIndex.EntryReachedIff` | storage/table.go:85-90 | an index row leads to an inserted entry exactly when its date parsed and no later first insertion claimed the same row |
| `EntryIndex.LaterClaimHidesEntry` | storage/table.go:85-87 | so a later first insertion of the same user and second hides the earlier entry from every index row |
| `Reactions.Like` | storage/table.go:414-437 | a first like goes last, with the time and the profile's id, name and type, and updates the entry; a repeated like returns no key and writes nothing |
| `Reactions.DeleteLike` | storage/table.go:439-453 | removes the user's first like and updates the entry; without one nothing is written |
| `Reactions.LikeThenUnlike` | storage/table.go:424-449 | unliking undoes a like that was not there before |
| `Reactions.LikesFollowRequests` | storage/table.go:414-453 | over any run of requests on a list there is at most one like per user, present exactly when the user's latest request was a like; `ServerRuns.StoredReactions` has it for the store |
| `Reactions.Comment` | storage/table.go:455-477 | an edit under another author's id is refused with the store unchanged; otherwise the entry is updated with the comment set |
| `Reactions.DeleteComment` | storage/table.go:479-493 | removes the comment with the id and updates the entry; without one nothing is written |
| `Reactions.SetCommentIsMapUpdate` | storage/table.go:458-474 | setting binds the id, keeps all other bindings, the order and length on an edit, appends a new id, and is refused exactly for another author's comment |
| `Reactions.RemoveCommentIsMapRemove` | storage/table.go:481-489 | deleting unbinds the id, keeps all other bindings and the order |
| `Reactions.CommentsAreMap` | storage/table.go:455-493 | over any run of comment and delete requests the list equals a plain map keyed by id, ids staying distinct |
| `Reactions.CommentsKeepOrder` | storage/table.go:455-493 | over any such run the ids stay in the order in which they were last added |
| `ReactionProtocol.ChainIsStored` | storage/table.go:414-493 | under any interleaving of reads and writes the stored entry is the first one with exactly the changes of the chain of copies leading to the last write, each once, in order |
| `ReactionProtocol.NothingLostIff` | server/server.go:453-511 | no write is lost exactly when none came between another's read and write; the entry is then what all changes in order make of it |
| `ReactionProtocol.OverlapLosesLike` | storage/table.go:424-437 | two overlapping likes by different users leave only one |
| `OAuth.PutOAuthUser` | storage/table.go:335-364 | fails, changing nothing, exactly when the row does not unmarshal or both uuids are given and denote different users; otherwise the row holds the account, with the stored uuid when none is given, which is the answer; no account loses or changes its uuid |
| `OAuth.BindOAuthUser` | storage/table.go:366-412 | stores the message over an unbound account and answers it, answers a bound one under the same text from the store, refuses any other and a missing account; no account loses or changes its uuid |
| `OAuth.GetOAuthUser` | storage/table.go:309-333 | looks the account up under its provider's table, unknown providers under table 0; nothing stored and an empty message read as no account |
| `OAuth.SharedRow` | storage/table.go:310-318 | two accounts share a row exactly when their ids agree and their providers agree or are both unknown |
| `OAuth.BindingIsWriteOnce` | storage/table.go:335-412 | over any sequence of calls with any uuid texts, a binding once made never goes away and never denotes another uuid |
| `OAuth.BindSucceedsIff` | storage/table.go:382-411 | binding succeeds exactly for a stored account that is unbound or bound under the same text, and then the account denotes the uuid asked for |
| `OAuth.NoOtherBindSucceeds` | storage/table.go:366-412 | once an account is bound, whatever calls follow, no binding under another uuid succeeds |
| `PublicIndex.RecentMeaning` | server/index.go:90-101 | the first 500 distinct keys, read newest first, keep each key once in order of its newest push and drop one only for 500 newer ones |
| `PublicIndex.TruncationIsHarmless` | server/index.go:108-117 | cutting the older part to 500 keys first never changes the result |
| `PublicIndex.RebuiltFromHistory` | server/index.go:84-121 | one rebuild carries the agreement with the push history from the pushes applied so far to all of them |
| `PublicIndex.QueuedKeysLost` | server/index.go:148-159 | a buffer dumped with keys still queued shows what a rebuilt one would exactly when those keys, newest first, are the ones it begins with |
| `PublicIndex.RebuildStaysIff` | server/index.go:89-121 | the two loops as coded, the second of which does not bound j, stay inside their arrays exactly when the queue fills the buffer, a blank is met or there are 500 distinct keys |
| `PublicIndex.InBoundsForEveryQueue` | server/index.go:89-121 | they do so for every pending queue exactly when the old buffer has a blank or no duplicate; otherwise a queue of its first key makes them run past the end |
| `PublicIndex.BlankPushHidesAll` | server/index.go:110-112 | a blank key pushed last would hide all others from the next rebuild |
| `PublicIndex.IdleRebuild` | server/index.go:76-124 | rebuilding with nothing pending leaves the buffer as it is |
| `PublicIndex.FeedIndex.Push` | server/index.go:67-74 | queues the key, sets dirty, keeps the index invariant |
| `PublicIndex.FeedIndex.FillFromQueue` | server/index.go:90-101 | the first loop leaves the distinct pending keys, newest first, up to 500 |
| `PublicIndex.FeedIndex.FillFromOld` | server/index.go:108-121 | the second loop completes them from the old buffer and never leaves it |
| `PublicIndex.FeedIndex.RebuildLocked` | server/index.go:81-123 | whenever the loops stay inside their arrays, the buffer becomes the first 500 distinct keys of the queue, newest first, and the old keys; the queue is empty and dirty is cleared |
| `PublicIndex.FeedIndex.RebuildAfterCheck` | server/index.go:76-124 | from any answer of that look, however stale: the buffer agrees with the whole push history, or nothing changed; a rebuild that raced past the check changes nothing |
| `PublicIndex.FeedIndex.Rebuild` | server/index.go:76-124 | after a rebuild the buffer is exactly the first 500 distinct keys of all pushes, newest first, and then what was loaded |
| `PublicIndex.FeedIndex.Load` | server/index.go:126-146 | takes over a stored buffer, keeps the invariant when that is distinct keys and then blanks, changes nothing when there is none |
| `PublicIndex.FeedIndex.Dump` | server/index.go:148-159 | stores a buffer that can be loaded again |
| `IndexProtocol.StepInv` | server/index.go:67-124 | every step of every interleaving of pushes and rebuilds keeps the invariant tying queue, flag, buffer and loop counters to the pushes |
| `IndexProtocol.LookMissesNothing` | server/index.go:77-79 | a look at dirty without the lock that answers false, at any moment of any run, finds every key whose Push has released the lock applied |
| `IndexProtocol.RebuildCoversEarlierPushes` | server/index.go:76-124 | when a rebuild call returns, on either path, every key whose Push had released the lock before it began is applied |
| `IndexProtocol.FreeIsRecent` | server/index.go:67-124 | whenever the lock is free the buffer is the first 500 distinct keys of those applied, newest first, and then of those loaded; the rest is queued and dirty says whether there is any |
| `IndexProtocol.RacedRebuildsChangeNothing` | server/index.go:76-124 | rebuilds that raced past the look and find nothing queued leave the buffer as it was, however many run |
| `IndexProtocol.RebuildMatchesCall` | server/index.go:81-123 | the steps of one rebuild, whatever comes between them, make of the queue and the buffer what `FeedIndex.RebuildLocked` promises of the whole call |
| `IndexProtocol.RebuildNeverStuck` | server/index.go:89-121 | in every reachable state the next step of a rebuild stays inside its arrays |
| `IndexProtocol.UnlockedReadSeesPrefix` | server/server.go:315-324 | in every reachable state the buffer read without the lock is well-formed and, outside a rebuild's loops, complete; inside them it holds the first keys of the new one, and all of them exactly when as many slots are filled as there will be |
| `IndexProtocol.UnlockedReadCanBeEmpty` | server/index.go:84-87 | from every buffer that holds keys there is a run in which such a reader meets none |
| `IndexProtocol.UnlockedSlotIsKnown` | server/server.go:315-324 | every slot read without the lock is blank or holds a key pushed or loaded |
| `Jobs.JobServer.EnqJob` | server/job.go:123-137 | stores the job, changed in key and times only, under the key it names and nothing else; it is queued last exactly when that key sorts behind all pending ones, as it does, on a new row, for an id larger than theirs |
| `Jobs.JobServer.DequeJob` | server/job.go:164-185 | takes the oldest job off the queue and deletes its row; on an empty queue no row changes |
| `Jobs.JobServer.GetFeedJob` | server/job.go:139-162 | moves the oldest job, changed in key, worker and times only, to the running table under the key it now names, over no other row unless an id repeats; on an empty queue fails without changing any row |
| `Jobs.JobServer.FinishJob` | server/job.go:187-205 | deletes the row the job names and writes the job, marked done and changed in key and time besides, as its target's history row; the queue loses at most the one job so named |
| `Jobs.FinishingAgainLoses` | server/job.go:187-205 | after a job is finished again as FinishJob returned it, another target is unmarked exactly when its name is the decoded hex of the job's target; the job's own stays marked |
| `Jobs.FinishingAgainLosesAb` | server/job.go:187-205 | such names exist: finishing target "6162" twice unmarks target "ab" |
| `Jobs.EnqueueAllKeepsOrder` | server/job.go:123-137 | over any stored rows, jobs are queued behind the old ones in order and each on its own row exactly when their ids increase and the first is larger than all stored |
| `Jobs.NewProcessKeepsOrder` | server/job.go:123-137 | a fresh generator does so exactly when no millisecond yields more than 65536 ids and its first id is larger than every pending one |
| `Jobs.LaterMillisecondSortsAfter` | storage/flake/flake.go:112-117 | a first id of a later millisecond is larger, whichever worker made the stored ones |
| `Jobs.PurgeJobs` | server/job.go:274-294 | exactly the pending and running rows are gone, every other table is untouched |
| `Jobs.FixJobs` | server/job.go:296-330 | exactly the jobs without a remote key are gone from the two tables; on a row that is no job it stops with only such jobs deleted |
| `Jobs.FixTooMuchJobs` | server/job.go:332-366 | the same for jobs with a limit of 99 |
| `JobProtocol.StepInv` | server/job.go:123-205 | every database step of every interleaving, over any number of processes on one store, keeps the invariant that each row's key field names its own row and each job has one place, as long as no id is given twice |
| `JobProtocol.ExactlyOnePlace` | server/job.go:123-205 | in every reachable state each enqueued job is in exactly one of: arriving, pending, held by GetFeedJob, running, held by FinishJob, finished, dropped in FinishJob or lost with a process, with at most one row per table, repeated finishes included |
| `JobProtocol.LostIff` | server/job.go:123-180 | a job is lost exactly when a process stopped while its EnqueJob call had an id and no row, or GetFeedJob had deleted its row and put none |
| `JobProtocol.HandedOutOnce` | server/job.go:139-185 | no job is handed to two workers, and every pending or running row is stored under the key its job names |
| `JobProtocol.FinishedForGood` | server/job.go:193-203 | a finished job stays finished and its target has a history row in every later state, repeated finishes and new processes included |
| `JobProtocol.WorkIsCarried` | server/job.go:123-205 | from its enqueue on, over any interleaving and any number of processes, every message about a job carries the id, remote key, target, limit and payload given to EnqueJob, and its status until it is done |
| `JobProtocol.HandedOutAsGiven` | server/job.go:123-162 | what GetFeedJob hands out is the work given to the EnqueJob call it stems from |
| `JobProtocol.FinishedAsGiven` | server/job.go:123-205 | a finished job has marked the target it was enqueued for |
| `JobProtocol.GetRunsAlone` | server/job.go:139-162 | without interleaving, GetFeedJob's steps move the least pending row to the running table, changed in key, worker and times only |
| `JobProtocol.FirstInFirstOut` | server/job.go:123-185 | under any interleaving and over any number of processes, a job whose enqueue returned before another's began, with the smaller id, is handed out before it or lost |
| `JobProtocol.ClockKeepsOrder` | server/job.go:123-137 | in one process whose every id is larger than its last, the ids of all jobs increase over any interleaving |
| `JobProtocol.FirstInFirstOutInOneProcess` | server/job.go:123-185 | so in one process whose clock advances, a job whose enqueue returned before another's began is always handed out before it |
| `JobProtocol.HandedOutInOrder` | server/job.go:123-185 | when enqueues do not overlap and ids increase, jobs are handed out in the order enqueued over a whole run, none passed over but those lost |
| `JobProtocol.HandedOutIsPrefix` | server/job.go:123-185 | in one process whose clock advances, when enqueues do not overlap, the jobs handed out over a whole run are a prefix of those enqueued, in order |
| `Feeds.PageSize` | server/server.go:306-308 | a page size between 1 and 99 is taken as asked for, any other is 50 |
| `Feeds.WindowMeaning` | server/server.go:315-340 | a page begins at Start and is as long as asked for while the list lasts |
| `Feeds.FormatMeaning` | server/helper.go:25-33 | a formatted entry differs from the stored one in the picture only, which is that of the undeleted profile its author's id leads to; it fails exactly when there is none |
| `Feeds.ForwardCountMeaning` | server/server.go:389-391 | a page of a user's feed holds PageSize + 2 entries as coded, fewer for a negative Start, and one when the 32-bit sum overflows |
| `Feeds.WalkCovers` | server/server.go:305-397 | walking Start by PageSize covers the list in order without a gap, for any page of at least PageSize entries |
| `Feeds.FetchFold` | server/server.go:370-393 | the scan appends exactly the formatted rows of its window and fails exactly when one of them has no entry or author |
| `Server.NewApiServer` | server/server.go:35-62 | starting from a well-formed stored index establishes the server's invariant |
| `Server.ApiServer.PostEntry` | server/server.go:444-451 | a new entry with a date is stored, indexed and pushed under its key and answered; one without a date is stored only, a stored or malformed one changes nothing, and all three are errors; the invariant is kept |
| `Server.ApiServer.ArchiveFeed` | server/server.go:176-226 | pushes, in stream order, the keys of exactly the new entries with a date, also when the stream breaks off; the rows are those of putting the entries one by one; a stream that ends is answered with count and first and last date; the buffer waits for a rebuild |
| `Server.ApiServer.ForceArchiveFeed` | server/server.go:228-265 | the same with updates: pushed are the keys of exactly the entries stored already, or earlier in the stream, and of the new ones with a date |
| `Server.ArchivePushes` | server/server.go:176-265 | which entries of a stream are taken, told from the stream and the rows before it |
| `Server.ApiServer.LikeEntry` | server/server.go:453-478 | a user with a profile that is not deleted adds a like with time, id, name and type behind the others and the entry is pushed, unless there is one already; an unlike takes the user's first like out; a deleted profile, malformed text or missing entry changes nothing |
| `Server.ApiServer.CommentEntry` | server/server.go:480-497 | a comment under a new id goes last, one under an id of the same author replaces it, and the entry is pushed; one under another author's id, or without an undeleted profile, changes nothing |
| `Server.ApiServer.DeleteComment` | server/server.go:499-511 | takes the first comment with the id out of the entry for any user with an undeleted profile and pushes nothing; fails without one |
| `Server.ApiServer.RebuildIndex` | server/index.go:76-124 | after a rebuild at any time the buffer is the newest 500 of all pushed and loaded, every one the key of a stored entry |
| `Server.ApiServer.Shutdown` | server/server.go:64-79 | stores the buffer under the key the next process loads it by and changes nothing else |
| `Server.Restart` | server/server.go:35-79 | a process started after a shutdown is valid and shows the same buffer; it misses pushed keys exactly when keys were queued that the buffer did not already begin with |
| `Server.ApiServer.CachedFeed` | server/server.go:305-353 | in every state the invariant allows, answers the stored entries behind the keys of the window of the public index that begins at Start, PageSize + 1 of them or all that remain, unchanged but for the author's current picture; "entry data missing" never occurs |
| `Server.ApiServer.ForwardFetchFeed` | server/server.go:354-411 | after any operations, answers the stored entries behind exactly the window of the user's index rows that begins at Start, unchanged but for the author's picture, strictly newest first when the user's entries were first inserted with distinct whole-second dates in range, and never an entry before one a second newer for any dates in range; fails exactly when the user or an author on the page has no undeleted profile |
| `Server.PutBack` | server/server.go:453-511 | writing back an entry that was read replaces its own row only; writing back the empty entry of a missing row fails and changes nothing |
| `ServerRuns.HandleAll` | server/server.go:176-511 | any sequence of posts, archives, likes, comments, deletions and rebuilds leaves the rows, pushes and first insertions that `ServeAll` says, and keeps the invariant |
| `ServerRuns.PublicFeedAfter` | server/server.go:305-353 | after any such sequence and a rebuild, a page of the public feed is the window of the first 500 distinct keys of all pushes, newest first, and then of what was loaded |
| `ServerRuns.EntryFollowsRequests` | server/server.go:176-511 | over any such sequence, what is stored under an entry key is the entry put there last, the first one or a later archived copy, as the likes and comments asked of it since, one after the other, make it; nothing else changes it |
| `ServerRuns.StoredReactions` | server/server.go:453-511 | in the store too, since the entry was put there, there is at most one like per user, present exactly when the user's latest request on the entry was a like, and the comments are a map keyed by id in the order ids were added, given that the entry as put was such |

## Left out

- RocksDB itself: options, filters, repair, and crashes between two puts other than those of the job queue.
- Protobuf and gob encodings: marshalling and unmarshalling are inverse, and only the fields the logic uses are kept; a message without its author (a nil `From`) is not modelled.
- Raw profile-id keys of the meta store that begin like a table prefix.
- JobProtocol.StepInv: an id given twice, as after 65536 in a millisecond, makes one job's row overwrite another's and is not a step; `Jobs.JobServer.EnqJob` and `Jobs.EnqueueAllKeepsOrder` say when that happens.
- JobProtocol.ExactlyOnePlace: FinishJob is called with jobs as they were handed out; the purge and fix commands and `RedoFailedJob` are not steps of the protocol.
- Server.ApiServer.LikeEntry: requests run one at a time; what overlapping ones do to an entry is in `ReactionProtocol`, which leaves out the index and archived copies.
- Server.ApiServer.CachedFeed: reads the buffer between rebuilds; what the unlocked read can see is in `IndexProtocol`, where reading or writing `dirty` and one slot are single steps.
- `FeedIndex.Serve` and its channels: a rebuild may happen at any time.
- `UpdateProfile`, `SaveFeedinfo`, `DeleteService`, `BuildGraph`, `FixComment`, `MarkDelete`, the refetch commands and the feed's header fields: single reads and writes without a law across operations.
- gRPC, HTTP, sessions, templates, media mirroring and the Python clients.
