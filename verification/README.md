# What StreamNZB's backend guarantees

StreamNZB is a Go server that searches usenet indexers, merges what they
return, and plays a release while it is still being fetched. This project models
the parts of its backend whose guarantees quantify over whole runs or over
several functions at once, and proves those guarantees. `dafny verify
dfyconfig.toml` checks all of it.

| files | what they model |
|---|---|
| PlaybackStream, LeaseProtocol | the playback stream of a session: acquire, wait, open outside the lock, lease, snapshot, reset, close |
| PlaybackInfo | what a session shows of its playback meanwhile, and how an acquire goes |
| LazyDownload | the single-flight NZB download of a deferred session |
| SessionLifecycle, SessionHistory | the session map: create, replace, touch, evict, close; and what a session's fields say about the run so far |
| Release, MergeGroups, MergeRanking, MergeFold, MergeResult, MergeOrder | merging copies of a release, on values, and where each copy ends up |
| MergeInPlace | the same merge on objects, as it runs |
| UsageManager, ClientCore, QuotaMirror | quota accounting, header syncs, cooldowns and probes, and a client's mirror of its counts |
| RequestLimiter | the request pacer and its cancellations |
| CensusOrder, CensusTurns, CensusRun, DenseStat (and Bits, bit reversal) | asking which articles of a file exist |
| FanOutSearch | failover and combined search over all indexers |
| ResultValidation, ResultAcceptance | filtering results against the request, and exactly which are kept |
| QueryCache, QueryFlights | one cache of answers behind all indexers, what callers can do to it, and searches that overlap on it |
| CategoryTree, CategoryNames | merging published categories and capabilities, and who names a category |
| Basics | options, minimum and maximum, present entries, and taking sequences apart |

Concurrent parts are state machines in which each region under a lock is one
step and callers are told apart by number; theorems are about every sequence of
steps. Where the source updates objects, classes with the same fields carry the
steps, and each method is proved to do what the step says.

## Where the code and its documentation part

- `pkg/search/merge.go:48-49` says merging a merged list is idempotent. It is, on
  all listings of a pool of copies, exactly when sharing a dedupe key is transitive
  there and filling in metadata never puts a group's best copy behind its runner-up
  (`MergeResult.IdempotentExactlyWhen`). A rank that filling never lowers meets the
  second condition (`MergeResult.IdempotentExactlyWhenTransitive`), as does one that
  reads only identity; a rank that prefers copies of unknown size does not
  (`MergeResult.FallingRankBreaksIdempotence`).
- `ResetPlaybackStream` keeps the record that leases and openers hold; it is safe
  exactly when idle (`LeaseProtocol.ResetIsSafeExactlyWhenIdle`).
- Closing a session loses the stream that a caller is waiting for or opening, and
  does so exactly when there is such a caller
  (`LeaseProtocol.CloseIsSafeExactlyWhenQuiet`). It can leave a caller parked for
  good exactly when there are two of them and the second would have to wait for the
  first (`LeaseProtocol.CloseStrandsExactlyWhenCrowded`); a caller alone is served.
- A playback snapshot for another key over a stream in use makes a later reuse
  serve the wrong stream; exactly the other snapshots are safe
  (`LeaseProtocol.SnapshotIsSafeExactlyForTheSameKey`).
- Startup info is meant to be for the stream it is shown with. It is, all along a run,
  exactly when no open ends over a snapshot or start info of another key
  (`PlaybackInfo.InfoIsForTheKeyExactlyWhen`); a snapshot stays truthful in all
  continuations exactly when nobody is opening for another key when it is stored
  (`PlaybackInfo.SnapshotIsTruthfulExactlyWhenNobodyOpensAnother`).
- A download that ends after its session closed repopulates it exactly when the
  session never had a context
  (`LazyDownload.ClosedSessionIsRepopulatedExactlyWithoutContext`). A caller that
  looks after a download finds neither an NZB nor an error exactly when another
  download runs by then or the session has lost the NZB it had
  (`LazyDownload.LookFindsNothingExactlyWhen`). One that had started the download
  returns with nothing then; one that had joined goes round again, and returns with
  nothing exactly when it then starts a download and looks in vain after that
  (`LazyDownload.JoinersReturnNothingExactlyWhen`).
- `pkg/search/validation.go:429-430` says a request that does not accept packs
  keeps only releases naming the episode. That holds for series; for anime,
  `ResultValidation.WithoutPacks` says exactly what is kept.
- `pkg/search/validation.go:236-239` says `TitleMismatchKept` counts kept
  releases. It also counts those dropped for number, year or pack, and so is right
  exactly when no mistitled release fails one of these
  (`ResultValidation.MismatchKeptExactly`).
- A handed-back interval of the request limiter can put two requests on one
  instant. Requests stay an interval apart exactly when every cancellation is by
  the last in the queue or comes late enough
  (`RequestLimiter.SpacedExactlyWhenCancellationsAreHarmless`); the average rate
  survives all of them (`RequestLimiter.RateBound`).
- A refusal binds an indexer's calls exactly from their look at the cooldown on: a
  call past that look goes through (`ClientCore.CooldownBindsExactlyLaterCalls`).
- A refresh of an indexer's counts that read the usage manager before a header sync
  and writes after it overwrites the governed count. The count stands for the rest of
  its second exactly when the client shows it and no refresh under way holds another
  (`QuotaMirror.GovernedCountStandsExactlyWhen`).
- Clearing the query cache forgets everything said so far exactly when no search has
  its answer and is yet to store it
  (`QueryFlights.ClearForgetsExactlyWhenNobodyStores`).

## Assumptions

Clocks do not run backwards where a theorem says so, and integers are unbounded.
Parsing of titles, dates and headers, title comparison, normalisation and case
folding are functions the caller supplies. The network's answers, the results of
opening a stream and the order of events are arbitrary.

## Model

| member | source | states |
|---|---|---|
| LeaseProtocol.OneReader | pkg/session/manager.go:888-1043 | In every state of every interleaving in which the stream is reset only while idle, at most one unclosed lease reaches the attached stream, and nobody is opening for that record meanwhile |
| LeaseProtocol.AlwaysExclusive | pkg/session/manager.go:895-953 | `opening` and `inUse` never hold together on the session's record, one opener or one lease at most, in every such run |
| LeaseProtocol.AlwaysAttended | pkg/session/manager.go:895-1043 | In every run, with no assumption on the callers, a record that says `opening` has an opener and one that says `inUse` has a lease |
| LeaseProtocol.ResetIsSafeExactlyWhenIdle | pkg/session/manager.go:958-995 | After a reset, all continuations keep one reader at a time if and only if the record was neither opening nor in use at the reset |
| LeaseProtocol.BusyResetBreaksExclusion | pkg/session/manager.go:986-995 | From any state with a live lease or opener, the reset and a few named steps give two leases on one stream |
| LeaseProtocol.ParkedCallersWaitForSomebody | pkg/session/manager.go:908-953 | No lost wakeup: a caller parked unsignalled on the session's record waits for an opener or a lease, and every way that one can finish signals it |
| LeaseProtocol.NoUseAfterClose | pkg/session/manager.go:997-1007 | A lease taken before the session closes yields no stream after the close, whatever runs afterwards |
| LeaseProtocol.AlwaysConserved | pkg/session/manager.go:895-1043 | With idle resets and quiet closes, every stream ever opened is installed, or detached for closing, or closed, and exactly one of these |
| LeaseProtocol.CloseIsSafeExactlyWhenQuiet | pkg/session/manager.go:1941-1977 | Closing leaves no stream that nobody will ever close if and only if no acquire was waiting for or opening the session's stream |
| LeaseProtocol.UnquietCloseOrphansAStream | pkg/session/manager.go:909-951 | Under any such caller, the close and its next steps orphan the stream it opens |
| LeaseProtocol.OrphanedForGood | pkg/session/manager.go:1025-1043 | An orphaned stream is never closed, in any continuation |
| LeaseProtocol.CloseStrandsTheSecondWaiter | pkg/session/manager.go:908-911 | From any state with a waiter behind another caller that waits or opens, a run after the close leaves it parked on the dead record |
| LeaseProtocol.CloseStrandsExactlyWhenCrowded | pkg/session/manager.go:908-924 | Some continuation of a close strands a caller if and only if a waiter had another caller waiting or opening on the record whose stream it would not share; otherwise nobody is ever parked there again |
| LeaseProtocol.StrandedForGood | pkg/session/manager.go:1035-1041 | Nothing ever signals a stranded waiter, the lease it waits for included |
| LeaseProtocol.SnapshotIsSafeExactlyForTheSameKey | pkg/session/manager.go:847-877 | After a snapshot is cached, every later reuse, granted at once or after waiting, hands out a stream opened for the requested key if and only if the snapshot did not put another key over a stream in use |
| LeaseProtocol.AlwaysKeyAgrees | pkg/session/manager.go:896-902 | With such snapshots, the attached stream was always opened for the key of the cached spec |
| LeaseProtocol.CrossKeySnapshotServesTheWrongStream | pkg/session/manager.go:854-867 | Otherwise releasing the lease is enough: the next caller with the snapshot's key reads the other key's stream |
| PlaybackStream.State.TryAcquire | pkg/session/manager.go:895-924 | One pass of the acquire loop under the lock: reuse, refuse a busy same key, wait, or detach the old stream and open |
| PlaybackStream.State.FinishOpen | pkg/session/manager.go:932-950 | What a finished open leaves in the record, installed or failed |
| PlaybackStream.State.Reset | pkg/session/manager.go:958-973 | Clears every field and returns the detached stream |
| PlaybackStream.Session.EnsurePlaybackState | pkg/session/manager.go:816-822 | The session's record, made only when there is none |
| PlaybackStream.Session.CacheSnapshot | pkg/session/manager.go:847-872 | Replaces the spec and startup info, detaching the stream only if it is idle; right after it, the session shows exactly that spec and info |
| PlaybackStream.Session.SetStartInfo | pkg/session/manager.go:837-845 | Sets startup info only for the cached key, and then shows it with that key's spec |
| PlaybackStream.Session.PlaybackStreamSnapshot | pkg/session/manager.go:824-835 | The cached spec and its startup info, if a key is cached |
| PlaybackStream.Session.ResetPlaybackStream | pkg/session/manager.go:986-995 | Resets the record and keeps it |
| PlaybackStream.Session.Close | pkg/session/manager.go:1955-1956 | Resets the record and drops it from the session |
| PlaybackStream.Lease.ActiveStream | pkg/session/manager.go:997-1007 | A stream only while the lease is open and its record is still the session's |
| PlaybackStream.Lease.Close | pkg/session/manager.go:1025-1043 | Frees the record once, and only if it is still the session's |
| PlaybackInfo.SnapshotIsShown | pkg/session/manager.go:824-867 | In every state, right after a snapshot with a key is stored the session shows exactly its spec and info; one without a key changes nothing that is shown |
| PlaybackInfo.InfoIsTakenForTheKeyShown | pkg/session/manager.go:837-845 | Start info is shown after it is set if and only if its key is the one shown |
| PlaybackInfo.AcquireShowsItsSpec | pkg/session/manager.go:895-924 | A caller that opens, or gets the open stream, has its own spec shown, with the info there was for its key and with none of another; a caller that waits or leaves changes nothing that is shown |
| PlaybackInfo.WakeShowsItsSpec | pkg/session/manager.go:908-924 | The same for a caller that waited |
| PlaybackInfo.FinishedOpenShowsItsSpec | pkg/session/manager.go:944-946 | A finished open on the session's record shows its spec with whatever info is shown by then |
| PlaybackInfo.FailedOpenLeavesNothing | pkg/session/manager.go:933-938 | A failed open leaves nothing shown, unless another key is shown by then or a stream is there |
| PlaybackInfo.ResetAndCloseLeaveNothing | pkg/session/manager.go:958-995 | After a reset and after a close nothing is shown |
| PlaybackInfo.InfoComesFromItsOrigin | pkg/session/manager.go:824-877 | In every run, info that is shown was given by the last snapshot or start info, to the key that was shown right then |
| PlaybackInfo.InfoIsForTheKeyExactlyWhen | pkg/session/manager.go:824-946 | In every run, the info shown is at every moment for the key shown if and only if no open ends while info of another key is shown |
| PlaybackInfo.SnapshotIsTruthfulExactlyWhenNobodyOpensAnother | pkg/session/manager.go:847-946 | After a snapshot with info is stored, all continuations without a new snapshot or start info show it with its key only, if and only if nobody is opening a stream for another key on the record |
| PlaybackInfo.AnotherKeysInfoIsShown | pkg/session/manager.go:847-946 | A run in which one key is shown with another key's info |
| PlaybackInfo.AcquireGoes | pkg/session/manager.go:895-930 | An acquire gets the stream exactly when its own key's is open and free, leaves exactly when it does not want to wait for its own busy key, waits exactly when it does, and otherwise opens; the stream that was there is closed exactly by who opens |
| PlaybackInfo.WakeGoes | pkg/session/manager.go:908-930 | The same after a wait, on the record waited for |
| PlaybackInfo.SnapshotDetachesExactlyTheIdle | pkg/session/manager.go:852-872 | A snapshot takes the open stream away exactly when nobody uses it or opens one, and wakes all who wait |
| LazyDownload.AlwaysSingleFlight | pkg/session/manager.go:1376-1558 | In every interleaving at most one download runs, the done channel is shown exactly while it does, and NZB, files and first file appear together |
| LazyDownload.AlwaysInstalledOnce | pkg/session/manager.go:1511-1540 | With a session context the NZB is installed at most once ever and a closed session never has one |
| LazyDownload.ClosedSessionIsRepopulatedExactlyWithoutContext | pkg/session/manager.go:1433-1436 | A good download finishing after the close installs its NZB if and only if the session never had a context |
| LazyDownload.JoinersReturnNothingExactlyWhen | pkg/session/manager.go:1395-1416 | In every run a caller that once joined a download returns neither an NZB nor an error if and only if it started a later download itself and looked in vain after that |
| LazyDownload.JoinerCanComeBackEmptyHanded | pkg/session/manager.go:1395-1416 | Such a run: it looks while a newer download runs, takes the lock after that has failed, starts one, and the session closes over it |
| LazyDownload.StarterCanComeBackEmptyHanded | pkg/session/manager.go:1542-1552 | A run in which the caller that started a download returns neither an NZB nor an error |
| LazyDownload.StarterCanBeOvertaken | pkg/session/manager.go:1542-1552 | A run in which it does because another caller started a download before it looked |
| LazyDownload.LookFindsNothingExactlyWhen | pkg/session/manager.go:1398-1411 | In every run the look after a download finds neither if and only if another download is in flight or the session lost the NZB it had (with a context, closed over it); then a starter returns with nothing and a joiner goes round again |
| LazyDownload.ReturnsNothingExactlyWhen | pkg/session/manager.go:1542-1552 | In every run a caller has returned neither if and only if it looked in vain after a download it had started |
| LazyDownload.WaitersAreServed | pkg/session/manager.go:1395-1416 | Whoever awaits a channel either may look or awaits one that a running download will close; whoever looked in vain may take the lock again |
| LazyDownload.TurnGoes | pkg/session/manager.go:1378-1441 | In every run a caller at the lock gets the NZB that is there; without one it is refused exactly when the session is closed or the caller has given up, joins the download that runs, or starts the next one |
| LazyDownload.LookGoes | pkg/session/manager.go:1398-1411 | In every run the look after a download gives the NZB if it is there, and an error exactly when nothing was ever installed and no download runs |
| LazyDownload.WhatIsGotWasParsed | pkg/session/manager.go:1511-1540 | In every run whatever a caller gets came out of a download that parsed, with content files; the session holds such an NZB with the files of the same download and their first one |
| LazyDownload.SessionDownload.Enter | pkg/session/manager.go:1378-1441 | One look under the lock: have it, refuse, join, or start |
| LazyDownload.SessionDownload.Finish | pkg/session/manager.go:1511-1539 | What the end of a download writes |
| LazyDownload.SessionDownload.Close | pkg/session/manager.go:1948-1970 | Cancels the context and releases the NZB, files and download details |
| SessionLifecycle.LifecycleIsSafe | pkg/session/manager.go:1190-1203 | In every reachable state, with touches of sessions already closed, a session plays exactly when its playback start is set, ids and sessions correspond one to one, and every session is in the map, queued for closing, or closed |
| SessionLifecycle.CleanupSparesPlayback | pkg/session/manager.go:1993-2036 | Cleanup keeps a session whose playback is within the maximum, and one not playing that a client was just seen on |
| SessionLifecycle.CleanupTakesExactlyTheExpired | pkg/session/manager.go:1993-2036 | In every reachable state cleanup removes a session if and only if it is idle past the ttl and never ended a play, idle past the post-playback ttl since it did, or engaged and started longer ago than the maximum, where engaged is playing or a client seen within the minute; the removed ones are queued, the others lose only their stale clients |
| SessionLifecycle.TouchedSessionsStay | pkg/session/manager.go:2011-2016 | A session touched within the ttl that never ended a play and is not stuck playing survives |
| SessionLifecycle.ReplacementTakesOnlyStaleSessions | pkg/session/manager.go:1290-1316 | A create removes only a session with no play, validation, startup or download, for another URL, untouched for the grace period, and queues it for closing |
| SessionLifecycle.TouchProtects | pkg/session/manager.go:1295-1303 | In every run, a session touched by playback, validation, startup or a lookup is not replaced within the grace period, whatever happened in between |
| SessionLifecycle.StepKeepsPlaced | pkg/session/manager.go:1885-1906 | Each create, replacement, deletion, eviction and close keeps every session in exactly one place |
| SessionLifecycle.Manager.CreateDeferred | pkg/session/manager.go:1281-1316 | Which session is returned, what is replaced, and what stays |
| SessionLifecycle.Manager.Examine | pkg/session/manager.go:2003-2016 | Drops stale clients, and evicts exactly what has expired, in terms of the session as it was before |
| SessionLifecycle.Manager.FindEvicted | pkg/session/manager.go:2002-2030 | The walk over the map finds exactly the expired sessions, in whatever order it goes |
| SessionLifecycle.Manager.Cleanup | pkg/session/manager.go:1993-2030 | Takes exactly the expired sessions, as they were before, out of the map and hands them back for closing, whatever the order of the walk |
| SessionLifecycle.Session.StartPlayback | pkg/session/manager.go:2101-2111 | First play sets the start; every play counts, marks its client and touches |
| SessionLifecycle.Session.EndPlayback | pkg/session/manager.go:2140-2154 | Last play clears the start and sets the end |
| SessionLifecycle.Session.MarkPlaybackValidated | pkg/session/manager.go:2113-2122 | Validation keeps its first time and ends the startup |
| SessionLifecycle.Session.EndPlaybackStartup | pkg/session/manager.go:2131-2138 | Counts startups down to zero, not below |
| SessionLifecycle.Session.Release | pkg/session/manager.go:1958-1968 | Closing releases the clients and ends every startup |
| SessionHistory.CountsAreTheUnended | pkg/session/manager.go:2101-2158 | In every run the plays of a session are the most by which plays begun outnumber plays ended over any rest of the run; so are its startups, since it was last validated or closed |
| SessionHistory.StartedAtTheOpening | pkg/session/manager.go:2101-2111 | A start that is set is the time of the step that began to play when nobody did, and somebody has played ever since |
| SessionHistory.EndedWhenTheLastOneLeft | pkg/session/manager.go:2140-2154 | The end is the time at which the last one playing left most recently, and unset exactly if that never happened |
| SessionHistory.ValidatedAtTheFirst | pkg/session/manager.go:2113-2122 | The validation time is that of the first validation, and unset exactly without one |
| SessionHistory.ClientsAreTheRecentOnes | pkg/session/manager.go:2003-2167 | In every run a session that was not closed knows a client exactly from its last mark until a cleanup more than a minute later; a closed one knows none |
| SessionHistory.LastAccessIsTheLatest | pkg/session/manager.go:2101-2167 | The last access is the time of the last step that made the session, handed it back or touched it |
| SessionHistory.DownloadingIsWhatWasSaidLast | pkg/session/manager.go:1436-1539 | A session is downloading exactly when its download said so last |
| SessionHistory.CreateReplacesExactlyWhen | pkg/session/manager.go:1281-1316 | In every reachable state a create replaces the session of its id if and only if that one is unused, for another URL and not accessed for five seconds, and queues it; otherwise it is handed back as just accessed; a new one is unused and nothing else changes |
| SessionHistory.ReadyIsHandedBackOrMade | pkg/session/manager.go:1190-1203 | A session that is ready is handed back if there, and made otherwise |
| SessionHistory.DeletedIsQueuedThenClosed | pkg/session/manager.go:1885-1906 | Deleting removes exactly that id and queues its session; closing takes it from the queue; no other session is touched |
| MergeResult.MergeIsIdempotent | pkg/search/merge.go:48-68 | Where sharing a dedupe key is transitive on the copies and filled primaries stay first, merging a merged listing returns the same groups, primaries, variant order and metadata |
| MergeResult.IdempotentExactlyWhen | pkg/search/merge.go:48-202 | For any rank and any pool of copies, merging is idempotent on every listing drawn from it if and only if sharing a key is transitive on the pool and filling never puts the best copy of a group behind its runner-up |
| MergeResult.IdempotentExactlyWhenTransitive | pkg/search/merge.go:48-113 | With a rank that filling in metadata never lowers, merging is idempotent on every listing drawn from a pool if and only if sharing a key is transitive on the pool |
| MergeResult.MergingAgainMergesMore | pkg/search/merge.go:94-109 | A concrete listing of three copies that merges to two releases and then to one |
| MergeResult.BridgeMergesLate | pkg/search/merge.go:94-109 | Any bridging copy has this effect |
| MergeResult.MergedGroupStandsExactlyWhen | pkg/search/merge.go:117-202 | Merging the copies of one merged group gives that group back if and only if its filled primary still goes before the runner-up |
| MergeResult.FallingRankBreaksIdempotence | pkg/search/merge.go:28-36 | A rank and two copies that share their keys transitively on which merging is not idempotent |
| MergeResult.RankByIdentityIsSteady | pkg/server/stremio/handlers_search.go:555-578 | A rank that reads only fields the merge never writes, as the server's does, is never lowered by filling |
| MergeResult.CopiesAreConserved | pkg/search/merge.go:50-113 | The copies of the result are a permutation of the non-nil input copies, only primaries changed and never in identity; the result has as many releases as the distinct release count |
| MergeGroups.GroupsAreClasses | pkg/search/merge.go:83-113 | Under transitivity two copies are in one group exactly when they share a key |
| MergeGroups.GroupsConserveCopies | pkg/search/merge.go:83-113 | Grouping permutes the copies, with or without transitivity |
| MergeGroups.AlwaysIndexed | pkg/search/merge.go:84-109 | The index knows exactly the keys seen and points each at a group holding it; no group is empty |
| MergeGroups.RegroupClasses | pkg/search/merge.go:83-113 | Grouping classes laid one after the other gives the same classes |
| MergeRanking.BeforeIsTotal | pkg/search/merge.go:127-147 | The comparator is a strict total order on copies at different places; which one, `BeforeIsPreferred` says |
| MergeRanking.BeforeIsPreferred | pkg/search/merge.go:127-147 | It puts first exactly the copy of higher rank, then of more grabs, then of the later parsed date or the only one that has a date, then the one that came first |
| MergeRanking.RankedIsBestFirst | pkg/search/merge.go:127-147 | A ranked group has its copies at places none of which is preferred to an earlier one |
| MergeRanking.SortedOrderIsUnique | pkg/search/merge.go:127-147 | A group has one sorted order, so the sorting algorithm cannot be told |
| MergeRanking.RankedPermutes | pkg/search/merge.go:121-147 | Ranking permutes the group |
| MergeFold.FillIsStable | pkg/search/merge.go:160-202 | Filling again from the same copies changes nothing |
| MergeFold.AttributesComeFromTheFirstThatHasThem | pkg/search/merge.go:171-193 | Size, date and duration come from the first copy reporting them; poster and usenet date come as a pair from the first copy with both |
| MergeFold.GrabsAreTheHighest | pkg/search/merge.go:168-170 | Grabs are the maximum over the copies |
| MergeFold.TagsAreTheUnion | pkg/search/merge.go:199-200 | A release has a tag, up to case, exactly when one of its copies has it |
| MergeFold.UnionAppendsOnlyNew | pkg/search/merge.go:208-220 | The union keeps its first list in front and appends only tags not there yet |
| MergeResult.DropsCompose | pkg/search/merge.go:238-263 | Dropping by one set and then another equals dropping by both, the removal reports joined |
| MergeResult.DroppedKeepsTheRest | pkg/search/merge.go:238-263 | Exactly the copies without a dropped details URL stay, in order; nil and the report say when |
| MergeOrder.CopyJoinsByItsFirstKnownKey | pkg/search/merge.go:94-109 | A copy joins the group of the last copy before it that carries the first of its keys known so far |
| MergeOrder.NewKeysOpenAGroup | pkg/search/merge.go:94-109 | A copy none of whose keys is known opens the next group |
| MergeOrder.KeysAre | pkg/search/merge.go:10-26 | The keys are the details page, the GUID and the normalised title, those there are, in this order |
| MergeOrder.GroupsArePlaces | pkg/search/merge.go:83-113 | A group holds the copies at the places that went to it, in order |
| MergeOrder.MergeKeepsTheBestFirst | pkg/search/merge.go:50-153 | Every release of a merged listing is made of the copies of one group: the first has no copy of higher rank, none of its rank with more grabs, none of these with a later date or with the only date, and what is left goes by place; so does each variant against the next; only the first is filled |
| MergeInPlace.MergeSameReleaseVariants | pkg/search/merge.go:50-68 | On release objects: fresh results that hold the merge of what the inputs held, each with the best of its copies first by rank, grabs, date and place; the inputs are not modified |
| MergeInPlace.GroupSameRelease | pkg/search/merge.go:83-113 | The calls of the visitor, in order, with the group of each copy, and the count |
| MergeInPlace.CountDistinctReleases | pkg/search/merge.go:74-76 | The distinct release count of the listing |
| MergeInPlace.MergeGroup | pkg/search/merge.go:117-153 | Ranks the objects, hangs the rest on the first and fills it; which is first, `MergeOrder.MergeKeepsTheBestFirst` says |
| MergeInPlace.SortCopies | pkg/search/merge.go:121-147 | A permutation of the objects in ranked order, by rank, grabs, date and place |
| MergeInPlace.MergeCopyMetadata | pkg/search/merge.go:160-202 | Fills the primary in place from its non-nil variants |
| MergeInPlace.UniteTags | pkg/search/merge.go:208-220 | The union of two tag lists |
| MergeInPlace.DropCopies | pkg/search/merge.go:238-263 | Drops in place, promotes the first that is left, reports |
| UsageManager.CountsAreExact | pkg/indexer/usage_manager.go:271-334 | For every history with an ordered clock the counts off the pruned, capped ring are those of the full log: min(10000, hits in the window), or the synced count plus min(10000, hits after the sync); all-time totals are everything recorded |
| UsageManager.EachRequestIsLogged | pkg/indexer/usage_manager.go:214-262 | What one more operation adds to the full history: one entry of its second for each request, and the server count it states |
| UsageManager.WindowIsADay | pkg/indexer/usage_manager.go:307-315 | A request of the last 24 hours is in the window, and one a second older than that is not |
| UsageManager.ReplayRefines | pkg/indexer/usage_manager.go:203-305 | After any history the ring is a suffix of the full log, with the last sync |
| UsageManager.PruneRing | pkg/indexer/usage_manager.go:307-322 | Pruning an already pruned and capped ring gives the ring of the whole log |
| UsageManager.RecordRing | pkg/indexer/usage_manager.go:214-229 | Recording on the ring gives the ring of the longer log |
| UsageManager.Manager.RecordHits | pkg/indexer/usage_manager.go:214-235 | Applies the operation to the stored data |
| UsageManager.Manager.SetHeaderCounts | pkg/indexer/usage_manager.go:248-262 | Applies the sync, leaving what was not stated |
| UsageManager.Manager.Counts | pkg/indexer/usage_manager.go:275-299 | Answers the true counts of the whole history, whatever was pruned on the way |
| UsageManager.PruneHitTimes | pkg/indexer/usage_manager.go:307-315 | Keeps the hits from the cutoff on, capped |
| UsageManager.CapHitTimes | pkg/indexer/usage_manager.go:317-322 | The suffix of length min(10000, number of hits), and none it leaves out is newer than one it keeps |
| UsageManager.CountHitsAfter | pkg/indexer/usage_manager.go:326-334 | Counts hits strictly after an instant |
| ClientCore.ConfiguredLimitAlwaysBinds | pkg/indexer/client_core.go:117-128 | After any headers, refreshes and requests, a configured limit bounds the enforced one, which also obeys the advertised one |
| ClientCore.GovernedCountNeverWidens | pkg/indexer/client_core.go:483-503 | When a remaining header governs, and that it then exceeds neither the server's count nor the enforced limit; its value is in `HeadersAreRead` |
| ClientCore.HeadersAreRead | pkg/indexer/client_core.go:430-503 | The value of every count after a header: under an advertised limit what is gone of it is used, and the header itself is left when no cap lies lower; under a configured cap alone, header and used add up to the cap, and a header above it is ignored; under no limit it is only shown |
| ClientCore.HitsAreCharged | pkg/indexer/client_core.go:161-312 | After a refresh, hits add to the count that was read, and a limited budget is spent exactly once the two reach the limit |
| ClientCore.NewBudgetLastsItsLimit | pkg/indexer/client_core.go:82-106 | A budget nobody reads is spent exactly after as many hits as configured, and never without a limit |
| ClientCore.RefreshAfterSyncChangesNothing | pkg/indexer/client_core.go:161-179 | Refreshing in the second of a governed sync leaves used and remaining as they are, whatever happened before |
| QuotaMirror.GovernedCountStandsExactlyWhen | pkg/indexer/client_core.go:161-179 | After a governed count was stored, in every interleaving of refreshes the client shows it for the rest of that second if and only if it shows it now and no refresh under way holds another count |
| QuotaMirror.NextRefreshRepairs | pkg/indexer/client_core.go:166-176 | A refresh that reads and writes after the sync shows the governed count again |
| QuotaMirror.OlderRefreshOverwrites | pkg/indexer/client_core.go:161-179 | From any state, a run in which a refresh that read before the sync writes its count over the governed one |
| ClientCore.DeadlinesNeverMoveBack | pkg/indexer/client_core.go:250-281 | Cooldown and probe deadlines never move back, in any interleaving of the checks and refusals |
| ClientCore.NothingPassesACooldown | pkg/indexer/client_core.go:327-351 | No search or grab that comes after a refusal is admitted until its cooldown is over; Retry-After as in section 10.2.3 of RFC 9110, capped and defaulted |
| ClientCore.CooldownBindsExactlyLaterCalls | pkg/indexer/client_core.go:224-243 | In every continuation of a refusal a call is admitted only past its cooldown if and only if it was not past its look at the cooldown with an earlier instant |
| ClientCore.RefusalKeepsOutUntil | pkg/indexer/client_core.go:327-428 | After a refusal a new call is turned down exactly until the instant its Retry-After names, at most 15 minutes on, or a minute when it names none, or half an hour when a quota is exhausted, and no shorter than refusals before it |
| ClientCore.SpentBudgetSpacesSearches | pkg/indexer/client_core.go:250-281 | Searches let past the same spent budget are a probe interval apart, in any interleaving |
| ClientCore.BudgetCheckGoes | pkg/indexer/client_core.go:250-281 | An unspent budget lets a search on and keeps its deadline; a spent one lets it on exactly from its deadline and sets that 15 minutes ahead |
| ClientCore.SearchIsItsRegions | pkg/indexer/client_core.go:224-234 | The three locked checks one after the other are the preflight that `CheckSearchAllowed` makes |
| ClientCore.GrabIsItsRegions | pkg/indexer/client_core.go:238-243 | The two checks of a grab one after the other are the preflight that `CheckGrabAllowed` makes |
| ClientCore.SearchAdmittedExactlyWhenDue | pkg/indexer/client_core.go:224-234 | An uninterrupted search is admitted exactly when past the cooldown and the probe deadlines of its spent budgets |
| ClientCore.GrabAdmittedExactlyWhen | pkg/indexer/client_core.go:238-243 | An uninterrupted grab is admitted exactly past the cooldown and with downloads left |
| ClientCore.PollingNeverSealsTheGate | pkg/indexer/client_core.go:245-263 | However often searches were turned down, in whatever interleaving, the next one is admitted one interval past the download probe |
| ClientCore.Core.RefreshUsage | pkg/indexer/client_core.go:161-179 | Both quotas re-read from the manager |
| ClientCore.Core.ApplyHeaderUsage | pkg/indexer/client_core.go:430-468 | Each quota reads its limit header and the first remaining header there is, with the values of `HeadersAreRead`; only governed counts are stored as a sync |
| ClientCore.Core.RecordAPIHit | pkg/indexer/client_core.go:285-295 | A search: local counter, ring, then headers |
| ClientCore.Core.RecordGrab | pkg/indexer/client_core.go:299-313 | A download: both local counters, ring, then headers |
| ClientCore.Core.CheckSearchAllowed | pkg/indexer/client_core.go:224-234 | Cooldown, refresh and both budget checks when nothing comes between them |
| ClientCore.Core.CheckThrottled | pkg/indexer/client_core.go:367-376 | Whether the cooldown is over |
| ClientCore.Core.CheckBudgetForSearch | pkg/indexer/client_core.go:250-281 | One budget gate with its probe |
| ClientCore.Core.CheckGrabAllowed | pkg/indexer/client_core.go:238-243 | Cooldown and download budget |
| ClientCore.Core.NoteThrottled | pkg/indexer/client_core.go:327-339 | Opens the cooldown the header asks for, within bounds |
| ClientCore.Core.NoteQuotaExhausted | pkg/indexer/client_core.go:345-351 | Opens the longer cooldown unless the header says otherwise |
| ClientCore.Core.ExtendCooldown | pkg/indexer/client_core.go:356-363 | The deadline moves to now plus the cooldown, never back |
| RequestLimiter.RateBound | pkg/indexer/request_limiter.go:26-72 | Over every run of callers, grants and cancellations: n requests granted by T means n-1 intervals since the first call |
| RequestLimiter.RunKeepsStaircase | pkg/indexer/request_limiter.go:39-71 | The k-th surviving slot lies k intervals after the first call, cancellations included |
| RequestLimiter.SpacedWithoutCancellation | pkg/indexer/request_limiter.go:39-55 | Without cancellation any two slots are an interval apart |
| RequestLimiter.CancellationBreaksSpacing | pkg/indexer/request_limiter.go:61-68 | For every interval, a run in which one cancellation puts two grants on one instant |
| RequestLimiter.CancelKeepsSpacingExactly | pkg/indexer/request_limiter.go:61-68 | A cancellation keeps any two slots, and the next, an interval apart if and only if it is by the last in the queue or hands back no further than an interval past the last slot |
| RequestLimiter.CancellationIsHarmlessExactly | pkg/indexer/request_limiter.go:61-68 | All later runs without a cancellation stay spaced if and only if that held |
| RequestLimiter.SpacedExactlyWhenCancellationsAreHarmless | pkg/indexer/request_limiter.go:39-71 | A run is spaced at every moment if and only if each of its cancellations was harmless then |
| RequestLimiter.BurstIsPacedExactly | pkg/indexer/request_limiter.go:39-55 | Callers arriving together get consecutive slots exactly an interval apart |
| RequestLimiter.CallGoes | pkg/indexer/request_limiter.go:39-55 | A caller goes at once when the next free slot has come, unless it has given up, and else queues for that slot; who gets a slot moves the next an interval on, who is refused does not |
| RequestLimiter.SlotsAreExact | pkg/indexer/request_limiter.go:39-55 | As long as nobody gives up, each slot is the latest of the instants that its caller or one before it forces by its arrival and an interval for every caller from there on: nobody waits longer than needed |
| RequestLimiter.GivingUpUndoesBooking | pkg/indexer/request_limiter.go:62-67 | The last in the queue, giving up, leaves the limiter to later callers as if it had never called |
| RequestLimiter.Limiter.Reserve | pkg/indexer/request_limiter.go:39-55 | The booking made under the lock, or none for a cancelled caller |
| RequestLimiter.Limiter.Cancel | pkg/indexer/request_limiter.go:62-67 | The interval handed back, never to before now |
| CensusOrder.OrderIsComplete | pkg/playback/census.go:128-184 | The order holds exactly the segments to ask about, each once: every volume's segment 0 and every other that names an article |
| CensusOrder.PrefixIsSpread | pkg/playback/census.go:173-182 | After 2^j steps past the anchors every askable multiple of the stride 2^(k-j) has been asked about |
| CensusOrder.NoLongGap | pkg/playback/census.go:173-182 | By then no stretch of askable segments as long as the stride is without one that was asked about |
| CensusOrder.AnchorsComeFirst | pkg/playback/census.go:162-171 | Head, tail and the first segment of every volume come before the permutation |
| CensusOrder.HeadsAreAskable | pkg/playback/census.go:153-158 | A volume's segment 0 is asked about whether or not it names an article |
| CensusTurns.OrderGoesByTurns | pkg/playback/census.go:146-182 | Of two segments asked about the one whose turn is earlier comes first: the first four, the last, the head of each volume, then the others by their bits read backwards |
| CensusTurns.AskedIsNamedOrHead | pkg/playback/census.go:146-160 | A segment is asked about if and only if it names an article or heads its volume |
| Bits.ReverseInvolutive | pkg/playback/census.go:175-177 | Bit reversal undoes itself |
| Bits.ReverseOfMultiples | pkg/playback/census.go:173-177 | Exactly the indices whose low k-j bits are zero, the multiples of 2^(k-j), are reversed below 2^j |
| Bits.WiderReverse | pkg/playback/census.go:177-177 | Reversing the machine word and shifting down reverses the low k bits |
| Bits.LowZerosIsMultiple | pkg/playback/census.go:173-177 | The low j bits are zero exactly in the multiples of 2^j |
| CensusOrder.OwnerIsUnique | pkg/playback/census.go:138-144 | A flat index has one owning volume and offset, empty volumes included |
| CensusOrder.Locate | pkg/playback/census.go:138-144 | The scan returns that owner |
| CensusOrder.CensusOrder | pkg/playback/census.go:128-184 | The method fills the order just described |
| CensusRun.HandedOutIsAccountedFor | pkg/playback/census.go:202-261 | Handed out equals checked plus unasked plus in flight, and misses never exceed the width, in every state of every run |
| CensusRun.NothingHandedOutAfterAMiss | pkg/playback/census.go:217-226 | After the first definitive miss the cursor stands still |
| CensusRun.VerdictIsExact | pkg/playback/census.go:238-274 | A miss is reported exactly when some STAT (section 6.2.4 of RFC 3977) answered missing; complete without a miss means all were answered |
| CensusRun.FirstMissIsTheFirst | pkg/playback/census.go:248-258 | The miss that is reported is the first one booked |
| CensusRun.UncutCensusIsComplete | pkg/playback/census.go:217-262 | A census whose budget did not end is complete, and without a miss has asked about everything |
| CensusRun.CensusOfAFile | pkg/playback/census.go:282-312 | The same for a file's segments: rejected exactly on a missing article, complete meaning every askable segment |
| CensusRun.WorkersFinish | pkg/playback/census.go:227-262 | Every worker step spends finite work, and until the end some worker can move |
| CensusRun.Census.Draw | pkg/playback/census.go:217-226 | Hands out the next point unless exhausted or cancelled |
| CensusRun.Census.BookAnswer | pkg/playback/census.go:238-258 | Books one answer and cancels on a miss |
| DenseStat.PlanCovers | pkg/playback/dense_stat.go:90-125 | No repeated job, startup volumes in full, both ends of every non-empty volume, only existing segments |
| DenseStat.PlanIsBounded | pkg/playback/dense_stat.go:103-125 | At most max(2000, startup segments + 2 per remaining volume) jobs |
| DenseStat.PlanAsksExactly | pkg/playback/dense_stat.go:90-125 | Exactly which segments are asked about: the first two volumes, both ends of each later one, its middle when three articles a volume fit in 2000, its second and its quarters when six do |
| DenseStat.VolumesComeInOrder | pkg/playback/dense_stat.go:90-125 | The volumes are asked about one after the other |
| DenseStat.JobsExactly | pkg/playback/dense_stat.go:74-88 | The jobs are exactly the wanted segments that exist, each once |
| DenseStat.PlanJobs | pkg/playback/dense_stat.go:90-125 | The loops make that plan |
| FanOutSearch.SearchWithFailover | pkg/indexer/aggregator.go:274-330 | For every arrival order the answer is that of the first indexer with any items, given at the first arrival after which no unheard reply could change it |
| FanOutSearch.SilenceLeavesItOpen | pkg/indexer/aggregator.go:307-313 | While the first indexer that matters is silent, some reply of it would change the answer |
| FanOutSearch.SettledByFirst | pkg/indexer/aggregator.go:307-322 | Once the first indexer with items and all before it have replied, no other reply can change the answer |
| FanOutSearch.Dedupe | pkg/indexer/aggregator.go:221-258 | The loop over the seen maps keeps the first result of every key |
| FanOutSearch.UniqueRepresents | pkg/indexer/aggregator.go:226-258 | One result is left per key, and all results without one, in order |
| FanOutSearch.SameIsSameKey | pkg/indexer/aggregator.go:226-258 | Two results count as one by their guids, or without guids by their links, or without either by title and known size |
| FanOutSearch.UniqueKeepsTheFirst | pkg/indexer/aggregator.go:226-258 | Exactly the results that are not the same as an earlier one are left, in order |
| FanOutSearch.UniqueCount | pkg/indexer/aggregator.go:226-258 | As many results are left as there are keys, plus those without one |
| FanOutSearch.ArrivalOrderKeepsTheCount | pkg/indexer/aggregator.go:216-258 | Any two arrival orders leave the same keys, each once, the same keyless results, and so the same count |
| ResultValidation.ValidateSearchResults | pkg/search/validation.go:451-642 | Keeps exactly the releases judged so, in order; each counter is the number of releases with that verdict; the record names the first drops up to the limit. The verdicts are those of `ResultAcceptance.VerdictIsExactly` |
| ResultValidation.Validate | pkg/search/validation.go:492-637 | One pass of the loop gives the verdict and its books |
| ResultValidation.TitleMatchesAny | pkg/search/validation.go:305-328 | The title fits when there are no expectations, or one matches by words or by similarity |
| ResultValidation.CheckNumber | pkg/search/validation.go:527-572 | The rank a release goes by, and whether its season or episode is wrong |
| ResultValidation.CountAccepted | pkg/search/validation.go:586-635 | What is kept after the year check, and under which counter |
| ResultValidation.BooksBalance | pkg/search/validation.go:639-640 | Raw equals final plus drops by reason; recorded plus omitted equals all drops |
| ResultValidation.SeriesAcceptancesAddUp | pkg/search/validation.go:586-635 | For a series request naming a season or an episode the acceptance counters sum to the final count |
| ResultValidation.StricterKeepsASubsequence | pkg/search/validation.go:424-431 | Enforcing title or year, or refusing packs, leaves a subsequence |
| ResultValidation.WithoutPacks | pkg/search/validation.go:451-642 | Without packs an episode request keeps exactly the releases that fit title and year as applied and either name the episode or, for anime, are unranked, name no other and are no season pack |
| ResultValidation.SeriesWithoutPacksNamesTheEpisode | pkg/search/validation.go:429-431 | For series, off keeps only releases that name the episode |
| ResultValidation.AnimeWithoutPacksKeepsTheUnnumbered | pkg/search/validation.go:541-541 | For anime it does not: any unnumbered release is kept exactly when title and year let it through |
| ResultValidation.MismatchCountsTheDropped | pkg/search/validation.go:507-525 | Any mistitled release of another episode is counted as kept and then dropped |
| ResultValidation.MismatchKeptExactly | pkg/search/validation.go:507-608 | For every listing the count is the kept mismatches plus those dropped for number, year or pack, and so the kept ones exactly when no mismatch fails these checks |
| ResultValidation.RankMeans | pkg/search/parser/parser.go:292-354 | Ranks run from 0 to 4, and 3 or more is exactly naming the episode in one of its numberings |
| ResultValidation.RecordDrop | pkg/search/validation.go:253-267 | Records up to the limit and counts the rest |
| ResultAcceptance.RankIsExactly | pkg/search/parser/parser.go:292-354 | Each rank by what the release names: the episode alone, the episode among others, a season pack, a show pack, or nothing that fits |
| ResultAcceptance.VerdictIsExactly | pkg/search/validation.go:451-642 | The verdict on every release in every request, kept or dropped and under which counter, by title and year as applied and the seasons, episodes and packs the release names |
| ResultAcceptance.ListingIsKeptByRuling | pkg/search/validation.go:492-637 | What is kept of a listing are the releases so ruled, in order |
| ResultAcceptance.ListingIsCountedByRuling | pkg/search/validation.go:586-635 | Each verdict is counted as often as it was given |
| ResultAcceptance.SeriesEpisodeWithPacks | pkg/search/validation.go:541-597 | A series request for an episode that takes packs keeps exactly what names the episode or holds it in a season pack or a show pack, title and year as applied |
| ResultAcceptance.AnimeEpisodeWithPacks | pkg/search/validation.go:541-597 | An anime request keeps these and exactly what ranks nowhere and names no other episode |
| ResultAcceptance.SeasonRequestKeepsTheSeason | pkg/search/validation.go:559-608 | A season request keeps exactly the releases of the season, packs included if and only if accepted |
| ResultAcceptance.NamesOtherExactlyWhen | pkg/search/validation.go:676-717 | When a release names another episode than the one wanted |
| QueryCache.CloneResponse | pkg/indexer/query_cache.go:118-149 | The clone says the same and is made of fresh objects only |
| QueryCache.Cache.Get | pkg/indexer/query_cache.go:82-95 | Returns a fresh copy of what is stored, unless absent or expired |
| QueryCache.Cache.Put | pkg/indexer/query_cache.go:97-107 | Stores a fresh copy until now + ttl, and nothing for nil |
| QueryCache.Shared.Edit | pkg/indexer/query_cache.go:118-149 | Whatever callers do to every object they were given or stored, the cache says what it said |
| QueryCache.Shared.Lookup | pkg/indexer/query_cache.go:82-95 | What a caller is given joins those objects and never the cache's |
| QueryCache.Shared.Store | pkg/indexer/query_cache.go:97-107 | What a caller stores stays its own |
| QueryCache.CachedIndexer.Search | pkg/indexer/query_cache.go:203-240 | An uninterrupted search behind a cache shared with other indexers, each look and the storing at its own instant: answers from the cache or the indexer, remembers only complete error-free answers, and hands back a copy |
| QueryCache.CachedIndexer.WhatIsCachedWasAnswered | pkg/indexer/query_cache.go:151-170 | What an indexer serves from the shared cache it answered itself, complete, to the same key at most ttl ago |
| QueryCache.KeysMeetExactly | pkg/indexer/query_cache.go:33-66 | Two indexers can share a key exactly when what their keys start with nests |
| QueryCache.DistinctNamesKeepApart | pkg/indexer/query_cache.go:33-66 | Indexers with distinct names without the separator share no key |
| QueryCache.Indexers.Search | pkg/initialization/bootstrap.go:170-221 | Whichever indexer makes such a search on the one cache, the promise of every other one is kept |
| QueryFlights.EveryAnswerIsItsIndexers | pkg/indexer/query_cache.go:203-240 | In every interleaving of searches, joins, flights, stores and clears, a caller comes back only with something its own indexer said to its own key, and all callers of one flight with the same |
| QueryFlights.WhatIsServedWasStored | pkg/indexer/query_cache.go:82-107 | In every such run what a look serves was said by this indexer to this key, complete, and stored at most ttl before |
| QueryFlights.CompleteAnswersAreServed | pkg/indexer/query_cache.go:216-240 | A complete answer is stored and then served to whoever looks within ttl of the storing; any other leaves the cache as it was |
| QueryFlights.AlwaysSingleFlight | pkg/indexer/query_cache.go:216-226 | An indexer is asked for a key by one flight at a time, the one its key is open to |
| QueryFlights.StoredOncePerTtl | pkg/indexer/query_cache.go:216-226 | Without a clear, two answers of one indexer to one key are stored more than ttl apart, however many callers overlap |
| QueryFlights.ClearForgetsExactlyWhenNobodyStores | pkg/indexer/query_cache.go:109-116 | After a clear nothing said before is ever in the cache again if and only if no flight had its answer and was yet to store it |
| QueryFlights.WaitersAreServed | pkg/indexer/query_cache.go:216-238 | A caller's flight can take its next step until it has landed, and then the caller can return |
| CategoryTree.MergingAgainIsTheSame | pkg/indexer/categories.go:167-308 | Merging a merged category document gives the same document, whether it was made of published categories or is the standard tree |
| CategoryTree.DocumentStands | pkg/indexer/categories.go:283-308 | The document of any well-kept tree is merged into itself |
| CategoryTree.StandardIsTidy | pkg/indexer/categories.go:13-93 | The standard categories, as listed there, are in order, named and under their thousands |
| CategoryTree.TidyDocumentsAreKept | pkg/indexer/categories.go:283-308 | Any such document is the document of the tree it lists, and that tree is well kept |
| CategoryTree.TreeOfDocument | pkg/indexer/categories.go:197-238 | The tree of a tree's document is that tree with its missing names filled in |
| CategoryTree.OffersExactlyWhatIsPublished | pkg/indexer/categories.go:197-238 | The tree offers exactly the published ids and the top-level ids they roll up into |
| CategoryTree.AlwaysWellKept | pkg/indexer/categories.go:197-238 | Every subcategory is under its owner; a nested id is a root only to hold subcategories, and its parent lists it; names are settled |
| CategoryTree.DocumentIsUnique | pkg/indexer/categories.go:287-306 | A tree has one document in the order of ids |
| CategoryTree.LessIsTotal | pkg/indexer/categories.go:138-151 | The order of canonical ids is a strict total order |
| CategoryNames.LessComesFirst | pkg/indexer/categories.go:138-151 | Numbers come first and ascend, other ids follow by their characters |
| CategoryNames.RollsUpIntoItsThousand | pkg/indexer/categories.go:128-134 | A positive number that is no full thousand goes to its full thousand, every other id stays |
| CategoryNames.SubIsNamedByTheFirst | pkg/indexer/categories.go:197-238 | A subcategory is where somebody published it, with its standard name or else the one the first of them gave it |
| CategoryNames.TopIsNamedByTheFirst | pkg/indexer/categories.go:197-238 | A top-level category is there when it or something under it was published, with its standard name or else the first that is not blank |
| CategoryNames.DocumentListsTheTree | pkg/indexer/categories.go:283-308 | The merged document lists the whole tree, numbers first, each category by its name, or as "Other", and a nameless subcategory by its id |
| CategoryTree.MergeCategories | pkg/indexer/categories.go:240-306 | The loops make the document of the published categories, or the standard tree when there is none |
| CategoryTree.AdvertisingAgainIsTheSame | pkg/indexer/categories.go:245-281 | Merging merged functions, parameters and limits returns the same |
| CategoryTree.FunctionsAreTheUnion | pkg/indexer/categories.go:245-272 | A function is advertised exactly when some indexer offers it, and a parameter exactly when some accepts it there; without any indexer the first three functions, bare |
| CategoryTree.LimitsAreTheLargest | pkg/indexer/categories.go:256-281 | Every limit is the largest published, a hundred for a maximum or page nobody states, and the page at most the maximum |

## Left out

- Persistence, logging, health reports, and the HTTP, NNTP and unpacking code around these algorithms: their answers are inputs.
- `SyncUsage`, which forgets indexers that are no longer configured, and the migration of legacy usage files (`pkg/indexer/usage_manager.go:148-182`), which runs once at load time.
- RequestLimiter.Limiter.Reserve: a nil limiter, and a context that has ended before the lock is taken, book nothing and are not events.
- QuotaMirror.GovernedCountStandsExactlyWhen: after the second of the sync the stored count moves on with the hits, which `UsageManager.CountsAreExact` gives; one budget is followed at a time.
- ClientCore.Core.RecordGrab: the flat counters of the core are grouped into one record per quota.
- UsageManager.Manager.RecordHits: the in-place reuse of the ring's backing slice is not visible on sequences.
- LeaseProtocol.NoUseAfterClose: a stream already fetched by a `Read` in progress is not tracked; what a lease reaches is what it reads next.
- SessionLifecycle.LifecycleIsSafe: `StartPlayback`, `EndPlayback` and `KeepAlive` on a session that was closed after it was looked up panic on a nil map in the source; the model keeps what they wrote before and goes on. The first, unlocked part of `CreateSessionWithFetcher`, which only builds a session, is not a step.
- PlaybackStream.State.TryAcquire: the check that the key is not empty, which refuses before anything is locked.
- MergeInPlace.MergeSameReleaseVariants: `sort.SliceStable` is an insertion sort here; `MergeRanking.SortedOrderIsUnique` says it cannot matter. Tag lists are values, so the copy before the first append is not visible. `SourceIndexer` and `Available` are never written by the merge and travel with the identity.
- MergeInPlace.GroupSameRelease: the visitor is the list of its calls.
- FanOutSearch.Dedupe: the final sort by size, which is not stable, and `NormalizeSearchResponse`.
- CensusRun.CensusOfAFile: the width hint of the fetcher and the preload context; any width and any end of the budget are covered.
- DenseStat.PlanJobs: the workers that run the plan, and the selection of distinct volumes.
- ResultValidation.Validate: the texts of the drop details, the expected title and year echoed in the statistics, and building the expectations from the queries.
- QueryCache.CachedIndexer.Search: nothing interrupts it; `QueryFlights` has the interleavings, with responses as values. Names come trimmed, and the part of the key after the name is an opaque string. `Variants` and `Available` of releases are shared by the source's clone and not part of the model.
- CategoryTree.MergeCategories: published categories come in the order of indexer names; ids come trimmed, and no number is written in two ways.
- Slot copy cursors, served windows and failover order bookkeeping in `pkg/session/manager.go`: each is settled by reading one short function.
- The floating-point volume sampling in `pkg/playback/service.go`.
