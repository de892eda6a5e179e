# Verification of the bridge's background work and its small algorithms

This project models, in Dafny, three parts of the bridge and proves what each of them is for.

1. **The artwork cache.** A pass of the size cap walks the cache, reads from the store what track rows name, and evicts
   the oldest files it may until the cache is under 90 % of the cap. `artwork --gc` removes what no row names. Modelled
   are what a file is from its name, the portrait verdict both share, the candidates, the sort, the eviction loop, the
   whole pass, the GC's decisions, and the pass beside the writers of the cache.
2. **Background work as concurrent protocols.** The AcoustID pacer and its pool-wide pause, the match and re-queue
   protocol of the fingerprint sweep, the loop every sweeper runs, the duplicates sweeper beside the scanner, and the
   DLNA library cache. Each is a state machine whose steps interleave in any order, for any number of workers, callers
   or scans, with a theorem about every reachable state.
3. **Self-contained algorithms.** The two glob compilers of `scripts/`, the disk budget kept over two drains in 64-bit
   arithmetic, the backwards chunked `tail`, the shell quoting printer, and the in-place candidate filter.

A file the original changes step by step is imperative here too: loops with invariants, arrays changed in place, and
classes for the recorders and counters. Each such method is proved equal to a function of its inputs, and the laws are
lemmas about that function.

## Where the code and what is said about it differ

The model follows the code. Each of these is a theorem below, with the exact condition where there is one.

- **A pass over part of the cache** is said to evict only what a whole pass would (`cmd/bridge/artwork.go:817-838`). That
  holds for every cache while the walk does not set its flag for a portrait it could not read. With the flag set the
  pass keeps every canonical, and may then evict a newer cover the whole pass keeps. For one cache, with every removal
  done, it holds at every cap exactly when, at each file the partial pass offers, the older bytes it withholds are no
  more than the bytes hidden from it, or the whole pass is still over its mark there at every cap the partial one
  exceeds, or the partial one is down to a byte by then.
- **The cap is said never to evict a portrait the GC keeps** (`cmd/bridge/artwork.go:600-601`). That holds for every cache
  exactly when every portrait can be read, and the store names both artwork and artists or the operator passed
  `--allow-empty`. Otherwise the GC refuses, skips its portraits or fails, and the cap goes on evicting.
- **The grace is said to cover a file until its row commits** (`cmd/bridge/artwork.go:552-584`). It does for every file that
  was there when the pass's own walk came by. A path the pass has in hand, which another remover vacates and a writer
  fills again, is removed with the new file.
- **`bridge logs` is documented to print the last n lines** (`cmd/bridge/logs.go:81`). It prints n + 1 when the file has n
  newlines or more and does not end in one.
- **`rules-for.py` says `**` must be a whole path segment** (`scripts/rules-for.py:88-89`). Its test is skipped before a
  slash, so `a**/b` compiles, and matches `ab`.
- **The two glob compilers** agree on every glob both accept but for one newline at the end of a path: `$` against `\Z`.
- **The disk budget on a shared volume** stays above its floor exactly when the two probes of that volume agree to within
  the floor. Otherwise a 64-bit difference can wrap round and admit a job that does not fit.
- **A duplicates restamp** is said to stand down for a scan that would overlap it, but for one that starts and ends inside
  its window (`internal/manifest/scanner_dupes.go:241-260`). It writes only the rows whose stamp differed in its snapshot,
  and it asks only whether a scan is in flight at that moment. A scan that was in flight before and writes the stamps of
  an older policy after that snapshot, but ends before the check, leaves rows the restamp then skips. A scan that streams
  between the check and the write can leave a group with no copy served. And a restamp that fails, unlike one that is
  deferred, does not put its nudge back. The store follows the newest policy nudged, at rest and in every run, exactly
  when a scan that changed the stamps since a restamp's snapshot never ends before the restamp's check, no scan streams
  between the check and the write, and no restamp fails.
- **A match that was not re-queued is said not to hold its file out** of the next pass while the process goes on
  (`cmd/bridge/fingerprint_sweeper.go:292-306`). It does when a pass that was switched off gives up waiting for a worker
  past its admission, and that worker caches its match afterwards. It does not in any other run.
- The portrait verdict takes a file of exactly the grace's age as old, the cap as fresh. Both boundaries are kept as coded.

## Model

| member | source | states |
|---|---|---|
| `ArtworkNames.PortraitNamesAreApart` | cmd/bridge/artwork_portraits.go:60-87 | no name is both an MBID portrait and a canonical, and an MBID is never empty, so filing canonicals under the empty MBID confuses nothing |
| `ArtworkNames.PortraitIsNoCover` | cmd/bridge/artwork.go:68-85 | no portrait's name is also a cover's |
| `ArtworkNames.KindReadBack` | cmd/bridge/artwork.go:1034-1054 | a file is a portrait to the cap exactly when the GC's portrait pass decides it, and a cover exactly when the GC's cover walk does and it is not under `thumbs/` |
| `ArtworkNames.StemReadBack` | cmd/bridge/artwork.go:68-85 | a name has a cover's key exactly when it is that key and one of the three sizes |
| `ArtworkNames.PortraitReadBack` | cmd/bridge/artwork_portraits.go:60-71 | a name is an artist's portrait exactly when it is `artist-`, an id and `.jpg`, and the id is read in lower case |
| `ArtworkNames.CanonicalReadBack` | cmd/bridge/artwork_portraits.go:73-87 | a canonical's name is `artist-name-`, 64 lower-case hexadecimal digits and `.jpg` |
| `ArtworkNames.MbidShape` | internal/manifest/mbid.go:5-17 | an id is five runs of hexadecimal digits, of 8, 4, 4, 4 and 12 |
| `ArtworkNames.ToLowerMeans` | cmd/bridge/artwork_portraits.go:199-212 | two ids are one to the cache exactly when they differ in case alone |
| `ArtworkOrder.SortCorrect` | cmd/bridge/artwork.go:931-939 | the sort keeps the multiset of candidates and leaves them oldest first, ties by path |
| `ArtworkOrder.SortedByTime` | cmd/bridge/artwork.go:931-939 | in that order times never go down, and where two are the same the paths are in byte order, said by where they first differ |
| `ArtworkOrder.OldestFirstUnique` | cmd/bridge/artwork.go:931-939 | that order is the only one, so any sort gives it |
| `ArtworkOrder.SortRestrict` | cmd/bridge/artwork.go:819-829 | sorting part of the candidates gives the part of the sorted whole, which lets two passes be compared step by step |
| `ArtworkPortraits.PortraitVerdicts` | cmd/bridge/artwork_portraits.go:150-197 | the loops with their size buckets remove exactly what the plain rule does: an MBID portrait no row names and that is not fresh, a canonical that is not fresh and is the same file as no kept portrait; every portrait is kept or removed |
| `ArtworkPortraits.BucketFindsLink` | cmd/bridge/artwork_portraits.go:166-189 | looking only through portraits of the canonical's own size loses no link, as a link has its file's size |
| `ArtworkPortraits.VerdictsMember` | cmd/bridge/artwork_portraits.go:150-164 | the verdict said of one file, both directions |
| `ArtworkPortraits.VerdictsSay` | cmd/bridge/artwork_portraits.go:150-197 | on the files' own fields: what goes is ten minutes old and is a portrait no row names, or a canonical that is no link to a portrait a row names or that is younger |
| `ArtworkPortraits.VerdictsFixpoint` | cmd/bridge/artwork_portraits.go:150-164 | run again on what it left, the verdict removes nothing: no canonical was kept for a portrait that went |
| `ArtworkCap.WalkCache` | cmd/bridge/artwork.go:848-910 | what the walk counts, and what it reports as unlisted, unread and as a hidden portrait, for every sequence of files, vanished files, unreadable files and unlistable directories |
| `ArtworkCap.PortraitHiddenMeaning` | cmd/bridge/artwork.go:887-904 | the flag is set exactly when some file the walk met was a portrait at the top it could not stat |
| `ArtworkCap.CandidatesMember` | cmd/bridge/artwork.go:1083-1096 | a file is a candidate exactly when it was counted, no row names it, and it is past the grace |
| `ArtworkCap.GracesPartAtTheBoundary` | cmd/bridge/artwork.go:1118-1137 | of the portraits the GC's verdict lets go, the cap leaves exactly those whose age is the grace itself |
| `ArtworkCap.RemovablePortraits` | cmd/bridge/artwork.go:1098-1117 | the map of removable paths holds a portrait exactly when the shared verdict lets it go, canonicals withheld while one is hidden |
| `ArtworkCap.CapCandidates` | cmd/bridge/artwork.go:1097-1142 | the loop returns exactly the candidates in walk order, and as referenced the bytes of what rows name |
| `ArtworkCap.EvictOldest` | cmd/bridge/artwork.go:940-969 | the loop is the eviction function, and what it counts as freed is the bytes it evicted |
| `ArtworkCap.SweepArtworkCache` | cmd/bridge/artwork.go:839-971 | one whole pass: every early return, the store read only when over the cap, nothing evicted when the store cannot be read, and every field of the result; what it may take of a store's rows is `ArtworkStoreLaws.CapMayTakeExactly` |
| `ArtworkStoreLaws.CapMayTakeExactly` | cmd/bridge/artwork.go:1056-1142 | over the store and the names on disk: the cap may take a cache file exactly when it is older than ten minutes and is no cover outside `thumbs/` whose key a row carries or an artist named by one is filed under, no portrait whose id a row spells in any case, and no canonical linked to one that stays or met while a portrait is hidden |
| `ArtworkStoreLaws.CapKeepsWhatRowsName` | cmd/bridge/artwork.go:600-617 | whatever the cap, the clock and the removals, no pass evicts any of those |
| `ArtworkStoreLaws.ReferencedExactly` | cmd/bridge/artwork.go:1076-1142 | the bytes reported as referenced are those of the covers in use and of the old portraits and canonicals that stay |
| `ArtworkStoreLaws.HiddenSays` | cmd/bridge/artwork.go:887-904 | a portrait is hidden exactly when an entry at the top with a portrait's name and type could not be read |
| `ArtworkCapLaws.EvictShortestPrefix` | cmd/bridge/artwork.go:931-969 | the loop attempts the shortest prefix of the sorted candidates that brings the total to the low-water mark, or all of them, or all up to the one it was cancelled before |
| `ArtworkCapLaws.LowWaterSays` | cmd/bridge/artwork.go:931-940 | the low-water mark is nine tenths of the cap, rounded up |
| `ArtworkCapLaws.PassConserves` | cmd/bridge/artwork.go:975-981 | what a pass saw is what it left, plus what it freed, plus what went on its own, however many removals failed |
| `ArtworkCapLaws.PassEvictsOnlyEvictable` | cmd/bridge/artwork.go:600-617 | a pass evicts only files it counted, that no row names and that are older than the grace |
| `ArtworkCapLaws.PartialCandidates` | cmd/bridge/artwork.go:1090-1096 | a pass over part of the cache offers exactly what a whole pass would of what it sees, less every canonical when a portrait is hidden |
| `ArtworkCapLaws.PartialPassBound` | cmd/bridge/artwork.go:817-838 | even with a hidden portrait, the inclusion holds while the files withheld before an offered one weigh no more than what is hidden |
| `ArtworkCapLaws.PartialPassSound` | cmd/bridge/artwork.go:817-838 | with every portrait in view, a pass over any part of the cache evicts only what a whole pass evicts, whatever the sizes, times and failed removals |
| `ArtworkCapLaws.PartialPassFreesNoMore` | cmd/bridge/artwork.go:832-838 | and it frees no more bytes |
| `ArtworkWalks.PartialWalk` | cmd/bridge/artwork.go:853-910 | a walk that meets directories it cannot list and files it cannot read counts exactly the files of the whole walk whose paths it sees, and sets its flag exactly when one it does not see is a portrait at the top |
| `ArtworkWalks.IncludedUnlessHidden` | cmd/bridge/artwork.go:817-838 | of two walks of one cache, one partial and its flag not set, the partial pass evicts only what the whole one does |
| `ArtworkWalks.IncludedExactly` | cmd/bridge/artwork.go:817-838 | for any two walks of one cache, one partial, flag set or not, the inclusion holds at every cap if and only if that bound holds |
| `ArtworkWalks.HiddenPortraitBreaksInclusion` | cmd/bridge/artwork.go:817-838 | two walks of three real file names, cap 100: an unlinked old canonical of 50, a newer unnamed cover of 60, and a portrait of 1 the partial walk cannot read; the partial pass evicts the cover and the whole pass the canonical |
| `ArtworkWalks.InclusionHoldsIffNoPortraitHidden` | cmd/bridge/artwork.go:1090-1096 | over all caches, partial walks, stores, caps, clocks and removals, the inclusion holds for every one while the walk's flag is not set, and not for every one while it is |
| `ArtworkCapLimits.PartialLoopExact` | cmd/bridge/artwork.go:819-829 | for two loops over one sorted list, the one over a part evicts a subset at every low-water mark exactly when the skipped bytes before its last file are no more than the gap between the two totals |
| `ArtworkCapLimits.PartialPassExact` | cmd/bridge/artwork.go:817-838 | for one cache and one view of it, hidden portraits or none, whole passes with the 90 % mark: the partial pass evicts only what the whole one does at every cap, if and only if the bound on the withheld bytes holds at every candidate it offers |
| `ArtworkCapLimits.SecondPassIdle` | cmd/bridge/artwork.go:931-970 | a second pass over what a pass with no refused removal left evicts nothing, whatever becomes of removals then |
| `ArtworkGC.CacheHasOrphans` | cmd/bridge/artwork.go:230-258 | found exactly when some file has a cover's name whose key is not in use |
| `ArtworkGC.CollectCovers` | cmd/bridge/artwork.go:421-491 | the cover walk decides the orphan covers, keeps one for each cover in use, skips one for each name that is no cover's, fails one for each refused removal, and the counts add up over the files it met |
| `ArtworkGC.OrphanCoversExactly` | cmd/bridge/artwork.go:455-490 | a path is decided exactly when some file met there is a cover whose key is not in use, and is no portrait at the top |
| `ArtworkGC.ListPortraits` | cmd/bridge/artwork_portraits.go:115-148 | the listing fails exactly when a portrait cannot be read, and otherwise splits the portraits as the cap does |
| `ArtworkGC.CollectPortraits` | cmd/bridge/artwork_portraits.go:219-276 | what the portrait pass decides, its empty-set rule, how many of those went and how many failed, and that every portrait is kept or decided |
| `ArtworkGC.RunArtworkGC` | cmd/bridge/artwork.go:358-537 | the decided paths of a run, its refusal, and exactly when it exits 0 |
| `ArtworkStoreLaws.GcRemovesExactly` | cmd/bridge/artwork.go:358-537 | over the store and the names on disk: a run decides a path exactly when it does not refuse, and a cover whose key no row needs is met there, or the portrait pass runs and a portrait no row needs, ten minutes old, is met there; it refuses exactly when the store names no artwork, that was not allowed, and some cover would go |
| `ArtworkStoreLaws.GcKeepsWhatRowsName` | cmd/bridge/artwork.go:261-300 | so it removes no cover and no portrait that a row names |
| `ArtworkGC.CapStaysWithinGc` | cmd/bridge/artwork.go:600-617 | with every portrait readable and a store that names artwork and artists (or empty allowed), every cover or portrait the cap evicts is one the GC removes on that store and clock |
| `ArtworkGC.CapOutrunsRefusal` | cmd/bridge/artwork.go:404-416 | a store naming no artwork: the GC refuses and the cap evicts an orphan cover |
| `ArtworkGC.CapOutrunsPortraitPass` | cmd/bridge/artwork_portraits.go:240-252 | a store naming no artist, or an unreadable portrait: the GC keeps an old unused portrait and the cap evicts it |
| `ArtworkGC.CapWithinGcExactly` | cmd/bridge/artwork.go:600-617 | over all caches, caps, clocks and removals, the cap stays within the GC if and only if no portrait is hidden and the store names artwork and artists or empty is allowed |
| `ArtworkGrace.RunSafe` | cmd/bridge/artwork.go:552-584 | the invariant of every run of writers, rewriters included, beside passes that read the store in three queries: a file the walk met is no older than the promise of its row or met before it, a promise older than the grace is in what the queries found or will find, and a file about to go is older than the grace |
| `ArtworkGrace.PromisedFileOnlyLostUnseen` | cmd/bridge/artwork.go:576-583 | a pass removes a file whose row commits within the grace only in place of an older one it saw, the promise being no older than the pass |
| `ArtworkGrace.RefilledPathIsLost` | cmd/bridge/artwork.go:950-957 | a run in which another remover vacates a path in the pass's hand, a writer fills it, and the pass removes the new file |
| `ArtworkGrace.PromisedFilesKeptExactly` | cmd/bridge/artwork.go:552-584 | in every interleaving no such file is ever evicted, if and only if no other remover takes a file the pass has in hand |
| `CapStreaks.CapSweeper.NoteOverCap` | cmd/bridge/artwork.go:719-739 | the remembered times and the line logged, in every case |
| `CapStreaks.CapSweeper.NoteUnseen` | cmd/bridge/artwork.go:746-778 | the same for passes that could not see the whole cache |
| `CapStreaks.CapSweeper.Pass` | cmd/bridge/artwork.go:686-704 | a failed pass changes neither streak; any other moves both |
| `CapStreaks.LogSaysExactly` | cmd/bridge/artwork.go:645-654 | over any sequence of passes, a bad pass warns exactly when no pass of its streak warned less than 24 h before, and a good pass ends a streak exactly when the pass before was bad, saying how long it lasted |
| `CapStreaks.WarningsBounded` | cmd/bridge/artwork.go:645-654 | the warnings over a run are at most the streaks begun plus the whole days elapsed |
| `AcoustidPacer.SleepOrDone` | cmd/bridge/fingerprint_sweeper.go:922-938 | an uncancelled sleep lasts its time and no longer than its timer is late, a non-positive one none, and a cancelled one ends with the cancellation |
| `AcoustidPacer.Pacer.AwaitPause` | cmd/bridge/fingerprint_sweeper.go:882-886 | uncancelled, it ends when the pause in force does, or at once, but for the timer's lateness |
| `AcoustidPacer.Pacer.Wait` | cmd/bridge/fingerprint_sweeper.go:904-920 | uncancelled, it ends at the later of the pause's end and an interval after the last request, but for the timer's lateness; cancelled or not, its end is the new last request |
| `AcoustidPacer.Pacer.NotePause` | cmd/bridge/fingerprint_sweeper.go:829-866 | the pause is the later of the two deadlines, and reported as extended exactly when it moved |
| `AcoustidPacer.PoolIsPaced` | cmd/bridge/fingerprint_sweeper.go:868-920 | for any number of passes, each cancelled or not, any number of workers and any interleaving, requests are an interval apart over the whole pool, and no request and no decode passes before the time advised by a refusal recorded earlier is over, up to an hour of it |
| `AcoustidPacer.PauseOnlyExtends` | cmd/bridge/fingerprint_sweeper.go:850-861 | the pause never shrinks and is always the furthest deadline recorded |
| `AcoustidPacer.PauseIsBounded` | cmd/bridge/fingerprint_sweeper.go:840-848 | no pause in force, and none on its way, ends more than the clamp after now |
| `SweepLoop.StatusSays` | cmd/bridge/jobstate.go:26-92 | after any sequence of calls, a sweep shows as running exactly when a start came after every finish, the counts shown are those of the latest finish that had any, whatever failed sweeps came since, and the next sweep is shown due when the latest schedule says |
| `SweepLoop.NoLostWakeUp` | cmd/bridge/jobstate.go:150-161 | in every reachable state a nudge no sweep has started since is in the buffer, or the loop is about to sweep, or it ended with its context |
| `SweepLoop.SweepsAreAsked` | cmd/bridge/jobstate.go:305-310 | every sweep after the boot pass starts on a tick or a nudge taken with nothing but nudges sent between, so a rearm never sweeps; they answer one to one; no more nudges are received than sent |
| `SweepLoop.BootIsFirst` | cmd/bridge/jobstate.go:296-303 | there is at most one boot pass, it is the first sweep, and only there if the first read of the cadence found it on |
| `SweepLoop.TicksKeepTheCadence` | cmd/bridge/jobstate.go:345-372 | a tick comes one whole interval after the cadence was last read; a waiting loop's timer is set for exactly that moment, or for none when what it read turned the cadence off, and that is what it shows |
| `DuplicatesSweeper.NudgedPolicyIsCovered` | cmd/bridge/duplicates_sweeper.go:58-71 | a nudged policy is covered by a restamp that read it and was not deferred, or buffered, or in the sweeper's hand, or the sweeper was stopped |
| `DuplicatesSweeper.DiffExactly` | internal/manifest/scanner_dupes.go:178-239 | a pass's diff makes the stamps the ones it wanted exactly when every row it left alone still is as it saw it |
| `DuplicatesSweeper.StampsAreOfOnePass` | internal/manifest/scanner_dupes.go:241-268 | scans may start, write and still be in flight beside a restamp, which then stands down, and restamps may fail; while no scan that changed the stamps since a restamp's snapshot ends before its check and none streams between the check and the write, the stamps are in every state those of one pass, of a policy at least as new as the newest a restamp applied |
| `DuplicatesSweeper.ScanInsideLeavesOldStamps` | internal/manifest/scanner_dupes.go:222-268 | a run in which a scan with an older policy writes after a restamp's snapshot and ends before its check: at rest, nothing failed, and a row keeps the older policy's stamp |
| `DuplicatesSweeper.RestampInsideHidesBoth` | internal/manifest/scanner_dupes.go:264-270 | a run in which a scan streams between a restamp's check and its write: at rest, both copies of a pair are suppressed |
| `DuplicatesSweeper.DeferralIsNoFinish` | cmd/bridge/duplicates_sweeper.go:102-129 | every restamp started is one finish, one deferral or the one under way |
| `DuplicatesSweeper.RestampsAreAsked` | cmd/bridge/duplicates_sweeper.go:76-129 | the sweeper restamps only when asked: in every run no more restamps are started than nudges were sent and put back, less the one that waits |
| `DuplicatesSweeper.FailureLosesTheNudge` | cmd/bridge/duplicates_sweeper.go:117-125 | a run that ends at rest with the nudged policy neither applied nor pending |
| `DuplicatesSweeper.AtRestUpToDateExactly` | cmd/bridge/duplicates_sweeper.go:58-71 | for all elections and runs, a sweeper at rest has the stamps of one election under a policy at least as new as the newest nudged, if and only if no restamp can fail, no scan that changed the stamps since a restamp's snapshot ends before its check, and none streams between the check and the write |
| `LibraryCache.BuildViews` | cmd/bridge/dlna_wiring.go:756-799 | the loop builds the list and the two indexes of it, routed and virtual tracks and resolver misses included |
| `LibraryCache.ListMember` | cmd/bridge/dlna_wiring.go:759-794 | an entry is listed exactly for a track that is routed, or is no virtual track and resolves; it has the id the path hashes to, and where it resolves or nothing |
| `LibraryCache.ListKeepsOrder` | cmd/bridge/dlna_wiring.go:756-794 | the list is in the store's order, one entry for each track listed |
| `LibraryCache.ViewsAgree` | cmd/bridge/dlna_wiring.go:761-799 | an entry is in the list exactly when its id finds it and exactly when its path finds it |
| `LibraryCache.Slots.Rebuild` | cmd/bridge/dlna_wiring.go:695-808 | the two indexes are always those of the list; a cache found fresh and a listing that fails change nothing, any other rebuild publishes its own walk and counts one generation |
| `LibraryCache.Slots.GetTrackInfo` | cmd/bridge/dlna_wiring.go:671-682 | what an id finds is the last listed track that has it, and it finds nothing only when no listed track does |
| `LibraryCache.Slots.ResolveHits` | cmd/bridge/dlna_wiring.go:811-839 | the results are in the order the hits were ranked: each hit the cache carries stands behind as many results as carried hits came before it, there are no others, and all are listed tracks at the paths hit |
| `LibraryCache.BurstsWalkOnce` | cmd/bridge/dlna_wiring.go:610-619 | for any number of callers, no two walk or publish at once, and no walk starts within the TTL of a publication |
| `LibraryCache.ReadsAreCoherent` | cmd/bridge/dlna_wiring.go:598-608 | though a publication assigns the slots one at a time and a reader reads them one at a time, the mutex makes every read take list, ids and paths from one walk, the last published; the generation counts the published walks; and a reader whose own walk did not fail reads views younger than the TTL when it asked |
| `FingerprintRequeue.CommitRequeues` | internal/manifest/acoustid_store.go:96-112 | the transaction gives each row at a resolved path its provenance and sends it back to the enricher, and leaves the rest of it and every other row alone |
| `FingerprintRequeue.MatchesAreRequeued` | cmd/bridge/fingerprint_sweeper.go:268-298 | on any store an earlier process left, and between passes however the last one ended, a match in the cache has had its row re-queued with its provenance, by a transaction of this process and while the cache held it, or is of a worker a cancelled pass gave up on; and a provenance in the store came with its re-queue |
| `FingerprintRequeue.LandedWasRequeued` | cmd/bridge/fingerprint_sweeper.go:271-290 | what counts as re-queued by this process had its row written so in one of its transactions |
| `FingerprintRequeue.WritesAreAdmitted` | cmd/bridge/fingerprint_sweeper.go:747-765 | in every run, no worker is past its admission and no match is cached or resolved unless the switch was on when that worker asked, and had not ended the pass |
| `FingerprintRequeue.CommitsAreAdmitted` | cmd/bridge/fingerprint_sweeper.go:264-275 | and no transaction runs unless the switch was on when the pass asked again at the write |
| `FingerprintRequeue.StrayMatchIsLost` | cmd/bridge/fingerprint_sweeper.go:292-306 | a run in which a pass is switched off, gives up on a worker past its admission, and the match that worker then caches holds its file out of later passes |
| `FingerprintRequeue.MatchesAreRequeuedExactly` | cmd/bridge/fingerprint_sweeper.go:292-306 | while the process goes on, every match in the cache between passes had its row re-queued while the cache held it, in every run, if and only if no worker past its admission can outlive the drain grace of a cancelled pass |
| `FingerprintRequeue.ForgetExactly` | cmd/bridge/fingerprint_sweeper.go:302-306 | forgetting drops what the cache holds of those paths, of every version, and nothing else |
| `FingerprintRequeue.OnlyMissesPersist` | cmd/bridge/fingerprint_sweeper.go:709-735 | a worker changes the store only by a clean miss, once admitted, which holds that version of the file out of every pass while it is in force |
| `FingerprintRequeue.UnlandedIsOfferedAgain` | cmd/bridge/fingerprint_sweeper.go:292-306 | a path no re-queue landed for, and that no such worker matched, is held out of the next pass by no match and no provenance: the scan offers it exactly when its other rules do and no miss is cached |
| `FingerprintRequeue.StoppedPassLeavesNothing` | cmd/bridge/fingerprint_sweeper.go:256-290 | a whole pass, from its start to an end without its transaction, whatever its workers, switches and failures did in between: no match in the cache and no provenance in the store is its own |
| `FingerprintCandidates.TakesRow` | cmd/bridge/fingerprint_sweeper.go:349-458 | the skip rules, in their order, pass over a row exactly when, on its own fields, it has both ids, or an artist id and a recorded match, or a no-match or a refusal of this version still in force, or waits for enrichment, or is out of bounds, or has an answer in the cache; which is what the re-queue protocol's rule says too |
| `FingerprintCandidates.CollectCandidates` | cmd/bridge/fingerprint_sweeper.go:338-468 | the stream collects the first rows the rules take, up to the scan cap, of what it read before it was cancelled |
| `FingerprintCandidates.KeptKeepsOrder` | cmd/bridge/fingerprint_sweeper.go:338-468 | those rows are in the store's order, each behind as many as were taken before it |
| `FingerprintCandidates.ResolveCandidates` | cmd/bridge/fingerprint_sweeper.go:497-533 | the in-place filter leaves exactly the first candidates that resolve, in order, up to the cap; it overwrites nothing not yet read and probes nothing after the cap is filled |
| `FingerprintCandidates.ResolvedKeepsOrder` | cmd/bridge/fingerprint_sweeper.go:497-533 | and what resolves keeps its order and carries where it resolved |
| `FingerprintCandidates.ScanFillsThePass` | cmd/bridge/fingerprint_sweeper.go:471-495 | when enough of the scanned rows resolve the pass is full, and a full scan that leaves it short had more than three quarters that did not |
| `GlobRegex.ScanIsIn` | scripts/check-doc-budgets.py:42-62 | reading the tokens from left to right decides the language of the regular expression they spell |
| `GlobCompilers.BudgetGlobRegex` | scripts/check-doc-budgets.py:42-62 | the loop compiles a glob to its tokens, every arm included |
| `GlobCompilers.RulesGlobRegex` | scripts/rules-for.py:79-101 | the loop compiles a glob to its tokens or refuses it, every arm included |
| `GlobCompilers.ScriptsAgreeExactly` | scripts/rules-for.py:79-101 | on every glob rules-for.py accepts, the two patterns match the same paths but for one newline at the end |
| `GlobCompilers.ScriptsDifferAtNewline` | scripts/rules-for.py:101 | and there they do differ |
| `GlobGroups.GroupReadsAs` | scripts/check-doc-budgets.py:56-59 | a group is what stands between the first brace that one closes and the first one closing it, its words between the commas |
| `GlobGroups.GroupTakesItsWords` | scripts/check-doc-budgets.py:56-59 | for every glob with a brace group, what it matches is what the glob before the group takes, one of the group's words as it stands, and what the rest takes |
| `GlobGroups.WildcardsInGroupsAreLiteral` | scripts/check-doc-budgets.py:56-59 | `{*}` matches `*` and not `a` |
| `GlobGroups.GlobMeansItsExpansions` | scripts/check-doc-budgets.py:43-45 | for every glob whose brace groups, if any, hold plain words and whose expansions have only whole `**` segments, and every normalised path, the compiled pattern matches exactly when a matcher over the segments of one of the expansions does |
| `GlobMeaning.MeansAnyName` | scripts/check-doc-budgets.py:43-45 | on paths without a newline that matcher is the documented meaning, `**` any number of whole directories |
| `GlobMeaning.AcceptsExactly` | scripts/rules-for.py:80-89 | which globs rules-for.py refuses, exactly |
| `GlobMeaning.GluedStarsSlipThrough` | scripts/rules-for.py:84-89 | `a**/b` is accepted and matches `ab` |
| `GlobMeaning.GoverningMeans` | scripts/rules-for.py:104-116 | rules without brackets and braces and whose `**` are whole segments load, and the files listed for a path are exactly those with a glob whose documented meaning takes it |
| `DiskBudget.Counts.Submit` | cmd/bridge/auto_optimize.go:544-566 | each of the pool's answers moves its own counter, and only an accepted job is charged |
| `DiskBudget.Counts.DrainCandidates` | cmd/bridge/auto_optimize.go:378-448 | the drain with its running total in 64-bit arithmetic, whatever way it ends; what that comes to is `DiskBudgetExact.DrainSays` |
| `DiskBudget.Counts.DrainSuperseded` | cmd/bridge/auto_optimize.go:450-485 | the second drain, under what the first left of the budget and of the cap |
| `DiskBudget.SweepOnce` | cmd/bridge/auto_optimize.go:155-240 | the budget flow of a sweep, and when it reports nothing |
| `DiskBudgetLaws.AdmitsFits` | cmd/bridge/auto_optimize.go:405-439 | while the probes agree, what the 64-bit check admits fits above the floor |
| `DiskBudgetExact.PeaksExactly` | internal/transcode/transcode.go:382-478 | what a job holds on the temp volume, and on one volume with its rendition, in exact arithmetic capped at the largest count |
| `DiskBudgetExact.AdmitsExactly` | cmd/bridge/auto_optimize.go:405-439 | while the probes agree, the check lets a job through if and only if it fits above the floor: beside what it holds on a shared volume, or its rendition on one volume and what it holds over all lanes on the other |
| `DiskBudgetExact.DrainSays` | cmd/bridge/auto_optimize.go:378-448 | a drain gets past every candidate until it is cancelled, meets a job that does not fit beside those taken before, or one the pool has no room for; it hands over all the others that fit, in order, and each reason and each answer is counted once |
| `DiskBudgetExact.DrainEndsOnce` | cmd/bridge/auto_optimize.go:378-448 | there is one place where that holds |
| `DiskBudgetExact.SecondDrainExactly` | cmd/bridge/auto_optimize.go:463-485 | when the second drain runs, and that it runs over what the first left of the cap and of the space |
| `DiskBudgetExact.SweepIsTwoDrains` | cmd/bridge/auto_optimize.go:155-240 | a sweep is those two drains and no more |
| `DiskBudgetLaws.SweepKeepsBudget` | cmd/bridge/auto_optimize.go:473-479 | over both drains the accepted projections sum to no more than the free space less the floor; the reported total is that sum, and the jobs are no more than the larger of the two reads of the cap |
| `DiskBudgetLaws.OverrunBreaksBudget` | cmd/bridge/auto_optimize.go:413-418 | otherwise a wrapped difference admits a job that does not fit, with the largest gain-guard size the projection can give |
| `DiskBudgetLaws.BudgetHoldsExactly` | cmd/bridge/auto_optimize.go:378-485 | for all candidates and all answers of the pool the floor holds if and only if the probes agree |
| `LogTail.ReverseInPlace` | cmd/bridge/logs.go:122-126 | the array ends as its own reverse |
| `LogTail.ReadBack` | cmd/bridge/logs.go:101-121 | the chunks, turned round and joined, are the file from some point on, which holds more newlines than asked for or is the start |
| `LogTail.SkipNewlines` | cmd/bridge/logs.go:128-139 | skipping newlines leaves the longest suffix with the rest of them |
| `LogTail.TailFile` | cmd/bridge/logs.go:92-144 | for every file, n and chunk size, what is written is the longest suffix with at most n newlines |
| `LogTail.TailUnique` | cmd/bridge/logs.go:81-84 | there is one such suffix |
| `LogTail.TailLinesExactly` | cmd/bridge/logs.go:81-84 | it is no more than n lines exactly when the file is empty, ends in a newline or has fewer than n; otherwise it is n + 1 |
| `LogTail.UnfinishedLineIsOneMore` | cmd/bridge/logs.go:81-84 | a file of an empty line and an unfinished one: asked for one line, it prints both |
| `ShellQuote.ShellWord` | cmd/bridge/doctor_player_dac.go:500-514 | the loop finds exactly the words that need no quotes |
| `ShellQuote.WordSays` | cmd/bridge/doctor_player_dac.go:500-514 | a non-empty word of letters, digits and the listed signs is printed as itself, and every other one between quotes, as it is but for its own quotes |
| `ShellQuote.ShellLine` | cmd/bridge/doctor_player_dac.go:490-498 | the printed line |
| `ShellQuote.LineJoins` | cmd/bridge/doctor_player_dac.go:490-498 | each further word is one space and the word as printed alone |
| `ShellQuote.ShellReadsBackTheWords` | cmd/bridge/doctor_player_dac.go:490-514 | a shell's tokeniser (sections 2.2.1, 2.2.2 and 2.3 of the Shell Command Language volume of IEEE Std 1003.1) reads back exactly the words printed, for all strings |
| `ShellQuote.LineIsInjective` | cmd/bridge/doctor_player_dac.go:490-514 | two lists of words that print the same are the same |

## Left out

- Byte totals of the artwork cache are unbounded here; the code's 64-bit sums are taken not to overflow. The disk budget, where wrap-round matters, is modelled in 64 bits.
- The spelling of cache paths: links and junctions, report paths, and which directory names a walk passes over. A walk is the sequence of what it meets, in the order it meets it.
- Cancelling `artwork --gc` midway, and reads of the store that fail before it starts; a run is modelled to its end.
- The wording and fields of log lines and of command output; only which line is logged when.
- The clock is an integer that never goes back, and no theorem promises that something happens in time: safety only, no fairness.
- `ArtworkGrace.PromisedFilesKeptExactly`: a writer makes its promise only of a path it found vacant, and dates the file with the clock; a writer that adopts an old file already on disk is outside the promise, as the source says. One that rewrites a file in place is in the model, and promises nothing. A row that names a promised file goes on naming it in the same way, by its key or by an artist's id.
- `AcoustidPacer.PoolIsPaced`: it is about the moments the pacer lets a worker go, not about when the request then leaves the host.
- `FingerprintRequeue.MatchesAreRequeued`: an AcoustID answer is its match or its miss, a re-queue records its provenance, and the decode, the lookup and the judging of its results are answers from outside.
- The AcoustID cache's size limit and eviction, and forgetting by folder prefix: it is a map, and paths are forgotten one by one.
- The 30-day expiry of no-matches and vetoes is whether the store still lists them; the duration and DSD screen of a row is a function of both.
- `GlobGroups.GlobMeansItsExpansions`: writing a group out is the same as the group only while no word of it holds `*`, `?` or `{`, and none that is empty or starts with a slash follows a star; `GlobGroups.GroupTakesItsWords` says what any group matches.
- Reading front matter, the document budgets, and finding the changed files of a checkout.
- `DiskBudget.Counts.DrainCandidates`: what plans a candidate and projects its size is an answer from outside; the remaining-backlog count is not modelled.
- The generation of the DLNA cache as a 64-bit counter that could wrap; the store's full-text search, the variants of a track, and the copy made of the list.
- `LogTail.TailFile`: a file that shrinks between its stat and its reads, read errors, and the follow mode.
- `ShellQuote.ShellReadsBackTheWords`: a character is one code point, not its bytes; and a printed word is taken as an argument, so assignments and reserved words in first place are not recognised. The tokeniser gives up on any character that is special unquoted, rather than reading what it would then mean.
- `DuplicatesSweeper.AtRestUpToDateExactly`: the grouping and the election are any function of what a pass saw of the library and of its policy, and a pass's streams see one library and one state of the stamps. Rows that are deleted take their stamps with them outside the model, as are the journal and the counters of a stamping pass.
- `internal/transcode` beyond the disk holds, `internal/dupes`, `internal/config`, `internal/doctor` and `internal/integrity` are not part of this model.
