# Hybrid cache: model and proofs

This project models the caching and upload logic of a hybrid cache for object storage and proves
properties of it in Dafny. `dafny verify dfyconfig.toml` checks everything.

The system has three layers, and the model follows them.

* **Local page cache** (`local_cache`). A file is spread over pages. A page is a byte buffer: a lock
  byte, two 8-bit version counters, a flag "everything here is valid", a bitmap with one bit for each
  body byte, and the body. The meaning of a page is a finite map from offsets to bytes (`Content`), the
  meaning of a store of pages is a partial function from file and offset to a byte (`FileByte`). Bit
  and byte operations are methods on arrays, proved against these meanings. The lock-free read
  protocol (compare two versions, copy, compare again) and the safe-mode lock are state machines whose
  steps are single memory operations.
* **s3fs stream upload** (`s3fs`). An open file keeps a cache file, the list of written areas not yet
  uploaded, and the list of parts already handed to upload workers. Writes upload whole part-size
  cells at once; the flush plans for every cell whether to keep, copy or send it, downloads what is
  missing, and completes the upload in part-number order. The accounting of upload workers and the
  stat cache with its index of pinned files belong to this layer.
* **Global write cache** (`global_cache`). Uploads store the chunks of a file on several servers and
  then write a metadata record. Garbage collection samples object ids, flushes listed files to the
  object store, lists again, notes the chunks still needed, and deletes older ones, while uploads go on.

The two schedulers in `LinUCBSchedule` that pick allocations are modelled as the combinatorial
algorithms they are.

## Layout

| files | about |
|---|---|
| `Runs`, `Multiples`, `Sets`, `Vectors`, `Decimal` | maximal runs of a set of offsets, multiples of a size, sizes of sets, vectors of amounts, decimal printing |
| `PageLayout`, `PageOps`, `PageScan`, `PageCaches` | one page and the store of pages |
| `PageKeys`, `FileViews`, `WriteCaches`, `ReadCaches` | files over pages: the write cache and the read cache |
| `PageUpdates` | the memory writes of a page update, one by one |
| `PageSteps`, `Seqlock`, `UpdateRuns`, `PageLocks` | what these writes mean, interleavings of page reads and writes, the in-place methods as writers, and page creation and removal |
| `Untreated`, `PlanTypes`, `Planning`, `PlanSteps`, `PlanFile` | written areas and the flush planner |
| `StreamParts`, `StreamSync`, `StreamRequests`, `Assembly`, `Streams` | the part list, the bookkeeping invariant, the requests to the store, and an open file |
| `Workers` | upload workers and the thread that waits for them |
| `Eviction`, `StatCaches` | the stat cache |
| `ChunkKeys`, `ReplicaLayout`, `WriteCacheServers` | chunk names, replicas, one write-cache server |
| `CollectGarbage`, `UploadSafety`, `GarbageSafety`, `GarbageProgress`, `GarbageRuns` | the garbage collection protocol: its steps, what uploads and the collector keep, that a collection can be finished, and runs without each guarantee |
| `EpsilonGreedy`, `Allocator`, `FeasibleConfigs` | candidate allocations |

## What the code does that its documentation does not say

* `fdcache_entity.cpp:1860-1886`: a file of exactly one part size is flushed with a plain put that
  forgets the written areas but keeps the list of uploaded parts. If the uploaded part had been written
  over, the next large flush assembles the file from the old part. `Streams.FdEntity.FlushGrowFlush`
  states exactly which object results, `Streams.StalePartSurvives` is a run, and
  `Streams.FdEntity.Session` covers all runs up to such a flush.
* `fdcache_entity.cpp:1988-2041`: a refused multipart upload forgets which bytes are not in the store.
  Without copying the next flush repairs the object, with copying it copies the old one
  (`Streams.FdEntity.RetryAfterRefusal`, and as a run `Streams.RefusedUploadLost`).
* `fdcache_entity.cpp:1905-1930`: a failed download returns after the cancelled parts have left the
  upload list. `Streams.FdEntity.FlushLarge` states when the bookkeeping survives that: exactly if the
  object has the bytes of those parts that were not written since.
* `read_cache.cpp:93`: a failed download is noticed only with logging enabled; otherwise whatever is in
  the buffer is cached. `ReadCaches.AgreementKept` states exactly when that does harm, and
  `ReadCaches.UnnoticedFailure` is a read that reports success and poisons a later one.
* The version counters have 8 bits: 254 updates during one read are safe, 255 are not
  (`Seqlock.ReadIsSnapshot`, `Seqlock.WrapAroundTears`).
* Reading a window of length 0 from a page whose full flag is up reports one run of length 0.
* The list of resident pages can keep a page that was removed while it was being listed
  (`PageLocks.ListRace`); the page count cannot go wrong that way (`PageLocks.QuietCount`).
  `PageLocks.QuietList` and `PageLocks.ListExactly` say when the list is right.
* A collection prefix such as `a-0` selects chunks of a file it does not select, and a collection with
  it loses that file (`GarbageRuns.UnsafePrefixLosesFile`). `ChunkKeys.SafePrefixExactly` says which
  prefixes are safe; the empty one and every directory are (`ChunkKeys.DirectoryIsSafe`).
* `GlobalDataAdaptor.cpp:88`: a flush that reaches no replica reads the object store instead. That keeps
  the content exactly if the object there already has it (`GarbageSafety.FallBackExactly`), and loses an
  upload otherwise (`GarbageRuns.FallBackLosesUpload`).
* `ReplicationWriteCacheClient.cpp:207-211`: the hash of a key plus a replica number wraps around at 64
  bits, so two replicas of a file can fall on one server (`ReplicaLayout.GetReplica` says when).

## Model

| member | source | states |
|---|---|---|
| `PageLayout.SetBit` | local_cache/page_cache.h:86 | exactly bit n becomes set, every other bit stays |
| `PageLayout.ClearBit` | local_cache/page_cache.h:87 | exactly bit n becomes clear, every other bit stays |
| `PageLayout.BitIsShifted` | local_cache/page_cache.h:86-88 | bit n of a bitmap byte is bit n counted from the lowest |
| `PageOps.Lock` | local_cache/page_cache.cpp:9-15 | takes the lock byte exactly if it was free (always succeeds without CAS); no other byte changes |
| `PageOps.UnLock` | local_cache/page_cache.cpp:17-21 | frees the lock byte and changes no other byte |
| `PageOps.AddNewVer` | local_cache/page_cache.cpp:23-27 | advances the new-version byte modulo 256 and nothing else |
| `PageOps.SetLastVer` | local_cache/page_cache.cpp:29-33 | sets the last-version byte and nothing else |
| `PageOps.SetHead` | local_cache/page_cache.cpp:63-72 | the bits before the first byte boundary are set or cleared, no other |
| `PageOps.SetMid` | local_cache/page_cache.cpp:74-81 | whole bitmap bytes are set or cleared, leaving fewer than 8 bits |
| `PageOps.SetBits` | local_cache/page_cache.cpp:58-96 | head, middle and tail together change exactly the bits [pos, pos+len) |
| `PageOps.SetBitMap` | local_cache/page_cache.cpp:58-96 | changes exactly the bits [pos, pos+len) and the full flag as the code promises |
| `PageScan.WordDecidesBatch` | local_cache/page_cache.cpp:204-213 | a 64-bit word of the bitmap is all ones, or all zeros, exactly when its 64 offsets are all valid, or all invalid |
| `PageScan.TryBatch` | local_cache/page_cache.cpp:200-213 | the batch answer is given exactly if the position is a multiple of 64, 64 positions are left and all of them agree, and then it is right |
| `PageScan.ScanStep` | local_cache/page_cache.cpp:197-242 | one round of the loop keeps the runs found so far maximal and ordered and the bytes copied |
| `PageScan.ScanRuns` | local_cache/page_cache.cpp:195-249 | the slow scan reports exactly the maximal runs of valid bits and copies exactly their bytes |
| `PageScan.ScanAndCopy` | local_cache/page_cache.cpp:186-249 | reports exactly the ordered maximal runs of valid bits and copies exactly their bytes, with and without the full flag |
| `PageScan.RawIsPageRead` | local_cache/page_cache.cpp:186-193 | what a scan makes of the bytes it looks at is what the page holds, on every page whose full flag tells the truth |
| `PageScan.ScanAll` | local_cache/page_cache.cpp:277-340 | the reported memory segments are exactly the maximal runs of valid bits of the page |
| `Runs.RunsUnique` | local_cache/page_cache.cpp:186-249 | the ordered maximal runs of a set of offsets are unique, so both scans and the bit-by-bit scan must agree |
| `PageCaches.WriteMeaning` | local_cache/page_cache.cpp:154-157 | body copy and bitmap update together overwrite the page's partial map at the written offsets |
| `PageCaches.DeleteMeaning` | local_cache/page_cache.cpp:365-367 | clearing bits removes exactly the window from the partial map |
| `PageCaches.EmptyMeaning` | local_cache/page_cache.cpp:369-377 | the bitmap is all zeros exactly when the page caches nothing |
| `PageCaches.FastStaysOk` | local_cache/page_cache.cpp:47-62 | every write or deletion keeps "full flag up implies every bit valid" |
| `PageCaches.ReadMeaning` | local_cache/page_cache.cpp:186-249 | the valid bits of a window and their bytes are the page's partial map there |
| `PageCaches.WriteBody` | local_cache/page_cache.cpp:146-159 | a write on a page: its partial map is overwritten at the window, both versions are one more than before and the lock is free again; its memory writes are, in this order, lock, new version, body and bitmap bytes, last version, unlock, and they lead from the old memory to the new |
| `PageCaches.ClearBody` | local_cache/page_cache.cpp:366-377 | a deletion on a page removes exactly the window and tells whether nothing is left; its memory writes are lock, new version, and the cleared bits, so that the page is left locked with the new version one ahead of the last |
| `PageCaches.Release` | local_cache/page_cache.cpp:400-402 | the end of an update: last version, then unlock |
| `PageCaches.PageCache.FindOrCreateWriteHandle` | local_cache/page_cache.cpp:427-463 | a missing page is created empty and accounted; a resident page is handed out unchanged |
| `PageCaches.PageCache.Remove` | local_cache/page_cache.cpp:380-393 | takes the page out of store, count and list together |
| `PageCaches.PageCache.Write` | local_cache/page_cache.cpp:139-161 | overwrites the window of that page's map, leaves every other page, keeps the invariant; both versions of the page go up by one |
| `PageCaches.PageCache.Read` | local_cache/page_cache.cpp:163-255 | copies exactly the cached bytes of the window and reports their maximal runs; a missing page is an error and changes nothing |
| `PageCaches.PageCache.GetAllCache` | local_cache/page_cache.cpp:257-346 | the segments are the maximal runs of the whole page |
| `PageCaches.PageCache.DeletePart` | local_cache/page_cache.cpp:348-407 | removes exactly the window; the page goes exactly if nothing is left in it and the store removes it; a page that stays has both versions up by one; a refused removal is reported and leaves an empty page |
| `PageCaches.PageCache.Delete` | local_cache/page_cache.cpp:409-425 | removes exactly that page, or reports that there is none |
| `PageKeys.PageKeyInjective` | local_cache/write_cache.cpp:308-318 | two page keys are equal exactly if the index is equal and the file keys are equal or both longer than 200 characters with colliding short forms |
| `FileViews.PageWriteMeaning` | local_cache/write_cache.cpp:40-51 | a page write is a write of the file at index * page size + position, for this file and colliding ones only |
| `FileViews.PutPages` | local_cache/write_cache.cpp:27-51 | the page loop writes exactly [start, start+len) of the file and nothing else of any file |
| `FileViews.GetPiece` | local_cache/write_cache.cpp:82-92 | a page read is a read of the file's window |
| `WriteCaches.WriteCache.Put` | local_cache/write_cache.cpp:22-64 | appends the write to the history that the pages reflect; the key is remembered with its first write time |
| `WriteCaches.WriteCache.JoinStep` | local_cache/write_cache.cpp:94-102 | joining at page borders turns maximal runs of a page into maximal runs of the file |
| `WriteCaches.WriteCache.Get` | local_cache/write_cache.cpp:66-119 | after any writes to any keys, returns the maximal runs of written offsets with the last writer's bytes and leaves the rest of the buffer |
| `WriteCaches.LogWrite` | local_cache/write_cache.cpp:40-53 | one more write extends what the pages reflect |
| `WriteCaches.ShortKeysAreSeparate` | local_cache/write_cache.cpp:308-318 | for keys of at most 200 characters only writes to that very key count |
| `ReadCaches.ReadCache.CollectHits` | local_cache/read_cache.cpp:33-54 | copies every cached byte of the range, collects ordered pieces that cover exactly the hits, and their total |
| `ReadCaches.GapTasks` | local_cache/read_cache.cpp:56-83 | the download ranges are exactly the maximal runs of missing offsets, so each missing byte is in one of them and no cached byte is |
| `ReadCaches.ReadCache.RunTask` | local_cache/read_cache.cpp:85-102 | one download fills its range of the buffer and caches it, in any order of the downloads |
| `ReadCaches.ReadCache.RunTasks` | local_cache/read_cache.cpp:105-122 | all downloads together, in any order, fill and cache exactly their ranges; the result is a failure exactly if one was noticed |
| `ReadCaches.ReadCache.Get` | local_cache/read_cache.cpp:17-148 | hits are copied, gaps delivered and cached, the rest of the buffer untouched; the result codes for no adaptor and for noticed failures |
| `ReadCaches.ReadReturnsRemote` | local_cache/read_cache.cpp:33-103 | with agreement before and no failed download, the buffer and the cache hold exactly the remote bytes of the range |
| `ReadCaches.AgreementKept` | local_cache/read_cache.cpp:92-99 | cache and remote agree after a read if and only if no unnoticed failure left wrong bytes |
| `ReadCaches.UnnoticedFailure` | local_cache/read_cache.cpp:92-99 | a run: without logging a read whose download fails reports success, and a later read, whose own download succeeds, takes the wrong byte from the cache |
| `ReadCaches.ShortKeyUnshared` | local_cache/read_cache.cpp:263-273 | no other file shares the pages of a key of at most 200 characters |
| `PageUpdates.ExecBitmap` | local_cache/page_cache.cpp:63-95 | the single-byte steps of a bitmap update, executed one by one, change exactly the bits [pos, pos+len) |
| `PageSteps.UpdateMeaning` | local_cache/page_cache.cpp:154-157 | the memory steps of a write or deletion end in a page with the updated partial map |
| `UpdateRuns.WriterRuns` | local_cache/page_cache.cpp:139-161 | the writes an update reports are the steps of one writer in the interleaved protocol: a writer that finds the lock free can take all of them, and after each the memory is what the writes so far have made of it |
| `UpdateRuns.RemovesIfEmpty` | local_cache/page_cache.cpp:369-391 | a deletion that has cleared its bits can remove the page if and only if the page caches nothing any more |
| `UpdateRuns.QuietReadPasses` | local_cache/page_cache.cpp:178-253 | a read of a page that nobody updates meanwhile passes both checks and has seen exactly the page |
| `Seqlock.InvRun` | local_cache/page_cache.cpp:9-45 | the invariant of lock, versions, writers and readers over every interleaving of single memory steps |
| `Seqlock.OneWriterAtATime` | local_cache/page_cache.cpp:9-21 | in every interleaving the lock byte is 1 exactly while one update is under way |
| `Seqlock.ReadIsSnapshot` | local_cache/page_cache.cpp:172-253 | a read that passes its last check, with at most 254 updates begun meanwhile, copied one state of the page with no update in progress |
| `Seqlock.ReadReturnsVersion` | local_cache/page_cache.cpp:186-253 | the runs and bytes such a read makes of what it saw are those of the page as it stood when the read began, in every interleaving |
| `Seqlock.GoneStays` | local_cache/page_cache.cpp:379-402 | once a deletion has removed the page, its memory, lock and versions never change again and no read of it that begins then can pass |
| `Seqlock.VersionMeaning` | local_cache/page_cache.cpp:139-161 | the state after n updates means the first n updates applied to the partial map |
| `Seqlock.WrapAroundTears` | local_cache/page_cache.cpp:23-27 | with 255 updates during a read there is a run whose read passes and has seen no single state |
| `PageLocks.AllocateAndRemoveExclude` | local_cache/page_cache.cpp:380-391 | in every interleaving the lock is -1 exactly while held exclusively, by one thread and with no shared holder, and otherwise counts the shared holders |
| `PageLocks.QuietCount` | local_cache/page_cache.cpp:427-463 | whenever no thread is under way the page count is the number of resident pages |
| `PageLocks.QuietList` | local_cache/page_cache.cpp:453-456 | over every run in which no page is inserted or removed while another thread still has to list or unlist it, the page list is the resident pages whenever no thread is under way |
| `PageLocks.ListExactly` | local_cache/page_cache.cpp:391-393 | in every run the list is the resident pages if and only if every page was last listed or unlisted as it was last inserted or removed |
| `PageLocks.ListRace` | local_cache/page_cache.cpp:453-456 | an interleaving, outside that condition, after which a page that is not resident stays on the page list for good |
| `Untreated.UntreatedParts.AddPart` | s3fs/fdcache_untreated.cpp:64-100 | adds exactly the area, merging everything it overlaps or touches; the list stays ordered and apart; the merged part is the last updated one |
| `Untreated.UntreatedParts.GetLastUpdatePart` | s3fs/fdcache_untreated.cpp:194-212 | finds the part with the newest tag, or none |
| `Untreated.UntreatedParts.ReplaceLastUpdatePart` | s3fs/fdcache_untreated.cpp:214-233 | the last part gives way to the given area and no other part changes; an area inside it keeps the list in order |
| `Untreated.UntreatedParts.RemoveLastUpdatePart` | s3fs/fdcache_untreated.cpp:235-249 | removes exactly the last part |
| `Planning.TakeUntreated` | s3fs/fdcache_fdinfo.cpp:810-864 | splits off exactly the untreated bytes of a cell, in order |
| `Planning.FindUploaded` | s3fs/fdcache_fdinfo.cpp:874-893 | finds the uploaded part of a cell; fails exactly if a second one begins in it |
| `Planning.SplitCell` | s3fs/fdcache_fdinfo.cpp:970-1035 | downloads are exactly the clean bytes of what is sent, and a leading gap goes to the previous copy exactly under the size limits |
| `PlanFile.SendRest` | s3fs/fdcache_fdinfo.cpp:981-1006 | giving the gap to the copy before it keeps the plan's tiling, numbers, byte rules and size limits |
| `PlanFile.DecideCell` | s3fs/fdcache_fdinfo.cpp:898-1036 | every branch extends a correct plan by one cell |
| `PlanFile.ExtractUploadPartsFromAllArea` | s3fs/fdcache_fdinfo.cpp:774-1040 | fails exactly if two uploaded parts begin in one cell; for aligned parts, kept, copied and sent cells tile the file with numbers 1..N, downloads are the clean bytes of sent cells, copies hold no written byte, with copying allowed a cell is sent only if it has a written or uploaded byte, the cancelled parts are those meeting written bytes, sizes are within the store's limits; cell k begins at k part sizes, unless the clean bytes before its first written one go to the copy before it, which they do exactly when the copy stays within 5 GB and at least 5 MB are left |
| `StreamParts.InsertUploadPart` | s3fs/fdcache_fdinfo.cpp:385-411 | rejects bad parameters; otherwise inserts the part and keeps part-number order |
| `StreamParts.ParallelMultipartUpload` | s3fs/fdcache_fdinfo.cpp:417-466 | the list afterwards holds the old parts and exactly one new part for each planned one, numbers strictly ascending; the parts are sent in the planned order |
| `StreamParts.ExtractUploadPartsFromUntreatedArea` | s3fs/fdcache_fdinfo.cpp:686-756 | uploads the whole cells of the area; takes out exactly the parts inside them; only the last part taken out may extend the area |
| `StreamSync.CoverageGrows` | s3fs/fdcache_fdinfo.cpp:719-753 | cancelled parts are covered by the new ones: the uploaded bytes grow by exactly the uploaded area |
| `StreamSync.BoundaryOk` | s3fs/fdcache_fdinfo.cpp:605-614 | moving whole cells from written to uploaded keeps the bookkeeping invariant |
| `StreamSync.WriteOk` | s3fs/fdcache_entity.cpp:2544-2551 | a local write keeps the bookkeeping invariant |
| `StreamSync.GrowOk` | s3fs/fdcache_entity.cpp:2253-2267 | a zero-filled gap keeps the bookkeeping invariant |
| `Assembly.KeptFits` | s3fs/fdcache_fdinfo.cpp:903-907 | a kept part is the cell its number names and holds its bytes |
| `Assembly.SentFits` | s3fs/fdcache_entity.cpp:1896-1931 | a sent part is the cell its number names and holds its bytes |
| `Assembly.CopiedFits` | s3fs/fdcache_fdinfo.cpp:914-919 | a copied part lies inside the old object and holds the bytes of its cell |
| `Assembly.StrictFull` | s3fs/fdcache_fdinfo.cpp:403-405 | sorted by number, parts whose numbers fill 1..N are numbered 1, 2, ..., N |
| `Assembly.Assembled` | s3fs/fdcache_entity.cpp:1985-2025 | kept, sent and copied parts in part-number order put together are exactly the image the plan shows |
| `Assembly.InvShows` | s3fs/fdcache_entity.cpp:1896-1931 | with the bookkeeping in order the image of a planned flush is the content, except where a kept part holds other bytes |
| `Assembly.CleanShows` | s3fs/fdcache_fdinfo.cpp:910-927 | with nothing written or uploaded the image is the old object if copying is allowed, and the content otherwise |
| `Streams.LaunchCells` | s3fs/fdcache_fdinfo.cpp:548-601 | replaces the parts inside n whole cells by n new ones |
| `Streams.FdEntity.constructor` | s3fs/fdcache_entity.cpp:597-676 | opening an object, perhaps as a larger file: nothing is loaded, what the file has more is zeros and still to be uploaded |
| `Streams.FdEntity.Grow` | s3fs/fdcache_entity.cpp:2253-2267 | a write beyond the end first extends the content with zeros, which become dirty |
| `Streams.FdEntity.SendCells` | s3fs/fdcache_fdinfo.cpp:548-614 | the cells move from written to uploaded, nothing else changes place |
| `Streams.FdEntity.Load` | s3fs/fdcache_entity.cpp:1085-1135 | afterwards every byte of the range holds the content; loaded and modified bytes are not touched |
| `Streams.FdEntity.ReplaceLastUpdateUntreatedPart` | s3fs/fdcache_entity.cpp:2797-2814 | the last written part is replaced by the front and behind areas |
| `Streams.FdEntity.UploadBoundaryLastUntreatedArea` | s3fs/fdcache_fdinfo.cpp:506-617 | the last written part is split into front, whole cells and behind; written loses and uploaded gains exactly the cells; the cells are as many as fit; the store is asked for exactly these parts, after a begin if no upload is open; a refused begin changes nothing |
| `Streams.FdEntity.Write` | s3fs/fdcache_entity.cpp:2231-2288 | the content becomes the old one with a zero gap and the bytes laid over; exactly these bytes become dirty; uploaded bytes stay uploaded; whole cells written at once are uploaded, and nothing is uploaded unless some cell is completely written; parts are sent only under an open upload or after an accepted begin |
| `Streams.FdEntity.WriteStreamUpload` | s3fs/fdcache_entity.cpp:2534-2572 | the write without a gap, followed by the upload of whole cells |
| `Streams.FdEntity.PlanFlush` | s3fs/fdcache_entity.cpp:1892-1931 | plan and downloads leave every sent byte local; a failed download stops it |
| `Streams.SendParts` | s3fs/fdcache_entity.cpp:1985-2025 | the parts sent, copied and kept make the image of the plan |
| `Streams.FdEntity.FlushSmall` | s3fs/fdcache_entity.cpp:1860-1890 | the object becomes the content; what the next flush keeps of uploaded parts is exactly what they hold, and that is the content if none of them was written over |
| `Streams.FdEntity.FlushLarge` | s3fs/fdcache_entity.cpp:1891-2047 | the object becomes the planned image; exactly when a download fails, the begin is refused or the wait fails is what the flush reports, in this order; a refused begin changes nothing; after a failed download or wait the bookkeeping is right if and only if the object has the unwritten bytes of the cancelled parts; after a refused upload if and only if the object is the content; a flush that sends its parts ends the upload, and the object is made of the parts the end lists |
| `Streams.FdEntity.RowFlushStreamMultipart` | s3fs/fdcache_entity.cpp:1852-2054 | with uploaded parts up to date a successful flush makes the object the content of the file |
| `Streams.FdEntity.UploadedNeedsOnePart` | s3fs/fdcache_fdinfo.cpp:539-543 | a file below one part size has no uploaded part |
| `Streams.FdEntity.Session` | s3fs/fdcache_entity.cpp:2231-2288 | over any sequence of writes and flushes the content is the replay of the writes and the object equals it after every flush, up to a flush at exactly one part size that finds an uploaded part written over; every part is sent, and every upload completed from parts sent, between the accepted begin of an upload and its end |
| `Streams.FdEntity.FlushGrowFlush` | s3fs/fdcache_entity.cpp:1860-1890 | after a flush at exactly one part size, a write behind it and another flush, the object is the content if and only if every uploaded part held the content at the first flush; otherwise it has the parts' old bytes |
| `Streams.FdEntity.RetryAfterRefusal` | s3fs/fdcache_entity.cpp:1988-2041 | after a refused upload the next flush makes the object the content if copying is off, and leaves the old object if it is on |
| `Streams.KeptInv` | s3fs/fdcache_fdinfo.cpp:949-950 | dropping the cancelled parts keeps the bookkeeping if and only if the object has their unwritten bytes |
| `Streams.StalePartSurvives` | s3fs/fdcache_entity.cpp:1860-1890 | a run of the methods: after a flush at exactly one part size the next flush stores an old byte |
| `Streams.RefusedUploadLost` | s3fs/fdcache_entity.cpp:1988-2041 | a run of the methods: a refused upload, then a flush that succeeds and copies the old object |
| `Workers.CompleteInv` | s3fs/fdcache_fdinfo.cpp:289-305 | a completing worker always finds its instruction counted and keeps the accounting |
| `Workers.NextInv` | s3fs/fdcache_fdinfo.cpp:431-464 | permits plus unposted completions plus held permits equal the completions counted, after every step of anyone |
| `Workers.NeverUnderflows` | s3fs/fdcache_fdinfo.cpp:297-301 | the instruction counter never underflows in any interleaving |
| `Workers.ReturnsWhenDone` | s3fs/fdcache_fdinfo.cpp:619-648 | waiting returns only when every worker launched so far has been posted, and reports an error exactly if a worker ended with one since the counters were last forgotten |
| `Workers.NeverStuck` | s3fs/fdcache_fdinfo.cpp:632-634 | a waiter can always go on or some worker can; without a permit some worker still has to post |
| `Workers.WaitEnds` | s3fs/fdcache_fdinfo.cpp:632-645 | every step taken while someone waits reduces the remaining work, so the wait ends |
| `Eviction.Sort` | s3fs/cache.cpp:83-95 | sorts by seconds, nanoseconds and then hits, a permutation |
| `Eviction.CutOff` | s3fs/cache.cpp:562-567 | sorting and dropping the youngest keeps the choice of oldest entries right although the bound shrinks |
| `Eviction.SelectOldest` | s3fs/cache.cpp:547-569 | chooses no pinned entry, exactly the excess less the pinned ones, and, by seconds, nanoseconds and hits, none younger than an unpinned entry it leaves, in any scan order |
| `Eviction.FreeKept` | s3fs/cache.cpp:547-569 | a full cache keeps, of its unpinned entries, one fewer than its size, or all if they are fewer |
| `StatCaches.PathOfParts` | s3fs/cache.cpp:754-759 | directory and name of a normalised path determine the path; the name has no slash |
| `StatCaches.AgreesStep` | s3fs/cache.cpp:748-808 | pinning or unpinning an entry together with its index entry keeps the agreement |
| `StatCaches.StatCache.AddNotruncateCache` | s3fs/cache.cpp:748-776 | lists exactly this file more, once; paths ending in a slash are not listed |
| `StatCaches.StatCache.DelNotruncateCache` | s3fs/cache.cpp:781-808 | lists exactly this file less and leaves no empty list |
| `StatCaches.StatCache.DelStat` | s3fs/cache.cpp:580-611 | drops the entry and the one with or without a final slash; index and entries still agree |
| `StatCaches.StatCache.EraseExpired` | s3fs/cache.cpp:530-540 | drops exactly the unpinned entries whose date, in seconds and nanoseconds, is more than the expiry time ago |
| `StatCaches.StatCache.TruncateCache` | s3fs/cache.cpp:522-578 | expiry and eviction together leave exactly the entries not chosen; no evicted entry is younger, by seconds, nanoseconds and hits, than an unpinned one that stays; in a full cache the unpinned ones that stay are one fewer than its size, or all; index and entries still agree |
| `StatCaches.StatCache.MakeRoom` | s3fs/cache.cpp:343-355 | an old entry of the path goes with its twin; or else, exactly if the cache has grown over its size, the expired entries and the chosen ones go; or else every entry stays |
| `StatCaches.StatCache.AddStat` | s3fs/cache.cpp:334-402 | stores the entry, pinned or not; of the others exactly those go that make room; a path without an entry costs no pinned one; index and entries still agree |
| `StatCaches.StatCache.AddNoObjectCache` | s3fs/cache.cpp:451-495 | stores the no-object entry unpinned; of the others exactly those go that make room; a path without an entry costs no pinned one; index and entries still agree |
| `StatCaches.StatCache.ChangeNoTruncateFlag` | s3fs/cache.cpp:497-520 | counts pins up and down to zero; the file is listed exactly while the count is positive |
| `ChunkKeys.ParseTsOfInternal` | global_cache/WriteCache.cpp:92-106 | the object id printed into an internal key is read back from it |
| `ChunkKeys.InternalKeyInjective` | global_cache/WriteCache.cpp:207-208 | internal keys are equal only for the same chunk name and object id |
| `ChunkKeys.KeyOfChunk` | global_cache/WriteCache.cpp:204-208 | an example of how file key, chunk number, chunk size and object id make a key |
| `ChunkKeys.PrefixOfInternal` | global_cache/WriteCache.cpp:88-90 | a safe prefix selects a chunk exactly if it selects the chunk's file |
| `ChunkKeys.SafePrefixExactly` | global_cache/WriteCache.cpp:88-90 | the safe prefixes, those without a dash followed by the beginning of a chunk number, chunk size and object id, are exactly the ones that select chunks and files alike |
| `ChunkKeys.DirectoryIsSafe` | global_cache/WriteCache.cpp:88-90 | the empty prefix and every prefix not ending in a digit or a dash is safe |
| `ChunkKeys.DashPrefix` | global_cache/WriteCache.cpp:88-90 | a prefix that is not safe, with a chunk it selects and the file it does not select |
| `WriteCacheServers.WriteCache.Put` | global_cache/WriteCache.cpp:204-240 | stores the chunk under a key not in use whose id reads back as the server's next id; a refused chunk only uses up the id |
| `WriteCacheServers.WriteCache.QueryTS` | global_cache/WriteCache.h:20 | the time stamp separates the chunks stored before, whose ids are smaller, from all later ones |
| `WriteCacheServers.WriteCache.Delete` | global_cache/WriteCache.cpp:286-301 | removes only matching, old and unexcepted entries, all of them exactly if none resists |
| `WriteCacheServers.PutIsTwoSteps` | global_cache/WriteCache.cpp:204-240 | handing out an id and storing under it, two steps of the protocol, are the server's put |
| `WriteCacheServers.DeleteIsRemoveSteps` | global_cache/WriteCache.cpp:286-301 | every outcome of a deletion request is reached by removal steps of the collector |
| `ReplicaLayout.GetReplica` | global_cache/ReplicationWriteCacheClient.cpp:204-213 | the first server is the hash modulo their number and each next one the following, in a circle, except that server 0 follows where the 64-bit sum wraps around; with enough servers all different, if and only if the sum does not wrap around or the remainder of 2^64 is no distance between two replicas |
| `ReplicaLayout.Put` | global_cache/ReplicationWriteCacheClient.cpp:4-70 | chunk c of replica r is stored at path index c*R+r with its name and bytes; nothing stored before changes, no server gets anything but chunks of this upload, and every chunk sent uses up exactly one object id of its server; it succeeds exactly if every chunk is accepted |
| `ReplicaLayout.AlignedName` | global_cache/ReplicationWriteCacheClient.cpp:30-36 | an upload that starts on a chunk boundary names its chunks by their number in the file |
| `ReplicaLayout.JoinedHoldsExactly` | global_cache/GlobalDataAdaptor.cpp:662-668 | concatenating paths keeps the layout if and only if the part before ends on a chunk boundary or nothing follows |
| `ReplicaLayout.Completed` | global_cache/GlobalDataAdaptor.cpp:655-675 | with chunk-aligned parts the joined record describes the whole file; no parts give no record |
| `ReplicaLayout.GenerateGetChunkRequests` | global_cache/ReplicationWriteCacheClient.cpp:215-248 | the requests cover exactly the range, in order, each inside one chunk |
| `ReplicaLayout.RequestServed` | global_cache/ReplicationWriteCacheClient.cpp:95-99 | the chosen replica stores the chunk and the request reads the right bytes of it |
| `ReplicaLayout.Get` | global_cache/ReplicationWriteCacheClient.cpp:72-177 | a read of any range inside the file returns the bytes put, whatever primary replicas are chosen |
| `UploadSafety.StoreInv` | global_cache/WriteCache.cpp:204-240 | storing a chunk under an id handed out earlier, however long ago, keeps the invariant |
| `UploadSafety.TakeIdInv` | global_cache/WriteCache.cpp:207 | handing out an object id keeps the invariant: it is no smaller than the server's sample and no upload holds it |
| `UploadSafety.CommitInv` | global_cache/GlobalDataAdaptor.cpp:241-243 | writing an upload's metadata at any phase of a collection keeps the invariant, unless the key is being flushed: after the second listing all its chunks are young |
| `GarbageSafety.FlushInv` | global_cache/GlobalDataAdaptor.cpp:319-367 | every step of flushing a key keeps the invariant |
| `GarbageSafety.FallBackExactly` | global_cache/GlobalDataAdaptor.cpp:86-92 | a flush that falls back to the object store keeps the invariant, whatever its buffer holds, if and only if the store has the content |
| `GarbageSafety.RelistInv` | global_cache/GlobalDataAdaptor.cpp:538-542 | appending the second listing covers every live file |
| `GarbageSafety.PreserveInv` | global_cache/GlobalDataAdaptor.cpp:548-569 | reading one record again covers its chunks by owner i mod R |
| `GarbageSafety.RemoveInv` | global_cache/GlobalDataAdaptor.cpp:571-587 | deleting an old chunk that is not preserved takes no chunk of a live file or of an upload under way |
| `GarbageSafety.AssembleHolds` | global_cache/ReplicationWriteCacheClient.cpp:95-99 | the chunks of a live file put together are its content, from any choice of replicas |
| `GarbageSafety.SampleInv` | global_cache/GlobalDataAdaptor.cpp:489-499 | after sampling a server, every upload not on it at that moment holds only ids at or above the sample |
| `GarbageSafety.PreservedExactly` | global_cache/GlobalDataAdaptor.cpp:547-569 | at any moment of a collection a chunk of a server is preserved if and only if a record read again since the sampling, still there, has a path entry i with its key whose owner, replica i mod R, is that server |
| `GarbageSafety.OldGarbageGoes` | global_cache/GlobalDataAdaptor.cpp:571-587 | in the deletion, a chunk that was stored when its server was sampled can be removed if and only if no record read again in this collection names it |
| `GarbageSafety.NothingLiveIsLost` | global_cache/GlobalDataAdaptor.cpp:484-594 | at every moment of every good run every chunk of a live file is stored on all its replicas, and every reader gets the last committed content; good: every upload on a server when it was sampled ends before the second listing, no upload commits while its key is flushed, no fall-back to an outdated object, a safe prefix |
| `GarbageSafety.LastCommitIsRead` | global_cache/GlobalDataAdaptor.cpp:484-594 | in every good run, from the commit of an upload until the next commit of its key every reader gets exactly the bytes of that upload |
| `GarbageSafety.CollectingKeepsContent` | global_cache/GlobalDataAdaptor.cpp:484-594 | while only the collector works no file's readable content changes |
| `GarbageProgress.CollectionCanFinish` | global_cache/GlobalDataAdaptor.cpp:484-594 | from every resting state without an upload under way the collector can go on until every file with the prefix is in the object store only, with its content, and no server has a chunk with the prefix |
| `GarbageProgress.OneAnswerIsEnough` | global_cache/GlobalDataAdaptor.cpp:493-507 | in every run a collection goes on after the sampling if and only if some server answered |
| `GarbageProgress.UploadCanFinish` | global_cache/ReplicationWriteCacheClient.cpp:4-70 | an upload to known servers can always be finished, however far it has come, and then the metadata names one chunk for each chunk and replica and the content is the uploaded bytes |
| `GarbageProgress.UploadCanStop` | global_cache/ReplicationWriteCacheClient.cpp:47-58 | an upload can be given up: the servers refuse what they have not stored, and nothing but the upload is gone |
| `GarbageRuns.OverlapLosesUpload` | global_cache/GlobalDataAdaptor.cpp:350-360 | a run from the initial state that breaks only the guarantee about commits during a flush: every reader gets the old bytes |
| `GarbageRuns.FlushedChunkGoes` | global_cache/GlobalDataAdaptor.cpp:548-587 | a run that keeps every guarantee: a committed file is flushed to the object store, its record is gone when read again, and its chunk is deleted |
| `GarbageRuns.LateCommitDangles` | global_cache/GlobalDataAdaptor.cpp:581-586 | a run that breaks only the guarantee about uploads older than the sample: the committed file names a chunk that is gone |
| `GarbageRuns.FallBackLosesUpload` | global_cache/GlobalDataAdaptor.cpp:86-92 | a run that breaks only the guarantee about falling back: every reader gets the old object |
| `GarbageRuns.UnsafePrefixLosesFile` | global_cache/WriteCache.cpp:88-90 | a run that keeps every guarantee, with a prefix that is not safe: the file is lost |
| `EpsilonGreedy.GenAllConfig` | LinUCBSchedule/EpsilonGreedy.py:8-27 | lists every way to share out the resources, each once |
| `EpsilonGreedy.Backtrack` | LinUCBSchedule/EpsilonGreedy.py:35-46 | adds exactly the reachable vectors, each once, and restores the working vector |
| `EpsilonGreedy.FindVectors` | LinUCBSchedule/EpsilonGreedy.py:30-50 | exactly the non-negative vectors with the same sum within the distance, each once |
| `Allocator.NumberDigits` | LinUCBSchedule/LinUCB.py:21-27 | every combination of digits is the digits of a number below k to the power of their count |
| `Allocator.AppendArm` | LinUCBSchedule/LinUCB.py:21-33 | the window arithmetic reaches exactly the rows whose digit is the arm, each once |
| `Allocator.AppendBlock` | LinUCBSchedule/LinUCB.py:27-33 | the inner loop extends exactly the rows of one block |
| `Allocator.GenSide` | LinUCBSchedule/LinUCB.py:13-36 | every row gets one entry for each app: the whole arm its digit selects, or less if with it the capacity is used up |
| `Allocator.RowWithin` | LinUCBSchedule/LinUCB.py:28-33 | a row is non-negative and within the capacity, and each entry after the first is its arm, or less with the capacity used up |
| `FeasibleConfigs.CombinationOnce` | LinUCBSchedule/LinUCB.py:21-27 | for every choice of arms there is exactly one row |
| `FeasibleConfigs.RestoreNext` | LinUCBSchedule/LinUCB.py:44-45 | moving the last entry to the front once more undoes one more rotation |
| `FeasibleConfigs.RowsOf` | LinUCBSchedule/LinUCB.py:42-45 | the rows of one rotation and first arm, all of them, in the apps' original order |
| `FeasibleConfigs.RawWithin` | LinUCBSchedule/LinUCB.py:39-46 | after the rotations every entry belongs to its own app: no more than one of its arms, exactly the chosen arm for the first app, and for the others, in the order they are served, the whole arm their digits select or all that is left |
| `FeasibleConfigs.FillLevels` | LinUCBSchedule/LinUCB.py:52-59 | filling up reaches the exact total, takes nothing away, and whoever gained ends at most one above everyone |
| `FeasibleConfigs.Distribute` | LinUCBSchedule/LinUCB.py:56-59 | the loop computes that filling |
| `FeasibleConfigs.AllRows` | LinUCBSchedule/LinUCB.py:38-46 | the rows are exactly those of all rotations, first arms and combinations |
| `FeasibleConfigs.GenFeasibleConfigs` | LinUCBSchedule/LinUCB.py:8-60 | every candidate uses the capacity exactly and comes from a row, and every row has its candidate |

## Left out

- Memory of cachelib items: an item is a value in a map and a write handle is an array loaded from it and stored back, so two handles to one item, NVM and cachelib's own eviction are not modelled.
- Waiting for locks: the retry loops of page writes and deletions are one step that is enabled when the lock is free.
- `Delete`, `Truncate`, `GetAllCacheWithLock` and `GetAllKeys` over page lists: their key comparison never matches because the stored keys carry a suffix, so their intended meaning is not what the code does.
- Erasure coding, replica failover, the metadata cache, `GlobalDataAdaptor::Delete` and server restarts: the guarantees one would want do not follow from the code.
- Token buckets, throttling, logging, configuration, HTTP and FUSE plumbing.
- ChunkKeys.ParseTS: blanks or a sign after the last dash, which an input stream would accept, are not modelled; internal keys never have them.
- Allocator.GenSide: a single app, for which the inner function returns early, is not modelled; at least two apps are.
- ReplicaLayout.Get: the batches of requests in flight are not modelled, because they do not change which bytes arrive; a primary that cannot be reached is left out with failover.
- CollectGarbage: one collector runs at a time, uploads appear as whole files in path-index order, an upload is given up only after every server has answered, and reads of the object store see the last flush. Object ids stay within 64 bits.
- GarbageSafety.NothingLiveIsLost: assumes of the deployment what `CollectGarbage.Keeps` says, and that metadata reads succeed or report that there is none. The lemmas of `GarbageRuns` show what happens without each guarantee but the one on 64-bit ids.
- Streams.FdEntity: the bytes of a part are taken when it is handed to its worker; a worker that reads the cache file later, and two uploads of one part number overtaking each other, are not modelled. A failed download leaves nothing of its area behind.
- Streams.FdEntity.constructor: opening a file smaller than its object, and opening one without a modification time, which marks its pages as modified, are not modelled.
- Streams.FdEntity.Load: the page list is kept as two flags for each byte instead of coalesced pages.
- Streams.FdEntity.Session: it ends before a flush at exactly one part size that finds an uploaded part written over; `FlushGrowFlush` states what happens from there on.
- StreamParts.InsertUploadPart: of equal part numbers the new one comes last, where the source leaves the order open; the planner never produces equal numbers.
- Workers: cancelling all workers, which sets the result from outside, is not modelled.
- StatCaches.StatCache: the link cache, the copied headers and the lookup that counts a hit are left out; keys are absolute paths without empty components.
- PageLocks: the page contents are left out; `PageCaches` has them.
- The page lock of the PageCaches methods is free when they begin and end; `Seqlock` has the interleavings.
- Bandit statistics: averages, matrix inverses and random exploration make no exact claim.
