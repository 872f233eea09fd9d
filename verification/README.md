# A verified model of the deduplication simulator

The simulator in `sim_src/` cuts files into content-defined chunks, merges sorted chunk logs to measure
duplication, classifies the chunks of a snapshot against its parent snapshot and a common data set (CDS), and
groups segments into bins. This project models those four stages in Dafny and proves what they compute.

`dafny verify dfyconfig.toml` checks the whole project.

| file | what it holds |
|---|---|
| `Arith.dfy`, `Bytes.dfy`, `StdSort.dfy` | division facts, bytes and words, `memcmp`, the contract of `std::sort` |
| `Gf2.dfy` | polynomials over GF(2) as bit patterns: sum, product, congruence, remainder |
| `Rabin.dfy` | the table-driven rolling fingerprint as an object with two tables and a circular buffer |
| `Chunking.dfy` | the chunk definition by rescanning, and what one more byte does to it |
| `Boundaries.dfy` | scans with hard boundaries, tiling and size limits |
| `Scanner.dfy`, `Driver.dfy` | the one-pass scanner over two buffers, and the loop that feeds it a file |
| `Reconstruction.dfy` | rebuilding a file from the data log |
| `TraceTypes.dfy`, `Segments.dfy` | records, checksum order, segment format, fixed-size split of a trace |
| `LoserTree.dfy`, `Merge.dfy`, `MergeRun.dfy` | the tournament, its operations, record loading and the merge loop |
| `Histogram.dfy`, `Reordering.dfy` | the run-length counters of the merge, and that what they must say does not depend on the order of the records |
| `CdsLruCache.dfy`, `LruCache.dfy` | the two caches |
| `Classify.dfy`, `ClassifyLru.dfy` | classification without a cache and with the CDS cache, and with the parent cache |
| `CdsGen.dfy`, `CdsOrder.dfy` | generating the CDS by counting, and when the result is in hash order |
| `Bins.dfy` | deduplication inside bins |
| `Pipeline.dfy` | from files over scanned and sorted logs to the report of the merge |

How the model reads the source:

- SHA-1 is an arbitrary function from byte strings to 20-byte checksums. Updating a hash context in parts is
  hashing the concatenation. Where equal hashes must mean equal content, that is a stated condition.
- `std::binary_search` is exact on a list in hash order; on any other it gives some answer that depends on the list
  and the wanted checksum alone.
- Flags are a value of their own beside a block, except where the block goes into the CDS cache: there they stand in
  its `file_id`, as they do in the program.
- 64-bit patterns of the fingerprint are naturals with explicit reduction modulo 2^64 and 2^63; exclusive or is
  defined bit by bit. The 32-bit sizes of segments and bins, the 32-bit difference in `block_compare` and the
  width of every record field are modelled with their wrap-around.
- Output streams are the sequences of records written to them; input files are byte strings.
- The clock is the argument `now` of each cache operation.
- `dedup_merge.cpp:239` calls `load_block` with a loop index left over from the start-up loop. The model takes the
  step of the commented lines 241-243, the stream of the current winner, without their skipping of records.
- The two generations of the block and segment classes are one record type and one segment type.

Results that are not what the programs' comments suggest:

- The driver signals the end of a file only after a short read. `Driver.LogCoversFile` says exactly when the log
  then covers the file, and `Driver.DriverLosesTail` gives a file whose last 8 KB are not logged. Of
  its two cases only the length of the file can be checked before the scan; the other, that no chunk is open at the
  end, is known from the scan itself.
- With no record at all the final correction of the merge histogram leaves -1 at key 1 (`MergeRun.MergeAll`), which
  the unsigned 64-bit counters of the program show as 2^64 - 1.
- With a threshold of at most one, and only then, the merge writes an empty block before the first real one
  (`MergeRun.EmptyBlockWritten`).
- `block_compare` orders a block and an end marker correctly exactly for sizes below 2^31.
- A 32-bit segment size can wrap. `Segments.SplitKeepsTrace` says for every trace which records are then in no
  segment; it is none exactly if the records still open at the end are none or their 32-bit size is not zero.
  `Segments.WrapLosesSegment` gives a trace that is lost altogether.
- The generated CDS is ordered by count inside a bucket. `CdsOrder.GeneratedInHashOrder` says exactly when it still
  comes out in the hash order that the classifiers search by, whatever `std::sort` does with equal counts, and
  `CdsOrder.OutOfOrder` gives records for which it never does.
- At the end of the parent trace the program with the parent cache drops the parent. The one without it goes on: it
  compares once with the blocks that the failed load has read, unsorted, and then with an empty segment.
  `ClassifyLru.SimulateParentCached` says exactly which segments lose flags by that, and
  `ClassifyLru.LostTailLosesFlags` gives a snapshot and a parent trace for which it happens.
- `CdsLruCache` needs a capacity of at least ten once it overflows, and `LruCache` stays within its capacity exactly
  for segments no longer than that.

## Model

| member | source | states |
|---|---|---|
| Gf2.ModIsRemainder | sim_src/rabin.c:8-34 | bit-by-bit long division gives a polynomial of lower degree that differs from the dividend by a multiple of the divisor |
| Gf2.RemainderUnique | sim_src/rabin.c:8-34 | there is only one such polynomial |
| Gf2.ReduceStep | sim_src/rabin.c:75-77 | shift and conditional exclusive or multiply a remainder by x |
| Rabin.ShiftReduce | sim_src/rabin.c:74-78 | the inner table loop gives the remainder of x^n times its start value |
| Rabin.RabinInit | sim_src/rabin.c:42-99 | null exactly for a polynomial without its top bit; otherwise a valid fresh state with an all-zero window |
| Rabin.RabinState.Reset | sim_src/rabin.c:138-147 | the window becomes all zero and the state valid |
| Rabin.SlideKeepsRemainder | sim_src/rabin.c:16-32 | the two table look-ups and the masked shift turn the remainder of a window into that of the window moved by one byte |
| Rabin.FingerprintIsRemainder | sim_src/rabin.c:105-135 | the fingerprint is the one remainder of the window's polynomial and stays below 2^63 |
| Rabin.RabinState.Slide8 | sim_src/rabin.c:105-135 | the oldest byte leaves and the new one enters the circular buffer, and the result is the remainder of the new window |
| Chunking.ThresholdsForSound | sim_src/scanner.cpp:9-13 | for 1 to 2048 KB the primary divisor is twice the backup one, and the minimum size exceeds the window |
| Chunking.ThresholdsMean | sim_src/scanner.cpp:9-13 | the minimum size is half the average, the maximum four times it, the divisor makes up the rest, and the backup divisor is half of that |
| Chunking.BreakpointsAreMultiples | sim_src/scanner.cpp:88-91 | a fingerprint is a primary or backup breakpoint exactly if its successor is a multiple of the divisor |
| Chunking.PrimaryIsBackup | sim_src/scanner.cpp:12-13 | every primary breakpoint is a backup breakpoint |
| Chunking.CutIsGreedy | sim_src/scanner.cpp:85-113 | the cut after a start is the first primary position in range, else the last backup one, else the hard limit, else at eof the tail; and nothing else is |
| Chunking.StepOpen | sim_src/scanner.cpp:85-99 | a byte that ends no chunk leaves the rescanned chunks alone and updates the pending backup position |
| Chunking.StepClosed | sim_src/scanner.cpp:91-109 | a byte that ends a chunk adds just that chunk, and rescanning from behind it finds nothing eligible |
| Chunking.EofTail | sim_src/scanner.cpp:112-113 | the end of the data adds the open chunk, shorter than the maximum size, and changes nothing else |
| Chunking.FpsOfSuffix | sim_src/scanner.cpp:85-87 | after 48 bytes fingerprints do not depend on where the scan began |
| Chunking.Resynchronises | sim_src/scanner.cpp:85-110 | a fresh scan from any chunk start gives the chunks that the first scan finds from there |
| Chunking.CutAndRescan | sim_src/scanner.cpp:85-110 | cutting a file behind any emitted chunk and scanning the rest gives the remaining chunks, shifted |
| Chunking.ChunksTile | sim_src/scanner.cpp:85-113 | chunks follow one another without gap; all but the last lie within the size limits |
| Boundaries.ScanTiles | sim_src/scanner.cpp:72-113 | with or without boundaries the blocks tile the file, or everything before the open chunk |
| Boundaries.ScanWithinLimits | sim_src/scanner.cpp:85-110 | without boundaries every block but the last is between minimum and maximum size |
| Boundaries.ScanBlocksBounded | sim_src/scanner.cpp:97-109 | no block exceeds the maximum size |
| Boundaries.NoBlockCrosses | sim_src/scanner.cpp:75-83 | no block crosses a multiple of the boundary size |
| Boundaries.ScanSplits | sim_src/scanner.cpp:75-83 | scanning is independent on the two sides of a boundary |
| Boundaries.ScanIsPieceScans | sim_src/scanner.cpp:75-83 | the scan of a file is the shifted concatenation of fresh scans of its boundary-sized pieces |
| Scanner.HardBreak | sim_src/scanner.cpp:76-83 | a boundary turns the open chunk into a block shorter than the maximum size |
| Scanner.Scanner.constructor | sim_src/scanner.cpp:5-24 | the new scanner has the thresholds of its block size and has been fed nothing |
| Scanner.Scanner.BlockBytes | sim_src/scanner.cpp:130-173 | whether a block lies in b1, in b2 or in both, the bytes hashed are those of the file at its offset |
| Scanner.EntriesDescribe | sim_src/scanner.cpp:118-200 | the records of a scan start at offset 0, lie one behind the other, and each carries the file's id and the hash of exactly the bytes that its offset and size name |
| Scanner.DataLogHolds | sim_src/scanner.cpp:134-145 | each record of the data log holds as many bytes as it says, under their hash |
| Scanner.Scanner.AddBreakpoint | sim_src/scanner.cpp:118-200 | both logs grow by exactly this block; its content is logged only if its checksum is new; an empty block is not logged |
| Scanner.Scanner.CrossBoundary | sim_src/scanner.cpp:75-83 | at a boundary the open chunk is emitted and everything starts afresh, elsewhere nothing happens |
| Scanner.Scanner.Decide | sim_src/scanner.cpp:86-109 | the one-pass decisions give the chunks, open start and backup position of the rescanning definition |
| Scanner.Scanner.ScanByte | sim_src/scanner.cpp:72-110 | one turn of the loop keeps the state in step with the data read |
| Scanner.Scanner.VarScan | sim_src/scanner.cpp:64-116 | however the data was split into buffers, the logs are those of the rescanning definition on all data fed |
| Driver.LoadData | sim_src/dedup_main.cpp:86-93 | the buffers swap and the new one holds the next bytes of the file |
| Driver.ScanFile | sim_src/dedup_main.cpp:253-273 | the logs of a file are those of its scan as a whole; its records lie one behind the other from offset 0, each with the hash of exactly the bytes it names; and the file's checksum is of all its bytes |
| Driver.LogCoversFile | sim_src/dedup_main.cpp:259-272 | the logged blocks cover the file if and only if its length is no multiple of the buffer size or no chunk is open at its end |
| Driver.DriverLosesTail | sim_src/dedup_main.cpp:259-272 | a concrete file of 8 MB whose log does not cover it |
| Reconstruction.DataLogRecords | sim_src/scanner.cpp:134-145 | every chunk's checksum is in the data log, every record stems from a chunk, and no checksum occurs twice |
| Reconstruction.FileIsRebuilt | sim_src/scanner.cpp:118-200 | without collisions, looking up the logged blocks in order gives back the file |
| Bytes.MemcmpOrdersByValue | sim_src/trace_types.cpp:19-32 | comparing checksums byte-wise is comparing the numbers they spell |
| TraceTypes.DecodeEncode | sim_src/trace_types.cpp:83-105 | a written record reads back the same |
| TraceTypes.EncodeDecode | sim_src/trace_types.cpp:83-105 | a read record is written back byte for byte |
| TraceTypes.DecodeEncodeAll | sim_src/scanner.cpp:193-200 | a log of records decodes to the same records |
| TraceTypes.RecordLayout | sim_src/trace_types.cpp:83-89 | a record is 20 bytes of checksum and then file_id, size and offset, least significant byte first |
| TraceTypes.LogLayout | sim_src/trace_types.cpp:83-89 | record i of a log takes its i-th 36 bytes |
| Merge.CompareByRank | sim_src/dedup_merge.cpp:42-48 | for sizes below 2^31 heads compare as checksum numbers, with exhausted streams beyond all of them |
| Merge.CompareNeedsSmallSizes | sim_src/dedup_merge.cpp:44-45 | a block and an end marker compare correctly both ways round if and only if the size is below 2^31 |
| LoserTree.WinnerIsMinimum | sim_src/dedup_merge.cpp:128-174 | in a loser tree node 0 holds a stream of least rank |
| LoserTree.TreeIsPermutation | sim_src/dedup_merge.cpp:145-174 | the tree holds every stream exactly once |
| LoserTree.ClimbStep | sim_src/dedup_merge.cpp:133-141 | one comparison on the way up repairs the match at the parent |
| Merge.Tournament.PlayBelow | sim_src/dedup_merge.cpp:155-173 | the recursion decides all matches of a subtree, returns its winner and touches nothing else |
| Merge.Tournament.InitTree | sim_src/dedup_merge.cpp:145-153 | the result is a loser tree, also for a single stream |
| Merge.Tournament.AdjustTree | sim_src/dedup_merge.cpp:128-143 | after only the winner's head has changed, the loser tree is restored for the new heads |
| MergeRun.Merger.LoadBuffer | sim_src/dedup_merge.cpp:64-69 | buffer and unread rest together are what was unread |
| MergeRun.Merger.LoadBlock | sim_src/dedup_merge.cpp:71-98 | the head becomes the next record across refills, or a zero-size block from the end on for ever; other streams are untouched |
| MergeRun.Merger.Start | sim_src/dedup_merge.cpp:218-229 | each stream holds exactly the records of its file |
| MergeRun.Merger.Step | sim_src/dedup_merge.cpp:239-245 | the winner's stream loses its first record, no other stream changes, and the tree is valid again |
| MergeRun.TakeLeast | sim_src/dedup_merge.cpp:233-246 | taking a least head keeps the merged sequence ordered and the union of records unchanged |
| MergeRun.Turn | sim_src/dedup_merge.cpp:233-246 | one turn hands one block to Count and shortens what is left, or hands over the end marker with all records counted |
| MergeRun.RunMerge | sim_src/dedup_merge.cpp:231-249 | the loop ends; the blocks that Count has received are exactly the multiset union of all records, in checksum order, and then one zero-size block; the report is exact for them |
| MergeRun.ExactByMultiset | sim_src/dedup_merge.cpp:100-126 | what an exact report says depends on the multiset of records only, not on how ties were broken |
| MergeRun.MergeAll | sim_src/dedup_merge.cpp:176-249 | the report (histograms of counts and sizes, totals, and a CDS of input blocks with their counts as offsets) is exact for the records of all files if and only if there is at least one; otherwise -1, unsigned 2^64 - 1, stays at key 1 |
| MergeRun.EmptyBlockWritten | sim_src/dedup_merge.cpp:117-120 | the CDS written is free of empty blocks if and only if the threshold is above one |
| Histogram.CorrectedIsTallied | sim_src/dedup_merge.cpp:248-249 | the correction leaves at d the number of checksums occurring d times, and the weighted sum is the record count |
| Histogram.PickRun | sim_src/dedup_merge.cpp:117-120 | the CDS written holds, in strict checksum order, exactly the checksums of finished runs that reach the threshold, each as a block fed with its count as the offset |
| Histogram.CloseSizes | sim_src/dedup_merge.cpp:112-115 | if equal checksums imply equal sizes, ending a run makes dedup_count at d the total size of the distinct blocks that occur d times |
| Histogram.Counter.EndRun | sim_src/dedup_merge.cpp:112-120 | closing a run makes the histograms exact but for the entry of the initial empty block, and writes the block if its run reaches the threshold |
| Histogram.Counter.Count | sim_src/dedup_merge.cpp:100-126 | the block received is recorded and all counters stay exact for the blocks received; the end marker closes the last run |
| CdsLruCache.CdsLruCache.RemoveItems | sim_src/lru_cache.cpp:157-180 | for n at least one exactly the smaller of n and the size is evicted, nothing of it newer than what stays |
| CdsLruCache.CdsLruCache.AddItem | sim_src/lru_cache.cpp:134-143 | the block is stored now and, beyond capacity, a tenth of the capacity in oldest entries is evicted |
| CdsLruCache.CdsLruCache.BatchAddItem | sim_src/lru_cache.cpp:145-155 | the blocks are stored now and the cache is cut back to at most its capacity |
| CdsLruCache.CdsLruCache.SearchItem | sim_src/lru_cache.cpp:121-132 | exact membership; a hit renews only its own access time |
| CdsLruCache.HitRenews | sim_src/lru_cache.cpp:121-132 | a hit sets the access time of its entry to now and changes nothing else |
| CdsLruCache.AddStores | sim_src/lru_cache.cpp:134-143 | while there is room an addition stores the block now, or renews the one already there, and changes nothing else |
| CdsLruCache.AddEvictsTenth | sim_src/lru_cache.cpp:141-142 | a full cache that takes in a new block loses a tenth of its capacity, rounded down |
| CdsLruCache.BatchLeavesTenth | sim_src/lru_cache.cpp:153-154 | a batch that does not fit leaves a tenth of the capacity, rounded down, free |
| CdsLruCache.HitSurvives | sim_src/lru_cache.cpp:121-143 | under an increasing clock a block just found is not evicted by the next addition |
| CdsLruCache.RunKeepsBound | sim_src/lru_cache.cpp:121-155 | over every run of operations the size stays within the capacity, or within the size at the start if that is larger |
| CdsLruCache.RunKeepsAdded | sim_src/lru_cache.cpp:134-143 | under an increasing clock no run evicts an entry by the very call that adds it |
| CdsLruCache.RunKeepsKeyed | sim_src/lru_cache.cpp:121-155 | over every run each block stays under its own checksum, so that the cache can be saved |
| CdsLruCache.CdsLruCache.Save | sim_src/lru_cache.cpp:182-186 | exactly the cached blocks are written, each once, in hash order |
| CdsLruCache.LoadRestores | sim_src/lru_cache.cpp:188-197 | loading a saved cache restores its blocks and its size |
| LruCache.LruCache.RemoveItems | sim_src/lru_cache.cpp:32-37 | the n oldest entries go, or all |
| LruCache.LruCache.AddItems | sim_src/lru_cache.cpp:39-64 | either branch keeps the newest entries that fit and adds the segment stamped now, in hash order; the capacity holds if and only if the segment fits it |
| LruCache.LruCache.SearchItem | sim_src/lru_cache.cpp:95-109 | exact membership; a hit renews the first entry of that hash only |
| LruCache.HitRenews | sim_src/lru_cache.cpp:95-109 | a hit sets the access time of one entry to now and changes nothing else |
| LruCache.HitSurvives | sim_src/lru_cache.cpp:39-64 | under an increasing clock a block just found survives the next segment that leaves room for one |
| LruCache.RefreshedHolds | sim_src/lru_cache.cpp:39-64 | every block of the segment just added is found |
| LruCache.RefreshedFrom | sim_src/lru_cache.cpp:39-64 | every entry found was there before or is of the segment just added |
| LruCache.RefreshedAll | sim_src/lru_cache.cpp:39-64 | while there is room for a segment nothing is dropped for it |
| Classify.LoadTrace | sim_src/dedup_cds_sim.cpp:28-46 | repeated loading gives the segments of the fixed-size split; the load that fails leaves exactly the lost records in the segment, and nothing in the stream |
| Classify.BitsMean | sim_src/dedup_cds_sim.cpp:104-118 | bit 1 says that the parent segment is equal or has the block, bit 4 that only the latter holds, bit 2 that the CDS has it; no other bit is set |
| Classify.LevelOneMeans | sim_src/dedup_cds_sim.cpp:104-108 | without a collision of the two segments' checksums, the level-1 flag is set exactly if both list the same checksums in the same order |
| Classify.SearchParent | sim_src/dedup_cds_sim.cpp:96-114 | each block gets exactly the flags of levels 1 and 2, beside a parent loaded or what a failed load has left |
| Classify.Simulate | sim_src/dedup_cds_sim.cpp:95-125 | without a cache each block of each segment gets exactly the flags of its three levels |
| Classify.SearchCds | sim_src/dedup_cds_lru.cpp:121-130 | the cache answers as the search in the CDS does; a hit gets the cache bit and renews its entry, a miss that the CDS finds is added with its flags, another miss changes nothing |
| Classify.SimulateCached | sim_src/dedup_cds_lru.cpp:100-135 | over a whole run, whatever the order of the CDS, all flags equal those without a cache once the cache bit is cleared; while the checksums found so far and those at the start fit the capacity, the bit is set exactly for those cached at the start or found earlier, and the cache holds exactly these |
| Classify.ClassifySnapshot | sim_src/dedup_cds_lru.cpp:81-141 | loading a cache file, a whole run and saving leave a cache file fit for the next snapshot: of stored and snapshot blocks only, no larger than the capacity or the file loaded, and with exactly the checksums stored or found while they fit; the flags, but for the cache bit, are those without a cache |
| ClassifyLru.SearchParentCached | sim_src/dedup_sim_lru.cpp:109-122 | equal segments get the level-1 flag and leave the cache alone; otherwise the parent segment goes into the cache and exactly the blocks then held get the level-2 flag |
| ClassifyLru.SimulateParentCached | sim_src/dedup_sim_lru.cpp:97-134 | over a whole run the flags are those beside the parent while its trace lasts, plus level-2 hits on blocks of the starting cache and of the parent segments added to it, and on all of these while they fit the capacity; no flag of the uncached program is lost if and only if the segment is beside a parent segment or finds nothing in what that program compares with behind the trace |
| ClassifyLru.LostTailLosesFlags | sim_src/dedup_sim.cpp:95-114 | a snapshot and a parent trace for which the uncached program sets the level-2 flag and the cached one sets nothing |
| Segments.ReadBlock | sim_src/trace_types.cpp:91-105 | a record is read, or a short stream fails |
| Segments.CksumBytesAt | sim_src/trace_types.cpp:148-155 | a segment is hashed from all 20 bytes of each checksum, in order |
| Segments.SameCksumBytes | sim_src/trace_types.cpp:148-155 | two segments are hashed from the same bytes if and only if they list the same checksums |
| Segments.MinIsFirst | sim_src/trace_types.cpp:153-154 | the position kept is that of the first block with the least checksum |
| Segments.SegmentLayout | sim_src/trace_types.cpp:176-182 | a segment is written as its number of blocks in four bytes and then its records |
| Segments.ParseWritten | sim_src/trace_types.cpp:176-202 | any sequence of written segments is read back the same |
| Segments.Segment.AddBlock | sim_src/trace_types.cpp:148-155 | size modulo 2^32, leftmost least checksum and hash input stay those of the blocks |
| Segments.Segment.ToStream | sim_src/trace_types.cpp:176-182 | the bytes written are the count and the records |
| Segments.Segment.FromStream | sim_src/trace_types.cpp:184-202 | success exactly when a whole segment is there, with its blocks, size, min-hash position and checksum |
| Segments.Segment.LoadFixSize | sim_src/trace_types.cpp:210-227 | loads the next segment of the fixed-size split, and fails exactly when its 32-bit size is zero |
| Segments.SplitKeepsTrace | sim_src/trace_types.cpp:210-227 | for every trace: the segments, and then the lost records, are the trace without zero-size records, so nothing is missing if and only if none is lost; the 32-bit size of a segment is below 2 MB up to its final block, and each but the last reaches 2 MB |
| Segments.BelowFixTruly | sim_src/trace_types.cpp:148-151 | the true sizes before the final block of a segment add up to less than 2 MB if and only if they fit 32 bits |
| Segments.SplitKeepsSmallRecords | sim_src/trace_types.cpp:210-227 | with no record above 2^32 minus 2 MB nothing is lost, and 2 MB are truly reached with the final block only |
| Segments.WrapLosesSegment | sim_src/trace_types.cpp:148-151 | for each record above the bound of the previous row there is a trace with it that is lost altogether |
| CdsGen.SplitRecords | sim_src/dedup_cds_gen.cpp:95-115 | each bucket holds exactly the new records of its first byte |
| CdsGen.NewOnlyKeeps | sim_src/dedup_cds_gen.cpp:110-112 | exactly the records with file_id 0 are counted, as often as they occur |
| CdsGen.BucketKeeps | sim_src/dedup_cds_gen.cpp:113 | exactly the records of its first byte are in a bucket, as often as they occur |
| CdsGen.CountRuns | sim_src/dedup_cds_gen.cpp:134-142 | each distinct checksum is listed once with its number of occurrences, on one of its own records |
| CdsGen.Generate | sim_src/dedup_cds_gen.cpp:123-160 | all buckets together list each distinct checksum once with its global multiplicity; of each bucket the set takes the first records, as many as the threshold times their number, rounded down; nothing left out has a higher count than what is taken |
| CdsGen.AgreesWithMerge | sim_src/dedup_cds_gen.cpp:134-142 | as many checksums have count d as the merge histogram says |
| CdsOrder.BucketInHashOrder | sim_src/dedup_cds_gen.cpp:144-159 | the first k records of a bucket are in hash order for every outcome of the sort by count if and only if counts fall strictly, as hashes grow, within k |
| CdsOrder.WholeBucket | sim_src/dedup_cds_gen.cpp:144-159 | for a bucket taken as a whole this means that every checksum occurs more often than each greater one |
| CdsOrder.TakenSorted | sim_src/dedup_cds_gen.cpp:124-159 | the set is in hash order if and only if what is taken of each bucket is |
| CdsOrder.GeneratedInHashOrder | sim_src/dedup_cds_gen.cpp:144-159 | for any threshold the set is in the hash order that the classifiers assume, for every outcome of the sorts, if and only if the counts of the input records fall so in every bucket |
| CdsOrder.OutOfOrder | sim_src/dedup_cds_gen.cpp:123-160 | three new records of one bucket for which the set generated with threshold one is never in hash order |
| Bins.Bin.AddSegment | sim_src/dedup_types.hpp:350-359 | the blocks are appended and the running counts stay theirs modulo 2^32 |
| Bins.Bin.Deduplication | sim_src/dedup_types.hpp:361-379 | the recount equals the running counts, counts distinct checksums and, if equal checksums imply equal sizes, their bytes; a repeated call changes no count |
| Bins.MinHashAtIndex | sim_src/trace_types.cpp:171-174 | the checksum at the min-hash position is the least one |
| Bins.GroupSegments | sim_src/eb_dedup.cpp:40-50 | there is a bin for each min-hash, holding exactly the blocks of its segments; the block total is exact, and the byte total if and only if no segment's 32-bit size has wrapped |
| Bins.DeduplicateBins | sim_src/eb_dedup.cpp:52-58 | afterwards each bin has the deduplicated state of the blocks of its min-hash |
| Bins.BinsPartition | sim_src/eb_dedup.cpp:45-50 | every block is in the bins exactly as often as in the segments |
| Bins.BinsKeepEnough | sim_src/eb_dedup.cpp:55-58 | the bins' distinct counts add up to at least the distinct count of the whole |
| Pipeline.LoggedBytes | sim_src/dedup_main.cpp:259-272 | the sizes logged for a file add up to its length, less the chunk open at its end if that end was not signalled |
| Pipeline.SortedLogCountable | sim_src/dedup_merge.cpp:42-48 | every scanner log sorted by hash meets all conditions of the merge and is read back as written |
| Pipeline.ScanAndMerge | sim_src/dedup_merge.cpp:176-249 | for scanned files the report of the merge is exact for all their blocks, and its total size is the number of bytes scanned if and only if every file is covered by its log |

## Left out

- `fixScan`, sorting by offset in `dedup_sort.cpp`, `cds_hit_analysis.cpp`, `dedup_common.*`, `dedup_analysis.cpp`, `eb_segment.cpp`: they would add easy members only.
- File opening, directories, retries, `fs_reader.*`, option parsing, printing, `tot_blocks` and `tot_dup_blocks`, which are never initialised.
- `rabin_asm.S`: the model follows the portable body of `rabin_slide8`.
- A scanner without fingerprint state (`scanner.cpp:66`): it cannot arise, since the built-in polynomial is normalized.
- Trace files that end inside a record: the merge then decodes bytes left over from an earlier buffer, which the model's buffers do not keep.
- Zero-size records in a merge input: zero is the end marker there, so the inputs are taken to hold none.
- Counters of 64 bits in the merge, which would wrap beyond 2^64 bytes, are unbounded; only a count written to the CDS is cut to 64 bits.
- The CDS threshold is a fraction, without floating-point rounding.
- Bins.Bin.Deduplication: states `dedup_size_` only if equal checksums imply equal sizes, since otherwise it depends on which of them `std::sort` leaves first; the printed `min_hash_` is not modelled.
- Empty segments in binning: their min-hash reads past the end of an empty block list (`trace_types.cpp:171-174`), so the segments grouped are taken to be non-empty.
- CdsLruCache: iteration in key order and the internal layout of the heap are not modelled; entries are visited in any order.
- MergeRun.Merger: buffers and unread file contents are sequence fields, not `char` arrays; the tree and the heads are arrays.
