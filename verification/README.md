# memlake in Dafny

memlake keeps a namespace in object storage: an append-only write-ahead log, one manifest that is
swapped by compare-and-set, and immutable segments with delete overlays. This project models that
machinery and proves what it promises. The specification throughout is plain sequential replay of the
log (`Wal.ReplayFrom`); everything else - tail folds, flushes, compactions, snapshots, point reads,
paged scans, the external-memory fold - is proved against it or against an equally plain definition.

`dafny verify dfyconfig.toml` checks the whole project.

## How the modules fit together

| module | what it models |
|---|---|
| `Tags`, `Memories`, `Patching` | tag filters, stored memories, bulk-delete predicates, patches applied in place |
| `Wal`, `PatchedTail` | operations, sequential replay, the fold of the un-indexed tail; slices with patches |
| `Lsm`, `Overlays`, `Indexer` | segments and manifests, the kill map, the three folds as functions and as the loops that run |
| `Protocol`, `Listings`, `ColdWrites`, `Ranges`, `FoldRuns` | writers, racing indexers and the log collector as a transition system; theorems about every run; what the trimmed log still shows, which sequence a new writer claims, segment ranges; runs that `fold` chooses |
| `QueryNode`, `Opening`, `Scanning`, `Reads` | snapshots: point reads, opening and reopening, paged scans, and reads against replay |
| `Gc` | garbage collection with clocks, beside publishing indexers |
| `Sorting`, `Spill`, `Streaming`, `Codec` | stable sorting, external merge sort, the streaming first build, event encoding |
| `VectorArm`, `DenseQuery`, `Hydration` | two-stage top-k, the dense arm on a snapshot, hydration of its winners |
| `Summary`, `LinkCounts`, `Radj` | cluster pruning, the link-count sweep, reverse adjacency |
| `Fanout`, `Temporal` | the compaction trigger, entry points spread over time |

## Where the code and its promises part

Each of these is stated as an exact condition, with a concrete failing input.

- **A dropped write uncovers the copy it replaced.** When one slice of the log re-writes a memory and
  then deletes that write by predicate, the tail fold drops the write without leaving a tombstone
  (crates/mlake-wal/src/tail.rs:229-235), so an indexed copy that the predicate does not match comes
  back. Folds and reads equal replay exactly on slices without such a write (`Wal.Clean`).
- **The cursor can go back.** `flush` refuses a listed head at or below the cursor; `index` and
  `minor_compact` do not. After a fold over an empty tail the collector may trim the whole log, the
  listing then reports head 0, and the next rebuild or compaction publishes cursor 0 - also when a
  single indexer only ever does what `fold` chooses. Runs without such an empty fold are safe. The next
  publish after a reachable state can lower the cursor exactly when the last publish folded nothing and
  nothing came since, or a job still holds a head it listed while that was so. After it, a writer without
  a cached sequence claims one that has been used; before it, never.
- **The age floor alone does not protect a publish.** The collector reads its clock after the
  manifest (crates/mlake-index/src/gc.rs:47-58). Readers are safe in every interleaving if and only
  if publish delay plus that gap stays below the floor.
- **A scan lists retyped memories under their old type.** Only tail items of the listed type replace
  cluster members (crates/mlake-index/src/query_node.rs:1085). A listing is exact if and only if no
  tail write moved a matching memory out of the listed type.
- **Racing folds pass the fan-out cap.** A fold chooses its plan from one manifest read and acts on
  another. With `n` indexers the segment count is at most `COMPACT_FANOUT - 1 + n`, and that bound is
  reached for every `n`.
- **Late predicate tests can disagree with replay once patches are involved.** The streaming fold
  tests predicates against the finished memory. A class of patches streams to replay on every log
  exactly when none of them changes what a predicate can see.
- **The full rebuild tests predicates before it patches.** It filters indexed memories as they were
  indexed and applies pending patches afterwards (crates/mlake-index/src/indexer.rs:689-703). The same class of
  patches, and no other, folds to replay over every index and every clean slice.
- **A minor compaction loses patches.** It patches what it fetches from kept segments and skips what the
  merged segments hold (crates/mlake-index/src/indexer.rs:404-417). A pending patch takes effect exactly when
  the merged segments do not hold the memory, or it changes nothing.
- **Proof-count deltas do not always commute**, as crates/mlake-core/src/wal.rs:12 says they do: the count is
  clamped at each step. Two of them commute exactly when they do not pull apart, or neither reaches an
  end on its own.
- **Stale copies disturb the vector search.** The block scan drops ids that are tombstoned or superseded
  (crates/mlake-index/src/query_node.rs:1676), but neither ids the tail rewrote nor memories a predicate
  deleted. Their indexed copies raise the pruning bound and take places. The search ranks what is live
  for all scores if and only if every candidate this misplaces is surely beaten by k live ones.
- **A query can return a deleted memory.** Hydration first reads payload rows with the delete test
  (crates/mlake-index/src/query_node.rs:1979), then fetches whatever is still missing without it (1394-1405),
  against the promise that a deleted memory never surfaces (1412-1415). All hits are live if and only if
  no winner is stale.

## Model

| member | source | states |
|---|---|---|
| `Patching.Item.ApplyAll` | crates/mlake-core/src/wal.rs:82-86 | deltas edit the memory in place, in order, and leave exactly the functional result |
| `Patching.TextOrderIsLexicographic` | crates/mlake-core/src/wal.rs:76 | metadata keys compare in dictionary order |
| `Patching.ProofCountMeans` | crates/mlake-core/src/wal.rs:48-50 | the count moves by n, stops at 0 and at the largest 32-bit number, and nothing else moves |
| `Patching.ProofCountSteps` | crates/mlake-core/src/wal.rs:48-50 | larger steps give larger counts, and a step back undoes a step away from the ends |
| `Patching.ProofCountsCommuteIff` | crates/mlake-core/src/wal.rs:12-14 | two count deltas commute if and only if they do not pull apart or neither reaches an end on its own |
| `Patching.SettersMean` | crates/mlake-core/src/wal.rs:51-59 | every setter makes its field the given value and leaves all others |
| `Patching.TimeDeltasMean` | crates/mlake-core/src/wal.rs:60-68 | a touch stamps the write time alone; a merge takes the times it names and keeps the others |
| `Patching.LastSetterWins` | crates/mlake-core/src/wal.rs:82-86 | over a list, for each of nine parts of a memory, what remains is what the last delta that sets the part sets |
| `Patching.CountIsRunningSum` | crates/mlake-core/src/wal.rs:82-86 | over a list the count is the running sum, held between the ends at each step |
| `Patching.CountIsPlainSum` | crates/mlake-core/src/wal.rs:82-86 | and the plain sum where no step reaches an end |
| `Patching.MetadataIsLastMerged` | crates/mlake-core/src/wal.rs:82-86 | over a list every metadata key reads as last merged, or as before |
| `Patching.MergeKeepsKeysDistinct` | crates/mlake-core/src/wal.rs:69-77 | a merge replaces pairs and never piles them up |
| `Patching.MergeMetadataMeans` | crates/mlake-core/src/wal.rs:69-77 | a metadata merge gives each key its last merged value, keeps the others, and ends in key order |
| `Wal.FoldEntries` | crates/mlake-wal/src/tail.rs:183-241 | the nested loops compute the event-by-event fold of the slice |
| `PatchedTail.ScanFactsHold` | crates/mlake-wal/src/tail.rs:183-241 | for every slice with patches, event by event: a write stands with its later patches applied in order until a delete hits it as it stands; patches with nothing to apply to are kept in order from the start or from that delete on; none outlives a tombstone |
| `PatchedTail.PatchedFoldIsReplayIffClean` | crates/mlake-index/src/indexer.rs:678-703 | over slices whose patches change no verdict, a full rebuild of any indexed documents is replay if and only if no dropped write uncovers a surviving copy |
| `PatchedTail.ClassFoldsIffVerdictsKept` | crates/mlake-index/src/indexer.rs:678-703 | a class of delta lists folds to replay over every index and clean ordered slice if and only if none of its lists changes a predicate's verdict |
| `PatchedTail.FlippedPatchDiverges` | crates/mlake-index/src/indexer.rs:689-703 | any patch that flips a verdict, then the delete: rebuild and replay disagree about the memory |
| `PatchedTail.IndexIsReplayIffClean` | crates/mlake-index/src/indexer.rs:629-752 | so for the manifest a full rebuild publishes, patches included |
| `PatchedTail.FlushPatches` | crates/mlake-index/src/indexer.rs:143-175 | what a lookup finds after a flush of any scan: writes with patches, patched copies from the snapshot, nothing for deleted ids, the rest as before |
| `PatchedTail.MinorPatches` | crates/mlake-index/src/indexer.rs:381-417 | a compaction patches what it fetches from kept segments and leaves what the merged segments hold as it was |
| `PatchedTail.MinorKeepsPatchIff` | crates/mlake-index/src/indexer.rs:404-417 | a pending patch takes effect if and only if the merged segments do not hold the memory or it changes nothing |
| `PatchedTail.CompactionLosesAPatch` | crates/mlake-index/src/indexer.rs:404-417 | a concrete patch that the rebuild applies and the compaction loses |
| `Wal.TailFactsHold` | crates/mlake-wal/src/tail.rs:183-241 | what a slice's scan says of an id, and what replay then holds of it, case by case |
| `Wal.UpsertsSurvive` | crates/mlake-wal/src/tail.rs:229-235 | no predicate of a slice hides an upsert its scan still carries |
| `Wal.SameEntryUpsertSurvives` | crates/mlake-core/src/wal.rs:110-116 | a write re-ingested in the entry of the bulk delete survives, over any indexed state |
| `Wal.OverlayIsReplayIffClean` | crates/mlake-index/src/indexer.rs:678-698 | scan over indexed documents equals replay if and only if no dropped write uncovers a surviving copy |
| `Wal.FirstFoldIsReplay` | crates/mlake-index/src/indexer.rs:678-698 | from an empty index every patch-free fold is replay, dropped writes included |
| `Wal.DroppedWriteResurrects` | crates/mlake-wal/src/tail.rs:229-235 | a concrete slice after which a deleted memory is back |
| `Lsm.ResolveIsLook` | crates/mlake-index/src/indexer.rs:641-676 | kill map, newest-first walk and predicate filter are the textbook newest-wins lookup |
| `Lsm.FlushResolves` | crates/mlake-index/src/indexer.rs:132-227 | a flushed manifest resolves to the old live set with the tail applied |
| `Lsm.IndexResolves` | crates/mlake-index/src/indexer.rs:629-752 | so does a full rebuild, and its one segment is well shaped |
| `Lsm.MinorResolves` | crates/mlake-index/src/indexer.rs:319-471 | so does a minor compaction of any legal prefix, with carried overlays and predicates |
| `Lsm.MinorEqualsFullRebuild` | crates/mlake-index/src/indexer.rs:313-318 | both compactions publish the same live set from the same manifest and patch-free tail |
| `Lsm.MinorHidesNothingOfItsOwn` | crates/mlake-index/src/indexer.rs:419-432 | carried overlay and predicates hide none of the merged segment's own memories |
| `Overlays.BuildKillMap` | crates/mlake-index/src/indexer.rs:641-650 | the loops leave the highest superseding sequence per id, and all predicates in order |
| `Overlays.KillMapSupersedes` | crates/mlake-index/src/query_node.rs:1795-1798 | the map test is the overlay test |
| `Indexer.ResolveLive` | crates/mlake-index/src/indexer.rs:641-676 | the materialization loops compute the resolved live set |
| `Indexer.SegmentIds` | crates/mlake-index/src/query_node.rs:813-823 | exactly the asked ids that some indexed segment holds |
| `Indexer.BuildFlush` | crates/mlake-index/src/indexer.rs:132-227 | no publish if and only if the head is not past the cursor; otherwise the flushed manifest, field by field |
| `Indexer.BuildMinor` | crates/mlake-index/src/indexer.rs:319-471 | the compacted manifest, or the flush it falls back to |
| `Indexer.BuildIndex` | crates/mlake-index/src/indexer.rs:629-752 | the rebuilt manifest, field by field |
| `Indexer.BuildTypeIndex` | crates/mlake-index/src/indexer.rs:817-896 | clusters, primary key and payload hold each memory of the type exactly once |
| `Protocol.SwapSawItsOwnManifest` | crates/mlake-index/src/indexer.rs:135-154 | when a swap succeeds, the snapshot opened half-way showed the manifest the fold started from |
| `Protocol.RunKeepsInv` | crates/mlake-index/src/indexer.rs:229-237 | every step of writers, indexers and collector keeps the protocol invariant |
| `Protocol.PublishedIsReplayIffClean` | crates/mlake-index/src/indexer.rs:132-238 | in every reachable state all published manifests resolve to replay through their cursor if and only if every folded slice is clean |
| `Protocol.UpsertsAndTombstonesAreFaithful` | bench/src/memlake_bench/chaos.py:142-150 | logs of upserts and tombstones replay faithfully under every interleaving |
| `Protocol.VersionsAndCursorsGrow` | crates/mlake-index/src/indexer.rs:217-227 | versions count the swaps, cursors never go back, trimming stays below the previous cursor |
| `Protocol.OneUnsupersededCopy` | crates/mlake-index/src/indexer.rs:177-182 | newest first the covered sequences fall, and of two stored copies the older is superseded |
| `Protocol.ListingBehindOnlyAfterEmptyFold` | crates/mlake-wal/src/lib.rs:147-151 | the listing reaches the cursor as long as the last publish folded something |
| `Protocol.ListingCanFallIffNothingNew` | crates/mlake-wal/src/lib.rs:147-151 | in every reachable state legal trims can put the listing behind the cursor if and only if the last publish folded nothing and nothing was appended since |
| `Protocol.NoEmptyFoldsIsGuarded` | crates/mlake-index/src/indexer.rs:629-631 | every run in which no successful publish folds an empty slice lists, in each fold, a head at or above the cursor it read |
| `ColdWrites.HeadIsCursor` | crates/mlake-index/src/indexer.rs:222-225 | in every run, each published manifest remembers as log head exactly the cursor it folded to |
| `ColdWrites.ColdClaimsAreFresh` | crates/mlake-wal/src/commit.rs:53-73 | in every reachable state of a guarded run the sequence a new writer claims is above every entry ever appended and above the cursor |
| `ColdWrites.ColdAppendsAreLegal` | crates/mlake-wal/src/commit.rs:53-73 | so its append is one the log accepts |
| `ColdWrites.ColdClaimIsFreshIff` | crates/mlake-wal/src/commit.rs:53-73 | in any run at all, the claim is fresh if and only if the last entry is still listed or the current manifest covers it |
| `Ranges.RunKeepsRanges` | crates/mlake-index/src/indexer.rs:453-458 | in every published manifest each segment's sequence range holds its writes, and newer ranges lie entirely above older ones |
| `Listings.ReadersFindTheirTail` | crates/mlake-wal/src/tail.rs:131-137 | in every reachable state no entry above the cursor of the current or the previous manifest is trimmed: a reader of either finds its tail whole |
| `Listings.TailCanBeCutIffOlder` | crates/mlake-wal/src/tail.rs:131-137 | for any published manifest, legal trims can cut into its tail if and only if its cursor is below the current one's previous cursor |
| `Listings.SwapFoldedTheWholeSlice` | crates/mlake-index/src/indexer.rs:135-154 | whenever between listing and swap a fold reads the log, if the swap succeeds it saw the whole slice it published |
| `Listings.NextSwapCanLowerIffExposed` | crates/mlake-index/src/indexer.rs:629-631 | some continuation of a reachable state lowers the cursor with its next publish if and only if the last publish folded nothing and nothing came since, or a job listed its head while that was so |
| `Listings.AppendComesTooLate` | crates/mlake-index/src/indexer.rs:629-631 | from every such state a job can list the trimmed log before the next append, and stays able to lower the cursor after it |
| `FoldRuns.CursorCanGoBack` | crates/mlake-index/src/indexer.rs:75-115 | a run of one indexer that only publishes what `fold` chooses, in which two compactions in a row take the cursor back to 0, and a new writer then claims a used sequence |
| `FoldRuns.PublishAppliesPlan` | crates/mlake-index/src/indexer.rs:75-115 | what a publish does to the segments' document counts is what the fan-out model says of its plan |
| `QueryNode.GetMany` | crates/mlake-index/src/query_node.rs:832-900 | request order, tail first, newest unsuperseded copy of any type, minus predicate deletes, on both read paths |
| `QueryNode.StripKeepsTheRest` | crates/mlake-index/src/query_node.rs:832-900 | a payload row has everything but the embedding |
| `QueryNode.UnsupersededIsLook` | crates/mlake-index/src/query_node.rs:1795-1798 | a copy is unsuperseded exactly when no newer segment stores or deletes the id, and then lookup finds it |
| `Reads.ReadsAreReplayIffTailClean` | crates/mlake-index/src/query_node.rs:832-900 | for every reachable faithful manifest and head whose tail the listing still shows whole, as for the current and the previous one it always does, point reads answer as replay does if and only if the tail is clean |
| `Reads.ReadsAreReplayWithoutPredicates` | crates/mlake-index/src/query_node.rs:832-900 | without predicate deletes they always do, over the same manifests and heads |
| `Reads.OpenAndGet` | crates/mlake-index/src/query_node.rs:346-411 | open, with any reuse, then read on either path: replay of the whole log through the head if and only if no requested id is uncovered by a dropped write |
| `Opening.OpenWithReuse` | crates/mlake-index/src/query_node.rs:346-595 | the snapshot a fresh open gives, whatever loaded segments are reused; only the others are loaded |
| `Opening.ReopenAfterFold` | crates/mlake-index/src/query_node.rs:336-344 | equals the fresh open of the new manifest and reloads no segment it already had |
| `Opening.ReopenExtendingTail` | crates/mlake-index/src/query_node.rs:609-687 | the fresh open at the new head, up to types left without segment and tail |
| `Opening.OpensIsOk` | crates/mlake-index/src/query_node.rs:346-595 | an opened snapshot holds exactly its manifest's segments and its tail |
| `Opening.OpensUnique` | crates/mlake-index/src/query_node.rs:346-595 | manifest, head, objects and iteration order determine every field |
| `Opening.ReopenedReadsAlike` | crates/mlake-index/src/query_node.rs:609-687 | all ways of opening agree on every type and overlay a read consults |
| `Scanning.ReopenedScansAlike` | crates/mlake-index/src/query_node.rs:609-687 | fresh, reused and tail-extended snapshots page through the same list from every cursor |
| `Scanning.Scan` | crates/mlake-index/src/query_node.rs:1062-1120 | a page is a prefix of what was left, full unless the walk is over, and the cursor points at the rest |
| `Scanning.WalkPages` | crates/mlake-index/src/query_node.rs:1062-1120 | following cursors ends and spells out the same list for all page limits of at least one |
| `Scanning.ListingIsExactIffTypesKept` | crates/mlake-index/src/query_node.rs:1081-1098 | no id twice; the live matching memories plus retyped copies; exact if and only if there are none |
| `Scanning.RetypedCopyIsListed` | crates/mlake-index/src/query_node.rs:1085 | a concrete retyped copy |
| `Gc.Bucket.Collect` | crates/mlake-index/src/gc.rs:46-97 | gone are exactly the old files of neither segment list and the old entries at or below the previous cursor; both are counted |
| `Gc.SweepIsSteps` | crates/mlake-index/src/gc.rs:46-97 | what one such sweep removes is removed by steps of the transition system, one object each |
| `Gc.SweepSparesReaders` | crates/mlake-index/src/gc.rs:46-97 | when the delays fit, a sweep in any reachable state takes no file and no entry that a reader of the manifest it read, of the one before or of a later one needs |
| `Gc.SweepTrimsLegally` | crates/mlake-index/src/gc.rs:78-90 | the entries it trims are ones the publication protocol lets the collector trim |
| `Gc.FoldsFollow` | crates/mlake-index/src/indexer.rs:221-227 | every fold keeps its predecessor's files referenced, also the flush that clears the previous list, and no older ones |
| `Gc.RunKeepsInv` | crates/mlake-index/src/gc.rs:46-97 | the collector's invariant over every interleaving with publishes and other passes |
| `Gc.SafeIffDelaysFit` | crates/mlake-index/src/gc.rs:47-75 | readers of the manifest a pass read, of its predecessor and of later ones lose nothing in any run if and only if the two delays together stay below the floor; the failing run loses a file that a build of one upsert wrote |
| `Sorting.StableUnique` | crates/mlake-index/src/spill.rs:152-156 | two sorted lists with equal tie classes are equal |
| `Spill.MergeStep` | crates/mlake-index/src/spill.rs:111-117 | popping the least head by key, then run, yields the head of the stable sort |
| `Spill.Merge.Next` | crates/mlake-index/src/spill.rs:201-214 | the next pair of the pending stable sort; the rest stays pending |
| `Spill.ExternalSort.Add` | crates/mlake-index/src/spill.rs:143-170 | the added sequence grows by one pair, wherever the buffer spills |
| `Spill.ExternalSort.Finish` | crates/mlake-index/src/spill.rs:172-190 | the stream is the stable sort of everything added, for every cap |
| `Spill.BuildTable` | crates/mlake-index/src/streaming.rs:765-782 | each distinct key once, strictly ascending, values joined in the order they were added |
| `Streaming.ResolveAndEmit` | crates/mlake-index/src/streaming.rs:213-244 | one id's events, stably by sequence, to its survivor |
| `Streaming.FirstBuild` | crates/mlake-index/src/streaming.rs:337-404 | spill, sort, group, resolve: each survivor once, ascending by id, whatever the buffer size; exactly the replay of the log when patches keep verdicts |
| `Streaming.ClassStreamsIffVerdictsKept` | crates/mlake-index/src/streaming.rs:385-388 | every ordered log with patches from a class streams to its replay if and only if each delta list of the class changes no predicate's verdict on any memory |
| `Streaming.KeepsVerdictsIffSameView` | crates/mlake-core/src/predicate.rs:44-72 | a delta list keeps all verdicts if and only if it leaves type, write time, tags and metadata pairs of every memory alone |
| `Streaming.StreamIsReplay` | crates/mlake-index/src/streaming.rs:362-404 | so for every log whose patches change no verdict, several operations on one id in one entry included |
| `Streaming.NeutralPatchesStream` | crates/mlake-core/src/predicate.rs:44-72 | so for patches to text, vector, proof count and entities |
| `Streaming.LazyDeletionIsEager` | crates/mlake-index/src/query_node.rs:1784-1790 | filtering final memories once is deleting at each predicate, for patch-free logs |
| `Streaming.FlippedVerdictDiverges` | crates/mlake-index/src/streaming.rs:213-244 | any patch that flips a verdict, either way, gives a log on which streaming and replay disagree about the memory |
| `Streaming.RetaggingDiverges` | crates/mlake-index/src/streaming.rs:213-244 | two concrete logs with one re-tagging patch: one brings a deleted memory back, the other loses a live one |
| `Codec.EventRoundTrip` | crates/mlake-index/src/streaming.rs:163-208 | decoding an encoded event gives it back, for every 64-bit sequence |
| `Codec.DecodedIsFrame` | crates/mlake-index/src/streaming.rs:185-208 | what decodes has the tag of its kind and its sequence in eight bytes; short values and unknown tags are refused by name |
| `Codec.ClusterKeysKeepOrder` | crates/mlake-index/src/streaming.rs:784-793 | key bytes order as cluster numbers do, and differ when they differ |
| `VectorArm.SegmentArm` | crates/mlake-index/src/query_node.rs:1567-1648 | exactly the unpruned candidates with their true scores, and everything pruned loses to k of them; under a binding cap the 16k best estimates are rescored; approximate mode is the top-depth by estimate |
| `VectorArm.VectorSearch` | crates/mlake-index/src/query_node.rs:1464-1500 | the top-k of what tail and pruned segments leave, also with stale copies among them; of what is live when the misplaced are harmless; brute force over everything scanned when no id is in two places |
| `VectorArm.SearchIsExactIffHarmless` | crates/mlake-index/src/query_node.rs:1495-1500 | for given intervals, tail ids and stale ids the search is the true top-k of what is live for all scores if and only if every live candidate pruned, and every stale one kept that no tail score covers, is surely beaten by k live ones |
| `VectorArm.DisjointIsHarmless` | crates/mlake-index/src/query_node.rs:1612-1617 | with no copy of a written id and none deleted by a predicate among the candidates, pruning by the k-th lower bound always meets that condition |
| `VectorArm.PruneAll` | crates/mlake-index/src/query_node.rs:1610-1617 | dropping candidates beaten by k others changes no top-k list |
| `VectorArm.TopKUnique` | crates/mlake-index/src/query_node.rs:1497-1500 | score and id order leave one top-k list |
| `VectorArm.StaleCopyPrunesTheBest` | crates/mlake-index/src/query_node.rs:1672-1692 | one stale copy: the search returns the re-scored memory where brute force over the live ones returns another |
| `VectorArm.DeletedCopyTakesThePlace` | crates/mlake-index/src/query_node.rs:1672-1692 | one indexed copy deleted by a predicate: the search returns it where the live top-1 is another memory |
| `DenseQuery.CandsOneCopy` | crates/mlake-index/src/query_node.rs:1792-1798 | on every well-formed snapshot the supersede test leaves one scanned copy of each id, across segments and blocks |
| `DenseQuery.LiveIffNotStale` | crates/mlake-index/src/query_node.rs:1653-1692 | a scanned memory is what a point read answers if and only if the tail does not write its id and no carried or tail predicate deletes it |
| `DenseQuery.LiveSetIsOwed` | crates/mlake-index/src/query_node.rs:1464-1500 | the scores owed are exactly those of the live memories of the type that pass the filter, in the tail or in a probed cluster |
| `DenseQuery.FullProbeCoversAll` | crates/mlake-index/src/query_node.rs:1741-1780 | with every cluster probed that is every live passing memory of the type |
| `DenseQuery.FilteredProbeCoversAll` | crates/mlake-index/src/query_node.rs:1741-1780 | so for a filtered probe whose cap does not bind |
| `DenseQuery.SelectProbes` | crates/mlake-index/src/query_node.rs:1741-1780 | the clusters picked per segment are proper probes, whatever filter and summaries |
| `DenseQuery.ScanBlocks` | crates/mlake-index/src/query_node.rs:1653-1692 | the nested loops give the candidates of the probed blocks in order |
| `DenseQuery.DenseArm` | crates/mlake-index/src/query_node.rs:1456-1503 | the top-k of what tail scoring and block scans find; the ranked live memories when the misplaced are harmless |
| `DenseQuery.DenseIsExactIffHarmless` | crates/mlake-index/src/query_node.rs:1494-1500 | for every snapshot, filter, probe and quantization: the arm ranks the live memories for all scores inside the intervals if and only if the misplaced are harmless |
| `DenseQuery.NothingStaleIsHarmless` | crates/mlake-index/src/query_node.rs:1494-1500 | so the arm is exact where nothing scanned is rewritten by the tail or deleted by a predicate |
| `Hydration.Hydrate` | crates/mlake-index/src/query_node.rs:1505-1515 | each winner in rank order carries the tail's item, else the first checked row, else the first row of any kind |
| `Hydration.ScannedCarries` | crates/mlake-index/src/query_node.rs:1394-1405 | a scanned winner that the tail does not hold carries its indexed copy, deleted or not |
| `Hydration.HitsAreLiveIffNoStaleWinner` | crates/mlake-index/src/query_node.rs:1408-1415 | every hit carries what a point read answers if and only if no winner is stale, save those whose new version of the type the tail holds |
| `Hydration.QueryDense` | crates/mlake-index/src/query_node.rs:1330-1425 | the hydrated top-k of what is found; when the misplaced are harmless, the live memories ranked, each at its rank with its score and live contents |
| `Hydration.HitsAreWinners` | crates/mlake-index/src/query_node.rs:1369-1430 | every hit stands at its winner's rank with its score, is not deleted by id, and passes the tag trees |
| `Hydration.Query` | crates/mlake-index/src/query_node.rs:1330-1425 | pick clusters, search, hydrate: as above over the picked clusters |
| `Hydration.DeletedMemoryIsReturned` | crates/mlake-index/src/query_node.rs:1394-1405 | a snapshot of two memories, one deleted by a tail predicate: point reads find nothing, the query returns it in the place of the live one |
| `Summary.Summarize` | crates/mlake-index/src/indexer.rs:972-992 | union of tags, untagged flag and exact span of write times |
| `Summary.PruningIsSound` | crates/mlake-index/src/query_node.rs:1764-1778 | a cluster with a member passing filter and window is never pruned, in all five modes |
| `Summary.WindowPruningIsSound` | crates/mlake-index/src/generation.rs:204-226 | the span admits every window some member falls into |
| `Summary.PruningIsOptimal` | crates/mlake-core/src/tags.rs:100-116 | in all five modes a cluster is admitted if and only if some memory its summary allows would match |
| `Summary.OverlapPruningIsExact` | crates/mlake-core/src/tags.rs:100-116 | for overlap modes and the untagged scope admission means some member matches |
| `Summary.OneSidedWindowIsExact` | crates/mlake-index/src/generation.rs:204-215 | for one-sided windows admission means some member falls inside |
| `Summary.FilteredProbeMissesNothing` | crates/mlake-index/src/query_node.rs:1741-1780 | unless the cap cuts it, a filtered probe reads every cluster with a passing member |
| `Summary.PlainProbeIsNearest` | crates/mlake-index/src/query_node.rs:1750-1753 | without a filter the nearest clusters, nearest first |
| `Summary.FilteredProbeIsNearest` | crates/mlake-index/src/query_node.rs:1755-1780 | with one, admissible clusters in order of distance, at most four times as many, and none farther than one left out |
| `Tags.FilterRelatesSets` | crates/mlake-core/src/tags.rs:138-156 | every mode is a relation of the two tag sets; an empty request lets all pass, or the untagged |
| `Tags.TreeIsFormula` | crates/mlake-core/src/tags.rs:194-204 | a tag tree is the boolean formula it spells over such relations |
| `Tags.TreeReadsTheSet` | crates/mlake-core/src/tags.rs:194-204 | order and repetition of tags never matter, however deep the tree |
| `Memories.PredicateMeans` | crates/mlake-core/src/predicate.rs:44-72 | a predicate asks for one of its types, its tag relation, a write time strictly between its bounds and every listed pair |
| `LinkCounts.CountTemporalLinks` | crates/mlake-index/src/query_node.rs:1003-1015 | the two-pointer sweep never underflows and is the capped quadratic count over memories |
| `LinkCounts.SweepIsQuadratic` | crates/mlake-index/src/query_node.rs:1000-1002 | bucket totals equal the sum over memories of their capped neighbours |
| `Radj.Build` | crates/mlake-graph/src/radj.rs:63-89 | strictly sorted targets, rising offsets partitioning all edges, each row as owed |
| `Radj.Incoming` | crates/mlake-graph/src/radj.rs:95-104 | binary search returns the target's row, or nothing |
| `Radj.BuildThenLookUp` | crates/mlake-graph/src/radj.rs:63-104 | every target, present or absent, gets its edges stably by source |
| `Fanout.MinorRunLen` | crates/mlake-index/src/indexer.rs:253-266 | the longest prefix of at least two that fits under the first kept segment, or none |
| `Fanout.SegmentsBounded` | crates/mlake-index/src/indexer.rs:75-115 | at most the cap with one indexer, cap - 1 + n with n |
| `Fanout.BoundIsReached` | crates/mlake-index/src/indexer.rs:75-115 | the bound is attained for every number of indexers |
| `Temporal.SelectWithCoverage` | crates/mlake-index/src/temporal.rs:82-133 | the pool if it fits, else exactly the limit: tiers in order, cut at the limit; before any equal part of the window gives a second candidate, every part that holds one is represented; of each part what is taken outranks what is left; each slice gives its most similar prefix and none leads a non-exhausted one by more than one |
| `Temporal.SliceIsPart` | crates/mlake-index/src/temporal.rs:100-109 | a candidate's slice is the one of n equal parts of the window its date falls into, ends clamped, undated ones and empty windows first |
| `Temporal.SlicesFollowDates` | crates/mlake-index/src/temporal.rs:100-109 | later dates fall into the same or a later slice |
| `Temporal.SelectionIsBalanced` | crates/mlake-index/src/temporal.rs:115-132 | from each slice its most similar prefix, and no slice more than one ahead of one that is not exhausted |
| `Temporal.RankedIsSorted` | crates/mlake-index/src/temporal.rs:92-98 | the ranked pool runs by similarity, then id, each candidate in a slice of the window |
| `Temporal.SlicesAreRanked` | crates/mlake-index/src/temporal.rs:110-114 | slices keep similarity order, so a prefix is their most similar part |

## Left out

- Store, network, async fetching and caching: objects are maps, the manifest is one compare-and-set cell.
- Out-of-order log appends: `Protocol` appends take a sequence above all earlier ones; batched writers that fill slots out of order and cached next sequences are not modelled, claims without a cache are.
- Pending patches on the read path: `get_many` does not apply tail patches to indexed memories (crates/mlake-index/src/query_node.rs:832-900); the protocol and read theorems are about patch-free tails. Patched slices and folds over them are in `PatchedTail`, patched first builds in `Streaming`.
- Gc.SafeIffDelaysFit: publishes list a head at or above the cursor; the unguarded case is `FoldRuns.CursorCanGoBack`.
- Opening.ReopenedReadsAlike: assumes both opens iterate the tail's hash map in the same order; with limit 0 a scan of a type left empty returns its cursor instead of none.
- Hydration.QueryDense: the dense arm alone; hits come in rank order instead of the map's, the text, graph and temporal arms add none, and blocks without tag columns and segments without payload rows are not modelled.
- VectorArm.SearchIsExactIffHarmless: about searches whose rerank cap does not bind and whose contenders have rows.
- VectorArm.SegmentArm: when the rerank cap binds, the source leaves the choice among equal estimates open; the model takes the first.
- Streaming.FirstBuild: a first build only; over existing segments the source reads just the first one (crates/mlake-index/src/streaming.rs:331). The split of survivors by type and the training sample are not modelled.
- Embeddings, float rounding, k-means and the vector codec: `body` is opaque, scores and similarities are integers, time slices are computed exactly, centroid assignment is a parameter. Embeddings re-read through a cluster's codec are taken to be unchanged.
- Fixed-width overflow of counters, timestamps and the 32-bit edge offsets; only the proof-count clamp and the 64-bit event sequence are modelled at their width.
- Outgoing links, index text and the pruning of dangling semantic links by the full rebuild.
- The text arm, `scan_ordered`, `metadata_counts`, `entity_counts` and cross-segment document counts: they do not consult the overlay or are documented as approximate.
- Normalisation of a memory when it enters the log (tag and entity sorting).
- Full-text index, tokenizers, admin pages, clients and benchmarks.
