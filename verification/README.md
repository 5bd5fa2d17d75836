# Verified model of the GPU miner's hash and share pipeline

The miner computes AstroBWTv3 hashes: a data-dependent loop over a 256-byte table turns a 48-byte blob into a
stream of about 70 KB, the suffix array of the stream is built, and its bytes are hashed with SHA-256. Every stage
exists in several forms, and the repository lives on the claim that the fast ones equal the simple one. This project
models those forms and proves the claim, and proves what holds of the machinery around them: the streamers that
overlap batches on the GPU, the job state, and the CPU gate in front of the submit mailbox.

How the parts hang together:

- **One specification for suffix arrays** (`Suffixes`): the positions of the text, each once, in strictly increasing
  suffix order. It has exactly one solution, so algorithms that meet it agree with each other.
- **The plain reference** (`SaisRef`, `Sorting`).
- **The descriptor suffix array** (`V114Keys`, `V114Records`, `V114Emit`, `CountingSort`, `V114Merge`, `V114`):
  column induction over runs of 256-byte groups, packed records, a three-pass radix sort and merges by key. The
  theorem holds for arbitrary template markers, which only choose the partition.
- **Induced sorting** (`SaisTypes` to `Sais`): the in-place algorithm with its sign-encoded work queue. `SaisPlan`
  states the induction of the four scans once, for any order given by integer keys; `SaisPlans` supplies the keys for
  LMS-substrings and for suffixes; `SaisScan` and `SaisInduce` run the scans on the array; `SaisPlace` fills bucket
  ends; `SaisNaming`, `SaisReduce` and `SaisAssign` name substrings and build the reduced text; `SaisGlue` connects
  the phases; `Sais` recurses.
- **The GPU suffix-array kernel** (`PrefixOrder`, `KernelSort`, `DoublingKernel`): a workgroup of 256 lanes between
  barriers, each phase running its lanes in an arbitrary order.
- **Prefix statistics** (`Kasai`, `TieGroups`).
- **The hash front end** (`WolfOps`, `WolfLoop`, `WolfStreams`, `WolfKernel`, `Genwolf`): the switch, the packed
  table and the 32-bit GPU interpreter against one function, and the compiler that makes the table.
- **The hash end to end** (`HashScratch`, `Pow`, `GpuHash`): from the input to the digest, on the CPU through either
  algorithm, and on the portable GPU path, where the CPU's streams are uploaded to the suffix-array kernel; all of them
  give the same hash.
- **The final hash** (`Sha256Pair`) and **the target arithmetic** (`Bytes`, `Difficulty`).
- **The streamers** (`SpirvDevice`, `SpirvStream`, `FusedStream`): a device queue executed in order, where every call
  to the device may fail. **The job state and gate** (`MinerState`, `Gate`) and **the mining loop** (`MineLoop`), with
  job pushes, the mailbox reader and the daemon link interleaved anywhere.

Four statements one might expect are false of the code, and are proved so:

- The displayed difficulty does not determine the target: a job repeated with another difficulty changes only the
  display (`MirrorDrifts`); `TargetFollowsDifficulty` says exactly when the two agree.
- Difficulty zero is not unmeetable, although the comment at internal/miner/difficulty.go:16 says nothing ever
  passes: the all-zero hash does, and only it (`ZeroDifficulty`). Such jobs are refused before they are installed.
- A stale share can be queued, although the comment at cmd/go-gpu-miner/main.go:462-464 says none ever is: the epoch is
  loaded before the CPU hash and not again before the mailbox takes the share (`StaleShare`). What holds is freshness
  at the gate (`EarnedAtGate`), and `FreshWhenSent` says exactly when a queued share is fresh at the send.
- The table compiler does not keep the meaning of every statement it accepts. It looks at three tokens only and treats
  every other one as a plain assignment, classifies those three by the token alone, reads octal counts as decimal,
  drops negative ones, lets large ones spill into the operation, skips increments, nested statements and other
  spellings of the left side, and takes every two-sided assignment for the swap. `ClassifyExact` decides for every
  statement of the byte loop over the two table entries whether it is compiled right, `CompilerExact` lifts that to
  bodies, and a lemma shows each failure.

A failure of the native streamer after commands were queued is final (`SpirvFastStreamer.Submit`, `Stuck`): nothing is
returned afterwards, and nothing wrong either. The comment at internal/gpu/fused.go:609-615 describes recovery for the
other streamer, and there it is true: a failed call loses no batch (`FusedStreamer.Submit`).

## Model

| member | source | states |
|---|---|---|
| Suffixes.LessTotal | internal/gpu/sa_vectors.go:72-82 | of two different suffixes exactly one is smaller |
| Suffixes.LessTransitive | internal/gpu/sa_vectors.go:72-82 | the reference comparison is transitive |
| Suffixes.SortedUnique | internal/gpu/sa_vectors.go:66-90 | two sorted lists of the same positions are equal |
| Suffixes.SortedIotaIsSuffixArray | internal/gpu/sa_vectors.go:66-90 | a sorted permutation of all positions is the suffix array, strictly increasing |
| Suffixes.SuffixArrayIsPermutation | internal/gpu/sa_vectors.go:66-90 | a suffix array is a permutation of 0..n-1 without repetition |
| Suffixes.SuffixArrayUnique | internal/gpu/sa_vectors.go:66-90 | a text has one suffix array, so every two algorithms that meet the specification agree |
| SaisRef.SuffixIsLess | internal/gpu/sa_vectors.go:72-82 | the byte loop decides the suffix order, a proper prefix being smaller |
| SaisRef.InsertAt | internal/gpu/sa_vectors.go:84-88 | sinking one entry by swaps sorts one more entry and keeps all of them |
| SaisRef.BuildReference | internal/gpu/sa_vectors.go:66-90 | the reference ends with the suffix array of every text |
| Bytes.CompareSuffixes | internal/astrobwt/sa_v114_emit.go:18-23 | bytes.Compare on two slices of the text has the sign of the suffix order |
| Bytes.CompareSplit | internal/astrobwt/sa_v114_merge.go:17-62 | comparing a prefix and then the rest is comparing the whole |
| Bytes.CompareBigEndian | internal/miner/difficulty.go:32-44 | equally long byte strings compare as the integers they spell |
| V114Keys.SmallerKeySmallerSuffix | internal/astrobwt/sa_v114.go:107-117 | with zero padding behind the text, a smaller stored key means a smaller suffix, also for suffixes shorter than three bytes and for trailing zeros |
| V114Keys.SameKeys | internal/astrobwt/sa_v114.go:107-117 | the loaded key, the stored key and the three padded bytes are equal together |
| V114Keys.CompareWholeSign | internal/astrobwt/sa_v114_emit.go:18-23 | compareSuffixes has the sign of the suffix order |
| V114Keys.CompareAfterKeySign | internal/astrobwt/sa_v114_merge.go:17-70 | on suffixes with equal keys the comparison behind the key has the sign of the full suffix order |
| V114Keys.CompareCommonIsCompare | internal/astrobwt/sa_v114_merge.go:17-62 | the word-wise skipping comparison equals the byte-wise one |
| V114Records.PackingDecodes | internal/astrobwt/sa_v114.go:35-49 | count and offset, or the literal position, come back from the packed word |
| V114Records.ExpandPermutation | internal/astrobwt/sa_v114_merge.go:264-327 | rearranging records rearranges the positions they stand for |
| V114Records.EmitOrderConserves | internal/astrobwt/sa_v114_emit.go:71-87 | emitting a column adds records for exactly its positions, each once |
| V114Records.ListsRun | internal/astrobwt/sa_v114_emit.go:147-219 | after a run of groups the records list exactly the positions before its end, each once |
| V114Records.ListsLiterals | internal/astrobwt/sa_v114_emit.go:93-103 | the literal records of the last partial group complete the list |
| V114Emit.V114Scratch.constructor | internal/astrobwt/sa_v114.go:64-75 | a new scratch has no records |
| V114Emit.SortSuffixOrderSmall | internal/astrobwt/sa_v114_emit.go:26-36 | the insertion sort yields the sorted arrangement of its input |
| V114Emit.HeapSortSuffixOrder | internal/astrobwt/sa_v114_emit.go:40-49 | the heap sort yields the same arrangement |
| V114Emit.SiftDown | internal/astrobwt/sa_v114_emit.go:51-66 | sifting restores the heap below the root and keeps the entries |
| V114Emit.InducedColumn | internal/astrobwt/sa_v114_emit.go:196-216 | a sorted rearrangement of the decremented column is the column before it |
| V114Emit.PlacingInduced | internal/astrobwt/sa_v114_emit.go:196-216 | the stable insertion by first byte sorts the decremented column by full suffix |
| V114Emit.InduceColumn | internal/astrobwt/sa_v114_emit.go:196-216 | after the fused decrement, re-key and insertion, order is the previous column sorted by suffix and every key is the padded key of its entry |
| V114Emit.AppendOrderGroup | internal/astrobwt/sa_v114_emit.go:71-87 | one record for the group, declined exactly if the arena would exceed its bound |
| V114Emit.EmitLiteralRecords | internal/astrobwt/sa_v114_emit.go:93-103 | one literal record for each position of the stretch |
| V114Emit.EmitColumn | internal/astrobwt/sa_v114_emit.go:179-194 | the column's groups of equal keys become records, or the arena bound is hit |
| V114Emit.EmitFullGroupRunGeneric | internal/astrobwt/sa_v114_emit.go:147-219 | all 256 columns of the run are emitted, each in suffix order |
| V114Emit.EmitFullGroupRunTwo | internal/astrobwt/sa_v114_emit.go:107-140 | the two-group specialization emits the same records as the general loop |
| V114Emit.EmitFullGroupRun | internal/astrobwt/sa_v114_emit.go:222-237 | whichever branch runs, the state is that of the run's columns, declined exactly if the arena does not fit |
| CountingSort.PassSorts | internal/astrobwt/sa_v114_merge.go:74-127 | a stable pass over input ordered by the lower digits orders by one digit more |
| CountingSort.PassStable | internal/astrobwt/sa_v114_merge.go:74-127 | a pass keeps the order of elements with equal digits |
| CountingSort.BucketsPermutation | internal/astrobwt/sa_v114_merge.go:74-127 | a pass loses and invents nothing |
| CountingSort.SlotsDistinct | internal/gpu/wgsl/sa_gpu.wgsl:117-123 | no two elements of a pass are written to one slot |
| CountingSort.SlotsArePass | internal/gpu/wgsl/sa_gpu.wgsl:100-128 | writing every element to its slot, in any order, is the stable pass |
| V114Merge.RadixSortRunsByStoredKey | internal/astrobwt/sa_v114_merge.go:74-127 | three passes between two buffers leave the records sorted by key, equal keys in their old order |
| V114Merge.ThreePassesSort | internal/astrobwt/sa_v114_merge.go:74-127 | three digit passes are a stable sort by the whole 24-bit key |
| V114Merge.TryWriteLiteralGroup | internal/astrobwt/sa_v114_merge.go:139-165 | a group of literals is written sorted by suffix, or left to the merge |
| V114Merge.TryWriteTwoRuns | internal/astrobwt/sa_v114_merge.go:168-198 | two sorted records of one key are merged into the sorted arrangement of their positions |
| V114Merge.MergeSortedPositionsAfterKey | internal/astrobwt/sa_v114_merge.go:200-223 | merging two sorted stretches gives the sorted arrangement of both |
| V114Merge.MergeRound | internal/astrobwt/sa_v114_merge.go:227-261 | a round halves the number of sorted blocks, the odd one out included, and keeps every position |
| V114Merge.MergeEqualKeyRuns | internal/astrobwt/sa_v114_merge.go:227-261 | for every number and length of runs the result is sorted and back in the first buffer |
| V114Merge.FusedRunPos | internal/astrobwt/sa_v114_merge.go:129-135 | the n-th position of a record, literal or in the arena |
| V114Merge.WriteFusedRunsToSA | internal/astrobwt/sa_v114_merge.go:264-327 | records that list a set of positions end as its sorted arrangement in sa |
| V114.BuildStage5Flags | internal/astrobwt/sa_v114.go:79-105 | a group is flagged exactly if it is the first or some marker names it as a boundary, for any markers |
| V114.EmitAll | internal/astrobwt/sa_v114.go:145-158 | with any flags no emit call declines, and the records list every position once |
| V114.BuildSAv114 | internal/astrobwt/sa_v114.go:123-160 | for every text and any markers it declines only on a big-endian host, an empty or oversized text or no templates; otherwise sa is the suffix array and the text is untouched |
| SaisTypes.TypeStep | internal/astrobwt/sais.go:303-309 | neighbouring characters decide a position's type |
| SaisTypes.LBeforeS | internal/astrobwt/sais.go:303-309 | in one bucket type-L suffixes come before type-S ones |
| SaisTypes.IteratorStep | internal/astrobwt/sais.go:295-325 | the backward scan fires exactly at LMS positions |
| SaisTypes.LmsListProperties | internal/astrobwt/sais.go:629-649 | the LMS positions are complete, increasing, and twice their number is below the length |
| SaisBuckets.Freq | internal/astrobwt/sais.go:213-229 | the table holds every character's frequency, counted or cached behind its marker |
| SaisBuckets.BucketMin | internal/astrobwt/sais.go:233-242 | every bucket's first slot |
| SaisBuckets.BucketMax | internal/astrobwt/sais.go:248-257 | one past every bucket's last slot |
| SaisOrder.FTotal | internal/astrobwt/sais.go:435-446 | the order of LMS-substrings, ties by position, is total |
| SaisOrder.FLtIsLess | internal/astrobwt/sais.go:186-194 | where two LMS-substrings differ their order is the suffix order |
| SaisOrder.FSameDefers | internal/astrobwt/sais.go:583-592 | behind equal LMS-substrings the following suffixes decide |
| SaisOrder.FSameOrder | internal/astrobwt/sais.go:583-592 | equal substrings stand together in the order |
| SaisPlan.SlotOrder | internal/astrobwt/sais.go:363-378 | slots follow the order of the plan and are distinct |
| SaisPlan.Arrive | internal/astrobwt/sais.go:363-378 | whatever slot the scan reaches has already been filled |
| SaisPlan.PtrIsSlot | internal/astrobwt/sais.go:363-378 | the bucket pointer used for an entry is the entry's final slot, still ahead of the scan |
| SaisPlan.AllPlaced | internal/astrobwt/sais.go:363-378 | after the scan every target has been placed |
| SaisPlans.UpPlanSound | internal/astrobwt/sais.go:346-433 | placing type-L positions upwards is sound for any order that successors decide |
| SaisPlans.DownPlanSound | internal/astrobwt/sais.go:435-509 | placing type-S positions downwards is sound from the slots the upward scan left |
| SaisPlans.KeyLessBoth | internal/astrobwt/sais.go:789-899 | the suffix order is decided by successors in both directions |
| SaisPlans.KeysAgreeOnL | internal/astrobwt/sais.go:435-446 | the two orders of the first round agree on type-L positions |
| SaisScan.Look | internal/astrobwt/sais.go:402-413 | the sign of an entry tells whether the position before it is to be placed |
| SaisScan.Process | internal/astrobwt/sais.go:415-431 | placing one entry keeps the description of the whole array |
| SaisScan.SwitchBucket | internal/astrobwt/sais.go:425-429 | the cached bucket pointer is written back before another is loaded |
| SaisPlace.PlaceLms | internal/astrobwt/sais.go:280-344 | counts the LMS positions and leaves them at the bucket ends, without the first unless it is alone |
| SaisPlace.Expand | internal/astrobwt/sais.go:757-787 | spreads the sorted LMS positions, in place, to the ends of their buckets and clears the rest |
| SaisInduce.PlaceSentinelPredecessor | internal/astrobwt/sais.go:381-400 | the last position, which the absent sentinel entry would induce, opens its bucket |
| SaisInduce.InduceSubL | internal/astrobwt/sais.go:357-433 | only the leftmost type-L position of each LMS-substring is left, at its slot |
| SaisInduce.InduceSubS | internal/astrobwt/sais.go:447-509 | the LMS positions are packed at the top in substring order, zeros below |
| SaisInduce.InduceL | internal/astrobwt/sais.go:795-854 | every type-L position is at its slot, negated exactly if a type-S position precedes it |
| SaisInduce.InduceS | internal/astrobwt/sais.go:856-899 | every position is at its slot and no sign is left |
| SaisNaming.EndFIsNext | internal/astrobwt/sais.go:287-293 | an LMS-substring ends at the next LMS position |
| SaisNaming.CodeKinds | internal/astrobwt/sais.go:511-530 | a code is zero for the final substring, a length, or a packing no length equals; never the initial -1 |
| SaisNaming.CxInjective | internal/astrobwt/sais.go:534-551 | equal packings of three or four incremented bytes are packings of the same bytes |
| SaisNaming.CodesDecide | internal/astrobwt/sais.go:593-627 | codes, with the text comparison where they are lengths, decide exactly whether two LMS-substrings are equal |
| SaisReduce.Length | internal/astrobwt/sais.go:531-581 | every LMS position's code is in its half slot, other slots are zero, the packed list is untouched |
| SaisReduce.HalfBelowTop | internal/astrobwt/sais.go:511-514 | half slots lie below the packed list |
| SaisReduce.NamesOrder | internal/astrobwt/sais.go:584-592 | identifiers are monotone in substring order and equal exactly for equal substrings |
| SaisReduce.ReducedOrder | internal/astrobwt/sais.go:629-639 | suffixes of the reduced text are ordered as the LMS suffixes they stand for |
| SaisAssign.SameText | internal/astrobwt/sais.go:607-618 | the loop decides equality of two stretches |
| SaisAssign.AssignId | internal/astrobwt/sais.go:593-627 | every half slot holds its substring's dense identifier; the largest is returned |
| SaisAssign.Map | internal/astrobwt/sais.go:640-649 | the top becomes the reduced text; no identifier is overwritten before it is read |
| SaisAssign.FillUnmap | internal/astrobwt/sais.go:727-744 | the top lists the LMS positions in text order, the rest is untouched |
| SaisAssign.Unmap | internal/astrobwt/sais.go:727-751 | the front lists the LMS positions the reduced suffix array stands for |
| SaisGlue.SubGlue | internal/astrobwt/sais.go:435-446 | what the first scan leaves is what the second starts from, nothing else |
| SaisGlue.SubResult | internal/astrobwt/sais.go:439-446 | the packed list names every LMS position once in substring order |
| SaisGlue.RecursionSorts | internal/astrobwt/sais.go:719-726 | the recursion's result, mapped back, sorts the LMS suffixes |
| SaisGlue.DistinctNamesSort | internal/astrobwt/sais.go:186-194 | with all substrings different, substring order is suffix order |
| SaisGlue.FullGlue | internal/astrobwt/sais.go:800-804 | the signs the third scan leaves are the work queue of the fourth |
| SaisGlue.AllReached | internal/astrobwt/sais.go:864-870 | every slot belongs to some position, so the last scan sees no empty entry |
| SaisGlue.FinalArray | internal/astrobwt/sais.go:856-899 | after the last scan the array is the suffix array |
| Sais.ChooseSpace | internal/astrobwt/sais.go:655-708 | the space chosen fits the identifiers and half the subproblem, so no deeper level allocates |
| Sais.Recurse | internal/astrobwt/sais.go:655-717 | the front becomes the suffix array of the reduced text; shared space is kept or marked |
| Sais.SortLms | internal/astrobwt/sais.go:177-197 | from placed LMS positions to LMS suffixes sorted at the bucket ends |
| Sais.Sort | internal/astrobwt/sais2.go:78-138 | for every text over its alphabet the array ends as the suffix array, with at most one allocation in the whole recursion and none if the space given is half the text; shared space is kept or marked |
| Sais.Text32 | internal/astrobwt/scratch.go:35-44 | refuses a text too long for an int32 or an array of another length, else sorts any byte text |
| Pow.SortWithSais | internal/astrobwt/pow.go:2458-2459 | the fallback sorts the text in the scratch arrays |
| Pow.SuffixArrayStage | internal/astrobwt/pow.go:2458-2463 | whichever algorithm runs, and whether or not the fast one declines, sa is the suffix array of the unchanged text |
| Pow.MarkerExact | internal/astrobwt/pow.go:2429-2437 | a marker names the boundary behind its chunks exactly if there are fewer than 128 |
| Pow.AstroBWTv3Stream | internal/astrobwt/pow.go:45-2466 | from the input on: sa is the suffix array of the kept part of the specified stream; on a little-endian host no hash takes the fallback |
| Pow.SameBytes | internal/astrobwt/pow.go:26-37 | the bytes of the final hash depend on the text only, not on the algorithm |
| Pow.SameHash | internal/astrobwt/pow.go:26-2466 | two computations of one hash, by whatever forms of the loop and of the suffix sort, hash the same bytes |
| Pow.WordBytesSpell | internal/astrobwt/pow.go:26-31 | four bytes an entry, the lowest first: they spell the entry |
| Pow.DifferentBytes | internal/astrobwt/pow.go:26-31 | different arrays are hashed as different bytes |
| Pow.SumSpells | internal/astrobwt/pow.go:26-31 | what is hashed spells the suffix array of the text |
| Pow.HasSum | internal/astrobwt/pow.go:26-2466 | whoever finds the stopping round and sorts its text, in whatever way, has the hash |
| Pow.AstroBWTv3 | internal/astrobwt/pow.go:26-31 | for every input and with either algorithm, the digest of bytes that spell the suffix array of the specified text |
| PrefixOrder.Doubling | internal/gpu/wgsl/sa_gpu.wgsl:181-187 | comparing h + g characters is comparing h and then the g behind them |
| PrefixOrder.UpToWhole | internal/gpu/wgsl/sa_gpu.wgsl:171-171 | prefixes longer than the suffixes decide as the suffixes do |
| KernelSort.HistogramPhase | internal/gpu/wgsl/sa_gpu.wgsl:80-88 | atomic additions in any order count every digit |
| KernelSort.ScatterTile | internal/gpu/wgsl/sa_gpu.wgsl:100-128 | a tile's elements go to their stable slots, whatever lanes run first |
| KernelSort.KernelPass | internal/gpu/wgsl/sa_gpu.wgsl:78-129 | a tiled pass is the stable counting sort by one byte for every interleaving of lanes |
| KernelSort.SgSort | internal/gpu/wgsl/sa_gpu.wgsl:77-140 | the passes between two buffers end in the first one, after an even or odd number |
| KernelSort.PassesSort | internal/gpu/wgsl/sa_gpu.wgsl:77-140 | byte passes sort stably by the key's low bytes |
| DoublingKernel.KeysDouble | internal/gpu/wgsl/sa_gpu.wgsl:50-57 | the two keys of a round order suffixes by twice as many characters |
| DoublingKernel.TwoSortsDouble | internal/gpu/wgsl/sa_gpu.wgsl:181-187 | the two sorts leave the positions ordered by twice as many characters |
| DoublingKernel.PassesCover | internal/gpu/wgsl/sa_gpu.wgsl:174-179 | the number of passes covers every key up to the largest rank plus one exactly as long as that is below 2^24 |
| DoublingKernel.InitPhase | internal/gpu/wgsl/sa_gpu.wgsl:160-169 | positions in order, ranked by first byte |
| DoublingKernel.ScanPhases | internal/gpu/wgsl/sa_gpu.wgsl:216-223 | the Hillis-Steele phases leave inclusive sums |
| DoublingKernel.RebuildRanks | internal/gpu/wgsl/sa_gpu.wgsl:189-231 | new ranks number the groups of equal prefixes in order |
| DoublingKernel.GroupsRank | internal/gpu/wgsl/sa_gpu.wgsl:189-190 | numbering the groups ranks the suffixes, equal ranks exactly for equal prefixes |
| DoublingKernel.AllDistinct | internal/gpu/wgsl/sa_gpu.wgsl:232-236 | as many groups as suffixes means no two share the prefix, so the loop may stop |
| DoublingKernel.Round | internal/gpu/wgsl/sa_gpu.wgsl:171-247 | a round doubles the characters that order and ranks account for |
| DoublingKernel.SaBatchMain | internal/gpu/wgsl/sa_gpu.wgsl:142-248 | for every text and interleaving sa ends as the suffix array, within ceil(log2 n) rounds |
| DoublingKernel.CeilLog2 | cmd/tiedepth/main.go:181-187 | the least exponent whose power of two reaches n |
| Kasai.LcpIsMaximal | cmd/tiedepth/main.go:122-122 | the common prefix length is the longest stretch that agrees |
| Kasai.CarriesOver | cmd/tiedepth/main.go:138-140 | dropping the first character loses at most one from the length |
| Kasai.KasaiLcp | cmd/tiedepth/main.go:123-146 | every entry is the exact common prefix length of neighbours, and at most n character comparisons succeed |
| Kasai.ExtendMatch | cmd/tiedepth/main.go:133-135 | the inner loop finds the whole common prefix |
| TieGroups.SharePrefix | cmd/tiedepth/main.go:167-179 | true exactly if both suffixes have k characters and the same ones |
| TieGroups.RunReaches | cmd/tiedepth/main.go:149-163 | a run of tied neighbours reaches back exactly as far as the prefix is shared |
| TieGroups.MaxGroupSize | cmd/tiedepth/main.go:149-163 | the size of the largest set of suffixes that share their first k characters |
| WolfOps.CodeRunsStatement | internal/astrobwt/wolftable.go:37-71 | a packed code unpacks to its operation and does what the statement does |
| WolfOps.RotationMovesBits | internal/astrobwt/wolftable.go:43-46 | a left rotation by r moves every bit r places up, around the byte |
| WolfOps.ReverseMovesBits | internal/astrobwt/wolftable.go:59-60 | reversal exchanges bit i and bit 7 - i |
| WolfOps.PopCountCounts | internal/astrobwt/wolftable.go:57-58 | the count is that of the one bits |
| WolfOps.ShiftsScale | internal/astrobwt/wolftable.go:47-50 | the shifts multiply and divide by two to the power of the low two bits |
| WolfOps.LogicAdds | internal/astrobwt/wolftable.go:51-54 | exclusive or and conjunction, by the sums they leave |
| WolfOps.ArithmeticUndone | internal/astrobwt/wolftable.go:55-68 | complement, doubling and the last operation, by what undoes them |
| WolfOps.SquareSteps | internal/astrobwt/wolftable.go:65-66 | squares, by their differences |
| WolfOps.RotlWide | internal/gpu/wgsl/fronthalf.wgsl:238-238 | the masked word rotation is the byte rotation for every count |
| WolfOps.ReverseWide | internal/gpu/wgsl/fronthalf.wgsl:239-239 | reversing the word and shifting is reversing the byte |
| WolfOps.PopCountWide | internal/gpu/wgsl/fronthalf.wgsl:257-257 | counting the word's bits counts the byte's |
| WolfOps.WideRunsCode | internal/gpu/wgsl/fronthalf.wgsl:242-267 | every operation on masked words computes the byte operation |
| WolfLoop.High | internal/astrobwt/pow.go:89-95 | a round works up to the larger of two positions if it is at most 32 away, otherwise less than 32 far and congruent modulo 32 |
| WolfLoop.RangeEnds | internal/astrobwt/pow.go:89-95 | the range in one formula over the two bytes |
| WolfLoop.BodyInOrder | internal/astrobwt/pow.go:101-112 | a body runs its statements from the first to the last |
| WolfLoop.WorkDone | internal/astrobwt/pow.go:101-112 | outside case 0 exactly the bytes of the range run the body, with the entry at pos2 as it was; in case 253 the hashes follow byte by byte |
| WolfLoop.SwapWorkStays | internal/astrobwt/pow.go:101-112 | case 0 leaves everything outside its ends and hashes alone, and runs the body once on each byte between them |
| WolfLoop.SwapWorkSwaps | internal/astrobwt/pow.go:111-111 | after every byte of case 0 the ends have changed places, each reversed |
| WolfLoop.EncryptsEntries | internal/astrobwt/pow.go:2426-2427 | the cipher meets every entry with its own key byte, and twice restores the table |
| WolfLoop.ThresholdBands | internal/astrobwt/pow.go:2411-2427 | the wrapped difference of the ends decides by bands how many hashes run, which and in what order, and whether the cipher does |
| WolfLoop.LastFolds | internal/astrobwt/pow.go:2439-2439 | only the last entry changes, by the exclusive or of the ends |
| WolfLoop.PlainRound | internal/astrobwt/pow.go:76-2446 | a round of an ordinary case, as one statement about its bytes |
| WolfLoop.RekeyCases | internal/astrobwt/pow.go:2394-2396 | cases 254 and 255, and no others, key the cipher with the table as it stands |
| WolfLoop.StartMeaning | internal/astrobwt/pow.go:48-64 | both hashes start as that of the table, which decrypts to the key stream of the input's digest |
| WolfLoop.StopMeaning | internal/astrobwt/pow.go:2443-2445 | in rounds 261 to 276 the loop stops exactly if the upper half of the last entry is all ones |
| WolfLoop.StreamChunks | internal/astrobwt/pow.go:2441-2441 | chunk m of the stream is the table after round m |
| WolfLoop.DataLenMeaning | internal/astrobwt/pow.go:2455-2456 | what is added to the length: entry 254 and, above it, the low two bits of entry 253 |
| WolfLoop.StopsOnce | internal/astrobwt/pow.go:2443-2445 | the loop stops in exactly one round, from the 261st to the 277th |
| WolfLoop.DataLenBounds | internal/astrobwt/pow.go:2455-2456 | the length is 65792 to 70911 and never beyond what this run has written |
| WolfStreams.RunStatements | internal/astrobwt/pow.go:113-121 | statements that re-read both entries from the table have the body's effect on one entry |
| WolfStreams.WolfApplyByte | internal/astrobwt/wolftable.go:37-71 | the packed codes have the body's effect |
| WolfStreams.SwapEnds | internal/astrobwt/pow.go:111-111 | the ends are exchanged, each reversed |
| WolfStreams.SwitchCase | internal/astrobwt/pow.go:101-112 | one case's loop, with what cases 0 and 253 do besides |
| WolfStreams.TableCase | internal/astrobwt/wolftable.go:106-115 | the table-driven loop does the same |
| WolfStreams.RunThresholds | internal/astrobwt/pow.go:2411-2427 | the threshold hashes and the cipher, in their order |
| WolfStreams.ByteRange | internal/astrobwt/pow.go:82-96 | the case and the range from the switch word, in byte arithmetic |
| WolfStreams.MarkRound | internal/astrobwt/pow.go:2426-2437 | the bookkeeping of a round: templates start at chunk 0 and wherever the cipher ran |
| WolfStreams.Prologue | internal/astrobwt/pow.go:48-64 | the state before the first round |
| WolfStreams.NextRound | internal/astrobwt/pow.go:2439-2446 | one round more extends the stream by the table and stops exactly when the condition first holds |
| WolfStreams.SwitchStream | internal/astrobwt/pow.go:2411-2456 | the switch form writes the specified stream and length, and a marker for every template: chunks from where the cipher ran to the next such round, the first counting one too many unless round 1 was one |
| WolfStreams.WolfStreamInto | internal/astrobwt/wolftable.go:75-142 | a short buffer is refused; otherwise, for every input, the same stream and length as the switch form |
| WolfKernel.WolfOpTable | internal/astrobwt/wolftable.go:155-165 | five words a case hold the count and the codes |
| WolfKernel.FhWolfApply | internal/gpu/wgsl/fronthalf.wgsl:242-267 | the codes looked up in the uploaded table have the body's effect on a masked word |
| WolfKernel.FhCase | internal/gpu/wgsl/fronthalf.wgsl:295-305 | the byte loop on words |
| WolfKernel.FhThresholds | internal/gpu/wgsl/fronthalf.wgsl:307-311 | with the difference computed once, the same hashes and cipher steps |
| WolfKernel.FhRange | internal/gpu/wgsl/fronthalf.wgsl:284-292 | the same range from the low half of the switch word, in 32-bit arithmetic |
| WolfKernel.PackChunk | internal/gpu/wgsl/fronthalf.wgsl:314-322 | four bytes a word, read back as the chunk |
| WolfKernel.WordOfBytes | internal/gpu/wgsl/fronthalf.wgsl:314-322 | the bytes a reader sees, each at its place, are the word |
| WolfKernel.FhPrologue | internal/gpu/wgsl/fronthalf.wgsl:276-281 | the same state before the first round, on words |
| WolfKernel.FrontHalf | internal/gpu/wgsl/fronthalf.wgsl:269-327 | for every input the packed output unpacks to the very stream of the CPU forms, with their length |
| GpuHash.ReadsWhatWasWritten | internal/gpu/wgsl/fronthalf.wgsl:314-322 | packed words read as the kernels read text (internal/gpu/wgsl/sa_gpu.wgsl:44-47, sa_refine.wgsl:59-61) give the bytes the front half wrote |
| GpuHash.GpuSuffixArray | internal/gpu/wgsl/fronthalf.wgsl:269-327 | sa_batch_main on the front half's words gives, for every input, the suffix array of the text the CPU sorts; the code itself runs sa_refine_main there |
| GpuHash.Upload | internal/gpu/sa_session.go:157-180 | the kernel reads back the uploaded bytes, whatever was in the row and whatever the length modulo four; other rows stay |
| GpuHash.Dispatch | internal/gpu/sa_session.go:190-203 | one workgroup a row, in any order: the suffix array of every uploaded text |
| GpuHash.DecodeSA | internal/gpu/sa_session.go:247-260 | rows read back to back are told apart by their lengths |
| GpuHash.FinalHash | internal/gpu/pipeline.go:315-324 | the digest of bytes that spell the array |
| GpuHash.SuffixArrayBatch | internal/gpu/sa_batch.go:21-67 | refused exactly for the binding limit, a text too long for its row, or a device error; otherwise every text's suffix array |
| GpuHash.HashBatch | internal/gpu/pipeline.go:26-46 | the portable GPU path returns for every input the hash the CPU computes alone |
| Genwolf.PackSplits | cmd/genwolf/main.go:193-193 | the packed code keeps the parameter's low byte; what does not fit, and a sign, reaches the operation |
| Genwolf.OperatorMeaning | cmd/genwolf/main.go:115-168 | what the source statements' byte operators mean, by what undoes or repeats them |
| Genwolf.ClassifyCase | cmd/genwolf/main.go:86-111 | succeeds exactly if every statement of the loops is recognized, with the codes in order, negative ones dropped, and the tag |
| Genwolf.TagIsLast | cmd/genwolf/main.go:86-111 | the tag is that of the last statement that has one |
| Genwolf.Recognizes | cmd/genwolf/main.go:140-159 | the source form of every operation without a count is compiled to its code, rightly |
| Genwolf.RecognizesCompound | cmd/genwolf/main.go:132-136 | x += x and x *= x are compiled to their codes, rightly |
| Genwolf.RecognizesSubtraction | cmd/genwolf/main.go:137-138 | x -= (x ^ 97) is compiled to its code, rightly |
| Genwolf.RecognizesRotations | cmd/genwolf/main.go:160-193 | both rotations are compiled with the decimal count below 256 as parameter |
| Genwolf.GivesUpExactly | cmd/genwolf/main.go:140-167 | the compiler gives up exactly on an assignment by a token it does not look at whose right-hand side is none of these forms |
| Genwolf.ClassifyExact | cmd/genwolf/main.go:115-193 | a statement of the byte loop is compiled to what it does, for all bytes, if and only if its token, its right-hand side and the spelling of its count meet the stated condition, or, where it is skipped, it leaves the entry alone |
| Genwolf.CanonicalCounts | cmd/genwolf/main.go:160-193 | a rotation by a count without sign or leading zero is compiled right exactly if the count is below 512, or a whole turn from 14 * 256 to 65535 |
| Genwolf.CompilerExact | cmd/genwolf/main.go:86-168 | over a set of statements every body keeps its meaning if and only if every statement of the set is accurate |
| Genwolf.TableOfBody | cmd/genwolf/main.go:249-266 | the codes of such a body are the table of a case over the thirteen operations with the source's meaning, unless a count made one of them idle |
| Genwolf.CompilerPreservesMeaning | cmd/genwolf/main.go:86-168 | a body of accurate statements has codes that do to every byte what the source does |
| Genwolf.TokenAloneIsNotEnough | cmd/genwolf/main.go:132-139 | x += p is compiled as x += x |
| Genwolf.OtherTokensAreIgnored | cmd/genwolf/main.go:140-168 | x ^= x ^ p is compiled as x = x ^ p |
| Genwolf.OctalIsMisread | cmd/genwolf/main.go:170-179 | a rotation by 010, which is eight, is compiled as one by ten |
| Genwolf.NegativeCountIsDropped | cmd/genwolf/main.go:98-100 | a rotation by -1 is dropped |
| Genwolf.WideCountIsAnotherOperation | cmd/genwolf/main.go:193-193 | a rotation by 512 is compiled as a shift |
| Genwolf.BumpsDropped | cmd/genwolf/main.go:116-119 | an increment or decrement is dropped |
| Genwolf.NestedIsDropped | cmd/genwolf/main.go:116-119 | an assignment in a nested block is dropped |
| Genwolf.RespelledIsDropped | cmd/genwolf/main.go:125-130 | an assignment to the entry in another spelling is dropped |
| Genwolf.WrongsCancel | cmd/genwolf/main.go:115-119 | two statements that are compiled wrongly can make a body that is right |
| Sha256Pair.BlocksNI | internal/astrobwt/sha256mb.go:28-28 | folds the given number of blocks |
| Sha256Pair.Blocks2NI | internal/astrobwt/sha256mb.go:31-31 | two interleaved streams are two independent folds |
| Sha256Pair.FoldConcat | internal/astrobwt/sha256mb.go:52-71 | hashing may be interrupted between blocks |
| Sha256Pair.FoldOne | internal/astrobwt/sha256mb.go:28-28 | hashing one block is one computation |
| Sha256Pair.FillTail | internal/astrobwt/sha256mb.go:35-43 | the message's whole blocks and the tail are the padded message of section 5.1.1 of FIPS 180-4 |
| Sha256Pair.PadMeaning | internal/astrobwt/sha256mb.go:35-43 | the padded message: the message, a one bit, the fewest zeros, and its length in bits in the last eight bytes, the highest first |
| Sha256Pair.InitialValue | internal/astrobwt/sha256mb.go:20-23 | the initial words are those of section 5.3.3 of FIPS 180-4, from the square roots of the first eight primes |
| Sha256Pair.WordsSpell | internal/astrobwt/sha256mb.go:35-48 | four bytes a word, the highest first |
| Sha256Pair.FinishNI | internal/astrobwt/sha256mb.go:35-48 | finishes the hash of the padded message; its 32 bytes spell the eight words, the highest byte first |
| Sha256Pair.Sum256Pair | internal/astrobwt/sha256mb.go:52-71 | for every pair of lengths, the two hashes computed separately, each spelled in 32 bytes |
| Difficulty.ComputeTarget | internal/miner/difficulty.go:13-28 | the target bytes of a difficulty |
| Difficulty.MeetsTarget | internal/miner/difficulty.go:32-44 | the early-exit byte comparison decides the comparison of the integers |
| Difficulty.MeetsTargetArithmetic | internal/miner/difficulty.go:13-44 | for every difficulty from 1 a hash passes exactly if hash * difficulty <= 2^256 |
| Difficulty.HarderIsStricter | internal/miner/difficulty.go:13-44 | a harder job accepts nothing an easier one rejects |
| Difficulty.TargetInjective | internal/miner/difficulty.go:13-28 | different 64-bit difficulties have different targets |
| Difficulty.ZeroDifficulty | internal/miner/difficulty.go:14-16 | at difficulty zero exactly the all-zero hash passes |
| MinerState.Validate | internal/miner/state.go:66-80 | only 48-byte blobs of version 1 with a difficulty above zero are accepted |
| MinerState.SpellsDecodes | internal/miner/state.go:69-73 | decoding succeeds exactly on strings of hex digits of either case, with the bytes they spell |
| MinerState.ValidateExact | internal/miner/state.go:66-80 | a job whose blob spells 48 bytes is accepted with them exactly if the version nibble is 1 and the difficulty is not zero; which error it gets otherwise |
| MinerState.BadBlobExact | internal/miner/state.go:66-73 | the blob is at fault exactly if it spells no 48 bytes |
| MinerState.AcceptedShows | internal/miner/state.go:82-98 | an accepted job shows in every mirrored counter, its bytes and job id are installed, target and epoch move exactly if these were others |
| MinerState.RunSound | internal/miner/state.go:61-99 | over every sequence of pushes, before work the state is as zeroed, afterwards the blob has version 1 |
| MinerState.EpochLive | internal/miner/state.go:93-98 | the epoch is above zero exactly if some job was accepted |
| MinerState.EpochMonotone | internal/miner/state.go:93-98 | epochs never decrease, and an unchanged epoch means unchanged work |
| MinerState.EpochStays | internal/miner/state.go:91-98 | over every sequence of pushes the epoch stays exactly if none of them changes the work |
| MinerState.WorkFromOneJob | internal/miner/state.go:82-98 | blob, job id and target come from one job, the mirrored counters from the last accepted one |
| MinerState.TargetFollowsDifficulty | internal/miner/state.go:84-96 | target and displayed difficulty agree exactly if the last accepted job has the difficulty of the job that installed the work |
| MinerState.MirrorDrifts | internal/miner/state.go:84-95 | a repeated job with another difficulty makes them differ |
| MinerState.State.SetJob | internal/miner/state.go:61-99 | a refused job changes nothing; every well-formed one is installed with the bytes it spells, shows in every counter, and moves target and epoch exactly if the work changed |
| MinerState.State.CurrentJob | internal/miner/state.go:102-106 | blob, job id, target and epoch of one moment |
| Gate.HexRoundTrip | cmd/go-gpu-miner/main.go:498-498 | the daemon decodes the blob that was hashed |
| Gate.EncodeSpells | cmd/go-gpu-miner/main.go:498-498 | the share spells the blob in lower-case digits |
| Gate.Classify | cmd/go-gpu-miner/main.go:414-422 | submits exactly fresh candidates the CPU reproduces; staleness is decided first |
| Gate.EarnedAtGate | cmd/go-gpu-miner/main.go:477-487 | what passes the gate re-hashes to a value meeting the target installed with its job id, at an epoch that was live when the gate loaded it, and agrees with the installed blob in its first 36 bytes |
| Gate.FreshWhenSent | cmd/go-gpu-miner/main.go:477-517 | every queued share was fresh when it was queued exactly if no job pushed between the gate's load and the send changed the work |
| Gate.MineEnv.Others | cmd/go-gpu-miner/main.go:305-322 | for every sequence of job pushes, mailbox reads and link changes: the job state is that of the pushes, every queued share stays earned, and the mailbox gets no fuller |
| Gate.MineEnv.SubmitShare | cmd/go-gpu-miner/main.go:497-529 | with the others interleaved before every step: exactly one of queued, counted stale (only after a job change or with the link down), or given up because the miner stops; queued if there is room, with the pushes up to the send on record |
| Gate.MineEnv.SubmitCandidate | cmd/go-gpu-miner/main.go:479-517 | whatever happens during the CPU hash and the wait, a queued candidate is fresh at the send exactly if no pushed job changed the work since the gate |
| Gate.MineEnv.StaleShare | cmd/go-gpu-miner/main.go:479-505 | any changing job pushed during the CPU hash makes a share with room in the mailbox be queued under an epoch that is no longer live |
| Gate.MineEnv.DecideCandidate | cmd/go-gpu-miner/main.go:477-487 | one candidate feeds exactly one counter, miscompute exactly if it is fresh and the CPU disagrees; a fresh one the CPU reproduces is queued if there is room; a stale one costs no CPU hash |
| Gate.MineEnv.ProcessBatch | cmd/go-gpu-miner/main.go:465-489 | at most one decision a candidate, exactly one if the job stays; only this batch's blobs are queued; right digests never count as miscomputed and, with room and the job unchanged, are all queued |
| SpirvDevice.RunKeeps | internal/gpu/spirv_stream.go:357-400 | a group's commands leave the other staging buffer alone |
| SpirvDevice.UploadUnread | internal/gpu/spirv_stream.go:265-276 | rewriting an upload buffer no queued command reads changes no result |
| SpirvDevice.GroupIsGood | internal/gpu/spirv_stream.go:311-409 | whatever the shared buffers held, a group executed in order leaves the right digests outside flagged slabs |
| SpirvStream.WriteRows | internal/gpu/spirv_stream.go:269-276 | every row carries its input's stream over what earlier groups left, in any order of workers |
| SpirvStream.FlaggedRows | internal/gpu/spirv_stream.go:431-440 | exactly the batch's rows in flagged slabs |
| SpirvStream.Slot.HashOnCpu | internal/gpu/spirv_stream.go:446-449 | the fallback rows, and no others, are replaced by CPU hashes |
| SpirvStream.Slot.Prepare | internal/gpu/spirv_stream.go:249-287 | the upload buffer is rewritten only while no queued command reads it |
| SpirvStream.Slot.SubmitGroup | internal/gpu/spirv_stream.go:357-409 | a complete group will leave good digests; a broken one leaves the other batch alone |
| SpirvStream.Slot.Collect | internal/gpu/spirv_stream.go:411-452 | success returns the CPU hash of every input of the group; after any failure nothing can be waited for |
| SpirvStream.SpirvFastStreamer.Submit | internal/gpu/spirv_stream.go:454-473 | returns the previous batch's hashes; it fails only for a batch of a wrong size, a failed device call or a failure before; the batch in flight is kept, and after commands were queued a failure is final |
| SpirvStream.SpirvFastStreamer.Drain | internal/gpu/spirv_stream.go:475-484 | returns the hashes of the batch in flight |
| FusedStream.EventuallySnoc | internal/gpu/fused.go:514-596 | a queued computation decides its own session's result and no other's |
| FusedStream.Gpu.Enqueue | internal/gpu/fused.go:587-595 | no computation is queued that writes a buffer the host holds mapped |
| FusedStream.FusedSession.SubmitCompute | internal/gpu/fused.go:514-596 | earlier views end; the session will hold the results of these inputs |
| FusedStream.FusedSession.Collect | internal/gpu/fused.go:604-700 | success gives a live view of the session's last results; an error leaves it unmapped and usable |
| FusedStream.FusedSession.FinalHashBatch | internal/gpu/pipeline.go:107-113 | digest i is the hash of row i of a view that is still alive, whatever order the workers take |
| FusedStream.DeviceDigests | internal/gpu/pipeline.go:107-113 | the digests of a batch are those of one computation on its inputs, each of its own row |
| FusedStream.FusedStreamer.Submit | internal/gpu/pipeline.go:268-289 | every accepted batch's digests come back at most once and in order, whatever fails; a failed call loses nothing, and without a failed device call or an oversized batch there is none |
| FusedStream.FusedStreamer.Drain | internal/gpu/pipeline.go:293-306 | the last accepted batch's digests |
| FusedStream.HashBatchNative | internal/gpu/pipeline.go:120-155 | every batch's CPU hashes in the batch's own place; an empty or oversized batch, or a batch in flight, is refused before anything is submitted |
| FusedStream.HashBatchSessions | internal/gpu/pipeline.go:124-189 | on the two sessions, every batch's digests of one computation on its inputs, in the batch's own place; fails only for an empty or oversized batch or a failed device call |
| MineLoop.FillBatch | cmd/go-gpu-miner/main.go:453-460 | blobs that agree with the template in their first 36 bytes and carry successive nonces modulo 2^32 in bytes 43 to 46 |
| MineLoop.BlobsDistinct | cmd/go-gpu-miner/main.go:453-460 | no two of fewer than 2^32 successive blobs are equal |
| MineLoop.NumberedDistinct | cmd/go-gpu-miner/main.go:453-460 | over all accepted batches of a run no blob occurs twice while fewer than 2^32 were filled |
| MineLoop.AccountedMore | cmd/go-gpu-miner/main.go:465-489 | judging one more batch counts its hashes, decides its candidates at most once, and queues only its blobs |
| MineLoop.Judge | cmd/go-gpu-miner/main.go:596-598 | a batch is judged with its own digests and job, and that shows in the counters and the log |
| MineLoop.Round | cmd/go-gpu-miner/main.go:577-600 | one iteration keeps the pairing, fills only the buffer that is not in flight, and accepts its batch unless there is no job or a device call failed |
| MineLoop.MineLoopStream | cmd/go-gpu-miner/main.go:570-608 | on every run each returned batch is judged once, in order, with the digests, job id, target and epoch that belong to its blobs, and the counters and queued shares are those of the judged batches; while the job stays every candidate is decided once; no blob is hashed twice within 2^32; without failed device calls the loop does not abort and every accepted batch has been judged |

## Left out

- Recurse: the three slices of one array that recurse_32 makes (destination, middle, reduced text) are arrays of their
  own here, copied back afterwards; that they do not overlap is the bound twice-the-LMS-count below the length.
- Sort: the byte and int32 copies of the algorithm are one method with a flag for the byte-only packing of codes.
- SaBatchMain: the slab offsets of the shared storage arrays are not modelled, each hash has arrays of its own; texts
  of 2^24 - 2 positions and more, whose ranks need a fourth byte, are excluded.
- SwitchStream: the 256 case bodies themselves are not transcribed; the proof is for any bodies over the thirteen
  operations.
- Prologue: SHA-256, Salsa20, RC4 and FNV are arbitrary functions.
- RunThresholds: the 64-bit hashes, their addition, the switch word and the stream cipher are arbitrary functions.
- ClassifyExact: printed expressions are compared as trees whose literals keep their spelling, not as strings; division,
  whose zero divisor panics, is not among the operators, names other than the two table entries do not occur, no statement
  but the swap writes the entry at pos2, and none leaves the loop. Every loop of a case is taken for the byte loop, as
  the compiler takes it; what a case does outside it, and the emitted file text, are not modelled.
- Collect: buffers are values with the sizes the code gives them, and mappings are tickets in the queue; timeouts and
  polling are an arbitrary failure.
- SubmitCompute: inputs reach the device as values; the byte-per-word layout of the input buffer is not modelled, and
  the device's results are arbitrary, since the gate does not rely on them.
- SetJob: a push is one step, although the mirrored counters are stored before the lock is taken; the epoch does not
  wrap at 2^64.
- SubmitShare: waiting is an arbitrary finite number of ticks before the miner stops.
- MineLoopStream: a run is any finite number of rounds.
- Bit operations on packed records, keys, template markers, the range of a round and the stream length are written as
  integer arithmetic, with the wrap-around of their width; the other byte operations of the front end are bit vectors.
- Capacities of Go slices and the pooling of buffers.
- The unpipelined mineLoop, the re-probe of the device after a miscompute, the one-shot fused path, self tests and
  benchmarks.
- GpuSuffixArray: sa_refine_main, which the code runs behind the front half, is not part of this model, and
  sa_batch_main stands in its place.
- SuffixArrayBatch: a device error is a flag, and which call reports it is left open; buffers of a session are fresh
  arrays but for the text rows.
- Refinement kernels and SPIR-V sorters: not part of this model, replaced by an assumption about unflagged slabs.
- The 64-bit copies of induced sorting, the reference proof-of-work package and the big-endian output branch.
- Device setup, websocket client, configuration and console output.
