# Two-party multi-point function secret sharing with cuckoo hashing

This project models the deterministic core of the MPFSS protocol and proves what
it computes. Two parties end up with one vector each over the domain `[0, size)`;
the vectors combine, by XOR, to a function that is zero except at a set of secret
indices. The protocol gets there with one distributed point function per bucket of
a cuckoo hash table instead of one full-size function per index, and the main
result is that both ways compute the same function (`Mpfss.RunBoth`).

How the pieces fit together, bottom up:

* `Blocks`, `TreeShape`, `DpfTree`, `DpfRuns`: sixteen-byte blocks under XOR, the
  shape of a truncated binary tree, and the relational invariant of two parties who
  expand the same tree: equal blocks and bits off the path, opposite bits on it, and
  equal everywhere once the path has left a truncated tree. It is proved for every
  level of every run, for the CPRG variant (corrections from accumulators over whole
  levels) and for the online variant (corrections from a walk down one path).
* `LevelExpansion`, `FssCprg`, `FssOnline`: the array code of both variants (loops
  unrolled by four parents, tails, ping-pong buffers, slots, walk), refined to those
  functions. A parallel loop picks its next iteration arbitrarily.
* `Pipeline`: traverser, pusher and any number of expander threads as a state machine
  over all interleavings.
* `DpfWithBeta`: a point function with a chosen value, with the repair for unused
  buckets.
* `Cuckoo`, `RandVector`, `Buckets`: random-walk insertion under an arbitrary choice
  sequence, which sets of keys some choice sequence can store, the choice of hash
  functions, the bucket index, and the assignment.
* `Sorting`, `Counting`, `BetaRouting`: routing of the k-th value share to the bucket
  that holds the k-th smallest index.
* `Assembly`, `Parallelize`, `Mpfss`, `Packing`, `Results`: scatter and XOR, the split
  over threads, the two protocols end to end, and the conversion to the caller's
  integer type.
* `UInt128`: 128-bit multiplication from 64-bit words.

Modelling conventions. The pseudo-random generator is an arbitrary pair of functions
on blocks, one per key; hash functions, the results of `rand()`, seeds and random
bytes are arbitrary parameters, and every theorem holds for all of them. Values that
both parties learn are computed once and given to both; a shared input is the XOR of
both parties' bytes. `blockmultiple` is 1, as in every call (`block_no`). Sizes and
indices are C ints that nothing in the core overflows, so they are unbounded here;
wrap-around is explicit where it matters (`UInt128`, `Packing`, `SIZE_MAX`).

Preconditions the code relies on and the model states: a domain of a point function
(a bucket, or the whole domain in the naive protocol) has at least two positions,
because the expansion of the root always writes two blocks; indices are distinct and
inside the domain; `max_loop` is at least 1, since the test for equality with it is
never met otherwise; hash values are not `INT_MIN`, whose absolute value overflows;
both parties use the same hash functions. The index -1 of an unused bucket becomes
the all-ones `size_t`; a flip that stale variables of the second party cause lands
inside the vector, since any other position would be written outside the array.

Where the code differs from its comments or from what one would expect, the model
follows the code:

* `create_rand_vector` never clears its flag after a repeated draw, so one repetition
  makes it fall back to `0, 1, ..`; `RandVector.CreateRandVector` states exactly when.
* The second field of a table cell is a leftover counter and not the hash function
  that was used, and `place` returns a count or -1 where its comment promises a
  boolean.
* With several threads the batch protocol runs the online variant whatever `cprg` is
  (`code_master/mpfss_cuckoo/mpfss_cuckoo.oc:147`).
* `prepare_results` shifts bytes into an uninitialised variable. That is harmless
  exactly for types of at most sixteen bytes (`Packing.UnpackForgetsInit`,
  `Packing.WideUnpackKeepsInit`).
* For a dummy index the CPRG variant sets the bit of the last leaf when the size is a
  power of two, and the first party repairs it. The second party runs the same test
  on variables it never received: the count and the position are revealed to the first
  party only (`includes/mpfss_naive/mpfss_naive.oc:162-168`), and the batch protocol
  declares the second party's index without a value
  (`code_master/mpfss_cuckoo/mpfss_cuckoo.oc:153`,
  `code_master/mpfss_cuckoo/parallel_dpf.oc:31`). The model passes what these variables
  hold as arbitrary `Stale` values. One run is right if and only if they do not pass the
  test (`DpfWithBeta.DpfWithBeta`); the batch protocol always combines to the right
  values, and to the right bits if and only if no domain position is flipped an odd
  number of times (`Mpfss.MpfssBatchCuckoo`). The new pipeline and the naive protocol
  are free of it, because there the second party's index is zero
  (`code_master/mpfss_new_cuckoo/mpfss_new_cuckoo.oc:39`,
  `includes/mpfss_naive/mpfss_naive.c:64-68`).

## Model

| member | source | states |
|---|---|---|
| DpfTree.StepKeepsPath | includes/fss-altered/fss_cprg_altered.c:122-191 | For any correction that silences the branch the path leaves, one corrected level keeps the two parties equal off the path with opposite bits on it, on full and truncated trees |
| DpfTree.CorrectedLevel | includes/fss-altered/fss_cprg_altered.c:122-142 | What one party's level is: nothing is added under a parent with a clear bit, and Z and the side's advice bit under a parent with a set one |
| DpfTree.AccumulatorsSeePath | includes/fss-altered/fss_cprg_altered.c:151-197 | The XOR of both parties' left (right) accumulators is the path node's left (right) child difference, and zero when the truncated tree lacks that child |
| DpfTree.AccumulatorsAppend | includes/fss-altered/fss_cprg_altered.c:151-156 | The accumulators are plain sums: a block more is added to the sum of its side and to the sum of all, starting from zero |
| DpfTree.AccCorrectionFits | includes/fss-altered/fss_cprg_altered.oc:37-58 | Z and the advice bits derived from the accumulators silence the branch the path leaves |
| DpfTree.LeafDifference | includes/fss-altered/fss_cprg_altered.c:222-280 | The final accumulators differ by the block difference of the leaf on the path, zero without one |
| DpfRuns.CprgPath | includes/fss-altered/fss_cprg_altered.oc:25-75 | Every level of every CPRG run: parties agree everywhere except at the walk position, where the control bits are opposite |
| DpfRuns.CprgResult | includes/fss-altered/fss_cprg_altered.oc:25-75 | At the leaves the bits combine to the unit vector at the index modulo 2^endlevel, blocks agree elsewhere, and the revealed delta is the leaf difference; all zero if the leaf does not exist |
| DpfRuns.WalkStepCases | includes/fss-altered/fss_altered.oc:74-133 | One step of the walk party by party: the child on the path's side, with the other side's difference and an advice bit added exactly if the party's control bit is set |
| DpfRuns.WalkStepTracks | includes/fss-altered/fss_altered.oc:73-134 | One step of the online walk keeps standing on both parties' corrected nodes while its published correction keeps their trees on the path |
| DpfRuns.WalkRefines | includes/fss-altered/fss_altered.oc:62-143 | At every level the active blocks and control bits equal both parties' expanded nodes at the path position |
| DpfRuns.WalkResult | includes/fss-altered/fss_altered.oc:149-202 | The two full expansions agree off the index with opposite bits on it, and the XOR of the active blocks is the XOR of the two leaves |
| TreeShape.EndLevelBounds | includes/fss-altered/fss_cprg_altered.c:378-378 | endlevel is the smallest depth whose full tree has room for size leaves |
| TreeShape.CeilShiftIsCeilDivision | includes/fss-altered/fss_cprg_altered.c:94-95 | The shifted division the code uses for a level's width equals repeated halving with rounding up |
| TreeShape.ShiftIsDivision | includes/fss-altered/fss_cprg_altered.oc:37-37 | Shifting the index right bit by bit is division by a power of two |
| TreeShape.WidthRoot | includes/fss-altered/fss_cprg_altered.c:43-45 | A tree of at least two leaves has one root with two children |
| TreeShape.WalkEndsAtLowBits | includes/fss-altered/fss_cprg_altered.oc:37-37 | Following the bits of the index from the root ends at the index modulo 2^endlevel |
| Blocks.XorWhereInsert | includes/fss-altered/fss_cprg_altered.c:39-40 | One more element contributes exactly itself to an accumulated sum, so the order of a reduction does not matter |
| LevelExpansion.ExpandGroups | includes/fss-altered/fss_cprg_altered.c:121-158 | Whatever order the groups of four parents are processed in, each parent is corrected once, its children are written, and the accumulators hold exactly their sums |
| LevelExpansion.ExpandLevel | includes/fss-altered/fss_cprg_altered.c:121-195 | Both loops write exactly the next level's blocks and nothing beyond them, leave the sums of its left and right children, and add Z and the advice bit exactly where the parent's bit is set |
| LevelExpansion.FinishInto | includes/fss-altered/fss_cprg_altered.c:226-248 | Leaves are corrected, exactly under set parent bits, while they are copied in any order, and summed |
| LevelExpansion.FinishInPlace | includes/fss-altered/fss_cprg_altered.c:255-276 | Leaves are corrected in place, exactly under set parent bits, in any order, and summed |
| FssCprg.RootSeedsOpposite | includes/fss-altered/fss_cprg_altered.c:61-63 | The two parties' root blocks have opposite lowest bits whatever the random bytes are |
| FssCprg.RootSeedKeepsRandom | includes/fss-altered/fss_cprg_altered.c:60-63 | Only the lowest bit of the first byte is forced; every other bit of the seed is the random one |
| FssCprg.FssCprgOffline.constructor | includes/fss-altered/fss_cprg_altered.c:373-390 | Depth and buffer sizes of a party's state |
| FssCprg.FssCprgOffline.Start | includes/fss-altered/fss_cprg_altered.c:42-83 | Level 0 is the seeded root with its bit, its two children are written and accumulated |
| FssCprg.FssCprgOffline.ProcessRound | includes/fss-altered/fss_cprg_altered.c:91-200 | After swapping buffers the next level is the pure corrected level, its children are in the other buffer, and the accumulators are their left and right sums |
| FssCprg.FssCprgOffline.Finalize | includes/fss-altered/fss_cprg_altered.c:202-280 | The corrected leaves and their bits land in the caller's output arrays whatever the parity of the depth |
| FssCprg.Reveal | includes/fss-altered/fss_cprg_altered.oc:42-58 | What both parties learn per level: the difference of the branch the path leaves and an advice bit per side |
| FssCprg.TraverseLevels | includes/fss-altered/fss_cprg_altered.oc:25-75 | Both parties' array runs in lockstep end with the levels of the pure run, and the delta is the XOR of both sums of leaves |
| FssOnline.Fss.StepDown | includes/fss-altered/fss_altered.oc:74-133 | One iteration publishes the walk's correction in its slot, keeps the other slots, moves active blocks and bits one level down and counts the slot as ready |
| FssOnline.Fss.TraverseLevels | includes/fss-altered/fss_altered.oc:62-143 | Every slot ends with the correction of its level and the active blocks end as the walk's |
| FssOnline.FssOffline.PushZ | includes/fss-altered/fss_altered.c:26-31 | Exactly one slot changes and the ready counter grows by one |
| FssOnline.FssOffline.ExpandTop | includes/fss-altered/fss_altered.c:38-90 | The top blocks are expanded without a correction: their bits are their lowest bits, and the children are written side by side |
| FssOnline.FssOffline.ExpandNext | includes/fss-altered/fss_altered.c:107-178 | With a slot's correction one buffer holds the next pure level and the other its children |
| FssOnline.FssOffline.FinishLevel | includes/fss-altered/fss_altered.c:193-238 | The corrected leaves and bits land in the output arrays whichever buffer holds them |
| FssOnline.FssOffline.ReadBlockVector | includes/fss-altered/fss_altered.c:33-238 | The level loop over alternating buffers leaves in the output arrays the pure expansion driven by the slots |
| FssOnline.SetTops | includes/fss-altered/fss_altered.oc:154-175 | Both parties get the same random top blocks except where the path starts, where the bits are opposite and the walk starts on them |
| FssOnline.GetBlockVector | includes/fss-altered/fss_altered.oc:149-202 | For every index the outputs are the two expansions driven by the walk, agree off the index with opposite bits on it, and delta is the XOR of the two leaves there |
| Pipeline.StepKeepsInv | includes/fss-altered/fss_altered.oc:39-57 | Every step of traverser, pusher and expanders keeps: slots filled in order with the traverser's values, counters telling how far, no early read and no second write |
| Pipeline.EveryRunIsSafe | includes/fss-altered/fss_altered.c:97-114 | In every interleaving no slot is read before it is published or written twice, consumers stay behind producers, and each of the threads that were started has used exactly the traverser's first corrections |
| Pipeline.NextAccessIsSafe | includes/fss-altered/fss_altered.oc:39-57 | Any step that may come next in any interleaving reads cells that hold the traverser's values and writes blank cells |
| Pipeline.StepIsMonotone | includes/fss-altered/fss_altered.c:186-198 | Counters never go back and used corrections are never dropped |
| Pipeline.SomeStepMakesProgress | includes/fss-altered/fss_altered.oc:42-44 | No deadlock: an unfinished state has an enabled step that adds work |
| Pipeline.StagesWaitForCountersOnly | includes/fss-altered/fss_altered.c:97-100 | The traverser never waits, and pusher and expanders can go on as soon as their slot is counted |
| Pipeline.StepAddsWork | includes/fss-altered/fss_altered.oc:42-44 | A step either changes nothing (a poll that finds nothing new) or adds to a measure that is limited, so polling aside every run is finite |
| Pipeline.CanFinish | includes/fss-altered/fss_altered.c:186-198 | From every reachable state some interleaving completes with every expander having used all corrections |
| Pipeline.CompleteRunExists | includes/fss-altered/fss_altered.c:295-323 | For any number of threads some run from the start ends with all slots counted and all those threads having used all corrections |
| Pipeline.EveryInterleavingSharesPoint | includes/fss-altered/fss_altered.c:295-323 | Whatever the interleavings and thread counts of the two parties, finished expanders' trees agree everywhere except at the index |
| DpfWithBeta.TargetInRange | includes/mpfss_naive/mpfss_naive.oc:68-116 | An index inside the domain is the leaf both variants steer towards |
| DpfWithBeta.DummyTarget | includes/mpfss_naive/mpfss_naive.oc:145-169 | A dummy index hits an existing leaf if and only if the CPRG variant is used and the size is a power of two, and then it is the last one |
| DpfWithBeta.MaskGivesBeta | includes/mpfss_naive/mpfss_naive.oc:126-139 | Adding the mask delta XOR beta where the control bit is set turns the difference at the target into beta |
| DpfWithBeta.AddMask | includes/mpfss_naive/mpfss_naive.oc:135-139 | The mask is added exactly where the party's bit is set |
| DpfWithBeta.FindDifference | includes/mpfss_naive/mpfss_naive.oc:152-160 | The count is zero exactly when the bit vectors are equal, and otherwise the position found is the last one where they differ |
| DpfWithBeta.DpfWithBeta | includes/mpfss_naive/mpfss_naive.oc:56-178 | Each party's values are the leaves of its run, masked where its bit is set. For either variant the bits combine to the unit vector at the index (to nothing for a dummy) and the values to beta at the target and zero elsewhere, if and only if the second party's stale copies do not pass the test of the repair; if they do, the result is off by exactly the bit they flip |
| Cuckoo.HashIsAbsoluteRemainder | includes/cuckoo/cuckoo.cpp:36-74 | The hash is the absolute value of the hash function's result modulo the table length, also for negative results, and the absolute value of C's remainder |
| Cuckoo.Config.PositionIsHash | includes/cuckoo/cuckoo.cpp:94-99 | A key's position under a hash function is that absolute value modulo the size of the table |
| Cuckoo.PlaceConserves | includes/cuckoo/cuckoo.cpp:89-133 | For every choice sequence and every collection of keys, stored keys plus the key in hand are kept by evictions; giving up loses exactly one key |
| Cuckoo.PlaceGainsOneSlot | includes/cuckoo/cuckoo.cpp:105-131 | A stored key gains exactly one slot, giving up none |
| Cuckoo.PlaceKeepsHomes | includes/cuckoo/cuckoo.cpp:89-133 | Every stored key stays at one of its hash positions, used slots never become free, giving up leaves occupancy unchanged |
| Cuckoo.PlaceCountsEvictions | includes/cuckoo/cuckoo.cpp:105-131 | A non-negative result is the number of evictions and below max_loop; giving up takes exactly the allowed number of iterations |
| Cuckoo.FreeSlotIsTaken | includes/cuckoo/cuckoo.cpp:97-108 | A free slot that is drawn is taken at once, and nothing else changes |
| Cuckoo.UsedSlotAtLimit | includes/cuckoo/cuckoo.cpp:111-122 | A used slot in the last iteration loses the key in hand and changes nothing |
| Cuckoo.OneEviction | includes/cuckoo/cuckoo.cpp:123-131 | The key takes the used slot drawn for it, and the evicted key the free slot drawn for it in the next table |
| Cuckoo.InsertAllConserves | includes/cuckoo/cuckoo.cpp:242-261 | After a run the tables hold every key as often as it was attempted, minus exactly one key on failure |
| Cuckoo.InsertAllKeepsHomes | includes/cuckoo/cuckoo.cpp:242-261 | After any run every stored key sits at one of its hash positions |
| Cuckoo.InsertAllBound | includes/cuckoo/cuckoo.cpp:250-259 | The total number of evictions is at most no_keys * (max_loop - 1) |
| Cuckoo.SuccessNeedsRoom | includes/cuckoo/cuckoo.cpp:242-261 | If a run succeeds, every sub-collection of the keys has at least as many candidate slots as keys (Hall's condition) |
| Cuckoo.WithoutRoomEveryRunFails | includes/cuckoo/cuckoo.cpp:242-261 | Keys that violate Hall's condition make the run fail for every choice sequence |
| Cuckoo.DifferentSlotsSucceed | includes/cuckoo/cuckoo.cpp:242-261 | Keys that draw different slots are all stored there without an eviction, and no other slot is used |
| Cuckoo.SomeRunSucceeds | includes/cuckoo/cuckoo.cpp:242-261 | With one table some choice sequence succeeds if and only if the keys have distinct representatives among their candidate slots |
| Cuckoo.CuckooHashing.constructor | includes/cuckoo/cuckoo.cpp:165-206 | Empty tables of the given sizes with no slot used |
| Cuckoo.CuckooHashing.Place | includes/cuckoo/cuckoo.cpp:89-133 | The recursive in-place insertion ends in the state of the pure insertion and returns its count, or -1 |
| Cuckoo.CuckooHashing.Cuckoo | includes/cuckoo/cuckoo.cpp:242-261 | The loop over keys ends in the state of the pure run and returns the total, or -1 at the first failure |
| RandVector.CreateRandVector | includes/cuckoo/cuckoo.cpp:208-240 | Fewer than 100000 distinct first draws are the result; otherwise, also after a single repetition, it is 0, 1, ..; distinct in both cases |
| Buckets.GenerateBuckets | code_master/mpfss_cuckoo/buckets.cpp:43-55 | Buckets are sorted, a key occurs in a bucket once per hash function that sends it there, and the lengths add up to w * size |
| Buckets.BucketLength | code_master/mpfss_cuckoo/buckets.cpp:43-55 | The length of a bucket is the number of pairs of a key and a hash function that lead to it |
| Buckets.LowerBound | code_master/mpfss_cuckoo/buckets.cpp:101-103 | The first position whose element is not less than the value |
| Buckets.MatchesAreIndices | code_master/mpfss_cuckoo/buckets.cpp:86-107 | A successful table matches every index with as many buckets as it was given, and exactly t buckets in all |
| Buckets.StoredKeysAreIndices | code_master/mpfss_cuckoo/buckets.cpp:88-104 | The key of a used slot is one of the indices and lies in the bucket of that slot |
| Buckets.SomeAssignmentExists | code_master/mpfss_cuckoo/buckets.cpp:57-85 | An assignment is found under some choice sequence if and only if the indices can be matched with different buckets that list them |
| Buckets.CreateAssignment | code_master/mpfss_cuckoo/buckets.cpp:57-110 | Fails exactly when the insertion gives up; otherwise every match points at the first occurrence of its index in its bucket and the matches cover the indices |
| Sorting.SortInPlace | includes/secret_share_beta.oc:120-143 | An ordered permutation in place, ties in any order |
| BetaRouting.SortedPosition | includes/secret_share_beta.oc:104-138 | After sorting by index a matched bucket stands at its rank behind all unused buckets |
| BetaRouting.SortedBack | includes/secret_share_beta.oc:143-151 | After sorting by bucket number row i belongs to bucket i |
| BetaRouting.CreateBetaVals | includes/secret_share_beta.oc:35-151 | The bucket with the k-th smallest index receives the XOR of both parties' k-th shares, every unused bucket zero |
| Parallelize.ExactlyOneOwner | code_master/mpfss_cuckoo/parallel.c:34-69 | Every item belongs to exactly one used thread's range |
| Parallelize.Ranges | code_master/mpfss_cuckoo/parallel.c:34-69 | The used threads' ranges are contiguous, non-empty, cover all items and differ in size by at most one, also with more threads than items |
| Assembly.ScatterRow | code_master/mpfss_cuckoo/parallel.c:14-30 | Each position of the domain receives the XOR of the entries of the row that name it |
| Assembly.Scatter | code_master/mpfss_cuckoo/parallel.c:9-31 | The same for all rows in turn |
| Assembly.AddRowValues | code_master/mpfss_cuckoo/parallel.c:14-30 | The value added by a row is the XOR of exactly the entries that name the position |
| Assembly.AddRowBits | code_master/mpfss_cuckoo/parallel.c:14-30 | The bit is flipped by a row if and only if an odd number of set entries names the position |
| Assembly.AddPointRow | code_master/mpfss_cuckoo/parallel.c:14-30 | Scattering commutes with combining: a row that shares one point changes the combined vectors at that point's position only |
| Assembly.OneRowPoints | code_master/mpfss_cuckoo/parallel.c:9-31 | If exactly one row points at a position, the combined vectors hold a set bit and that row's value there |
| Assembly.FlipRows | code_master/mpfss_cuckoo/parallel.c:9-31 | Stray flips in the rows change the assembled bits where their number is odd, and no value |
| Mpfss.RankIsBelow | includes/secret_share_beta.oc:104-138 | Counting matched buckets with a smaller index is counting smaller indices |
| Mpfss.BelowGrows | includes/secret_share_beta.oc:104-138 | A larger index has a larger rank |
| Mpfss.CallRange | code_master/mpfss_cuckoo/parallel_dpf.oc:29-63 | Every bucket of a thread's range gets two shares of its point, up to the bit a stale copy flips and so exactly if it flips none; other buckets are untouched |
| Mpfss.CallDpfFromMatches | code_master/mpfss_cuckoo/mpfss_cuckoo.oc:123-187 | Every bucket gets its run's shares of its point, up to the bit a stale copy flips and so exactly if it flips none, on one thread or split over several in any order; with several threads the run is the online variant's |
| Mpfss.BatchAt | code_master/mpfss_cuckoo/mpfss_cuckoo.oc:289-362 | At an index the assembled vectors combine to a set bit and the value of the one bucket matched with it, elsewhere to nothing, also when a bucket lists a key twice |
| Mpfss.MpfssBatchCuckoo | code_master/mpfss_cuckoo/mpfss_cuckoo.oc:289-362 | On a successful assignment the values combine to the shares of each index's rank and the bits to the indicator of the index set, flipped where stale copies flip an odd number of times; so the function is shared if and only if there is no such position |
| Mpfss.MpfssSingleBucket | code_master/mpfss_new_cuckoo/mpfss_new_cuckoo.oc:16-84 | One bucket of the new pipeline shares that bucket's point and value, whatever the second party's stale count and position are |
| Mpfss.PositionIsRank | includes/mpfss_naive/mpfss_naive.oc:648-648 | In the sorted list of distinct indices position is rank |
| Mpfss.GetMpfssVectors | includes/mpfss_naive/mpfss_naive.oc:643-826 | The naive protocol's outputs combine to the same function, for the same ranks, whatever the stale copies are |
| Mpfss.RunBoth | code_master/mpfss_cuckoo/mpfss_cuckoo.oc:289-362 | One run of each protocol on the same indices and shares: unless the insertion gives up, the values combine to the same vector, and the bits exactly where stray flips cancel |
| Mpfss.AlikeWithoutMisfires | includes/mpfss_naive/mpfss_naive.oc:162-169 | If no stale copy passes the test, the bits of both protocols combine to the same vector everywhere |
| Mpfss.RunMpfssCuckoo | code_master/mpfss_cuckoo/mpfss_cuckoo.h:369-496 | A whole run, on generated or provided buckets, reports failure exactly when the insertion gives up; otherwise its values share the function, and its bits if and only if stray flips cancel |
| Packing.UnpackForgetsInit | code_master/mpfss_cuckoo/mpfss_cuckoo.h:147-154 | For types of at most sixteen bytes the unpacked value is the number of the block's last bytes whatever the variable held before |
| Packing.WideUnpackKeepsInit | code_master/mpfss_cuckoo/mpfss_cuckoo.h:147-154 | For every wider type and every block two initial contents give different results |
| Packing.PackUnpack | code_master/mpfss_cuckoo/mpfss_cuckoo.h:392-400 | Packing and unpacking undo each other for every value of the type |
| Packing.UnpackXor | code_master/mpfss_new_cuckoo/mpfss_new_cuckoo.h:264-275 | Unpacking commutes with XOR |
| Packing.XorNumIsXor | code_master/mpfss_new_cuckoo/mpfss_new_cuckoo.h:274-275 | The XOR of two numbers has exactly the bits that one of them has and the other has not |
| Packing.PackedBit | code_master/mpfss_cuckoo/mpfss_cuckoo.h:392-400 | Bit k of a value is bit k % 8 of the byte k / 8 before the end of its block |
| Results.PrepareResults | code_master/mpfss_cuckoo/mpfss_cuckoo.h:139-158 | Each position is unpacked from the assembled vector over whatever the variable held, and the bits are copied |
| Results.PrepareResultsNew | code_master/mpfss_new_cuckoo/mpfss_new_cuckoo.h:251-282 | Each position is the XOR of the unpacked entries that name it, and its bit the XOR of their bits |
| Results.BothPipelinesAgree | code_master/mpfss_new_cuckoo/mpfss_new_cuckoo.h:251-282 | Unpack-then-XOR and XOR-then-unpack give the same numbers for types of at most sixteen bytes |
| Results.ResultsShareFunction | code_master/mpfss_cuckoo/mpfss_cuckoo.h:139-158 | In the caller's type the outputs combine to the callers' values at each index's rank and to zero elsewhere |
| Results.RunMpfssNew | code_master/mpfss_new_cuckoo/mpfss_new_cuckoo.h:186-282 | The new pipeline from the callers' values to numbers that combine to the function and bits that combine to the indicator of the index set, with the buckets in any order |
| UInt128.SmallProduct | includes/uint128.c:28-41 | A product of 32-bit halves plus a carry fits a 64-bit word |
| UInt128.Mult64To128 | includes/uint128.c:26-45 | h * 2^64 + l is the exact product of any two 64-bit words |
| UInt128.Cell.Mult128 | includes/uint128.c:47-51 | The result is the product modulo 2^128 |
| UInt128.CarryIsTopBits | includes/uint128.c:20-24 | The bit expression for the carry is the test on the top bits of the numbers that Increment makes |
| UInt128.Cell.Increment | includes/uint128.c:20-24 | The successor modulo 2^128 |

## Left out

- Garbled circuits, share and reveal calls, network connections, protocol splitting, flushing and debug output.
- The internals of the generator, the hash library, `rand` and the sorting network; LOG2LL (taken as the floor of the binary logarithm) is not part of this model.
- Secrecy and probabilities: pseudo-randomness, the chance that cuckoo insertion fails, the choice of the number of buckets.
- `blockmultiple` above 1, domains with fewer than two positions, and start levels other than the one `dpf_with_beta` passes; with that level the unrolled loop over the top level in `fss_offline_readblockvector` never runs.
- FssOnline.FssOffline.ReadBlockVector: reads slots that are all published; that waiting threads see the same slots is proved in `Pipeline`, over values rather than arrays.
- LevelExpansion.ExpandGroups: iterations run in any order but one at a time; they touch disjoint cells, and overlapping execution inside one iteration is not modelled.
- DpfWithBeta.DpfWithBeta: hands out its arrays as sequences, and the code of both parties as one method; a stray flip outside the vector is not modelled.
- Mpfss.GetMpfssVectors: the single-threaded loop only; the threaded one accumulates without synchronisation.
- Sorting.SortInPlace: an insertion sort stands for the library sorts, whose contract is all that is used.
- Freeing and aligning memory, SIMD, timing and benchmark records.
- Binary search tree, linked list, batch-code files and the vector-OLE variant (which passes its assembly through the same scatter).
- The entries of the range arrays beyond the used threads: computed and never read.
