# Verification of the itemset miners

The repository holds several frequent-itemset miners. Their common claim is that nothing is missed,
nothing is written twice, and every support is exact. This Dafny project models the code behind that
claim and proves it: on abstract sets where the question is which sets are found, and on the arrays,
cursors and caches of the code where the question is whether the fast form computes the same thing.
`dafny verify dfyconfig.toml` checks everything.

## DCI-Closed (aux/dci-closed)

A transaction database is a sequence of item sets. `Tids(X)` are the transactions that contain X,
`Closure(X)` the items that occur in all of them; a set is closed if it is its own closure.

- `ClosedSets`, `DciWalk`, `DciExact`: one call of `Worker::Mine` on sets. `Walk` is its trace: every
  generator is rejected or produces a closed set, a recursion and a larger pre-set. `WalkExact` is
  the completeness and uniqueness theorem for every complete frame (X, PRE, POST).
- `DciPolicies`: the jobs of Simplest, One_Thread, SP_DA_2 and SP_SA_2 all produce the same output.
- `WorkStealing`: DP_DA_2 as a step system, one step per critical section (job, probe, steal, visited
  generator, return). The conservation law *reported + owed = answer* holds in every state of every
  interleaving; every run ends; at the end every closed set has been reported once.
- `StealScans`: which threads a thief probes, in which order, and that a thread gives up only after a scan
  that met every other thread with nothing to take, whatever the others do meanwhile.
- `TidWords`, `TidBits`, `TidCounts`, `TidParts`, `BitCounts`: tid lists as words, and the 32-bit form of
  their operations. Masks, AND, the comparison of the inclusion test and the population count on signed
  words are bit-vector arithmetic; `TidParts` shows that the loops over 32-bit parts do what is said of words.
- `DciWorker`: the worker in its own form. Tid lists are rows of words in
  preallocated level buffers; `Check_Inclusion` and `Intersect_and_Count` work with known leading
  words, leftover words of the previous intersection, a section equal shared by the most frequent
  items, and inherited bit counts. `Worker.Mine` is proved against `Walk`, and `Worker.Run`, `RunWhole`
  and `RunPairs` (one job per item, one job for all, one job per pair) against the set of frequent closed
  sets. All buffer indices are in range, so the stacks never overflow.
- `StaticJobs`: the cursors of SP_DA_2 and SP_SA_2; the residue classes modulo the number of threads.
- `PairTable`, `SecondScan`, `Partitions`, `ThirdScan`: the offset triangular table, the pair counts and
  closed single items of the second scan, the partitioner with its scratch row, and the loading of
  one partition into a bitmap whose width was predicted.
- `Columns`: moving the common columns of the most frequent rows to the front, and the projection of
  the dataset onto one item.
- `Pipeline`, `FourthScan`: the miner from end to end. `Pipeline.MinePartition` loads a partition, moves its
  columns, hands the words to a fresh `Worker` and unmaps the output: the frequent sets with a first item
  of the range that are closed among the items from the range on. Sets that are closed there only have a
  closure with smaller items, so in descending order they begin it; `FourthScan` sorts the records and
  removes each one that begins the next. `FourthScan.Mine` is the result for scans two to four: exactly
  the closed frequent sets, once each.

## AIM (src/aim)

- `AimMasks`: masks in a coordinate space of transactions, and rank compression.
- `AimMiner`: the node invariant. All masks of one call share one space and one kind (tid set, or
  diffset relative to the parent); the four ways of extending a path keep it with exact supports.
- `AimExpand`: expansion of absorbed items, and the binomials behind the per-length counters.
- `AimDfs`, `AimSearch`: `CDFSMiner` as a class: `FindFrequentPatterns`, `RecurseMine` with dynamic
  reordering and absorption, `RecurseBuildFI`, and the counters.
- `BitWords`, `SparseBits`: `CSparseBitArray` as a class: `And`, `AndNot`, `CountElements`, `Insert`, and
  the byte-wise `Project` with its overflow into the next word.

## LCM (aux/lcm, aux/lcm30)

- `LcmBuckets`, `LcmLinks`, `LcmShrink`: `TRSACT_shrink`, the bucket sort over linked chains in two
  halves of a reusable work space.
- `Powers`, `LcmBitmap`: bitmap occurrence delivery, for any mask, any first item and any weights.

## Bitdrill (src/bitdrill, scripts)

- `MergeSets`, `MergeItemsets`: the levelwise merge of two separately mined item partitions.
- `MergeSimple`: `scripts/merge-itemsets.py`, and the proof that both agree.

`Basics` holds what several of these share: options, sequences as sets, lists without repetition.

## Where the code differs from what one expects

- AIM takes `minSupport` as a strict bound: a set is written if its support is *larger*
  (src/aim/DFSMiner.cpp:111, 221), while the first tail and the pair matrix are filtered with
  `minSupport > support`. DCI and Bitdrill write sets whose support is at least the bound.
- SP_SA_2 tests its first items only when it moves on to the next one. With `max_item == 0` it still
  hands out the pairs of item 0 (`StaticJobs.FirstJobWithoutFirstItem`); `StaticJobs.MeantJobs` gives the
  exact condition. Likewise `Mine` tests its bound after the first generator, so the one-job policies
  mine item 0 even for `ub == 0` (`DciPolicies.AtLeastOne`). `third_scan` never passes 0, since a
  partition begins with one of its own first items.
- After a comparison that goes through the whole section equal, `Check_Inclusion` notes one word less than
  it has seen (aux/dci-closed/vertical.hh:740), so the last word is compared again with the next row
  (`DciWorker.TidStore.SeNext`). This costs one comparison and changes no answer.
- `LCM_BM_occurrence_deliver` reads the weights of patterns 1, 2 and 3 and writes the frequencies of items
  0 and 1 unconditionally. The number of bitmap items is cut to the number of frequent items
  (aux/lcm30/lcm_init.c:37), so with one frequent item it reads behind two weights and writes behind one
  frequency. All accesses are inside if and only if there are two bitmap items
  (`LcmBitmap.LastLinesInside`, `LcmBitmap.OneItem`).
- A pattern list of LCM goes wrong when a transaction of multiplicity 0 comes before the others with its
  pattern (`LcmBitmap.Delivery.ProcAll` has the exact condition, `LcmBitmap.ZeroFirst` the input).
  Multiplicities start at 1 (aux/lcm30/lcm_io.c:66) and shrinking leaves positive ones only.
- The third scan extracts sets that are closed in their partition; with more than one partition some are
  not closed in the database. `Pipeline.ClosedIff` and `FourthScan.RemovedIff` say which, and that looking
  at the next record in sorted order is enough to find them.
- The plain join of Bitdrill's merge prunes every itemset that has a single item in one part, because
  `check_supports` also asks for subsets of one part, which are never stored
  (`MergeSets.JointIffNoSingle`, `MergeItemsets.JoinCandidate`). The conditional candidates are what makes
  the merge complete (`MergeSets.CondComplete`).
- The two policies DP_DA_2 and Simplest report closed single items at the level of `Mine`; the size
  test of the output (`lung > 1`) drops them, as the second scan has written them already.

## Model

| member | source | states |
|---|---|---|
| DciWalk.Left | aux/dci-closed/vertical.hh:1137-1157 | the post list handed to the recursion is shorter than this one by at least the generators passed so far: the recursion of Mine terminates |
| DciWalk.CoveredMonotone | aux/dci-closed/vertical.hh:1034-1125 | a generator that fails (too rare, or subsumed by the pre-set) fails again with any larger closed set and any larger pre-set |
| DciWalk.SameDecision | aux/dci-closed/vertical.hh:1076-1125 | extending the pre-set by failed generators changes no duplicate test of a frequent generator, in either direction |
| DciWalk.SameVerdict | aux/dci-closed/vertical.hh:1034-1125 | extending the pre-set by failed generators lets no generator fail or succeed differently |
| DciWalk.PreIrrelevant | aux/dci-closed/vertical.hh:1010-1231 | the whole run of Mine below a frame is the same event for event, whether or not failed generators were put into the pre-set (policies and steals put them in, Mine itself does not) |
| DciWalk.WalkRejects | aux/dci-closed/vertical.hh:1034-1086 | a run rejects a generator as infrequent only if its support is below the bound, and as a duplicate only if it is not |
| DciWalk.DropVisited | aux/dci-closed/vertical.hh:1875-1887 | a run depends only on the post items from the current generator on: a copied tail of the post list does the same work |
| DciWalk.CutFrame | aux/dci-closed/vertical.hh:1818-1903 | a frame may be cut anywhere: its run is the run of the first part followed by that of the second on the rest of the post list, with all first-part generators, good or bad, in the pre-set |
| DciExact.FailedGenerator | aux/dci-closed/vertical.hh:1034-1125 | a discarded generator belongs to no closed frequent set the frame still has to find |
| DciExact.BuildsClosure | aux/dci-closed/vertical.hh:1128-1157 | the set built from a good generator is its closure in the whole database, is closed, has the same transactions, and avoids the pre-set |
| DciExact.ChildFrame | aux/dci-closed/vertical.hh:1185-1196 | the frame of the recursive call is complete again: every item outside it is infrequent with the new set or dominated by the pre-set |
| DciExact.SplitScope | aux/dci-closed/vertical.hh:1127-1231 | a good generator splits what a frame is responsible for into three disjoint parts: its closure, what the recursive call finds, and what the rest of the loop finds |
| DciExact.WalkExact | aux/dci-closed/vertical.hh:951-1247 | on any complete frame (X, PRE, POST) Mine reports exactly the frequent closed C with X < C <= X + POST, C disjoint from PRE and a generator of the frame in C, each once with its exact support |
| DciPolicies.WholeJobExact | aux/dci-closed/vertical.hh:1323-1368 | the single job of Simplest (and of DP_DA_2) reports every frequent closed set whose smallest item is below ub exactly once, nothing else; a bound of 0 counts as 1 because Mine tests it after the first generator |
| DciPolicies.SingleJobExact | aux/dci-closed/vertical.hh:1408-1463 | the job of item f reports exactly the frequent closed proper supersets of {f} with smallest item f, once each with support |
| DciPolicies.PairJobExact | aux/dci-closed/vertical.hh:1504-1570 | the job of the pair (f, s) reports exactly the frequent closed sets whose two smallest items are f and s, once each with support |
| DciPolicies.SingleRunExact | aux/dci-closed/vertical.hh:1390-1463 | One_Thread, over all its jobs, reports exactly the frequent closed sets of two or more items with smallest item below ub |
| DciPolicies.PairRunCount | aux/dci-closed/vertical.hh:1521-1559 | any list of distinct pair jobs reports exactly the frequent closed sets whose two smallest items are among the pairs, whatever the order |
| DciPolicies.PoliciesAgree | aux/dci-closed/vertical.hh:1303-1690 | Simplest, One_Thread, SP_DA_2 and SP_SA_2 all output the same multiset of (set, support) records: the frequent closed sets of at least two items with smallest item below ub, one record each; for a bound of 0 the one-job policies give what a bound of 1 gives |
| WorkStealing.StealLevel | aux/dci-closed/vertical.hh:1799-1816 | the level robbed is the lowest one with more than two generators left, the current one included, if there is one |
| WorkStealing.CutConserves | aux/dci-closed/vertical.hh:1818-1903 | cutting a frame, while its current generator is running or not, leaves what is owed unchanged as a sequence and both parts valid and nonempty; the generators behind the current one are halved, and an odd one goes to the thief |
| WorkStealing.VisitConserves | aux/dci-closed/vertical.hh:1012-1198 | visiting a generator moves exactly one event from what a thread owes to what it has reported |
| WorkStealing.ResumeConserves | aux/dci-closed/vertical.hh:1200-1231 | putting a mined generator into the pre-list and going on changes nothing of what the stack still owes |
| WorkStealing.LeaveConserves | aux/dci-closed/vertical.hh:1233-1247 | returning from an exhausted frame loses nothing |
| WorkStealing.StealConserves | aux/dci-closed/vertical.hh:1778-1923 | a steal leaves reported plus owed of victim and thief together unchanged |
| WorkStealing.StealFeeds | aux/dci-closed/vertical.hh:1821-1903 | every steal gives the thief at least one generator, leaves the victim at least one beyond its current one, splits the range without gap or overlap, and gives the two the same number up to one |
| WorkStealing.StealLowers | aux/dci-closed/vertical.hh:1731-1936 | a steal lowers the joint progress measure of the two threads |
| WorkStealing.StepKeeps | aux/dci-closed/vertical.hh:951-1247 | every step of every thread (job, probe, pass, steal, give up, visit, return) keeps the invariant with the conservation law, and lowers the measure |
| WorkStealing.Progress | aux/dci-closed/vertical.hh:1731-1937 | as long as a thread has not finished, some step is possible: no deadlock |
| WorkStealing.RunInv | aux/dci-closed/vertical.hh:1731-1937 | in every state of every interleaving reported plus owed equals the full answer |
| WorkStealing.RunsEnd | aux/dci-closed/vertical.hh:1731-1937 | every run is finite: its length is bounded by the measure of its first state |
| WorkStealing.ReportedOnce | aux/dci-closed/vertical.hh:1731-1937 | in every state of every interleaving a closed set has been reported at most once by all threads together, only if it belongs to the answer, and with its support |
| WorkStealing.CompleteAtEnd | aux/dci-closed/vertical.hh:1731-1937 | a run that can go no further has all threads finished and every closed frequent set reported exactly once |
| StealScans.RoundRobin | aux/dci-closed/vertical.hh:1781-1783 | a scan begins with the thread behind the one robbed last, and every probe is followed by one of the next thread, thread 0 after the last |
| StealScans.EveryVictimOnce | aux/dci-closed/vertical.hh:1780-1783 | the probes of one scan meet every thread, and none of them twice |
| StealScans.LastStolen | aux/dci-closed/vertical.hh:1723-1820 | in every state of every run the thread robbed last is that of the most recent steal, and thread 0 before the first |
| StealScans.ProbeAt | aux/dci-closed/vertical.hh:1780-1816 | however other threads go on working meanwhile, a scan that has come behind probe m has made it, in this scan and with the same order of victims, and found nothing |
| StealScans.GivesUp | aux/dci-closed/vertical.hh:1780-1932 | a thread gives up only after it has probed every other thread since it began to scan, and each of them was not running, or had at most two generators left on every level, when it was probed |
| StealScans.FinishedAfterScan | aux/dci-closed/vertical.hh:1731-1932 | in every state of every interleaving a finished thread has, in one scan of its own, met every other thread with nothing to take |
| TidWords.WithinIsSubset | aux/dci-closed/tid_list_macros.hh:506-523 | inclusion word by word is inclusion of the transaction sets |
| TidWords.AndIsIntersection | aux/dci-closed/tid_list_macros.hh:488-504 | AND word by word is intersection of the transaction sets |
| TidWords.CountIsCard | aux/dci-closed/tid_list_macros.hh:476-486 | adding up bit counts over the words is the number of transactions |
| TidWords.MissingIsBound | aux/dci-closed/vertical.hh:735-776 | a bound at which a word is missing is exact: the first so many words are included, and every larger number would be wrong |
| TidBits.BitsAnd | aux/dci-closed/tid_list_macros.hh:488-504 | AND of two 32-bit parts has exactly the common bits |
| TidBits.SameBits | aux/dci-closed/tid_list_macros.hh:506-523 | two parts with the same bits are equal |
| TidBits.BitsWithin | aux/dci-closed/tid_list_macros.hh:506-523 | the comparison (b & a) == a holds just when all bits of a are bits of b |
| TidCounts.CountExact | aux/dci-closed/tid_list_macros.hh:467-474 | BitCount of a part is the number of its one bits |
| TidParts.WordCard | aux/dci-closed/tid_list_macros.hh:476-486 | the counts of the four parts of a word add up to its number of transactions |
| TidParts.CountBits | aux/dci-closed/tid_list_macros.hh:476-486 | count_1_bits over all 32-bit parts is the bit count of the list of words |
| TidParts.AndCount | aux/dci-closed/tid_list_macros.hh:488-504 | and_tid_list_count_1 over all 32-bit parts leaves the AND of the two lists of words and returns its bit count, even when the output is one of the inputs |
| TidParts.PartsInclusion | aux/dci-closed/tid_list_macros.hh:506-523 | tid_list_inclusion on 32-bit parts has the contract of the inclusion of words: true just when all compared words are included, otherwise the cursor lies one behind the first word that is not |
| BitCounts.BitCountExact | aux/dci-closed/tid_list_macros.hh:467-474 | the five additions on a signed 32-bit int count its one bits for every word, negative ones (sign-extending shifts) included |
| DciWorker.TidStore.Inclusion | aux/dci-closed/tid_list_macros.hh:506-523 | true just when all compared words are included; otherwise the cursor lies one behind the first word that is not, and that word is not included |
| DciWorker.TidStore.AndWords | aux/dci-closed/tid_list_macros.hh:488-504 | the words become the AND, their bit count is returned, all other lists and words stay |
| DciWorker.TidStore.CheckInclusion | aux/dci-closed/vertical.hh:708-781 | despite the skipped words and the shared section equal: true just when tids are included in row j; if not, the bound left behind is the exact number of leading included words; the new knowledge of the section equal is the exact prefix where the comparison stopped there, and one word less than the section after a full comparison |
| DciWorker.TidStore.CheckTail | aux/dci-closed/vertical.hh:757-780 | the same for the words behind the section equal: the bound is the exact length of the included prefix whenever the result is false |
| DciWorker.TidStore.IntersectHead | aux/dci-closed/vertical.hh:796-873 | in all three cases (intersected in this call before, inherited from the closed set, computed now) the section equal of the result holds the intersection, with its bit count |
| DciWorker.TidStore.CopiedBits | aux/dci-closed/vertical.hh:826-853 | the count of the copied words, composed of inherited counts and a partial recount, is exact, and the counts written back for the next item are those of the words that every post item includes |
| DciWorker.TidStore.IntersectTail | aux/dci-closed/vertical.hh:875-935 | the reused destination words plus the copied and the intersected ones are the intersection behind the section equal; the support is exact |
| DciWorker.TidStore.IntersectAndCount | aux/dci-closed/vertical.hh:783-949 | the result list is exactly tids AND row and its count exactly the cardinality, although leading words are left over from the previous item; the counts of the closed set are recounted in the one case that computes them and otherwise stay; so do the lists of other levels |
| DciWorker.Worker.constructor | aux/dci-closed/vertical.hh:667-705 | buffers of n, n, n*n, n(n+1)/2 and n+2 / n+3 entries, and a worker whose buffers are pairwise different |
| DciWorker.Worker.WordsMean | aux/dci-closed/vertical.hh:708-949 | on the rows of a database, word-level inclusion, AND and count are inclusion, intersection and support of the item sets |
| DciWorker.Worker.IsDuplicate | aux/dci-closed/vertical.hh:1076-1086 | the pre-list loop finds an inclusion just when the set-level duplicate test holds; otherwise every bound for the new closed set is the exact length of its included prefix, and what is known of the section equal is exact as soon as one of its rows was compared; the bounds of this level stay |
| DciWorker.Worker.Close | aux/dci-closed/vertical.hh:1137-1157 | the closure loop collects exactly the included post items and leaves exactly the others, in order, behind this level's list, each with the exact length of its included prefix; the minimum is the smallest of these lengths |
| DciWorker.Worker.ExtendList | aux/dci-closed/vertical.hh:1019-1028 | the list under construction becomes that of X + {item}, with its support and valid counts for the next level |
| DciWorker.Worker.Visit | aux/dci-closed/vertical.hh:1013-1159 | a generator succeeds just when the set-level walk says so, and then the next level holds the closure and the remaining post items, with exact bounds in both lists, their exact minimum, and all that the comparisons told about the section equal; lower levels stay |
| DciWorker.Worker.StackHasRoom | aux/dci-closed/vertical.hh:667-705 | a level that fits has room for one more closed-set item, a full new post list and new bounds in the preallocated buffers |
| DciWorker.Worker.JobFits | aux/dci-closed/vertical.hh:1437-1455 | the job of any policy (an item, a pair, or the empty set with all items) fits into the buffers from the start: no index of any recursion leaves n(n+1)/2 post entries, n*n bounds, n+1 lists or the level slots |
| DciWorker.Worker.Append | aux/dci-closed/vertical.hh:1203-1216 | the generator joins the pre-list with bound 0, and the level is ready for the next generator |
| DciWorker.Worker.Turn | aux/dci-closed/vertical.hh:1010-1231 | one turn of the loop, recursion included, adds to the output what the walk adds for this generator, and leaves this level and the levels below as they were |
| DciWorker.Worker.GetJob | aux/dci-closed/vertical.hh:1412-1457 | the buffers hold the job of item f: f as the closed set, earlier items as pre-list, later ones as post-list |
| DciWorker.Worker.GetPairJob | aux/dci-closed/vertical.hh:1504-1570 | the buffers hold the job of a pair (f, s): f as the closed set, the other items before s as pre-list, the items from s on as post-list, and a bound of one generator |
| DciWorker.Worker.GetWholeJob | aux/dci-closed/vertical.hh:1323-1368 | the buffers hold the one job of Simplest: the empty set with a list of all ones at level 1, and all items as post-list |
| DciWorker.Worker.MineItem | aux/dci-closed/vertical.hh:574-620 | mining a job appends exactly the output of its set-level walk |
| DciWorker.Worker.Run | aux/dci-closed/vertical.hh:1390-1463 | the complete sequential run on arrays and caches writes every frequent closed set of at least two items with smallest item below ub exactly once, with its exact support, and nothing else |
| DciWorker.Worker.RunWhole | aux/dci-closed/vertical.hh:1303-1368 | the run of the one job, on the same arrays and caches and with the size test of the output, writes the same sets once each; a bound of 0 counts as 1 |
| DciWorker.Worker.RunPairs | aux/dci-closed/vertical.hh:1466-1570 | any list of different pair jobs, in any order, writes exactly the frequent closed sets whose two smallest items are one of the pairs, once each with exact support |
| StaticJobs.SharedJobs.constructor | aux/dci-closed/vertical.hh:1487-1498 | nothing handed out; max_item is the bound clipped to the last row |
| StaticJobs.SharedJobs.GetJob | aux/dci-closed/vertical.hh:1504-1570 | SP_DA_2 hands out a pair never handed out before, or reports the end, and then all pairs f < max_item, f < s < end have been handed out, once each |
| StaticJobs.OwnerIs | aux/dci-closed/vertical.hh:1622-1633 | behind every first item the starting offsets of the threads are a permutation of the residues |
| StaticJobs.OneOwner | aux/dci-closed/vertical.hh:1618-1680 | every pair (f, s) belongs to exactly one thread |
| StaticJobs.NextStart | aux/dci-closed/vertical.hh:1632-1632 | the new second item computed from the overrun old one continues the residue class of the thread |
| StaticJobs.HandOut | aux/dci-closed/vertical.hh:1635-1680 | the pair at a cursor is new, and advancing by the number of threads passes exactly this pair of the thread |
| StaticJobs.PerThreadJobs.constructor | aux/dci-closed/vertical.hh:1593-1608 | nothing handed out, thread t at (0, t+1) |
| StaticJobs.PerThreadJobs.GetJob | aux/dci-closed/vertical.hh:1618-1686 | SP_SA_2 gives the thread a pair nobody was given before, or ends with the thread behind all first items; cursors of other threads stay; every thread has received exactly the pairs it owns before its cursor |
| StaticJobs.AllHandedOut | aux/dci-closed/vertical.hh:1618-1686 | for any number of threads and any order of calls run to completion, each pair of a handled first item is handed out to exactly one thread exactly once |
| StaticJobs.FirstJobWithoutFirstItem | aux/dci-closed/vertical.hh:1593-1633 | the counterexample: with bound 0, two items and two threads the first call of thread 0 returns the pair (0, 1), whose first item is not below the bound |
| PairTable.PositionIs | aux/dci-closed/second_scan.cc:116-122 | the index arithmetic with its offset is the number of pairs in the earlier rows of the chunk plus those before y in row x, and agrees with its row-start form |
| PairTable.SizeIs | aux/dci-closed/second_scan.cc:98-101 | the buffer size is the number of pairs with a row in the chunk |
| PairTable.LoopOrder | aux/dci-closed/second_scan.cc:387-391 | running through the buffer from 0 on visits the pairs in the order of the double loop, and ends with its last cell |
| PairTable.Injective | aux/dci-closed/second_scan.cc:108-122 | two pairs share a cell only if they are the same pair |
| PairTable.Onto | aux/dci-closed/second_scan.cc:108-122 | every cell of the buffer belongs to a pair of the chunk |
| SecondScan.TriTable.constructor | aux/dci-closed/second_scan.cc:95-105 | one zero cell per pair |
| SecondScan.TriTable.CountAt | aux/dci-closed/second_scan.cc:318-324 | incrementing through the row start changes the cell of the pair and no other |
| SecondScan.TriTable.CountPairs | aux/dci-closed/second_scan.cc:317-328 | one transaction adds one to exactly the pairs it contains whose row is in the chunk |
| SecondScan.TriTable.CountFirsts | aux/dci-closed/second_scan.cc:330-346 | one transaction adds one to exactly the cells (i, x) where x is its first item behind the missing item i |
| SecondScan.ScanData | aux/dci-closed/second_scan.cc:304-361 | after the scan both tables are exact for every cell of the chunk |
| SecondScan.MarkClosed | aux/dci-closed/second_scan.cc:385-403 | a flag survives a chunk just when no pair of the chunk is as frequent as the item alone |
| SecondScan.PairsIsSupp | aux/dci-closed/second_scan.cc:316-328 | a pair count is the support of the two items |
| SecondScan.ClosedSingle | aux/dci-closed/second_scan.cc:392-400 | an item is closed by itself if and only if none of its pairs has its support |
| SecondScan.ClosedLeft | aux/dci-closed/second_scan.cc:243-250 | once all rows have been scanned the items left for output are exactly the closed single items |
| Partitions.CountNew | aux/dci-closed/second_scan.cc:452-463 | with row lb of the pair table serving as flags, the new items counted for i are exactly its frequent partners not needed so far |
| Partitions.AddItem | aux/dci-closed/second_scan.cc:479-494 | after taking item i the scratch row flags exactly the items needed by lb..i, and rows behind i still hold pair supports |
| Partitions.NeededCard | aux/dci-closed/second_scan.cc:449-477 | the running item count stays the size of the set of needed items |
| Partitions.TouchedStep | aux/dci-closed/second_scan.cc:440-447 | adding the first-item counts gives the number of transactions touching the range |
| Partitions.WritePart | aux/dci-closed/second_scan.cc:499-510 | a written partition lists exactly the needed items in ascending order, beginning with lb; the predicted sizes are the number of these items and of the touching transactions |
| Partitions.MakePartitions | aux/dci-closed/second_scan.cc:414-538 | whatever the size test answers, the ranges are disjoint, ascending and cover every first item with a frequent partner; every partition passes the test with the sizes written for it or has a single first item, and where it ends before the chunk does, the sizes with one more first item fail it |
| Partitions.ScanChunks | aux/dci-closed/second_scan.cc:192-250 | for any ascending chunk boundaries: one list of such partitions for all items, as large as the test allows within the chunks, and exactly the closed single items left for output |
| ThirdScan.LoadedBound | aux/dci-closed/third_scan.cc:176-196 | the transactions a partition loads are at most its predicted transactions |
| ThirdScan.LoadedSupport | aux/dci-closed/third_scan.cc:176-196 | an itemset with a first item of the partition has the same support in what is loaded as in the whole database |
| ThirdScan.OnesAreTids | aux/dci-closed/third_scan.cc:184-192 | the one bits of row k are the loaded transactions with item ids[k] |
| ThirdScan.ReadMap | aux/dci-closed/third_scan.cc:83-99 | the mapping numbers the needed items in order; conditional_ub counts those below the end of the range |
| ThirdScan.LoadDB | aux/dci-closed/third_scan.cc:79-196 | columns are written exactly for the kept transactions, never beyond p_trans, in rows of whole words; the counted support of every needed item is its support in the loaded transactions and the number of one bits of its row, and for first items also its support in the whole database; conditional_ub counts the first items of the range |
| Columns.PlaceInjective | aux/dci-closed/vertical.hh:355-383 | the new places of the columns are distinct and within the row |
| Columns.PlaceOnto | aux/dci-closed/vertical.hh:355-383 | every place receives a column: the reordering is a permutation |
| Columns.MovedPreserves | aux/dci-closed/vertical.hh:335-386 | reordering preserves intersections, inclusions and cardinalities of rows |
| Columns.CopySide | aux/dci-closed/vertical.hh:357-369 | one pass over the mask copies its columns to consecutive places and no others |
| Columns.ReorderBitsCompact | aux/dci-closed/vertical.hh:336-386 | all rows undergo the same column permutation |
| Columns.FindEqual | aux/dci-closed/vertical.hh:211-305 | the mask holds exactly the columns on which all rows taken in agree, counted exactly; rows are taken in from the most frequent one down, every one that the test accepts until the first that it does not |
| Columns.SectionEqual | aux/dci-closed/vertical.hh:305-317 | after the reordering the leading whole words of agreeing rows are equal |
| Columns.FindSectionEqual | aux/dci-closed/vertical.hh:188-333 | rows are either all untouched or all permuted the same way; the section equal is shared by at least two rows, all that the test accepts, and is as long as whole words can be: the columns on which these rows agree fill it but not one word more; its words are the same for all its items and their bit count is right; without two such rows there is none |
| Columns.BuildShifts | aux/dci-closed/vertical.hh:413-444 | the shift of a kept column is its rank among the kept ones, -1 marks the others |
| Columns.MaskedShrink | aux/dci-closed/vertical.hh:476-505 | the new row is the old one compressed onto the mask, its count the size of the intersection, and no bit lands outside the row |
| Columns.ProjectPreserves | aux/dci-closed/vertical.hh:394-474 | under the item, projection preserves every intersection, its cardinality, and every inclusion |
| Columns.CreateNewDataset | aux/dci-closed/vertical.hh:394-474 | every row is the projection onto the item, in rows of support/128+1 words; the new section equal has the whole words that the item's columns within the old section fill, not one less, or the whole row if the old one was; rows that shared the section share the new one, and its bit count is right |
| Pipeline.PermutedSame | aux/dci-closed/vertical.hh:335-386 | moving columns changes no support and no closure of any itemset |
| Pipeline.Prepare | aux/dci-closed/vertical.hh:188-333 | after find_section_equal the rows in words, the longest section equal that the accepted rows share and its bit count are the dataset of the worker, for a database that is the bitmap's with its columns permuted; the number of transactions of every row stays, so the supports counted on loading still hold |
| Pipeline.LocalTids | aux/dci-closed/third_scan.cc:171-196 | the transactions of an itemset in the bitmap of a partition are those of the loaded transactions |
| Pipeline.PairNeeded | aux/dci-closed/second_scan.cc:414-538 | both items of a frequent pair with an item of the range belong to the partition |
| Pipeline.LocalClosed | aux/dci-closed/third_scan.cc:102-133 | a set with a first item of the range is closed in its bitmap just when it is closed in the whole database among the items from the start of the range on |
| Pipeline.LocalTarget | aux/dci-closed/third_scan.cc:102-133 | what the worker looks for in the bitmap is, under the items' names, what the partition has to contribute, with the supports of the whole database |
| Pipeline.PartSize | aux/dci-closed/vertical.hh:106-121 | every partition has at least two items and one transaction: the check of the constructor never fails |
| Pipeline.RenamedCount | aux/dci-closed/vertical.hh:1171-1178 | unmapping the items of what was mined merges no two sets and loses none |
| Pipeline.MinePartition | aux/dci-closed/third_scan.cc:70-145 | loading, reordering and mining one partition on arrays lists exactly the frequent sets of two or more items with a first item of its range that are closed among the items from the range on, once each, with their supports in the whole database |
| Pipeline.OnePart | aux/dci-closed/second_scan.cc:414-538 | no set is contributed by two partitions |
| Pipeline.ThirdScan | aux/dci-closed/third_scan.cc:37-145 | over all partitions: each local closed set exactly once |
| Pipeline.Complete | aux/dci-closed/third_scan.cc:37-145 | no closed frequent set of two or more items is missed, whatever the partitions |
| Pipeline.SpuriousClosure | aux/dci-closed/fourth_scan.cc:129-131 | the items by which a contributed set fails to be closed are all smaller than its own; its closure is contributed too, with the same support |
| Pipeline.ClosedIff | aux/dci-closed/fourth_scan.cc:129-131 | a contributed set is closed exactly when no larger contributed set has its support |
| Pipeline.SinglePart | aux/dci-closed/fourth_scan.cc:135-141 | with a single partition every contributed set is closed: the fourth scan may return at once |
| FourthScan.SmallerBehind | aux/dci-closed/fourth_scan.cc:190-191 | in descending order a set is the beginning of what it becomes by adding smaller items |
| FourthScan.PrefixBetween | aux/dci-closed/fourth_scan.cc:34-55 | whatever is sorted between a list and one that it begins is begun by it too |
| FourthScan.RemovedIff | aux/dci-closed/fourth_scan.cc:301-331 | a record begins the very next one, with the same support, exactly when its set is not closed |
| FourthScan.Descending | aux/dci-closed/fourth_scan.cc:190-191 | the items of the set, in descending order |
| FourthScan.Insert | aux/dci-closed/fourth_scan.cc:34-55 | a sorted list with one more record |
| FourthScan.Merge | aux/dci-closed/fourth_scan.cc:293-342 | exactly the records that do not begin their successor are written, once each |
| FourthScan.Remove | aux/dci-closed/fourth_scan.cc:122-370 | from what the partitions contribute, exactly the closed sets are left |
| FourthScan.Mine | aux/dci-closed/fim_all.cc:318-337 | scans two to four together: for any chunk boundaries, any memory limits, any reordering, and one job or one job per item, exactly the closed frequent sets are written, once each with their supports, the single items by flags of the second scan and the others as records |
| AimMasks.CompressAt | src/aim/SparseBitArray.cpp:257-354 | the bit at a one bit p of the mask lands at the rank of p, where the compressed space has the transaction of p |
| AimMasks.CompressIsSpace | src/aim/SparseBitArray.cpp:257-354 | compression gives a coordinate space without repetition again |
| AimMasks.ReprCard | src/aim/SparseBitArray.cpp:771-788 | counting the bits of a mask counts the transactions it stands for |
| AimMasks.ReprProject | src/aim/DFSMiner.cpp:188-195 | projection of one mask onto another represents the intersection, in the compressed space of the head |
| AimMiner.Combine | src/aim/DFSMiner.cpp:185-207 | the stored support of every mask is its number of bits, as projection demands, and stays so; AND, projection, first diffset and later diffset all yield the exact support of path + item, and a mask in the one space and kind shared by all items of the call |
| AimMiner.FromIsOf | src/aim/DFSMiner.cpp:363-414 | starting at a level, what RecurseBuildFI still has to go through completes the flattened path |
| AimExpand.ExpandExact | src/aim/DFSMiner.cpp:363-414 | expansion writes every set between the path and the path with all absorbed items exactly once, and nothing else |
| AimExpand.ChooseStep | src/aim/DFSMiner.cpp:331-335 | consecutive binomials satisfy the recurrence of the running product, so its division is exact |
| AimExpand.ExpandLengths | src/aim/DFSMiner.cpp:328-335 | expansion writes C(absorbed, j) sets of length path + j |
| AimExpand.ExpandSize | src/aim/DFSMiner.cpp:319-326 | expansion writes 2 to the number of absorbed items sets |
| AimDfs.WroteHead | src/aim/DFSMiner.cpp:250-342 | the sets containing a head, and those of the heads before it without it, are disjoint and together all sets with one of these heads |
| AimDfs.WroteOwn | src/aim/DFSMiner.cpp:306-316 | the expansion of a head's own path adds exactly the sets the recursion below it left out |
| AimDfs.WroteBeyond | src/aim/DFSMiner.cpp:220-232 | dropping infrequent candidates drops no frequent set |
| AimDfs.PathAbsorbs | src/aim/DFSMiner.cpp:209-217 | an item that keeps the support of the path may be absorbed: the transactions of the path with all absorbed items stay the same |
| AimDfs.PathGrows | src/aim/DFSMiner.cpp:250-253 | a kept candidate extends the path of the next level soundly |
| AimDfs.ScanKeeps | src/aim/DFSMiner.cpp:220-230 | a frequent candidate is kept with its new mask and support, and nothing else changes status |
| AimDfs.Sort | src/aim/SortedIntArray.h:21-33 | some permutation in ascending order of support (ties either way) |
| AimDfs.OrderDistinct | src/aim/DFSMiner.cpp:235-239 | the reordered tail has the kept candidates, each once |
| AimSearch.DfsMiner.RecurseBuildFI | src/aim/DFSMiner.cpp:362-414 | the recursion over levels and absorbed items writes the expansion of the flattened path, and returns the number of sets |
| AimSearch.DfsMiner.CreateFI | src/aim/DFSMiner.cpp:354-357 | writes the path of the level with every subset of all absorbed items |
| AimSearch.DfsMiner.CountLengths | src/aim/DFSMiner.cpp:328-335 | the running product adds exactly the binomials to the per-length counters, without any loss in the integer divisions |
| AimSearch.DfsMiner.CountFI | src/aim/DFSMiner.cpp:318-335 | the total grows by 2^absorbed, the counter of each length by the number of sets of this length |
| AimSearch.DfsMiner.PairSupport | src/aim/DFSMiner.cpp:172-179 | the pair matrix is read at the row of the larger item, for either order of the two |
| AimSearch.DfsMiner.Candidate | src/aim/DFSMiner.cpp:161-207 | a candidate is skipped just when the pair matrix is kept, the head is a single item and the support of the pair is below minSupport; any other gets its exact support |
| AimSearch.DfsMiner.ScanTail | src/aim/DFSMiner.cpp:158-233 | a candidate is absorbed into the path just when its join has the support of the path, and kept, with its exact support, just when that support is smaller and above minSupport; all others are dropped |
| AimSearch.DfsMiner.WriteFI | src/aim/DFSMiner.cpp:314-335 | output and counters change together: after writing a path with its subsets the counters still agree with the output |
| AimSearch.DfsMiner.RecurseMine | src/aim/DFSMiner.cpp:148-352 | a call writes exactly the frequent sets between its path and path + tail that are not contained in path + absorbed, once each with exact support, in any tie order and with any mix of AND, projection and diffsets |
| AimSearch.DfsMiner.Descend | src/aim/DFSMiner.cpp:255-304 | diffsets are used below a head just when they were used before or the head has more than half of the transactions of the path; the choice changes nothing of what is written below the head, and a head without followers needs no call |
| AimSearch.DfsMiner.MineHeads | src/aim/DFSMiner.cpp:249-342 | all heads together write exactly the frequent sets with at least one of them |
| AimSearch.DfsMiner.InitialTail | src/aim/DFSMiner.cpp:86-103 | the first tail holds an item just when its support is at least minSupport, in item order, with its mask |
| AimSearch.DfsMiner.PrintEmptyTransaction | src/aim/DFSMiner.cpp:66-76 | the empty set is written and counted just when the number of transactions exceeds minSupport |
| AimSearch.DfsMiner.FindFrequentPatterns | src/aim/DFSMiner.cpp:78-146 | every itemset with support > minSupport (the empty one included) is written exactly once with its exact support and nothing else is; per-length counters and patternCount agree with the output |
| SparseBits.OneCount | src/aim/SparseBitArray.cpp:42-66 | an entry of the count table is the number of one bits of the byte |
| SparseBits.ProjectionValue | src/aim/SparseBitArray.cpp:12-40 | an entry of the projection table is the rank compression of one byte onto another |
| SparseBits.SparseBitArray.constructor | src/aim/SparseBitArray.cpp:87-104 | an empty array |
| SparseBits.SparseBitArray.Insert | src/aim/SparseBitArray.cpp:217-243 | an empty word for the key at its place, the later words moved up by one, none lost when the arrays grow |
| SparseBits.SparseBitArray.And | src/aim/SparseBitArray.cpp:525-562 | a well-formed array with exactly the common bits |
| SparseBits.SparseBitArray.AndNot | src/aim/SparseBitArray.cpp:599-647 | a well-formed array with exactly the bits of this one that the other lacks |
| SparseBits.SparseBitArray.CountElements | src/aim/SparseBitArray.cpp:771-788 | counting bytes through the table gives the number of bits, which is also stored as support |
| SparseBits.WriteByte | src/aim/SparseBitArray.cpp:313-330 | or-ing the projected byte and its overflow into two words adds its bits in place and nothing else, within the allocated words |
| SparseBits.ProjectWord | src/aim/SparseBitArray.cpp:307-340 | one common word adds its whole projection at the current position |
| SparseBits.SparseBitArray.ProjectWords | src/aim/SparseBitArray.cpp:287-345 | the two-cursor loop writes the projection of all common words and skips the bits of words of one side only |
| SparseBits.SparseBitArray.Project | src/aim/SparseBitArray.cpp:256-354 | if the stored support of the mask is right, bit r of the result is this array's bit at the r-th one bit of the mask, for all r, and no write leaves the support/64+1 words |
| BitWords.RankSlice | src/aim/SparseBitArray.cpp:296-306 | the rank within a word continues that of the words before it |
| BitWords.ProjectSlice | src/aim/SparseBitArray.cpp:311-333 | projecting piece by piece is projecting at once |
| BitWords.OrWord | src/aim/SparseBitArray.cpp:313-328 | low part and overflow of a shifted byte lie in place in their two words |
| BitWords.NoMoreCommon | src/aim/SparseBitArray.cpp:536-559 | once one cursor is through, no common word is left |
| LcmBuckets.GroupIsPrefix | aux/lcm/trsact.c:286-303 | two members of a bucket carry the same group number just when their lists agree on all items so far |
| LcmBuckets.DealPush | aux/lcm/trsact.c:296-300 | pushing a transaction to its next bucket keeps equal prefixes side by side, and numbered alike |
| LcmBuckets.DealDrop | aux/lcm/trsact.c:290-295 | a transaction left out of the next round has no equal one |
| LcmLinks.LinkPush | aux/lcm/trsact.c:296-300 | the writes to head and entry arrays push to the chain of one bucket and leave the other chains |
| LcmLinks.QueuePop | aux/lcm/trsact.c:282-286 | the bucket stack holds the nonempty buckets, each once |
| LcmLinks.SurvivorsSum | aux/lcm/trsact.c:327-333 | compaction keeps the total multiplicity of every list |
| LcmLinks.SumCard | aux/lcm/trsact.c:315-333 | the total multiplicity of a list is the number of its occurrences |
| LcmLinks.SurvivorsDistinct | aux/lcm/trsact.c:327-333 | no two survivors have equal lists once equal transactions are merged |
| LcmLinks.MergeSum | aux/lcm/trsact.c:315-316 | moving the multiplicity between equal transactions changes no total |
| LcmLinks.AllMerged | aux/lcm/trsact.c:307-318 | after the end bucket of round j all equal lists of up to j entries are merged |
| LcmLinks.RoundBound | aux/lcm/trsact.c:281-281 | a bucket in use bounds the round by the longest list: the rounds end |
| LcmLinks.AllDone | aux/lcm/trsact.c:281-325 | with no bucket in use no two transactions that both carry a multiplicity are equal |
| LcmShrink.Workspace.constructor | aux/lcm/trsact.c:249-257 | work space for the items and transactions, all bucket heads at -1 |
| LcmShrink.DealChain | aux/lcm/trsact.c:285-303 | a chain is dealt to the buckets of the next round, without the members alone in their run |
| LcmShrink.DealRound | aux/lcm/trsact.c:282-305 | one round turns the classes of equal prefixes of j items into those of j+1 items; only the end bucket keeps its chain |
| LcmShrink.MergeRun | aux/lcm/trsact.c:309-317 | a run of equal transactions gives all multiplicity to its first member |
| LcmShrink.MergeEnds | aux/lcm/trsact.c:307-318 | the end bucket is merged, no total changes, and all heads of the old half are -1 again |
| LcmShrink.FirstDeal | aux/lcm/trsact.c:273-279 | all transactions are bucketed by their first items |
| LcmShrink.Compact | aux/lcm/trsact.c:327-333 | the array starts with exactly the transactions that kept a multiplicity, in order |
| LcmShrink.MergeAll | aux/lcm/trsact.c:281-325 | over all rounds with the two halves exchanged: totals kept, equal transactions merged, work space clean |
| LcmShrink.Shrink | aux/lcm/trsact.c:267-334 | for every item list the total multiplicity is unchanged, the remaining transactions have positive multiplicities and pairwise different lists, the work space returns to all -1, and it terminates |
| LcmBitmap.MaskedBit | aux/lcm30/lcm_bm.c:70-74 | a bit of the masked pattern is set just when it is set in the pattern and in the mask |
| LcmBitmap.LandedStep | aux/lcm30/lcm_bm.c:68-77 | handing on one list moves every transaction from where it is counted on this level to where it is counted on the next, for any mask |
| LcmBitmap.FoldTotal | aux/lcm30/lcm_bm.c:68-77 | the weights that arrive at a pattern while a list is handed on add up to the transactions counted there on the next level |
| LcmBitmap.ListGivesFrequency | aux/lcm30/lcm_bm.c:71-76 | the weights over the list of item i add up to the transactions that have the item and have not lost it to the mask |
| LcmBitmap.TotalAll | aux/lcm30/lcm_bm.c:103-116 | with the mask of all items a pattern has the weight of the transactions that agree with it up to the item |
| LcmBitmap.AnyWeights | aux/lcm30/lcm_bm.c:91-95 | the weights of any state are those of some transactions, so that delivery may start anywhere |
| LcmBitmap.FrequencyCounts | aux/lcm30/lcm_bm.c:103-116 | the frequency of an item is the number of occurrences of transactions with its bit |
| LcmBitmap.ReachedCounts | aux/lcm30/lcm_bm.c:68-77 | its frequency under a mask is the number of occurrences of transactions that still count for it |
| LcmBitmap.WeightCounts | aux/lcm30/lcm_bm.c:57-65 | the weight of a pattern is the number of occurrences of transactions that agree with it |
| LcmBitmap.LastLinesInside | aux/lcm30/lcm_bm.c:93-94 | the reads of weights 1, 3, 2, 3 and the writes of frequencies 0, 1 all lie inside their arrays if and only if there are two bitmap items |
| LcmBitmap.OneItem | aux/lcm30/lcm_bm.c:91-116 | the input where they do not: with one frequent item (aux/lcm30/lcm_init.c:37) and any transactions, two weights and one frequency are allocated, and the last two lines read and write behind them; the frequency wanted is the weight of pattern 1 |
| LcmBitmap.ZeroFirst | aux/lcm30/lcm_bm.c:57-65 | the input where a list goes wrong: a transaction without multiplicity first, then one with, list their pattern twice, and the list sums up to twice the frequency |
| LcmBitmap.Delivery.constructor | aux/lcm30/lcm_bm.c:21-38 | zero weights, empty lists, and the highest bit of every pattern, from one bitmap item on |
| LcmBitmap.Delivery.ListFits | aux/lcm30/lcm_init.c:91-102 | a list never outgrows its allocated room |
| LcmBitmap.Delivery.Proc | aux/lcm30/lcm_bm.c:57-65 | adds to one weight, and lists the pattern when it had none; the lists stay right if and only if the pattern has a weight afterwards |
| LcmBitmap.Delivery.ProcAll | aux/lcm30/lcm_bm.c:107-109 | all weights are exact; the lists are right if and only if every transaction without multiplicity comes after one with the same pattern that has one |
| LcmBitmap.Delivery.Iter | aux/lcm30/lcm_bm.c:68-77 | the frequency of the item under any mask, and its patterns handed on to what the mask leaves of them |
| LcmBitmap.Delivery.Deliver | aux/lcm30/lcm_bm.c:91-95 | from any item on, with any mask and any weights: the frequencies of all these items, the two lowest read off four weights if there are two bitmap items; larger items keep theirs |
| LcmBitmap.Delivery.DeliverFirst | aux/lcm30/lcm_bm.c:103-116 | for any number of bitmap items the weights are those of the patterns folded to their highest bit, and each list holds exactly the patterns with a weight, once; with two items or more every item gets the total multiplicity of the transactions with its bit |
| MergeSets.MixedDrop | src/bitdrill/Merge_Itemsets.cxx:9-41 | leaving out an item that leaves items of both parts leaves a frequent mixed itemset, so pruning by it is safe |
| MergeSets.Unjoin | src/bitdrill/Merge_Itemsets.cxx:196-207 | every itemset is the join of the two siblings that lack its last two items |
| MergeSets.JoinComplete | src/bitdrill/Merge_Itemsets.cxx:183-270 | every itemset to be counted that keeps both parts whichever item is left out is found by joining |
| MergeSets.CondComplete | src/bitdrill/Merge_Itemsets.cxx:321-418 | every itemset to be counted with a single item of one part is found among the joins of the itemsets seen with this item |
| MergeItemsets.MixedWanted | src/bitdrill/Merge_Itemsets.cxx:183-418 | pruning is safe: a frequent mixed itemset has all its mixed subsets with one item less in the previous level and its items of either part among the itemsets mined there |
| MergeSets.JointIffNoSingle | src/bitdrill/Merge_Itemsets.cxx:196-265 | an itemset keeps items of both parts whichever item is left out, so that check_supports can find its subsets, if and only if neither part has a single item; the others are what the plain join prunes |
| MergeSets.Lonely | src/bitdrill/Merge_Itemsets.cxx:258-262 | if a subset lies in one part only, the item left out is the single one of its part: these are the sets that the plain join prunes |
| MergeSets.NoLarger | src/bitdrill/Merge_Itemsets.cxx:148-148 | no frequent mixed itemset of a size means none of the next size |
| MergeItemsets.CheckSupports | src/bitdrill/Trie.hxx:156-178 | true just when all subsets with one item less are stored |
| MergeItemsets.CheckMergeSupports | src/bitdrill/Merge_Itemsets.cxx:9-41 | true just when all subsets with one item less and items of both parts are stored |
| MergeItemsets.JoinCandidate | src/bitdrill/Merge_Itemsets.cxx:196-265 | a join is added just when it has items of both parts and no subset is missing, neither in the previous level nor among the itemsets of a part; a set with a single item of a part is never added |
| MergeItemsets.CountPart | src/bitdrill/Merge_Itemsets.cxx:272-286 | the count is one just when the remembered item is the only one of the part |
| MergeItemsets.WalkPrevious | src/bitdrill/Merge_Itemsets.cxx:183-315 | one walk over the previous level makes all joins, and stores every itemset with a single item of a part under this item |
| MergeItemsets.CondCandidates | src/bitdrill/Merge_Itemsets.cxx:321-367 | all joins under each single item that lack no stored subset become candidates, and no others |
| MergeItemsets.Pairs | src/bitdrill/Merge_Itemsets.cxx:160-177 | the candidates of level 2 are exactly the pairs with one item of each part |
| MergeItemsets.AllWays | src/bitdrill/Merge_Itemsets.cxx:178-420 | every itemset that lacks no stored subset is a candidate: by a plain join or by the conditional ones of either part |
| MergeItemsets.Candidates | src/bitdrill/Merge_Itemsets.cxx:156-420 | the candidates of a level, each once, are exactly the itemsets of its size with items of both parts whose mixed subsets with one item less are all stored and whose items of either part are a known itemset of that part: nothing else is counted |
| MergeItemsets.CountLevel | src/bitdrill/Merge_Itemsets.cxx:434-458 | exactly the frequent candidates are written with their frequencies and form the next previous level |
| MergeItemsets.InitialPrevious | src/bitdrill/Merge_Itemsets.cxx:105-142 | the given itemsets reduced to exactly the frequent mixed ones |
| MergeItemsets.MergeLevels | src/bitdrill/Merge_Itemsets.cxx:44-465 | started at level k with all frequent (k-1)-sets the output is exactly the frequent itemsets of at least k items with items in both parts, once each with their frequencies |
| MergeSimple.Pruned | scripts/merge-itemsets.py:58-74 | prunes just when a subset that keeps items of both parts is missing from the previous level |
| MergeSimple.AllSplits | scripts/merge-itemsets.py:38-76 | the candidates of a size are exactly the pairs of an itemset of each input of which no subset that keeps items of both parts is missing from the previous level |
| MergeSimple.Merge | scripts/merge-itemsets.py:29-109 | the script writes exactly the frequent itemsets with items in both parts, with their counts |
| MergeSimple.MergesAgree | src/bitdrill/Merge_Itemsets.cxx:44-465 | the optimised merge started at level 2 writes the same itemsets with the same frequencies as the script |

## Left out

- DciWorker.Worker.Mine: the jobs of One_Thread, Simplest and the pair policies run on the arrays; a thief's copy of a level (stealing) is modelled by its job (closed set, pre-list, post-list) only.
- DciWorker.Worker.constructor: the parallel LEVEL_* arrays are one array of records, of the larger of their two lengths (n+3); the proofs keep the record of a closed set within the first n+1 entries. STATIC_TID_LISTS is a two-dimensional array.
- DciWorker.TidStore.CheckInclusion: works on words as sets of transactions; that the loops over the four 32-bit parts of a word do the same is proved beside it in TidParts. Counters that wrap around at 32 bits are not modelled.
- WorkStealing.StepKeeps: tid lists are exact sets; the caches copied from the victim, and what a steal sees of them while the victim works, are not part of the step system.
- LcmBitmap.Delivery.DeliverFirst: asks that no transaction without multiplicity comes before the others with its pattern; when one does, the lists are wrong (ProcAll) and the frequencies are not described further. Patterns are natural numbers and masks sets of items. With no frequent item the program ends before the bitmap is set up.
- LcmShrink.Shrink: the two halves of the work space are separate arrays that are exchanged by passing them in turn; every list ends with the end mark, as LCM's queues do.
- MergeItemsets.MergeLevels: a trie is a duplicate-free sequence in walk order, and a candidate walk yields the later stored itemsets that share all but the last item. Items are numbered in the order of the vertical database, so `reorder` is sorting. Frequencies are supports; the incremental tid-list intersection is not modelled.
- MergeSimple.Merge: an itemset is the pair of its items from the two inputs; encoding as text is not modelled. Each input has an entry for every size of its frequent itemsets.
- Partitions.MakePartitions: the memory limit is an arbitrary test of the two predicted sizes, the chunk boundaries of the float formula are arbitrary ascending numbers. Files are sequences.
- SecondScan.ScanData: pruning and remapping of the first pass, and rewriting the dataset in place, are taken as done; transactions are ascending lists of frequent items.
- ThirdScan.LoadDB: binary files are sequences, and bits are the entries of a two-dimensional array.
- Columns.FindSectionEqual: the percentage limits are an arbitrary test of the number of agreeing columns and the row, and the byte and bit loops are one loop over columns.
- FourthScan.Remove: the sorted runs in files and their merge with two records read ahead per file are one sorted list; an insertion sort stands for the library's sorts.
- Pipeline.MinePartition: one worker does the jobs of a partition, as one job or as one job per item; files are sequences, and reading a partition table back is the list of partitions that was written.
- Columns.CreateNewDataset: reference counting and the policies that use projected datasets (DP_DA_2P and the other `*_P` ones) are not modelled.
- AimSearch.DfsMiner.FindFrequentPatterns: items are written as numbers into a buffer of n entries instead of names into 10240 bytes; object pools, string tables and the return value of the breakout test are not modelled. The comparisons with 0.10 and 0.5 are on reals instead of floats; what is written does not depend on their outcome.
- AimSearch.DfsMiner.PairSupport: the pair matrix is taken as exact; building it (src/aim/MinerBase.cpp:51-92) is not modelled.
- AimDfs.Sort: an insertion sort stands for the C library's `qsort`.
- SparseBits.SparseBitArray.And: `itemSum`, which only the closed-itemset mode reads, `Get`, `Set` and `RemoveAt` are not modelled; the lookup tables are computed where they are read.
- AIM's closed and maximal modes (MINE_FCI, MINE_MFI), LCM's closed and maximal variants, the recursion of LCM that uses the delivery, and its delete variants.
- The SSE and MMX versions of the word operations, locks, timers, statistics, output formats, and the first scan, which counts and numbers the frequent items.
- The older miner in src/dci-closed, aux/rules, the data generator, scripts other than the merge, and the command-line front ends.
