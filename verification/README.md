# Metis, kpatch-build and cpuinfo, modelled in Dafny

This project models the hard parts of three programs of the repository and proves what they
promise.

* **Metis** (benchmarks/metis), a MapReduce runtime. Its input is split once and the splits are
  handed out by a shared counter; a pool of threads maps them. Emitted pairs go to a table of
  rows (one for each CPU) and columns (by hash); each bucket is a B+tree. A first phase may sample
  some splits to find the number of columns, and its pairs are backed up and rehashed. Each column
  is reduced by a k-way merge over the rows, and results are sorted by PSRS, parallel sorting by
  regular sampling, under a spin barrier.
* **kpatch-build** (src/kpatch/kpatch-build), which finds what a kernel patch has to include,
  compacts special sections, and carries relocations through intermediate tables.
* **cpuinfo.py** (benchmarks/fxmark/bin), which prints and parses ranges of CPUs.

## How it is modelled

`dafny verify dfyconfig.toml` checks everything. There is one module for each component.

* What the source changes in place is changed in place here: the B+tree is made of `Node` objects
  with parent and next pointers, value records own arrays that grow, sections and symbols have
  include flags, tables and lists are fields. Each such method is proved against functions and
  predicates on values (snapshots of the heap for the B+tree), about which the lemmas are.
* The barrier, the thread pool and the splitter are state machines. One read or write of a shared
  variable is one step, memory is sequentially consistent, and there are any number of CPUs.
* Keys are a total order (`real`), values are integers; word-count values are 64-bit words and
  wrap around. `qsort`, hash functions, the symbol table, group sizes and comparison of strings
  are parameters with the contract the source relies on.
* Where a C function stops with an error, an assertion or an exception, the model returns a
  value that says so, except where a caller always meets the assertion; then it is a precondition
  and the callers prove it (the duplicate-key assertion of `pch_insert_kvs`, `src->len == 1` in
  `values_mv`).

Two places where the code does not do what its comment says are followed as coded, with the exact
condition under which the comment holds:

* `sublists` gives its search two elements too few (benchmarks/metis/lib/psrs.c:66-67), and the
  count -1 in a range of one element. `Sublists.PromiseKept` says exactly when the cuts are the
  promised ones, `Sublists.RowIff` exactly when they divide a list at all. For the sort as a whole
  (`PsrsRun.Run`) this means: a permutation if no range of one element is searched, and then
  sorted if and only if every cut separates. Two CPUs never sort an increasing input
  (`PsrsWitness.TwoNeverSort`), seven may lose an element (`PsrsWitness.NotPermuted`), four may
  read outside a list (`PsrsWitness.ReadsOutside`).
* The search for a number of tasks accepts squares of primes (benchmarks/metis/lib/kvstore.c:99):
  `TaskCount.AcceptedAre`.

A third, the word splitter that can stand still (benchmarks/metis/app/wc.c:88-105), has its exact
condition in `WordSplit.SplittingEnds`.

Assumptions about kpatch objects: a section symbol belongs to its section and has value 0; a rela
section has no symbol and no rela section of its own; base sections have distinct names and one
rela section each; names have no NUL and fit the 256-byte buffers; object names have no dot; the
x86-64 layout of the tables.

## Model

| member | source | states |
|---|---|---|
| BSearch.BsearchLar | benchmarks/metis/lib/bsearch.c:5-36 | The upper bound: everything before the result is at most the key, everything from it on is greater; the loop, which may let `right` drop below `left`, ends. |
| BSearch.BsearchEq | benchmarks/metis/lib/bsearch.c:38-88 | Found: an equal element. Not found: the place that keeps the order. |
| BSearch.SortedIsSearchable | benchmarks/metis/lib/bsearch.c:5-88 | Any array sorted under any comparator can be searched for any key, so the precondition of both searches is no more than sortedness. |
| BTree.BTree.SplitInternal | benchmarks/metis/lib/keyvals_btree.c:35-44 | The two halves of an overfull internal node and the key between them. |
| BTree.BTree.EnterSlot | benchmarks/metis/lib/keyvals_btree.c:76-85 | Both shifting loops: exactly one key and one child are new, everything else keeps its order. |
| BTree.BTree.FixParents | benchmarks/metis/lib/keyvals_btree.c:91-93 | After a cascade the parent pointers of all moved children are exact again, and with them the whole tree. |
| BTree.BTree.InsertIndex | benchmarks/metis/lib/keyvals_btree.c:54-96 | From a tree with one split node not yet indexed to a whole tree, splitting ancestors as far up as needed; leaves, their records and their order are kept. |
| BTree.BTree.NewTop | benchmarks/metis/lib/keyvals_btree.c:58-68 | The case of a split root: a new root and one more level, all leaves at equal depth. |
| BTree.BTree.SplitParent | benchmarks/metis/lib/keyvals_btree.c:86-94 | The recursive case, with the parent pointers wrong in between. |
| BTree.BTree.FindLeaf | benchmarks/metis/lib/keyvals_btree.c:108-118 | Going down with the upper bound search ends in the leaf whose key range covers the key. |
| BTree.BTree.GetLeaf | benchmarks/metis/lib/keyvals_btree.c:98-119 | The same, also from the empty tree. |
| BTree.BTree.InsertKey | benchmarks/metis/lib/keyvals_btree.c:121-136 | Room for one key at a position of a leaf. |
| BTree.BTree.SplitLeaf | benchmarks/metis/lib/keyvals_btree.c:138-150 | Splitting a leaf keeps the map, the tree and the chain of leaves. |
| BTree.BTree.InsertKv | benchmarks/metis/lib/keyvals_btree.c:152-172 | The value joins exactly the values of its key; the result is 1 if and only if the key was new; every invariant is kept. |
| BTree.BTree.InsertKvs | benchmarks/metis/lib/keyvals_btree.c:174-189 | A whole entry with a new key is added. |
| BTree.BTree.GetLen | benchmarks/metis/lib/keyvals_btree.c:191-196 | The number of keys of the map. |
| BTree.BTree.CopyKvs | benchmarks/metis/lib/keyvals_btree.c:270-287 | Exactly the map, in strictly increasing key order, as many entries as `nkeys`. |
| BTree.Balanced | benchmarks/metis/lib/keyvals_btree.c:35-150 | Every node reaches the root in exactly `nlevel` minus one minus its height parent steps, so all leaves are equally deep; all nodes but the root are at least half full and at most full. |
| BTree.HeightBound | benchmarks/metis/lib/keyvals_btree.c:35-189 | A tree of nlevel >= 2 has at least 2 * 4^(nlevel-1) keys. |
| BTree.Run | benchmarks/metis/lib/keyvals_btree.c:152-172 | Every run of inserts from the empty tree ends in a valid tree that holds the map of the pairs inserted. |
| BTreeLeaves.MinSize | benchmarks/metis/lib/keyvals_btree.c:35-189 | The counting behind the height bound, on any heap that has the shape of a tree. |
| BTreeLeaves.ListingIsContents | benchmarks/metis/lib/keyvals_btree.c:226-287 | The chain of leaves lists exactly the map in key order. |
| Common.ListingUnique | benchmarks/metis/lib/keyvals_btree.c:226-287 | A map has only one listing, so the sorted bucket that the store and the merge work on is what the iterator of the tree yields. |
| BTreeNodes.CascadeDone | benchmarks/metis/lib/keyvals_btree.c:86-94 | What one level of a cascade of splits leaves for the level below to repair, and that the repair completes it. |
| BTreeIter.Iter.NextKvs | benchmarks/metis/lib/keyvals_btree.c:245-261 | The next entry of the listing, or the end exactly after the last; on request its slot is cleared, every other slot is as before, and clearing does not disturb what is read later. |
| BTreeIter.IterBegin | benchmarks/metis/lib/keyvals_btree.c:226-243 | An iterator over the listing of the whole map; none exactly for an empty tree. |
| ValueRecord.Record.Insert | benchmarks/metis/lib/value_helper.c:13-37 | The in-place insert does to array, length and capacity what `Values.Insert` says: value modifier, first size 8, doubling, combiner. |
| ValueRecord.Record.Combine | benchmarks/metis/lib/value_helper.c:34-36 | The combiner rewrites the array in place and shortens it. |
| ValueRecord.Record.Take | benchmarks/metis/lib/value_helper.c:51-83 | The values of another record are added at the end, or modified into the single value; the room is always enough. |
| ValueRecord.InsertEach | benchmarks/metis/lib/value_helper.c:13-37 | Any sequence of inserts into an empty record. |
| Values.BufferStaysSmall | benchmarks/metis/lib/value_helper.c:25-36 | With a combiner that leaves one value the buffer never grows past 8. |
| Values.RoomDoubles | benchmarks/metis/lib/value_helper.c:24-33 | Without callbacks the values are all kept, and the room for them is 8 doubled exactly as often as they need. |
| Values.KeptFold | benchmarks/metis/lib/value_helper.c:13-37 | For a commutative and associative operation, what is kept folds to the fold of what was inserted: with a value modifier, with a combiner, and with neither. |
| Values.FoldOrder | benchmarks/metis/lib/reduce.c:63-94 | That fold does not depend on the order of the values. |
| Values.ReducedValue | benchmarks/metis/lib/reduce.c:63-94 | However the values of a key are spread over rows, the fold of what reaches the reduce step is the fold of all values emitted. |
| Values.SameResult | benchmarks/metis/lib/value_helper.c:13-83 | A value modifier and a combiner give the same final value, even for different spreads of the same values. |
| Values.PutPairsMeans | benchmarks/metis/lib/value_helper.c:13-37 | A bucket holds exactly the keys emitted into it, each with what is kept of its values. |
| Reduce.FindMin | benchmarks/metis/lib/reduce.c:43-62 | The least key among the heads, and exactly which rows have it, through the renumbering of the marks. |
| Reduce.EatMin | benchmarks/metis/lib/reduce.c:63-85 | The values of that key joined in row order, and each row that had it one entry further. |
| Reduce.GroupKvs | benchmarks/metis/lib/reduce.c:23-103 | Every key of the union exactly once, in strictly increasing order, with its values concatenated in row order. |
| Reduce.GroupKv | benchmarks/metis/lib/reduce.c:130-160 | The same contract for sorting the flat pairs and grouping runs of equal keys. |
| Reduce.MergeIsSort | benchmarks/metis/lib/reduce.c:23-164 | The k-way merge and sort-then-group emit the same keys in the same order; if all values are kept, with the same values up to order. |
| Reduce.MergeFoldsAsSort | benchmarks/metis/lib/reduce.c:23-164 | For every application that keeps the fold of its values, both emit for each key values of equal fold; under a value modifier the very same value. |
| Reduce.GroupMeaning | benchmarks/metis/lib/reduce.c:95-98 | An application without value modifier and combiner gets for each key exactly all values emitted for it, in row order. |
| Reduce.ReduceMeaning | benchmarks/metis/lib/reduce.c:86-94 | An application whose value modifier or combiner computes a commutative and associative operation, or that has neither, gets values that fold to the fold of all values emitted. |
| Store.MapPutKvs | benchmarks/metis/lib/btreebktmgr.c:78-85 | An entry goes to the column of its hash; the row then holds it besides what it held. |
| Store.BktRehash | benchmarks/metis/lib/btreebktmgr.c:109-120 | All entries of a backed-up bucket move; the key of each is new in its new bucket, so the duplicate-key assertion never fires. |
| Store.RehashRow | benchmarks/metis/lib/btreebktmgr.c:122-132 | A row rehashed to any other number of columns holds the same map. |
| Store.KvStore.MbksInit | benchmarks/metis/lib/kvstore.c:57-67 | Set-up of the table, before or after sampling, keeps every pair emitted so far. |
| Store.KvStore.MapPut | benchmarks/metis/lib/btreebktmgr.c:87-95 | A pair joins the pairs of its row; nothing is lost or duplicated. |
| Store.KvStore.MbksBak | benchmarks/metis/lib/btreebktmgr.c:134-139 | The backup holds all sampled pairs. |
| Store.KvStore.MapWorkerInit | benchmarks/metis/lib/kvstore.c:120-128 | A worker moves the sampled pairs of its row to the new table, once. |
| Store.KvStore.DoReduceTask | benchmarks/metis/lib/btreebktmgr.c:97-107 | The output of a column is the merge over the rows of the pairs that hash to it, sampled or not. |
| Store.ReducedOnce | benchmarks/metis/lib/btreebktmgr.c:97-107 | A key is in the output of a column if and only if it was emitted and the column is its hash modulo the number of columns. |
| Store.GroupRun | benchmarks/metis/lib/mr-sched.c:83-103 | A run without value modifier and combiner outputs for each key exactly all values emitted for it, in row order. |
| Store.ReduceRun | benchmarks/metis/lib/mr-sched.c:83-103 | A run of any such application hands on values that fold to the fold of all values emitted. |
| Job.MapPhase | benchmarks/metis/lib/mr-sched.c:60-81 | Any interleaving of the workers of a map phase puts every pair once; rows that were set up have no backup left. |
| Job.ReducePhase | benchmarks/metis/lib/mr-sched.c:83-103 | In every order in which the shared counter hands out the columns, each column is reduced, once, over all pairs of both phases. |
| Job.Run | benchmarks/metis/lib/mr-sched.c:114-232 | A whole run up to the merge phase, with or without sampling: every column is reduced over all pairs of both phases. |
| Job.RunHashed | benchmarks/metis/lib/btreebktmgr.c:87-95 | In the pairs of a run equal keys have equal hashes. |
| Job.KeyReduced | benchmarks/metis/lib/mr-sched.c:83-102 | Every key emitted in a run is reduced once, by the column of its hash, to the fold of all its values; no other key is. |
| TaskCount.IsPrime | benchmarks/metis/lib/kvstore.c:97-105 | The inner loop: no divisor q with 2 <= q and q * q < n. |
| TaskCount.Search | benchmarks/metis/lib/kvstore.c:95-111 | The search ends for every start, at the least accepted number not below it. |
| TaskCount.PrimeAbove | benchmarks/metis/lib/kvstore.c:96-111 | Primes without end, which is why it ends. |
| TaskCount.AcceptedAre | benchmarks/metis/lib/kvstore.c:99-104 | A number is accepted if and only if it is 0, 1, a prime or the square of a prime. |
| Presplitter.SampleSize | benchmarks/metis/lib/mr-sched.c:119-123 | The least number that is at least 1, at least five percent rounded down, and at least the number of CPUs or all splits; never more than all splits. |
| Presplitter.StepInv | benchmarks/metis/lib/presplitter.c:9-79 | Every step of any worker accounts for each ticket: mapped once, or with one worker. |
| Presplitter.ExactlyOnce | benchmarks/metis/lib/mr-sched.c:60-135 | In every interleaving a finished run has mapped every split exactly once over the sampling and the map phase. |
| Presplitter.NeverTwice | benchmarks/metis/lib/presplitter.c:9-18 | At no time has a split been mapped twice or out of range. |
| Presplitter.EveryRunEnds | benchmarks/metis/lib/mr-sched.c:60-135 | Every run ends within 3 steps for each split and 4 for each worker plus one, and can only end with every worker exited and every split mapped exactly once. |
| Presplitter.Overshoot | benchmarks/metis/lib/presplitter.c:74-79 | At the end of a phase the shared index is past the end by exactly one for each worker, and the next phase starts right nevertheless. |
| Presplitter.RowsHaveAll | benchmarks/metis/lib/mr-sched.c:60-81 | At any time every mapped split is in the row of one worker, as often as it was mapped. |
| Presplitter.SpreadOnce | benchmarks/metis/lib/mr-sched.c:60-135 | After a finished run, sampled or not, every split is in exactly one row, once. |
| Presplitter.HandedOutOnce | benchmarks/metis/lib/mr-sched.c:83-103 | The counter of the reduce workers hands out every task exactly once. |
| ThreadPool.StepInv | benchmarks/metis/lib/pthreadpool.c:29-81 | What every step of the handshake keeps, for any program of creates and joins and any number of threads. |
| ThreadPool.NoOverwrite | benchmarks/metis/lib/pthreadpool.c:37-41 | `arg` and `start_routine` are only written while the thread sleeps. |
| ThreadPool.PoolHolds | benchmarks/metis/lib/pthreadpool.c:29-81 | In every run every thread has run the jobs created for it, each once, in order, with its own argument, except perhaps the last one. |
| ThreadPool.JoinWaits | benchmarks/metis/lib/pthreadpool.c:47-54 | When a join returns, everything created for that thread has run. |
| ThreadPool.NotStuck | benchmarks/metis/lib/pthreadpool.c:29-81 | Until the program is finished some thread can move. |
| ThreadPool.EveryRunEnds | benchmarks/metis/lib/pthreadpool.c:29-81 | Every run of a program of n operations ends within 12 n steps, and can only end when every thread has run exactly the jobs created for it, in order. |
| Barrier.StepInv | benchmarks/metis/lib/psrs.c:29-54 | What every step of the barrier keeps, for any number of CPUs and rounds. |
| Barrier.NoEarlyExit | benchmarks/metis/lib/psrs.c:29-54 | No CPU leaves a round before all have entered it. |
| Barrier.FreedAfterCopies | benchmarks/metis/lib/psrs.c:236-280 | The input is not freed before every CPU has copied its chunk. |
| Barrier.BarrierHolds | benchmarks/metis/lib/psrs.c:29-54 | Both, in every state of every run. |
| Barrier.NotStuck | benchmarks/metis/lib/psrs.c:29-54 | As long as some CPU has calls left some CPU can move. |
| Barrier.EveryRunEnds | benchmarks/metis/lib/psrs.c:29-54 | If every CPU makes the same number of calls, every run ends, with all CPUs back from all their calls. |
| Psrs.ChunksTile | benchmarks/metis/lib/psrs.c:224-235 | With at least ncpus^3 elements every chunk is non-empty, each ends where the next starts, the first starts at 0 and the last ends at the end. |
| Psrs.CopyElems | benchmarks/metis/lib/psrs.c:157-191 | Exactly the elements of the range, across collections, also for an empty range. |
| Psrs.SelectPivots | benchmarks/metis/lib/psrs.c:268-274 | The in-place selection: each pivot is the right sample although earlier ones were overwritten, and the pivots are in order. |
| Psrs.MinPart | benchmarks/metis/lib/psrs.c:99-110 | A least remaining element. |
| Psrs.MergeSort | benchmarks/metis/lib/psrs.c:90-115 | The given number of least elements of the parts, in order, written right behind `start`; what is behind them is as before. |
| Psrs.PartSize | benchmarks/metis/lib/psrs.c:287-293 | The loop gives the difference of two columns of cuts, which is negative if more of them go back than forward. |
| Psrs.StartPos | benchmarks/metis/lib/psrs.c:303-306 | The sizes of all partitions before l, negative ones too, add up to the sum of the cuts for l. |
| Psrs.UpperSeparates | benchmarks/metis/lib/psrs.c:56-58 | Cuts as documented separate: what lies before a cut, in all lists, is not greater than what lies behind it. |
| Psrs.MergePartitions | benchmarks/metis/lib/psrs.c:287-311 | For any cuts within the lists: unless some partition has a negative size, every partition lies right behind those before it and consists of the least elements of its pieces. |
| Psrs.SegmentsApart | benchmarks/metis/lib/psrs.c:301-308 | No two CPUs write the same place of the output. |
| Psrs.PrefixHolds | benchmarks/metis/lib/psrs.c:300-311 | If the cuts of every list come in order, the partitions before l hold exactly what lies before the cuts for l. |
| Psrs.SortedIff | benchmarks/metis/lib/psrs.c:300-311 | If they do, the output is sorted if and only if every cut separates what lies before it in all lists from what lies behind it. |
| Psrs.WrittenTwice | benchmarks/metis/lib/psrs.c:90-115 | If pieces of a list overlap, an element of both is written twice. |
| PsrsRun.LocalLists | benchmarks/metis/lib/psrs.c:224-240 | Every list is the sorted chunk of its CPU, none is empty, and together they hold exactly the input. |
| PsrsRun.Samples | benchmarks/metis/lib/psrs.c:256-266 | Every sample is the one that its place among the samples calls for. |
| PsrsRun.Pivots | benchmarks/metis/lib/psrs.c:268-275 | Exactly the pivots of `PivotsOf`, one for each CPU but the first, in order, all of them elements of the lists. |
| PsrsRun.DivideAll | benchmarks/metis/lib/psrs.c:281-286 | The rows that `sublists` writes, or nothing exactly if one of them is undefined. |
| PsrsRun.TileIff | benchmarks/metis/lib/psrs.c:281-286 | The pieces of all lists are consecutive if and only if no range of one element is searched in any of them. |
| PsrsRun.PermutesIfRoomy | benchmarks/metis/lib/psrs.c:281-311 | Then the output is a permutation of the input, and sorted if and only if every cut separates. |
| PsrsRun.SortsIfWide | benchmarks/metis/lib/psrs.c:281-311 | If every range searched has two elements greater than the pivot searched for, the output is sorted. |
| PsrsRun.FewCpusRoomy | benchmarks/metis/lib/psrs.c:224-286 | Two or three CPUs never search a range of one element, whatever they sort. |
| PsrsRun.Run | benchmarks/metis/lib/psrs.c:203-314 | The whole sort with the division as coded: sorted with one CPU or few elements; a permutation with up to three CPUs, and otherwise if no range of one element is searched; then sorted if and only if every cut separates, and sorted if every range has two elements greater than its pivot. |
| Sublists.Divide | benchmarks/metis/lib/psrs.c:59-88 | The in-place recursion writes exactly the cuts of `Cut` and nothing else, or reads outside the list exactly if `Cut` is None. |
| Sublists.Search | benchmarks/metis/lib/bsearch.c:5-36 | One search, also with the count -1 that a range of one element gives it. |
| Sublists.OneElement | benchmarks/metis/lib/psrs.c:65-69 | With the count -1 the search goes back one place, to before its range. |
| Sublists.FoundIsUpper | benchmarks/metis/lib/psrs.c:65-69 | One cut is the promised one if and only if the last but one element of its range is greater than the pivot. |
| Sublists.PromiseKept | benchmarks/metis/lib/psrs.c:56-88 | All cuts are the promised ones if and only if every range searched has two elements greater than its middle pivot. |
| Sublists.TwoCpus | benchmarks/metis/lib/psrs.c:56-88 | For two CPUs: if and only if the last but one element of the list is greater than the pivot. |
| Sublists.CommentFails | benchmarks/metis/lib/psrs.c:56-69 | A list and a pivot of the run of two CPUs on the keys 1 to 8 for which the comment does not hold. |
| Sublists.CutsInOrder | benchmarks/metis/lib/psrs.c:59-88 | The cuts of a range come in order if and only if no range of one element is searched in it. |
| Sublists.RowIff | benchmarks/metis/lib/psrs.c:59-88 | A list is divided into consecutive pieces if and only if no range of one element is searched. |
| Sublists.OnceEach | benchmarks/metis/lib/psrs.c:281-286 | Pieces are consecutive if and only if every element lies in exactly one of them. |
| Sublists.TakenTwice | benchmarks/metis/lib/psrs.c:281-286 | If a range of one element is searched, and inside the list, some element lies in two pieces. |
| Sublists.WideIsRoomy | benchmarks/metis/lib/psrs.c:56-88 | Where all cuts are the promised ones no range of one element is searched. |
| Sublists.FewPivots | benchmarks/metis/lib/psrs.c:59-88 | With two or three CPUs none is, in a list of two elements or more. |
| Sublists.FourCpus | benchmarks/metis/lib/psrs.c:59-88 | With four CPUs one is if and only if exactly one element is not greater than the second pivot. |
| PsrsWitness.TwoNeverSort | benchmarks/metis/lib/psrs.c:203-314 | Two CPUs return for every increasing input of 8 elements or more, such as 1 to 8, a permutation that is not sorted. |
| PsrsWitness.NotPermuted | benchmarks/metis/lib/psrs.c:203-314 | An input of 343 elements for which seven CPUs return as many elements, but not a permutation: one is written twice and another lost. |
| PsrsWitness.ReadsOutside | benchmarks/metis/lib/psrs.c:203-314 | An input of 64 elements for which four CPUs search outside a list. |
| WordSplit.Splitter.Next | benchmarks/metis/app/wc.c:80-109 | A split ends at the first separator at or behind the split size, or at the end. |
| WordSplit.SepCodes | benchmarks/metis/app/wc.c:96-104 | The separators are blank, tab, carriage return, newline and NUL. |
| WordSplit.AllSplits | benchmarks/metis/app/wc.c:80-109 | The splits are contiguous, cover the text and end at word borders, for every text for which splitting ends. |
| WordSplit.SplittingEnds | benchmarks/metis/app/wc.c:88-105 | Splitting ends if and only if there are at least as many bytes as splits, or no separator. |
| WordSplit.MapSplit | benchmarks/metis/app/wc.c:111-151 | The words of a split, which `AreWords` says are its longest stretches of letters and apostrophes that start with a letter, in upper case; or an abort exactly if one is too long. |
| WordSplit.WordsAre | benchmarks/metis/app/wc.c:124-151 | The words found lie in the text one behind the other, each starts with a letter, goes on with letters and apostrophes and cannot be prolonged, and every letter of the text is in one of them. |
| WordSplit.OnlyWords | benchmarks/metis/app/wc.c:124-151 | No other sequence of words does so: the text determines its words. |
| WordSplit.AsciiLetters | benchmarks/metis/app/wc.c:125-141 | Letters and their upper case by their ASCII codes. |
| WordSplit.WordsConcat | benchmarks/metis/app/wc.c:111-151 | Words do not cross a separator. |
| WordSplit.SplitAndMap | benchmarks/metis/app/wc.c:80-151 | The words emitted over all splits are the words of the whole text, unless a word is too long. |
| WordCount.AddCommutes | benchmarks/metis/app/wc.c:175-183 | The 64-bit addition of `wordcount_vm` is commutative and associative, wrap-around included. |
| WordCount.Combine | benchmarks/metis/app/wc.c:164-173 | The in-place sum; only the first value changes. |
| WordCount.Reduce | benchmarks/metis/app/wc.c:153-162 | The sum of any values modulo 2^64. |
| WordCount.Emit | benchmarks/metis/lib/reduce.c:86-94 | What is emitted for a key: the single value under a value modifier, else the sum. |
| WordCount.Ones | benchmarks/metis/app/wc.c:153-183 | n ones add up to n modulo 2^64. |
| WordCountJob.TextCounted | benchmarks/metis/app/wc.c:80-183 | From text to counts: a text split at word borders, drawn by workers in any interleaving, sampled or not, mapped and reduced, with a value modifier, a combiner or neither: every word that lies in the text, and nothing else, is reduced once, and what is emitted for it is the number of its occurrences modulo 2^64. |
| WordCountJob.VmCounted | benchmarks/metis/app/wc.c:175-183 | With the value modifier the one value left for a word is its count modulo 2^64. |
| Inclusion.IncludeSection | src/kpatch/kpatch-build/create-diff-object.c:1635-1658 | Ends on cyclic graphs; what is newly included has all it calls for and lies in every closed set that holds the section. |
| Inclusion.IncludeSymbol | src/kpatch/kpatch-build/create-diff-object.c:1660-1683 | The same from a symbol. |
| Inclusion.LeastIsBound | src/kpatch/kpatch-build/create-diff-object.c:1635-1683 | The least set that holds the roots and is closed under the inclusion rules exists. |
| Inclusion.ClosedIff | src/kpatch/kpatch-build/create-diff-object.c:1635-1683 | Closed are exactly the sets that keep the inclusion rules, written out one by one. |
| Inclusion.IncludeRoots | src/kpatch/kpatch-build/create-diff-object.c:1635-1683 | From clear flags any sequence of root inclusions marks exactly that set, which keeps the rules. |
| Mangled.Strcmp | src/kpatch/kpatch-build/create-diff-object.c:350-379 | 0 if and only if the names are equal, for a first name with ".str1.", or have equal canonical forms. |
| Mangled.Str1Kept | src/kpatch/kpatch-build/create-diff-object.c:356-361 | Erasing digits behind dots neither makes nor breaks a ".str1.". |
| Mangled.CanonOfFill | src/kpatch/kpatch-build/create-diff-object.c:350-379 | The canonical form of a name is the form it fills: putting any digits behind the dots that ask for them does not change it. |
| Mangled.SameForm | src/kpatch/kpatch-build/create-diff-object.c:350-379 | Two names have equal canonical forms if and only if they differ at most in the digits behind the same dots. |
| Mangled.Str1Somewhere | src/kpatch/kpatch-build/create-diff-object.c:360-361 | The search for ".str1." looks at every place. |
| Mangled.Symmetric | src/kpatch/kpatch-build/create-diff-object.c:354-379 | The order of the names does not matter although only the first is searched for ".str1.". |
| Mangled.Reflexive | src/kpatch/kpatch-build/create-diff-object.c:354-379 | Every name matches itself. |
| Mangled.Transitive | src/kpatch/kpatch-build/create-diff-object.c:354-379 | With symmetry and reflexivity: an equivalence relation. |
| SpecialSections.ShouldKeep | src/kpatch/kpatch-build/create-diff-object.c:2224-2251 | Whether some rela of the group refers to an included function. |
| SpecialSections.UpdateExTable | src/kpatch/kpatch-build/create-diff-object.c:2253-2276 | Exactly the references into the group are stashed with their new addend; no addend changes. |
| SpecialSections.MoveGroup | src/kpatch/kpatch-build/create-diff-object.c:2325-2348 | Exactly the relas of the group move, in order, and their symbols are marked; doing the stash once for each of them is as doing it once. |
| SpecialSections.SameByte | src/kpatch/kpatch-build/create-diff-object.c:2321-2352 | A kept byte is found again at the number of kept bytes before it. |
| SpecialSections.Regenerate | src/kpatch/kpatch-build/create-diff-object.c:2278-2384 | The section holds exactly the bytes of the groups that have a rela to an included function, in order; its relas are exactly those of the kept groups, group by group, each following its byte; exactly their symbols are marked; with nothing kept the section is left out and unchanged. |
| SpecialSections.GroupsDecide | src/kpatch/kpatch-build/create-diff-object.c:2306-2323 | With groups that start at 0 and then one group size apart, a byte is kept if and only if some rela in its group refers to an included function. |
| SpecialSections.FixedGroups | src/kpatch/kpatch-build/create-diff-object.c:2306-2323 | For a fixed group size g: if and only if some such rela has the same offset divided by g. |
| SpecialSections.BytesCompacted | src/kpatch/kpatch-build/create-diff-object.c:2350-2353 | The compacted bytes are the kept bytes, each once and in order. |
| SpecialSections.BelowCounts | src/kpatch/kpatch-build/create-diff-object.c:2350-2353 | The new place of a byte is the number of kept bytes before it. |
| SpecialSections.FollowedAre | src/kpatch/kpatch-build/create-diff-object.c:2330-2339 | The relas that follow are those whose byte is kept, each at the new place of its byte. |
| SpecialSections.GroupAre | src/kpatch/kpatch-build/create-diff-object.c:2330-2339 | The relas of a group keep their order and move by as much as the group. |
| SpecialSections.ArrangedByStarts | src/kpatch/kpatch-build/create-diff-object.c:2303-2353 | The relas of the compacted section come group by group. |
| SpecialSections.FixupThenExTable | src/kpatch/kpatch-build/create-diff-object.c:2697-2715 | Over both passes every exception table reference to a kept byte of .fixup refers to that byte in the compacted section. |
| KpatchStrings.OffsetOfString | src/kpatch/kpatch-build/kpatch-elf.c:135-152 | The string lies at the offset returned; it is added, at the end, only if it was not there, and strings already there stay where they are. |
| KpatchStrings.ReadBack | src/kpatch/kpatch-build/kpatch-elf.c:135-152 | What is read at that offset is the string. |
| KpatchStrings.SymNameReads | src/kpatch/kpatch-build/create-klp-module.c:70-72 | A klp symbol name is the prefix, the object, a dot, the name, a comma and decimal digits that are worth the position. |
| KpatchStrings.OneSymName | src/kpatch/kpatch-build/create-klp-module.c:70-72 | There is only one such name. |
| KpatchStrings.SecNameReads | src/kpatch/kpatch-build/create-klp-module.c:127-128 | A klp section name is the prefix, the object, a dot and the section. |
| KpatchStrings.SymNameInjective | src/kpatch/kpatch-build/create-klp-module.c:70-72 | A klp symbol name determines object, name and position. |
| Dynrelas.Tables.Add | src/kpatch/kpatch-build/create-diff-object.c:3208-3269 | One more entry that stands for the relocation; all entries before still stand for theirs. |
| Dynrelas.CountRelas | src/kpatch/kpatch-build/create-diff-object.c:3115-3141 | An upper bound of the number of entries. |
| Dynrelas.ConvertSection | src/kpatch/kpatch-build/create-diff-object.c:3164-3285 | An error exactly if some relocation cannot be converted; else all dynamic relocations of the section are in the tables and gone from it, and exactly the symbols of other objects that they refer to are marked for removal. |
| Dynrelas.CreateIntermediate | src/kpatch/kpatch-build/create-diff-object.c:3099-3293 | Over all sections: an error exactly if some relocation cannot be converted; else the tables carry exactly the needed relas, in order, each with its own offset, type and addend and with object, name, position, type, binding, address and export flag of its symbol; the other relas stay; exactly the symbols of other objects that needed relas refer to are marked for removal; there is room for all entries. |
| Dynrelas.AllDynsAre | src/kpatch/kpatch-build/create-diff-object.c:3164-3285 | The dynamic relocations are those of the needed relas, section by section and in order, field by field. |
| KlpModule.FindRela | src/kpatch/kpatch-build/kpatch-elf.c:123-133 | The first rela at an offset, none exactly if there is none. |
| KlpModule.ReadEntry | src/kpatch/kpatch-build/create-klp-module.c:183-213 | From tables that stand for relocations, the entry read is the relocation of that index. |
| KlpModule.Kelf.FindOrAddSym | src/kpatch/kpatch-build/create-klp-module.c:39-110 | One symbol of the name, new, with its type and binding, only if there was none; no symbol is lost; local symbols are in front afterwards if and only if they were before and no local symbol was added to symbols of which the first is not local. |
| KlpModule.Kelf.AddRela | src/kpatch/kpatch-build/create-klp-module.c:115-225 | One more rela in the section of the name, all other sections as before. |
| KlpModule.CreateKlp | src/kpatch/kpatch-build/create-klp-module.c:158-227 | Every relocation is restored once and in order, with base section, offset, type, addend and symbol; its symbol and its section have names that read back as its own; each symbol exists once, with the type and binding of the first relocation against it, none exists without a relocation, and each section has relocations; if the first symbol is local, local symbols are in front afterwards exactly if they were before. |
| KlpModule.ThereAndBack | src/kpatch/kpatch-build/create-diff-object.c:3099-3293 | Encoding and then decoding: for every section with needed relas, and only for such, there is one klp section, on the same base, and its relas are the needed ones in order, each with its offset, type and addend and against the klp symbol of the symbol looked up; there is one symbol for each, typed by a rela against it, and none besides; the other relas stay; the order of local symbols is kept. |
| KlpModule.SectionIs | src/kpatch/kpatch-build/create-klp-module.c:112-225 | The klp section of a section brings exactly its needed relas. |
| KlpModule.SymbolsAre | src/kpatch/kpatch-build/create-klp-module.c:39-110 | The klp symbols are exactly those of the needed relas. |
| CpuRange.StrRange | benchmarks/fxmark/bin/cpuinfo.py:110-120 | The loops print the spans of the sequence, with one dash for each span of three or more. |
| CpuRange.SpansApart | benchmarks/fxmark/bin/cpuinfo.py:110-116 | No span starts one above the end of the span before it. |
| CpuRange.ShowShape | benchmarks/fxmark/bin/cpuinfo.py:117-120 | A span of three or more is printed with one dash, one of two with a comma, one of one with neither. |
| CpuRange.SpansExpand | benchmarks/fxmark/bin/cpuinfo.py:110-116 | The spans expand to the sequence, in order, none of them empty. |
| CpuRange.ParseRange | benchmarks/fxmark/bin/cpuinfo.py:93-108 | The meaning of any string; None where the source raises ValueError. |
| CpuRange.MeaningIff | benchmarks/fxmark/bin/cpuinfo.py:93-108 | A text of pieces without commas, joined by commas and set in white space, means the concatenation of what its pieces mean, and nothing if one of them means nothing. |
| CpuRange.EveryText | benchmarks/fxmark/bin/cpuinfo.py:93-108 | Every text is blank or of that form. |
| CpuRange.BlankMeans | benchmarks/fxmark/bin/cpuinfo.py:96-97 | A blank text means the empty sequence. |
| CpuRange.PieceIff | benchmarks/fxmark/bin/cpuinfo.py:101-107 | A piece is a number, or two numbers with a dash that mean the numbers from one to the other, none if the first is greater; nothing else is a piece. |
| CpuRange.Padding | benchmarks/fxmark/bin/cpuinfo.py:96-100 | White space around a text does not change its meaning. |
| CpuRange.SpaceCodes | benchmarks/fxmark/bin/cpuinfo.py:96-100 | White space by its ASCII codes. |
| CpuRange.JoinSplit | benchmarks/fxmark/bin/cpuinfo.py:100-101 | Joining undoes splitting, and no piece has the separator. |
| Decimal.NumberIsPlaces | benchmarks/fxmark/bin/cpuinfo.py:102-105 | Digits are worth the sum of their places. |
| Decimal.NoZeroInFront | benchmarks/fxmark/bin/cpuinfo.py:117-120 | A number is printed without a zero in front. |
| CpuRange.RoundTrip | benchmarks/fxmark/bin/cpuinfo.py:93-120 | Printing and parsing gives back any sequence of natural numbers, sorted or not, with repeats. |
| CpuRange.PrintThenParse | benchmarks/fxmark/bin/cpuinfo.py:93-120 | The same of the two programs. |

## Left out

- Freeing of B+tree nodes (`btree_delete_level`) and all other memory reclamation and allocation failure.
- Map-only applications and the append buckets, and the sampling estimator that feeds the search for a number of tasks.
- More than one scheduler run in one process: the static counters are not reset.
- Job.Run: the merge phase; the sort it uses is modelled on its own in `PsrsRun`, and its reducing variant is `Reduce.GroupKvs` on slices.
- `mergesort.c`, which is never taken because `use_psrs` is 1.
- Weak memory, affinity, timing, profiling and performance counters.
- 32-bit overflow of `int` and `unsigned` counters and offsets in both programs.
- Sublists.Divide: what a read outside the list returns, and all that follows from it; the run then has no result.
- Psrs.MergePartitions: a partition of negative size, which `mergesort` takes for a huge one; the run then has no result.
- PsrsRun.Run: the variant with `doreduce`, which reduces the pieces instead of merging them.
- TaskCount.IsPrime: the rounding of `sqrt` to double; q < sqrt(n) is read as q * q < n.
- ThreadPool.StepInv: a create for the main CPU, which is a plain call.
- Store.KvStore.MapPut: the bucket is the listing of a B+tree, not the tree itself; `BTree` and `BTreeIter` prove that the tree has that listing.
- SpecialSections.ShouldKeep: the further test for jump labels in `__jump_table`, and the ORC sections.
- SpecialSections.Regenerate: the flag of the section symbol that goes with an included section.
- Dynrelas.CreateIntermediate: the choice of relocations that need to be dynamic (`need_dynrela`) is a parameter.
- Correlation of sections and symbols, powerpc branches, instruction decoding, libelf and `.klp.arch` sections.
- CpuRange.ParseRange: digits other than ASCII digits.
- WordSplit.MapSplit: characters outside ASCII, for which `toupper` depends on the locale.
- The other scripts, benchmarks and libraries of the repository, which are plumbing around system calls and files.
