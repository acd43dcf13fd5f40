# Verified models of the course projects

This project states and proves in Dafny what the harder parts of this repository do. Each
part is modelled in the form of its source: objects and arrays that are changed in place become
classes and arrays with methods, protocols of several processes become state machines over
their system calls or memory accesses, and the results are theorems about every input, every
run or every reachable state.

- **Frequent-pattern miner** (`Itemsets`, `FPTree`, `FPGrowth`). The prefix tree with its header
  chains, the two scans, and the recursive search with the single-path shortcut return
  exactly the frequent itemsets with their supports. Transactions have no repeated items and no
  item is -1, the mark of the root.
- **Hash-chained file database** (`DbFormat`, `DbFile`, `DbState`, `DbSizes`, `DbDisk`, `Db`). Two
  files of characters, rewritten in place, behave like a finite map through append, reuse of free
  records, overwriting and delete-then-append; `DbDisk` says which runs stop at a limit. `DbConcurrent*` is the same protocol with any number of processes and
  byte-range locks, one file access or lock per step: it is linearizable, every call adds, takes and
  frees exactly the records it should, no processes wait in a circle, and every call can come to its end.
- **Sparse assembly and conjugate gradient** (`Sparse*`, `Vectors`, `Cg*`, `ConjGrad`). Doubles are
  reals. The assembly in place yields the matrix it is meant to, and the solver on it has the
  properties of conjugate gradients in exact arithmetic: true residuals, full orthogonality and
  conjugacy, optimality, and at most as many steps as unknowns. With a positive diagonal term the
  matrix is positive definite, and the solver breaks off only with the solution.
- **Pages and page tables** (`PageTables`, `PageCounts`, `PageModel`, `PageMemory`, `TaskMemory`,
  `TaskLife`, `TaskFree`, `PageOverflow`, `PageRuns`). Inserting and removing pages refine update and
  removal of the abstract translation of every address space; reference counts are the numbers of
  uses in 16 bits; a task gets what it needs exactly if there is enough memory, and then gives back all
  it took. `PageLock` is the allocator on several processors with a spin lock, with what every call of it
  does over every interleaving.
- **Semaphore protocol** (`Semaphore*`). Creating, opening, closing and exiting, with the undo of
  System V semaphores, for fewer than BIGCOUNT processes.
- **Smaller parts.** The print spooler's job queue (`JobQueue`), the prime counter (`Primes`) and the
  kernel's number printer and parser (`KernelNumbers`).

## What the models show about the code

- `db_store` that replaces data of another length deletes the record before it appends the new one.
  If the append exceeds a limit, the process stops and the key is gone (`Db.ReplacedIsLost`,
  `Db.LoseKey`).
- `db_store` does not refuse a key with the separator of the index file; once it has written the record,
  every call that reads it stops (`Db.Database.Store`, `DbFormat.RecordReadable`, `Db.BreakChain`).
- The space check of `sparse` compares the last index with the array size and so lets one slot too
  many pass; with the array size of the program it cannot matter (`SparseAssembly.CheckTooLate`,
  `SparseVectors.MakeA`).
- In exact arithmetic the fixed 25 steps of `conj_grad` need at least 25 unknowns: on fewer, a divisor
  is zero before (`CgResults.AtMostDimension`).
- `task_create` compares the result of `page_insert` with -1, but the failure value is -4. It still
  notices when there is no page for the rest of the stack, so that it reports success with a page
  missing only if that is the last page and it needs a table of its own (`TaskLife.TaskCreate`,
  `TaskFree.StackPageMissing`); the page that was to be inserted is then lost for good
  (`TaskFree.CreateAndFree`). At the stack address of the program this cannot be
  (`TaskFree.StackShares`).
- A process asleep in `sem_create` when the set is removed gets the error for a removed identifier and
  stops; only the error for an invalid one is retried (`SemaphoreRuns.NeverStranded`,
  `SemaphoreRuns.AsleepAtRemoval`).
- The undo of an exit stops at zero: a process that signalled and then exits after the value has been
  used up leaves the value too large for those that remain (`SemaphoreValue.ExitCutShort`,
  `SemaphoreValue.ValueExact`).
- Reference counts have 16 bits: a page mapped at 65537 addresses has count 1, and removing one of the
  mappings puts it on the free list (`PageOverflow.RemoveOne`). Removing a static mapping leaves a
  wrong count (`PageMemory.Memory.PageRemove`, `TaskFree.RemoveStatic`).
- The assertions of `page_free` do not notice a second release of the last page of the list
  (`PageMemory.FreedTwice`, `PageMemory.LastPushed`).
- The prime counter reports four primes and the largest prime 11 for every limit below 11
  (`Primes.CountPrimes`).

## Model

| member | source | states |
|---|---|---|
| FPGrowth.Mine | 2018_1_Data_Science/hw2/main.cc:13-38 | for any transactions without repeated items and any integer threshold, the result maps exactly the non-empty itemsets that occur and reach the threshold to their exact support |
| FPGrowth.ThresholdIsMet | 2018_1_Data_Science/hw2/fpgrowth.cc:106-108 | a result of that kind is the set of all itemsets whose support reaches the threshold if and only if the threshold is at least 1; below 1 an itemset that never occurs is missing |
| FPGrowth.FPgrowth.FindPattern | 2018_1_Data_Science/hw2/fpgrowth.cc:124-191 | on any tree of ordered, frequent items the recursive search returns exactly the frequent itemsets of the transactions inserted into the tree, each with its support; it terminates because conditional transactions are strictly shorter than the longest one |
| FPGrowth.FPgrowth.IsSinglePath | 2018_1_Data_Science/hw2/fpgrowth.cc:193-202 | true if and only if every path of the tree is a prefix of one path |
| FPGrowth.FPgrowth.PathPatterns | 2018_1_Data_Science/hw2/fpgrowth.cc:126-142 | on a tree that is a single path the shortcut lists every non-empty set of items on the path with its support |
| FPGrowth.AddToAll | 2018_1_Data_Science/hw2/fpgrowth.cc:132-140 | inserting into the map that is being iterated, in order of set size, adds the new item alone and to every old itemset, and nothing else |
| FPGrowth.PathSupport | 2018_1_Data_Science/hw2/fpgrowth.cc:129-138 | along a single path an itemset occurs as often as its deepest item |
| FPGrowth.SubsetsAreAnswer | 2018_1_Data_Science/hw2/fpgrowth.cc:126-142 | the subsets of a single path of frequent items are exactly the frequent itemsets |
| FPGrowth.FPgrowth.Climb | 2018_1_Data_Science/hw2/fpgrowth.cc:153-165 | the walk from a node to the root collects the items above the node in reverse and adds the node frequency once per item |
| FPGrowth.FPgrowth.Collect | 2018_1_Data_Science/hw2/fpgrowth.cc:145-170 | walking the header chain of an item gives its support, transactions whose supports are those of the itemsets together with the item, and the support of every single item in them |
| FPGrowth.FPgrowth.ConditionalTree | 2018_1_Data_Science/hw2/fpgrowth.cc:171-179 | the conditional tree holds the collected transactions restricted to the items that reach the threshold among them |
| FPGrowth.ConditionalAnswer | 2018_1_Data_Science/hw2/fpgrowth.cc:171-188 | the frequent itemsets of the restricted conditional transactions are exactly those that are frequent together with the item |
| FPGrowth.ConditionalIsMineable | 2018_1_Data_Science/hw2/fpgrowth.cc:166-180 | a conditional tree again has ordered transactions, with a smaller longest transaction and only items strictly above the chosen item in the global order |
| FPGrowth.FPgrowth.PatternsEndingIn | 2018_1_Data_Science/hw2/fpgrowth.cc:146-180 | for one header item: all frequent itemsets whose last item in the global order it is, without it, with the support they have together with it |
| FPGrowth.Merge | 2018_1_Data_Science/hw2/fpgrowth.cc:181-187 | merging adds the item to every pattern found for it and adds the item alone, and changes no itemset found before |
| FPGrowth.FoundAll | 2018_1_Data_Science/hw2/fpgrowth.cc:145-189 | once all header items are done every frequent itemset has been found |
| FPGrowth.FPgrowth.CountItemFrequency | 2018_1_Data_Science/hw2/fpgrowth.cc:95-104 | adds to every item the number of its occurrences, and one to the number of transactions |
| FPGrowth.FPgrowth.SortAndTrimTransaction | 2018_1_Data_Science/hw2/fpgrowth.cc:110-122 | the result is sorted by rising frequency, and by rising item among equal frequencies, and holds exactly the occurrences of items that reach the threshold |
| FPGrowth.SortIsSorted | 2018_1_Data_Science/hw2/fpgrowth.cc:111-117 | the sort is a permutation sorted by the comparator |
| FPGrowth.TrimIsExact | 2018_1_Data_Science/hw2/fpgrowth.cc:118-121 | cutting a sorted transaction at its first frequent item removes exactly the infrequent ones |
| FPGrowth.ScanAnswer | 2018_1_Data_Science/hw2/main.cc:25-38 | dropping infrequent items before building the tree changes neither which itemsets are frequent nor their supports |
| FPTrees.FPTree.InsertNodes | 2018_1_Data_Science/hw2/fpgrowth.cc:45-71 | inserts one transaction: the tree then stands for the old transactions and the reversed new one with its weight, in place and keeping tree shape, counts and header chains |
| FPTrees.FPTree.FindChild | 2018_1_Data_Science/hw2/fpgrowth.cc:49-51 | finds the child for an item exactly if the path with that item is in the tree |
| FPTrees.FPTree.ChainEnd | 2018_1_Data_Science/hw2/fpgrowth.cc:56-59 | following the links from the header ends at the last node of the chain |
| FPTrees.FPTree.Attach | 2018_1_Data_Science/hw2/fpgrowth.cc:53-65 | a new node is hung below its parent and at the end of its header chain |
| FPTrees.FPTree.ChainIsComplete | 2018_1_Data_Science/hw2/fpgrowth.cc:54-63 | the header chain of an item visits every node of that item exactly once |
| FPTrees.BranchSupport | 2018_1_Data_Science/hw2/fpgrowth.cc:145-170 | over all nodes of an item, the summed frequency of those whose ancestors contain a set of companions is the weight of the transactions that contain them all |
| Itemsets.KeepAllSupport | 2018_1_Data_Science/hw2/fpgrowth.cc:172-178 | removing items from all transactions keeps the support of every itemset made of kept items |
| Db.Database.constructor | 2018_2_Unix_Programming/apue.2e/db/db.c:84-166 | a new database: an index file with an empty free list and empty chains that stands for the empty map |
| Db.Database.Store | 2018_2_Unix_Programming/apue.2e/db/db.c:639-748 | insert, replace and store return exactly what the map, the free sizes and the file lengths call for, including the stop on a record or offset over its limit, and afterwards the files stand for the map with the effect of the call; a key with a separator is not refused, and exactly if its record gets written the file has a record that stops whoever reads it, the first of its chain if the store succeeds |
| Db.ReplacedIsLost | 2018_2_Unix_Programming/apue.2e/db/db.c:702-733 | a store loses the key it is to replace if and only if the new data has another legal length and its record is over a limit |
| Db.LoseKey | 2018_2_Unix_Programming/apue.2e/db/db.c:709-726 | on a new database, a key of 1019 characters is stored with one character of data and lost when nine are to replace it |
| Db.BreakChain | 2018_2_Unix_Programming/apue.2e/db/db.c:639-690 | on a new database, storing under the key a:b succeeds and leaves a record at the head of its chain that stops whoever reads it |
| Db.Database.StoreNew | 2018_2_Unix_Programming/apue.2e/db/db.c:675-701 | a new key is stored in a free record of its sizes if there is one and appended otherwise; reply, map, free sizes and file lengths are determined |
| Db.Database.StoreAgain | 2018_2_Unix_Programming/apue.2e/db/db.c:714-740 | a key that is there gets new data in place if the length is the same; otherwise its record becomes free and a new one is appended; reply, map, free sizes and file lengths are determined |
| DbSizes.OneSize | 2018_2_Unix_Programming/apue.2e/db/db.c:499-522 | if one record changes its sizes or its chain, the sizes of the free records change by that record alone |
| DbSizes.SizeOfFree | 2018_2_Unix_Programming/apue.2e/db/db.c:770-790 | a size is among the free sizes if and only if a record on the free list has it |
| Db.Broken | 2018_2_Unix_Programming/apue.2e/db/db.c:590-612 | a record whose key has a separator cannot be read back from where it was written, also after it has become the first of its chain |
| Db.Database.Fetch | 2018_2_Unix_Programming/apue.2e/db/db.c:233-253 | returns the data of the key if the map has it, and nothing otherwise, leaving the files alone |
| Db.Database.Delete | 2018_2_Unix_Programming/apue.2e/db/db.c:440-456 | returns 0 and removes the key if it is there, -1 and no change otherwise |
| Db.Database.Run | 2018_2_Unix_Programming/apue.2e/db/db.c:233-748 | for any sequence of calls the answers, the call that stops the process if one does, and the map, the sizes of the free records and the lengths of both files at the end are determined by the same four things at the start |
| DbDisk.RunIsMap | 2018_2_Unix_Programming/apue.2e/db/db.c:233-748 | the answers of such a run are those of a finite map, call by call; if all calls are answered the map at the end is what the calls make of it, and if one is not, it is a store that leaves the map alone or has lost its key |
| DbDisk.RunsThrough | 2018_2_Unix_Programming/apue.2e/db/db.c:567-614 | if every store has legal data and a key short enough for its record and the files have room for as many of the longest records as there are stores, every call is answered |
| DbDisk.ReactionIsMap | 2018_2_Unix_Programming/apue.2e/db/db.c:639-748 | a call that is answered is answered as by the map and has its effect; one that is not is a store |
| DbDisk.MapLaws | 2018_2_Unix_Programming/apue.2e/db/db.c:639-748 | what is stored is fetched until it is deleted, no call changes another key, and which calls are refused |
| DbDisk.StoreGrows | 2018_2_Unix_Programming/apue.2e/db/db.c:675-740 | an answered store adds no record if the data has the old length, or if the key is new and a free record has its sizes, which then is free no more; otherwise it adds exactly one, and the record it replaces becomes free |
| DbDisk.StoreLimits | 2018_2_Unix_Programming/apue.2e/db/db.c:573-585 | the limits in numbers: a new key that finds no free record is stored if and only if the data has 1 to 1023 characters, the record 6 to 1024, and the index file at most 999999 |
| Db.Database.Perform | 2018_2_Unix_Programming/apue.2e/db/db.c:233-748 | one call of any kind: exactly when it stops the process, its answer otherwise, and the map, the free sizes and the file lengths afterwards |
| Db.Database.FindAndLock | 2018_2_Unix_Programming/apue.2e/db/db.c:259-301 | the chain walk finds a key if and only if the map has it, and leaves the position of the record and of the pointer to it |
| Db.Database.ReadIndex | 2018_2_Unix_Programming/apue.2e/db/db.c:343-418 | reading at the offset of a record gives back its pointer, key, data offset and data length |
| Db.Database.WriteIdx | 2018_2_Unix_Programming/apue.2e/db/db.c:567-614 | writes a record unless its length or pointer is over the limit, exactly at the given offset |
| Db.Database.WritePtr | 2018_2_Unix_Programming/apue.2e/db/db.c:620-633 | overwrites one pointer field unless the value is too large |
| Db.Database.WriteDat | 2018_2_Unix_Programming/apue.2e/db/db.c:531-560 | writes data and newline at the offset and remembers offset and length |
| Db.Database.ReadDat | 2018_2_Unix_Programming/apue.2e/db/db.c:424-435 | gives back the data without the newline |
| Db.Database.DoDelete | 2018_2_Unix_Programming/apue.2e/db/db.c:463-525 | deletes the record found: its data becomes blanks and no other character of the data file changes, it is put on the free list and bypassed, the files keep their lengths, and the map loses exactly its key |
| Db.Database.FindFree | 2018_2_Unix_Programming/apue.2e/db/db.c:754-807 | takes a record off the free list if and only if one has the key length and the data length asked for, namely the first of them, and the free sizes lose exactly that size |
| Db.Database.StoreAppend | 2018_2_Unix_Programming/apue.2e/db/db.c:678-690 | appends a record and its data and links it, unless a limit is exceeded; then nothing changes in the map; with a separator in the key the record is broken |
| Db.Database.StoreReuse | 2018_2_Unix_Programming/apue.2e/db/db.c:691-701 | fills a free record of the same size in place and links it; the map gains the key; with a separator in the key the record is broken |
| Db.Database.NextRec | 2018_2_Unix_Programming/apue.2e/db/db.c:837-877 | returns the next record that is not blank with its data, or the end |
| Db.Database.Rewind | 2018_2_Unix_Programming/apue.2e/db/db.c:814-829 | sets the scan to the first record |
| Db.Database.ReadAll | 2018_2_Unix_Programming/apue.2e/db/db.c:814-877 | after a rewind, reading to the end gives every live key with its current data exactly once and no deleted record |
| Db.DeletedRepresents | 2018_2_Unix_Programming/apue.2e/db/db.c:463-525 | the state after a deletion stands for the map without the key |
| Db.DeletedFile | 2018_2_Unix_Programming/apue.2e/db/db.c:499-522 | the three writes to the index file turn the file of the old state into the file of the new one |
| Db.NonBlankIsContents | 2018_2_Unix_Programming/apue.2e/db/db.c:837-877 | the records that are not blank are exactly the entries of the map |
| DbState.UnlinkRepresents | 2018_2_Unix_Programming/apue.2e/db/db.c:516-522 | taking a record out of its chain removes its key from the map and nothing else |
| DbState.RewriteRepresents | 2018_2_Unix_Programming/apue.2e/db/db.c:486-509 | rewriting a record that is on no chain, at its own length, keeps the map |
| DbState.LinkRepresents | 2018_2_Unix_Programming/apue.2e/db/db.c:685-699 | linking a record at the front of its chain adds its key with its data |
| DbState.AppendRepresents | 2018_2_Unix_Programming/apue.2e/db/db.c:678-683 | an appended record that is on no list keeps the map |
| DbState.OverwriteRepresents | 2018_2_Unix_Programming/apue.2e/db/db.c:735-739 | overwriting data of the same length changes the value of one key |
| DbState.LookupOnChain | 2018_2_Unix_Programming/apue.2e/db/db.c:285-300 | a key of the map is on the chain of its hash and on no other |
| DbFile.ReadRecord | 2018_2_Unix_Programming/apue.2e/db/db.c:343-418 | a record is read back from the concatenated file at its offset |
| DbFile.ReadHead | 2018_2_Unix_Programming/apue.2e/db/db.c:323-334 | a chain head is read back from the header |
| DbFile.WriteRecord | 2018_2_Unix_Programming/apue.2e/db/db.c:567-614 | writing a record of the same length at its offset replaces exactly that record |
| DbFile.WriteHead | 2018_2_Unix_Programming/apue.2e/db/db.c:620-633 | writing a pointer in the header replaces exactly that chain head |
| DbFile.WriteChainPtr | 2018_2_Unix_Programming/apue.2e/db/db.c:620-633 | writing at the offset of a record replaces exactly its pointer |
| DbFile.AppendRecord | 2018_2_Unix_Programming/apue.2e/db/db.c:567-614 | writing at the end of the file appends exactly one record |
| DbFile.OffsetsDistinct | 2018_2_Unix_Programming/apue.2e/db/db.c:343-418 | different records have different offsets, none of them 0 |
| DbFormat.RecordRoundTrip | 2018_2_Unix_Programming/apue.2e/db/db.c:343-418 | an encoded index record is parsed back to the record that was written, whatever surrounds it |
| DbFormat.RecordReadable | 2018_2_Unix_Programming/apue.2e/db/db.c:382-418 | a record of legal size is parsed back if and only if its key has no separator; otherwise reading it stops the process |
| DbFormat.PaddedRoundTrip | 2018_2_Unix_Programming/apue.2e/db/db.c:323-334 | a blank-padded decimal number is read back by atol |
| DbFormat.DecimalRoundTrip | 2018_2_Unix_Programming/apue.2e/db/db.c:578-582 | a decimal number is read back by atol |
| DbFormat.EncodeLength | 2018_2_Unix_Programming/apue.2e/db/db.c:582-585 | the length field of a record says how long it is |
| DbFormat.EncodeExample | 2018_2_Unix_Programming/apue.2e/db/db.c:578-585 | one record, character by character: pointer, length, key, data offset and data length |
| DbState.Hash | 2018_2_Unix_Programming/apue.2e/db/db.c:306-316 | the loop computes the chain of the key |
| DbState.BucketIsWeight | 2018_2_Unix_Programming/apue.2e/db/db.c:306-316 | the chain of a key is the sum of its signed characters, each times its position, modulo 2^64 and then modulo 137 |
| DbConcurrentRuns.Linearizable | 2018_2_Unix_Programming/apue.2e/db/db.c:233-301 | in every interleaving of any number of processes the completed calls, in the order of their last steps, are answered as a finite map answers them one after the other |
| DbConcurrentRuns.OnePlace | 2018_2_Unix_Programming/apue.2e/db/db.c:463-525 | at all times every index record is on exactly one chain, on the free list, or private to one process, and every list is an acyclic chain of pointers |
| DbConcurrentRuns.ChangesUnderLock | 2018_2_Unix_Programming/apue.2e/db/db.c:259-301 | a chain or a record on it changes only in a step of the process with its write lock, the free list only under its own lock; no step changes the size of a record |
| DbConcurrentCalls.CallComesTo | 2018_2_Unix_Programming/apue.2e/db/db.c:639-748 | over every interleaving, the steps of a call add exactly the records and data that it is due, and take from or give to the free list what it is due, by the value of its key when it got its chain; a store of a new key reuses a record and adds none if and only if one of its sizes was on the free list when it got the lock of the list, and otherwise adds exactly one |
| DbConcurrentCalls.NoneWasFree | 2018_2_Unix_Programming/apue.2e/db/db.c:770-783 | in every state a process that has found no record to reuse faces a free list without one of its sizes |
| DbConcurrentCalls.DueWhenAlone | 2018_2_Unix_Programming/apue.2e/db/db.c:639-748 | what a call is due is what the same call does to a database with one process |
| DbConcurrentBlank.FreeIsBlank | 2018_2_Unix_Programming/apue.2e/db/db.c:485-512 | in every state of every run the records on the free list have blank keys and blank data |
| DbConcurrentWaits.WaitOrder | 2018_2_Unix_Programming/apue.2e/db/db.c:259-301 | in every state of every run: if p waits for q and q for r, then p wants a chain lock, q wants the free list or the end of a file, and r can go on and waits for nobody |
| DbConcurrentWaits.NoCircle | 2018_2_Unix_Programming/apue.2e/db/db.c:259-301 | no processes ever wait for each other in a circle, of any length |
| DbConcurrentWaits.HeldUp | 2018_2_Unix_Programming/apue.2e/db/db.c:259-301 | a process inside a call is held up exactly when it waits for another one |
| DbConcurrentWaits.NoDeadlock | 2018_2_Unix_Programming/apue.2e/db/db.c:259-301 | a process inside a call, or the one it waits for, or the one that that one waits for, can take a step, and the step changes the state and brings its process nearer to the end of the call |
| DbConcurrentWaits.StepAllNearer | 2018_2_Unix_Programming/apue.2e/db/db.c:259-301 | whatever process takes a step, the steps and list positions that all processes together have before them get fewer: without new calls every run comes to its end |
| DbConcurrentWaits.OtherStays | 2018_2_Unix_Programming/apue.2e/db/db.c:259-301 | a step of one process does not lengthen what another one has before it |
| DbConcurrentWaits.CallsEnd | 2018_2_Unix_Programming/apue.2e/db/db.c:233-301 | from every state of every run all calls in progress can be brought to their ends |
| DbConcurrentRuns.RunSafe | 2018_2_Unix_Programming/apue.2e/db/db.c:233-301 | every state of every run satisfies the invariant |
| DbConcurrentRuns.StepSafe | 2018_2_Unix_Programming/apue.2e/db/db.c:259-301 | every step of every process keeps the invariant and changes only what its process controls |
| DbConcurrentMoves.StepUnlock | 2018_2_Unix_Programming/apue.2e/db/db.c:744-747 | giving back the chain lock at the end of a call is where its effect becomes that of the map |
| DbConcurrentMoves.StepFreeTake | 2018_2_Unix_Programming/apue.2e/db/db.c:782-792 | taking a record off the free list, which keeps the invariant and changes no other list |
| DbConcurrentMoves.StepBlankData | 2018_2_Unix_Programming/apue.2e/db/db.c:480-489 | the deletion takes its record out of the chain |
| DbConcurrentMoves.StepSetHead | 2018_2_Unix_Programming/apue.2e/db/db.c:685-699 | the new record becomes the head of its chain |
| DbConcurrentWrites.StepFillIdx | 2018_2_Unix_Programming/apue.2e/db/db.c:691-701 | a reused record is rewritten while it belongs to the process alone |
| DbConcurrentWrites.StepAppendIdx | 2018_2_Unix_Programming/apue.2e/db/db.c:592-613 | a record is appended under the append lock |
| DbConcurrentWrites.StepOverwrite | 2018_2_Unix_Programming/apue.2e/db/db.c:735-739 | a same-length replace overwrites the data under the chain lock |
| SparseAssembly.Assemble | 2018_1_Parallel_Programming/2_openmp/hw2/cg.c:528-691 | the assembly in place: it succeeds exactly if the reserved room fits, slips past the space check exactly if one slot is missing, and on success the arrays hold the compressed rows of the sum of the scaled outer products plus rcond - shift times the identity, columns strictly increasing; the exit for an internal error is not reachable |
| SparseAssembly.CheckTooLate | 2018_1_Parallel_Programming/2_openmp/hw2/cg.c:578-588 | two vectors for which the space check accepts arrays that are a slot too small |
| SparseVectors.MakeA | 2018_1_Parallel_Programming/2_openmp/hw2/cg.c:469-521 | with arrays of n (nonzer + 1)^2 slots the space check never fails and the generated matrix is the one of the vectors drawn, and symmetric |
| SparseAssembly.MatrixSymmetric | 2018_1_Parallel_Programming/2_openmp/hw2/cg.c:606-663 | the assembled matrix is symmetric |
| SparseAssembly.RoomEnough | 2018_1_Parallel_Programming/2_openmp/hw2/cg.c:574-588 | the reserved room is at most n w^2 if no vector has more than w elements |
| Sparse.CountRows | 2018_1_Parallel_Programming/2_openmp/hw2/cg.c:561-577 | counting and prefix sums give every row room for all elements that will be added to it |
| SparseAssembly.Preload | 2018_1_Parallel_Programming/2_openmp/hw2/cg.c:593-601 | all reserved slots are empty and no duplicates are counted |
| SparseAssembly.AddAll | 2018_1_Parallel_Programming/2_openmp/hw2/cg.c:606-663 | after all vectors every row holds the sum of their shares, in order, and its filled slots and counted duplicates make up its reserved room |
| Sparse.AddVector | 2018_1_Parallel_Programming/2_openmp/hw2/cg.c:610-661 | adding one vector advances exactly the rows of its columns |
| Sparse.AddToRow | 2018_1_Parallel_Programming/2_openmp/hw2/cg.c:613-660 | one row gains the scaled vector, and the diagonal term in its own vector |
| SparseRows.AddEntry | 2018_1_Parallel_Programming/2_openmp/hw2/cg.c:626-659 | one element is added to its column, keeping the columns in order; it is a duplicate exactly if the column was there |
| SparseRows.FindSlot | 2018_1_Parallel_Programming/2_openmp/hw2/cg.c:626-658 | the search always ends at an empty slot, the column itself or the first larger one |
| SparseRows.OpenSlot | 2018_1_Parallel_Programming/2_openmp/hw2/cg.c:628-641 | shifting the filled slots opens a gap without changing the rest of the row |
| SparseAssembly.Accumulate | 2018_1_Parallel_Programming/2_openmp/hw2/cg.c:668-670 | running sums of the duplicates |
| SparseAssembly.Compact | 2018_1_Parallel_Programming/2_openmp/hw2/cg.c:672-685 | moving the rows together in place puts the filled slots of every row where they belong |
| SparseAssembly.MoveRow | 2018_1_Parallel_Programming/2_openmp/hw2/cg.c:680-684 | front to back, a row is copied down without overwriting a slot that has not been read |
| SparseAssembly.AdjustStarts | 2018_1_Parallel_Programming/2_openmp/hw2/cg.c:687-689 | the row starts after compaction are the running numbers of filled slots |
| SparseModel.EntryIsMatrix | 2018_1_Parallel_Programming/2_openmp/hw2/cg.c:606-663 | what the program adds up, with the diagonal term added in passing, is the sum of the scaled outer products plus a multiple of the identity |
| SparseModel.OuterSymmetric | 2018_1_Parallel_Programming/2_openmp/hw2/cg.c:606-663 | the sum of outer products is symmetric |
| SparseModel.PowerAdds | 2018_1_Parallel_Programming/2_openmp/hw2/cg.c:606-662 | the scale of the vectors is a power: exponents add up |
| SparseModel.RoomBound | 2018_1_Parallel_Programming/2_openmp/hw2/cg.c:566-578 | slots reserved by the first i vectors |
| SparseVectors.VecSet | 2018_1_Parallel_Programming/2_openmp/hw2/cg.c:751-769 | sets one component and no other, in its slot or in a new one |
| SparseVectors.SprNvc | 2018_1_Parallel_Programming/2_openmp/hw2/cg.c:703-735 | the vector is made of the first draws of the first nz different places in range: each column i and its draw x satisfy i - 1 <= nn1 x < i, no draw before it does, and no place drawn in range is missing |
| SparseVectors.PlaceExact | 2018_1_Parallel_Programming/2_openmp/hw2/cg.c:739-744 | the place of a number of the unit interval is the one integer i with i - 1 <= nn1 x < i, and lies between 1 and nn1 |
| SparseVectors.PlaceReached | 2018_1_Parallel_Programming/2_openmp/hw2/cg.c:739-744 | every integer from 1 to nn1 is the place of some number |
| SparseVectors.KeptFirst | 2018_1_Parallel_Programming/2_openmp/hw2/cg.c:721-731 | no place drawn in range is lost, and its value is that of its first draw |
| SparseVectors.MakeVectors | 2018_1_Parallel_Programming/2_openmp/hw2/cg.c:502-512 | row after row takes its vector from the next stretch of the random stream: the first draws of nonzer different places, shifted by one, with its own row set to one half; it fails only when the rest of the stream is too short |
| SparseVectors.PowerAbove | 2018_1_Parallel_Programming/2_openmp/hw2/cg.c:494-497 | the smallest power of two from 2 on that is not less than n |
| ConjGrad.Solve | 2018_1_Parallel_Programming/2_openmp/hw2/cg.c:300-441 | the arrays go through the conjugate gradient recurrence and stop only before a division by zero; after 25 steps the recomputed squared residual norm is that of the carried residual, and there are at least 25 unknowns |
| ConjGrad.Iterate | 2018_1_Parallel_Programming/2_openmp/hw2/cg.c:341-414 | one pass of the loop is one step of the recurrence exactly if neither divisor is zero |
| ConjGrad.Initialize | 2018_1_Parallel_Programming/2_openmp/hw2/cg.c:319-325 | the start: zero approximation, residual and direction equal to the right-hand side |
| ConjGrad.Multiply | 2018_1_Parallel_Programming/2_openmp/hw2/cg.c:354-361 | the product over compressed rows is the matrix-vector product |
| ConjGrad.ResidualNorm | 2018_1_Parallel_Programming/2_openmp/hw2/cg.c:421-440 | the sum of squares is the squared norm of x - A z |
| ConjGrad.SlotSumIsDot | 2018_1_Parallel_Programming/2_openmp/hw2/cg.c:356-360 | summing over the slots of a row is the inner product with the dense row |
| CgRun.ResidualIsTrue | 2018_1_Parallel_Programming/2_openmp/hw2/cg.c:386-391 | at every point of every run the carried residual is x - A z |
| CgRun.Orthogonality | 2018_1_Parallel_Programming/2_openmp/hw2/cg.c:341-414 | along every run on a symmetric matrix all residuals are mutually orthogonal, all directions conjugate, and every residual orthogonal to the earlier directions |
| CgRun.DirectionMeetsResidual | 2018_1_Parallel_Programming/2_openmp/hw2/cg.c:397-413 | residual times direction is the squared residual norm |
| CgResults.AtMostDimension | 2018_1_Parallel_Programming/2_openmp/hw2/cg.c:341-414 | no run makes more steps than there are unknowns, so that on fewer than 25 the fixed loop divides by zero |
| CgResults.BestSoFar | 2018_1_Parallel_Programming/2_openmp/hw2/cg.c:386-391 | on a positive semidefinite matrix no combination of the directions so far has less energy than the approximation |
| CgResults.HaltIsSolved | 2018_1_Parallel_Programming/2_openmp/hw2/cg.c:372-405 | on a positive definite matrix a zero divisor comes up only when the approximation solves the system |
| CgMatrix.QuadraticForm | 2018_1_Parallel_Programming/2_openmp/hw2/cg.c:528-691 | the quadratic form of the assembled matrix is the scaled sum of the squares of the inner products with the vectors, plus the diagonal term times the square of the argument |
| CgMatrix.MatrixDefinite | 2018_1_Parallel_Programming/2_openmp/hw2/cg.c:528-691 | with a positive diagonal term and a ratio that is not negative the assembled matrix is positive definite |
| CgMatrix.GenerateAndSolve | 2018_1_Parallel_Programming/2_openmp/hw2/cg.c:131-179 | generating the matrix and solving for the vector of ones: if the diagonal term is positive, the solver breaks off only with the exact solution |
| Vectors.Adjoint | 2018_1_Parallel_Programming/2_openmp/hw2/cg.c:354-370 | a symmetric matrix can be moved across an inner product |
| PageMemory.Memory.constructor | 2018_2_Operating_System_Design_and_Implementation/kernel/mem.c:277-331 | free are exactly the pages of base memory but pages 0 and 7, and the pages from 256 on that the kernel does not use; the others have count 1, and the list, its length and the counts agree |
| PageMemory.Memory.PageAlloc | 2018_2_Operating_System_Design_and_Implementation/kernel/mem.c:345-365 | takes the first page of the list, blank if asked to, or nothing if there is none; no address space translates differently |
| PageMemory.Memory.PageFree | 2018_2_Operating_System_Design_and_Implementation/kernel/mem.c:370-386 | a page that is not on the free list becomes its first; its two assertions also let the last page of the list pass, and then what is left is no list |
| PageMemory.Memory.PageDecref | 2018_2_Operating_System_Design_and_Implementation/kernel/mem.c:392-397 | the count goes down in 16 bits, and the page becomes the first of the free list exactly if the count was 1 |
| PageMemory.FreedTwice | 2018_2_Operating_System_Design_and_Implementation/kernel/mem.c:379-380 | the assertion on the link catches a second release of a page exactly if it is not the last of the list |
| PageMemory.LastPushed | 2018_2_Operating_System_Design_and_Implementation/kernel/mem.c:379-384 | after a second release of the last page no list starts at the head |
| PageMemory.Memory.PgdirWalk | 2018_2_Operating_System_Design_and_Implementation/kernel/mem.c:421-440 | finds the table of an address or makes one if asked to; nothing is mapped or unmapped by it, and it fails exactly if there is no table and none can or may be made; the word for a new table has its page and flags 7 |
| PageMemory.Memory.PageLookup | 2018_2_Operating_System_Design_and_Implementation/kernel/mem.c:517-525 | returns the page the address translates to, or nothing, and changes nothing |
| PageMemory.Memory.PageInsert | 2018_2_Operating_System_Design_and_Implementation/kernel/mem.c:491-504 | afterwards the address translates to the page, present and with exactly the permissions asked for, and every other address of every directory as before; it fails exactly if a table is needed and memory is out, changing nothing; counts and free list are right afterwards if and only if what is replaced had been inserted and is not overused, that is, does not have one use more than a multiple of 65536; inserting a page where it is changes no count |
| PageMemory.Memory.PageRemove | 2018_2_Operating_System_Design_and_Implementation/kernel/mem.c:542-552 | unmaps one address and no other; the page loses one reference and is given back exactly if its count was 1; counts and free list are right afterwards if and only if it had been inserted and is not overused, else a count is wrong or a page in use is free |
| PageOverflow.InsertMany | 2018_2_Operating_System_Design_and_Implementation/kernel/mem.c:491-504 | inserting a page at k vacant addresses makes k uses more, and the count is the number of uses modulo 65536; it fails exactly if there is no memory for the tables |
| PageOverflow.RemoveOne | 2018_2_Operating_System_Design_and_Implementation/inc/memlayout.h:182-187 | a new page mapped at k addresses and removed from one of them is on the free list while the other addresses still map to it if and only if k is more than 1 and one more than a multiple of 65536 |
| PageOverflow.FewestOverused | 2018_2_Operating_System_Design_and_Implementation/inc/memlayout.h:182-187 | the fewest such uses are 65537 |
| PageRuns.Run | 2018_2_Operating_System_Design_and_Implementation/kernel/mem.c:345-552 | for any sequence of mapping a new page, sharing a mapped page and unmapping, the translation of the address space, the free list, the slots with a table, all numbers of uses and the page that each operation maps, or that it fails, are determined by the first four at the start; no other address space changes |
| PageRuns.FreshThenDrop | 2018_2_Operating_System_Design_and_Implementation/kernel/mem.c:345-552 | mapping a new page and unmapping it again changes nothing, except that a table allocated for it stays |
| PageRuns.ShareThenDrop | 2018_2_Operating_System_Design_and_Implementation/kernel/mem.c:491-552 | unmapping the second address of a shared page undoes the sharing |
| PageRuns.UsesBounded | 2018_2_Operating_System_Design_and_Implementation/kernel/mem.c:491-504 | an insertion gives every page at most one use more |
| PageRuns.ShareMaps | 2018_2_Operating_System_Design_and_Implementation/kernel/mem.c:491-504 | sharing fails exactly if there is neither a table nor a page for one; otherwise the second address, and no other, translates to the page of the first, with the permissions asked for, and the page has one use more unless it was there |
| PageRuns.FreshMaps | 2018_2_Operating_System_Design_and_Implementation/kernel/mem.c:345-504 | a new page is the first free one and has one use; without a page for a table it is lost |
| PageRuns.DropUnmaps | 2018_2_Operating_System_Design_and_Implementation/kernel/mem.c:542-552 | unmapping leaves nothing at the address; the page has one use less and is the first free page if that was its last |
| PageModel.UnmapSound | 2018_2_Operating_System_Design_and_Implementation/kernel/mem.c:542-552 | removing an inserted page keeps counts, lists and tables sound |
| PageModel.MapSound | 2018_2_Operating_System_Design_and_Implementation/kernel/mem.c:491-504 | counting a page and writing its entry keeps counts, lists and tables sound |
| PageModel.HangSound | 2018_2_Operating_System_Design_and_Implementation/kernel/mem.c:429-437 | a new table is in use once and maps nothing |
| PageModel.AllocSound | 2018_2_Operating_System_Design_and_Implementation/kernel/mem.c:345-365 | taking a page keeps everything sound, and the page has no use |
| PageTables.WriteEntry | 2018_2_Operating_System_Design_and_Implementation/kernel/mem.c:896-908 | writing a table entry changes the translation of one page of one address space |
| PageTables.NewTable | 2018_2_Operating_System_Design_and_Implementation/kernel/mem.c:896-908 | hanging an empty table into a directory changes no translation |
| PageTables.DecodeEntry | 2018_2_Operating_System_Design_and_Implementation/kernel/mem.c:491-504 | a word put together from page and permissions is taken apart to the same page, present, and the same permissions |
| PageCounts.Popped | 2018_2_Operating_System_Design_and_Implementation/kernel/mem.c:352-362 | taking the first element leaves the list of the others |
| PageCounts.Pushed | 2018_2_Operating_System_Design_and_Implementation/kernel/mem.c:381-384 | pushing a page gives the list with it in front |
| PageCounts.CountUnmap | 2018_2_Operating_System_Design_and_Implementation/kernel/mem.c:392-397 | dropping one use lowers the count of one page by one |
| TaskMemory.BootMapRegion | 2018_2_Operating_System_Design_and_Implementation/kernel/mem.c:453-464 | exactly the stretch is remapped, to consecutive pages, present and with the permissions asked for; exactly the directory slots of the stretch get tables, and it fails if and only if there are too few free pages for them |
| TaskLife.SetupKvm | 2018_2_Operating_System_Design_and_Implementation/kernel/mem.c:644-665 | a new directory with the given static mappings and nothing else, made of pages that were free; it succeeds if and only if there is a page for the directory and for a table per directory slot of the regions; other address spaces translate as before |
| TaskLife.TaskCreate | 2018_2_Operating_System_Design_and_Implementation/kernel/task.c:102-152 | complete if and only if there are enough free pages for directory, tables and stack; then the stack is mapped to the inserted pages with flags 7, writable for the user, every other page as the kernel regions say, and what was free is now free or belongs to the address space; success is reported with the last stack page unmapped if and only if exactly one page is missing and that page needs a table of its own, and then the last page of the free list is neither free nor used; otherwise failure, and no page is free any more |
| TaskFree.StackPageMissing | 2018_2_Operating_System_Design_and_Implementation/kernel/task.c:124-133 | a memory of 14 pages and a stack address for which success is reported and the last stack page is not mapped |
| TaskFree.StackShares | 2018_2_Operating_System_Design_and_Implementation/kernel/task.c:125-125 | at the stack address of the program the last stack page shares its table, so that success means a complete stack |
| TaskFree.FreeTask | 2018_2_Operating_System_Design_and_Implementation/kernel/task.c:174-183 | stack pages, tables and directory are given back, each once, and nothing else, also if stack pages are missing at the end; other address spaces translate as before |
| TaskFree.CreateAndFree | 2018_2_Operating_System_Design_and_Implementation/kernel/task.c:102-183 | create and free: it succeeds if and only if there are enough pages or exactly the table of the last stack page is missing; all pages come back in the first case and all but the last one of the free list in the second |
| TaskFree.RemoveStatic | 2018_2_Operating_System_Design_and_Implementation/kernel/mem.c:527-552 | a new directory with one static mapping, which is then removed: the count of its frame is not the number of its uses |
| TaskFree.PtableRemove | 2018_2_Operating_System_Design_and_Implementation/kernel/mem.c:554-564 | every table of the directory loses its reference and is given back |
| TaskFree.Lifetime | 2018_2_Operating_System_Design_and_Implementation/kernel/task.c:102-183 | create, map any regions outside the stack, free: it runs to its end if and only if there are enough free pages for directory, tables and stack, and then the set of free pages and their number are what they were |
| PageLock.MutualExclusion | 2018_2_Operating_System_Design_and_Implementation/kernel/spinlock.c:52-101 | in every interleaving at most one processor is inside the locked section |
| PageLock.NoPanic | 2018_2_Operating_System_Design_and_Implementation/kernel/spinlock.c:52-101 | none of the checks that stop the kernel fails, neither those of the lock nor the two assertions of page_free, on the link and on the count |
| PageLock.NeverStuck | 2018_2_Operating_System_Design_and_Implementation/kernel/mem.c:345-386 | a processor inside a call can always take its next step: the page exists and the list is not empty when its head is taken |
| PageLock.SomeoneMoves | 2018_2_Operating_System_Design_and_Implementation/kernel/spinlock.c:52-101 | while a processor is inside a call some processor has a step that changes the state: the one with the lock if there is one |
| PageLock.ListSound | 2018_2_Operating_System_Design_and_Implementation/kernel/mem.c:345-386 | whenever the lock is free the list has no repeats and its length is the number of free pages |
| PageLock.OwnedOnce | 2018_2_Operating_System_Design_and_Implementation/kernel/mem.c:345-386 | no page is both free and owned, or owned twice |
| PageLock.PagesConserved | 2018_2_Operating_System_Design_and_Implementation/kernel/mem.c:345-386 | over every run no page is lost and none appears |
| PageLock.AllocCall | 2018_2_Operating_System_Design_and_Implementation/kernel/mem.c:345-368 | over every interleaving a processor comes out of page_alloc with exactly the page that was first on the list when it got the lock, and the list has lost exactly that page; it comes out with nothing if and only if the list was empty then |
| PageLock.FreeCall | 2018_2_Operating_System_Design_and_Implementation/kernel/mem.c:370-386 | a processor comes out of page_free with the page in front of the list as it was when it got the lock, and owns it no more |
| PageLock.StepSafe | 2018_2_Operating_System_Design_and_Implementation/kernel/spinlock.c:52-101 | every step of every processor keeps the invariant |
| SemaphoreRuns.CounterExact | 2018_2_Unix_Programming/apue.2e/lib/semaph.c:49-75 | in every run of fewer than BIGCOUNT processes the counter of an initialised set is BIGCOUNT less the number of holders, and an uninitialised set has no holders |
| SemaphoreRuns.InitialisedUnheld | 2018_2_Unix_Programming/apue.2e/lib/semaph.c:138-153 | the set is initialised only while nobody holds it |
| SemaphoreRuns.MutualExclusion | 2018_2_Unix_Programming/apue.2e/lib/semaph.c:49-54 | no two processes have the lock |
| SemaphoreRuns.RemovalExact | 2018_2_Unix_Programming/apue.2e/lib/semaph.c:243-249 | sem_close removes the set under a holder if and only if the counter has changed since it was read |
| SemaphoreRuns.LastCloseRemoves | 2018_2_Unix_Programming/apue.2e/lib/semaph.c:236-253 | a process that closes the set goes on to remove it if and only if nobody holds it when the counter is read |
| SemaphoreRuns.NewIsInitialised | 2018_2_Unix_Programming/apue.2e/lib/semaph.c:135-153 | a process that creates the set initialises it if and only if its counter is zero |
| SemaphoreRuns.RemovedUnheld | 2018_2_Unix_Programming/apue.2e/lib/semaph.c:222-253 | if processes attach only through sem_create and nobody calls sem_rm, the set is removed only when nobody holds it |
| SemaphoreRuns.NeverStranded | 2018_2_Unix_Programming/apue.2e/lib/semaph.c:124-128 | then no holder loses the set, and a call can fail if and only if its process is asleep waiting for the lock of a set that has been removed |
| SemaphoreRuns.AsleepAtRemoval | 2018_2_Unix_Programming/apue.2e/lib/semaph.c:117-128 | a run of two processes, through sem_create only, after which the second is in that state |
| SemaphoreRuns.StrandedByOpen | 2018_2_Unix_Programming/apue.2e/lib/semaph.c:188-194 | with sem_open a holder can be left with a removed set: a run of two processes |
| SemaphoreRuns.LockHolderGoesOn | 2018_2_Unix_Programming/apue.2e/lib/semaph.c:130-160 | a process with the lock is never held up before it gives it back |
| SemaphoreRuns.ExitReleases | 2018_2_Unix_Programming/apue.2e/lib/semaph.c:49-61 | an exit gives back the lock and counts the process out |
| SemaphoreValue.ValueExact | 2018_2_Unix_Programming/apue.2e/lib/semaph.c:284-291 | in every state the value is what it was set to plus the operations of all processes that have not exited since, if and only if no exit has been cut short at zero; otherwise it is more |
| SemaphoreValue.ExitCutShort | 2018_2_Unix_Programming/apue.2e/lib/semaph.c:70-75 | a run of two processes in which an exit is cut short |
| SemaphoreRuns.RunSafe | 2018_2_Unix_Programming/apue.2e/lib/semaph.c:49-75 | every state of every run satisfies the invariant |
| SemaphoreSafe.StepSafe | 2018_2_Unix_Programming/apue.2e/lib/semaph.c:89-253 | every system call of every process, and every exit, keeps the invariant |
| JobQueue.JobList.AddJob | 2018_2_Unix_Programming/apue.2e/ipp/printd.c:275-294 | appends a job, in place, keeping the list doubly linked |
| JobQueue.JobList.ReplaceJob | 2018_2_Unix_Programming/apue.2e/ipp/printd.c:301-313 | puts a job at the front |
| JobQueue.JobList.RemoveJob | 2018_2_Unix_Programming/apue.2e/ipp/printd.c:320-331 | takes a job out wherever it is; the others keep their order |
| JobQueue.Spooler.Submit | 2018_2_Unix_Programming/apue.2e/ipp/printd.c:275-294 | a submitted job is accepted last, and no job is lost, repeated or overtaken |
| JobQueue.Spooler.PickUp | 2018_2_Unix_Programming/apue.2e/ipp/printd.c:687-694 | the first job goes from the queue into the hand |
| JobQueue.Spooler.Finish | 2018_2_Unix_Programming/apue.2e/ipp/printd.c:717-824 | a printed or cancelled job is done |
| JobQueue.Spooler.Defer | 2018_2_Unix_Programming/apue.2e/ipp/printd.c:825-832 | a deferred job goes back to the front, as if it had not been picked up |
| JobQueue.OnePlace | 2018_2_Unix_Programming/apue.2e/ipp/printd.c:683-834 | a job is done, in hand or on the queue, and only one of these |
| JobQueue.Spooler.Run | 2018_2_Unix_Programming/apue.2e/ipp/printd.c:683-834 | any interleaving of submitting, picking up, finishing and deferring does to the linked list and the job in hand what it does to three sequences of job numbers |
| JobQueue.NothingLost | 2018_2_Unix_Programming/apue.2e/ipp/printd.c:683-834 | over every interleaving, what is done, in hand and waiting is, in this order, what was there and what was submitted |
| JobQueue.OneEvent | 2018_2_Unix_Programming/apue.2e/ipp/printd.c:683-834 | each event keeps the order of all jobs: a submission joins the queue, picking up takes one job into an empty hand, finishing makes what is in hand done, and deferring puts it back |
| JobQueue.DoneInOrder | 2018_2_Unix_Programming/apue.2e/ipp/printd.c:683-834 | at most one job is in hand, and done are the jobs done before and exactly as many more, in the order of submission, as were finished in hand |
| JobQueue.PickedUpAndDeferred | 2018_2_Unix_Programming/apue.2e/ipp/printd.c:825-832 | deferring a job that has just been picked up leaves everything as it was |
| JobQueue.SubmittedAlone | 2018_2_Unix_Programming/apue.2e/ipp/printd.c:683-834 | a job submitted to an idle printer, picked up and finished is done; deferred, it is on the queue again |
| Primes.CountPrimes | 2018_1_Parallel_Programming/3_mpi/hw3/prime.c:33-62 | for every limit and number of processes the count is the number of primes up to the limit if and only if the limit is at least 7, and the result is the largest prime up to it if the limit is at least 11; for every limit below 11 the count is 4 and the result 11 |
| Primes.TrialDivision | 2018_1_Parallel_Programming/3_mpi/hw3/prime.c:6-18 | for odd numbers over ten: prime if and only if no odd number up to the square root divides it |
| Primes.Scan | 2018_1_Parallel_Programming/3_mpi/hw3/prime.c:35-40 | a process counts exactly the primes among its share of the odd numbers and keeps the largest |
| Primes.SharesAreAll | 2018_1_Parallel_Programming/3_mpi/hw3/prime.c:35-46 | every odd number belongs to exactly one process |
| Primes.AllPrimes | 2018_1_Parallel_Programming/3_mpi/hw3/prime.c:41-41 | the primes up to the limit are the four below ten and those among the odd numbers from 11 |
| Primes.TopIsLargest | 2018_1_Parallel_Programming/3_mpi/hw3/prime.c:43-50 | the largest of the results is the largest prime |
| KernelNumbers.RoundTrip | 2018_2_Operating_System_Design_and_Implementation/lib/printfmt.c:37-52 | for every number, base from 2 to 16, any width, and blanks or zeros as padding, strtol consumes all that was printed, it overflows if and only if the number is over 2^31 - 1, and otherwise it reads back the number; the output is as long as the wider of width and digits |
| KernelNumbers.PrefixRoundTrip | 2018_2_Operating_System_Design_and_Implementation/lib/string.c:240-285 | digits after a sign and a prefix are read back with the sign: hexadecimal after 0x, octal after 0 if no base is given, otherwise in the base given or in ten |
| KernelNumbers.PrintNum | 2018_2_Operating_System_Design_and_Implementation/lib/printfmt.c:37-52 | the recursion prints the digits right-justified in the width |
| KernelNumbers.StrTol | 2018_2_Operating_System_Design_and_Implementation/lib/string.c:240-285 | where the longest run of digits after blanks, sign and prefix ends, that it overflows if and only if the value of the digits is over 2^31 - 1, and otherwise the value with its sign |
| KernelNumbers.ReadBack | 2018_2_Operating_System_Design_and_Implementation/lib/string.c:264-281 | on printed output the run of digits is everything after the blanks |

## Left out

- Files, sockets and system calls themselves: files are sequences of characters or records, locks and semaphore operations are atomic steps, and the ways a program stops on an error are results or ends of runs.
- Floating-point rounding, OpenMP pragmas and timers in `cg.c`: reals and the sequential meaning of the loops; the square root of the residual norm and the outer loop of the benchmark are not modelled.
- Random numbers in `cg.c`: a finite sequence of draws from the unit interval, where chopping is rounding down, is a parameter; whether the draw of different places comes to an end is not modelled.
- The two-dimensional work array `q` of `conj_grad`: only its first column is used, and only that is modelled.
- FPGrowth.Mine: reading and writing the files and the computation of the threshold from a fraction are left out; the threshold is an integer parameter.
- Db.Database.Run: stores have keys without separator; what a store with another key does is in Db.Database.Store, and later calls on the file it leaves are not modelled.
- A process that stops inside a call of the concurrent database, record and offset limits there, and `db_nextrec` running beside writers: the concurrent model has calls that run to their end.
- Db.Database.ReadAll: a live key made of blanks only is skipped by the scan, as deleted records are; the contract says so.
- PageMemory.Memory.PageInsert: the page to insert has been taken from the free list and is no directory, and what is replaced lies in physical memory, as pa2page demands.
- PageRuns.Run: calls after which a page could have 65536 uses are left out there; PageOverflow.RemoveOne shows what they do.
- SparseAssembly.Assemble: what the program does after the space check has passed wrongly, with the arrays a slot too small, is not modelled beyond telling exactly when this happens.
- Self-mapping of the first page directory, TLB invalidation, loading of control registers, the other parts of the kernel, the search for a free slot in the table of tasks and the lock around it: not modelled. If memory for a static mapping runs out, the program writes to address zero; the model stops there.
- TaskFree.SetupVm: the assertion at its end, which needs a region that is not empty, is not modelled.
- The limits on semaphore values are left out, and a process holds a set at most once.
- The rest of the print server (`printd.c`), with its workers, configuration and network protocol: only the queue and the life of a job are modelled.
- The precision of the square root for large numbers in `prime.c` and the message passing itself: results arrive in the order of the ranks.
- KernelNumbers.StrTol: the value after an overflow, which C leaves undefined, is not modelled; the contract says exactly when there is one.
- Run queues, scheduling, the debugger, the other exercises of the textbook, the machine-learning scripts, the crawler, robot kinematics and user interfaces: other libraries, input and output, or only easy members.
