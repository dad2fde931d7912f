# rdbms-in-rust: a model of its index, page cache, expressions and transactions

The repository is a relational database in Rust. This project models its most intricate parts in Dafny
and proves what they promise.

**The B+Tree** (`src/btree.rs`, `src/btree_page.rs`) is the core. `BTree.dfy` holds the class `BTree` with the
operations of the source in the source's order: an insert that latches from the root down, lets go of ancestors at
nodes that cannot split, splits pages by byte capacity and hands separators up; a delete along the leaf chain; and a
range cursor that remembers its place as a value. The pages are a map from page ids to decoded nodes, the capacity
of a page is symbolic (38 to 65535 bytes). A ghost tree of page ids and a ghost list of leaves carry two invariants:

* `Linked` holds after every operation on every tree: all leaves at one depth, pages sorted and within capacity, no
  page used twice, all leaves on one chain, the root at the page id it started with.
* `Ordered` says that separators bound their subtrees and that the leaf chain is the order of the leaves in the tree.
  A tree of distinct keys keeps it. A tree with equal keys keeps it in an insert exactly if the insert is `Clean`:
  no split hands up a separator equal to the one right of the child it comes from. A comment of
  the source (src/btree.rs:330-340) promises that a lookup misses none of several equal keys; the code places a new
  child by its key alone. `StrayChild.dfy` calls the insert nine times on a new index (5, 5, 5, 5, 5, 7, 8, 3, 9 as TEXT
  keys of 1000 bytes, of which a page of 4096 bytes holds four), after which the lookup for the stored 7 finds nothing.

A lookup finds exactly the entries that are `Seen`: those on the leaf where the descent for the key ends, or on a later
one if all leaves from there to before it are empty or end at the key or below. So the promise holds exactly if every
stored entry of the key is seen, which in an ordered tree is always the case (`BTree.FoundExactly`, `BTree.Lookup`).
In the example the tree loses its order with the eighth insert, the 7 is still seen then, the ninth insert hides it,
and deleting the 9 brings it back.

Reads and deletes accept every linked tree. What they return is stated exactly for all of them, along the leaf chain
from the leaf where the descent ends (`Comes`, `Over`, `Drained` and `Seen` in `TreeReads.dfy`), and then by the
contents alone for ordered trees.

The files below it: `KeyOrder`, `KeyCodec` (order-preserving keys), `PageLayout` (sizes and split points), `PageCodec`
(bytes of a page), `PageSearch`, `EntryList` (the abstract contents), `TreeShape`, `TreePath`, `TreeInsert`,
`TreeAlign`, `TreeRun`, `InsertRun`, `TreeUnique` (an insert from the leaf up), `InsertSpec` (the insert as a plain
recursion, which gives its pages exactly), `LeafChain`, `ScanPosition`, `TreeReads`, `ScanGrowth`, `ScanRuns` (reads,
and scans interleaved with inserts and deletes), `TreePages` (every page of a tree as bytes).

**The buffer pool** (`src/buffer_pool.rs`) appears twice. `BufferPool.dfy` and `PoolRuns.dfy` run it on one thread and
prove that it refines a flat page store that lends out a limited number of pages, with Clock eviction and the rule that
the log goes first. `LatchProtocol.dfy` is a state machine over the waits of any number of threads, and proves that open
guards keep their pages and that no circle of waiting threads passes through the mutex over the page table, the log's
or the disk's.

**Expressions** (`src/binder.rs`, `src/eval.rs`): `Expressions`, `Evaluator`, `Binder`, `TypeSoundness`. What they compute
is described a second time without the evaluator's functions in `EvalMeaning` and `TextMeaning`, and which of them have
a type in `Typing`.
**Deadlocks** (`src/database.rs`): `DeadlockSearch`. **Statements on tables in memory** (`src/executor.rs`,
`src/constraints.rs`, `src/transaction.rs`): `Constraints`, `RowMeaning`, `Dml`. **Selectivity** (`src/estimator.rs`): `Selectivity`.

## Model

| member | source | states |
|---|---|---|
| KeyCodec.DecodeEncode | src/btree.rs:1388-1431 | Decoding an encoded key gives the value back, for every value that can be a key |
| KeyCodec.EncodeDecode | src/btree.rs:1413-1431 | Bytes that decode are the encoding of what they decode to, of the type asked for |
| KeyCodec.EncodeIsOrderEmbedding | src/btree.rs:1388-1406 | The byte order of encoded keys is the order of the values, and encoding is injective |
| KeyCodec.KeyBytes | src/btree.rs:1388-1406 | The bytes of a key one by one: a truth value, a text as it is, and a number as its distance from the smallest one, most significant byte first |
| KeyOrder.LessIsRank | src/btree.rs:38-48 | The lexicographic byte order is a total order embedded in the reals; equal rank means equal key |
| PageLayout.RidOrder | src/ids.rs:55-64 | Record ids are ordered by page, then by slot |
| PageLayout.CapacitySplitPoint | src/btree_page.rs:254-266 | The greedy loop computes the split point as specified from the byte counts alone |
| PageLayout.SplitFits | src/btree.rs:154-207 | A page that fitted and overflows by one accepted key splits into two non-empty sides that fit, also without the key handed up |
| PageLayout.MaxKeyLenIsExact | src/btree_page.rs:227-236 | Two keys of equal length fit on an empty page exactly up to the limit |
| PageLayout.AcceptedLength | src/btree.rs:501-503 | The limit of an insert accepts a key exactly if two of its length fit on an empty leaf and on an empty internal page |
| PageSearch.CountAtMost | src/btree_page.rs:478-490 | Counts the keys at most the search key: the child for a key, and both insert positions |
| PageSearch.CountBelow | src/btree_page.rs:508-520 | Counts the keys below the search key: the child where equal keys begin |
| PageSearch.Find | src/btree_page.rs:338-350 | An index of an equal key, or the only place where the key could go |
| TreeInsert.StepFits | src/btree.rs:662-683 | Inserting a waiting separator into a parent with room gives back a good subtree within its bounds |
| TreeInsert.StepSplit | src/btree.rs:842-882 | If the parent overflows, both halves are good subtrees on the two sides of the separator handed up |
| TreeAlign.StepAlign | src/btree.rs:1344-1356 | A separator placed by its key leaves the leaves in chain order exactly if it lands directly after the split child |
| TreeAlign.GrowGood | src/btree.rs:713-761 | The new root over the two halves is a good tree under the old root id, one level higher |
| TreeUnique.StrictIsClean | src/btree.rs:575-579 | With distinct keys no separator goes astray, and what is handed up stays within the bounds of its subtree |
| InsertSpec.PutsSeparator | src/btree.rs:624-631 | One turn of the loop over latched ancestors is one step of the recursion: the parent takes the separator and hands up what the recursion hands up |
| InsertSpec.PutsRoot | src/btree.rs:725-761 | Root growth is the last step of the recursion |
| InsertSpec.PutsNothingAbove | src/btree.rs:586-613 | Above a node that has not split the recursion writes no page, so ancestors may be let go |
| TreeShape.TwoLevels | src/btree.rs:889-928 | The pages of a tree of two levels determine its shape |
| LeafChain.SameChain | src/btree.rs:812-828 | The links of the pages determine the order of the leaves |
| LeafChain.ChainSplit | src/btree.rs:812-828 | Splitting a leaf keeps the chain linked, puts the new leaf after the old one and keeps the contents in order |
| BTreeIndex.BTree.constructor | src/btree.rs:253-270 | A new tree is valid, ordered and empty |
| BTreeIndex.BTree.InsertIntoLeaf | src/btree.rs:638-656 | Writes the entries with the new one, or splits; an error changes no page |
| BTreeIndex.BTree.SplitLeaf | src/btree.rs:791-828 | Both halves at the greedy split point and the links between them, or an error and nothing written |
| BTreeIndex.BTree.InsertIntoInternal | src/btree.rs:662-683 | Writes the separators with the new one, or splits; an error changes no page |
| BTreeIndex.BTree.SplitInternal | src/btree.rs:842-882 | Both halves without the separator handed up, or an error and nothing written |
| BTreeIndex.BTree.GrowNewRoot | src/btree.rs:713-761 | Called with the root only: its contents move to a new page and its page id stays |
| BTreeIndex.BTree.DescendForInsert | src/btree.rs:586-613 | The latched pages are the end of the descent path, topped by the root or by a node that cannot split; no node below the topmost one is safe, and all are let go exactly if the leaf has room |
| InsertRun.SafeIsExact | src/btree.rs:1379-1383 | A node counts as safe exactly if every accepted separator fits into it, wherever it goes |
| BTreeIndex.BTree.Propagate | src/btree.rs:615-633 | From the leaf split on: every split finds its parent latched or is at the root, none fails, the tree is linked again and all latches are free |
| BTreeIndex.BTree.InsertKey | src/btree.rs:586-633 | On every linked tree an accepted key never fails, the pages are those of the recursive insert, and one leaf of the chain takes the entry; on an ordered tree the contents are the sorted insertion, and order is kept exactly if the insert is clean |
| BTreeIndex.BTree.Insert | src/btree.rs:575-633 | The exact error, in the order of the checks, with nothing changed, too long being a key of which two do not fit on an empty page; or the pages of the recursive insert, and a unique tree stays ordered |
| BTreeIndex.BTree.CheckKeyFits | src/btree.rs:527-535 | Predicts the errors of an insert, equal keys in a unique tree apart; the length is refused exactly if two such keys do not fit on an empty page |
| BTreeIndex.BTree.CheckKeyType | src/btree.rs:945-954 | NULL is refused, and a value of another type with both types; all others encode and decode back |
| BTreeIndex.BTree.FindStart | src/btree.rs:889-928 | The leaf reached is on the chain, and in an ordered tree nothing before it is within the bound |
| BTreeIndex.BTree.DeleteKey | src/btree.rs:440-490 | On every linked tree, true exactly if the pair stands on a leaf that is reached from where the descent ends, over leaves that are empty or end at the key or below; its first copy there is removed and nothing else. In an ordered tree that is: exactly if the pair is stored |
| BTreeIndex.BTree.Delete | src/btree.rs:440-490 | The same for values, with the errors of the type check |
| BTreeIndex.BTree.Range | src/btree.rs:357-371 | A scan on the leaf where the descent for the lower bound ends, or the error of the first bad bound; in an ordered tree it has exactly the entries within both bounds before it |
| BTreeIndex.BTree.Lookup | src/btree.rs:338-340 | On every linked tree exactly the record ids whose entry is seen from where the descent ends; in an ordered tree all that are stored, equal pairs included, each once if pairs are distinct, and at most one in a unique tree |
| BTreeIndex.BTree.FoundExactly | src/btree.rs:330-340 | The promise that a lookup misses none of several equal keys holds exactly if every stored entry of the key is seen |
| BTreeIndex.BTree.Height | src/btree.rs:312-328 | The number of levels of the tree |
| BTreeIndex.BTree.AlwaysClean | src/btree.rs:575-579 | Every insert into a unique tree is clean |
| BTreeIndex.RangeScan.Next | src/btree.rs:1226-1316 | On every linked tree the first entry that is wanted along the leaf chain, or the end exactly if none within the bound comes next; it goes on from a root that has become internal. In an ordered tree that entry is the least that is left, and it is taken off |
| BTreeIndex.RangeScan.Collect | src/btree.rs:1223-1317 | On every linked tree a sequence that is determined, ascending, stored and within the bounds; in an ordered tree exactly what was left, each pair once if pairs are distinct |
| BTreeIndex.RangeScan.ExceedsUpper | src/btree.rs:1067-1073 | Exactly the keys beyond the upper bound |
| ScanPosition.SameKeyRange | src/btree.rs:1079-1094 | The run of all entries with the key |
| ScanPosition.MinRidIndexAfter | src/btree.rs:1107-1111 | The smallest record id of a run after a given one, if there is any |
| ScanPosition.StartOfRunContaining | src/btree.rs:1146-1152 | The smallest record id of the run an index stands in, or the index itself at the end; where a run starts, the first entry from there on by key and record id |
| ScanPosition.LocateWithinLeaf | src/btree.rs:1201-1221 | The first wanted entry of the leaf in reading order, or its end if none is wanted |
| ScanPosition.BoundsMean | src/btree.rs:375-387 | Bounds on encoded keys are the bounds on values |
| TreeReads.SubtreeSorted | src/btree.rs:345-355 | The leaves of an ordered tree hold the entries in key order, and in strict order if keys are distinct |
| TreeReads.ReturnsOne | src/btree.rs:1287-1299 | Returning the first wanted entry takes exactly that one off what is left; only a second copy on a later leaf stays |
| TreeReads.ComesOnce | src/btree.rs:1226-1316 | What a scan returns next is determined, in any tree |
| TreeReads.StepsAscend | src/btree.rs:1226-1316 | In any tree a scan returns stored entries within its bounds, in ascending order, from left to right along the chain, and no pair twice from one leaf |
| TreeReads.StepsTake | src/btree.rs:1226-1316 | In a tree in key order the entries returned and those left make up what was to be returned, without repetition if pairs are distinct |
| TreeReads.FoundIffSeen | src/btree.rs:1223-1317 | A drained scan over one key has returned exactly the entries that a delete of them would come to |
| TreeReads.DrainedOnce | src/btree.rs:1223-1317 | What a scan returns until its end is determined, in any tree |
| TreeReads.ReachesLeaf | src/btree.rs:889-928 | Every descent for reading ends at a leaf of the tree |
| TreeReads.SkipsLeaf | src/btree.rs:1286-1314 | Carrying the condition over to the next leaf loses and repeats nothing |
| TreeReads.DeleteFromScan | src/btree.rs:1037-1047 | A delete anywhere takes its entry off what an open scan has left, and nothing else |
| ScanGrowth.TakesNothing | src/btree.rs:1200-1221 | An insert takes nothing off what an open scan has left: split entries go to the next leaf at most, where they are still wanted |
| ScanRuns.DeleteDuring | src/btree.rs:440-490 | The same for the operations: a scan stays usable across a delete and loses its entry only |
| ScanRuns.ScanWhileDeleting | src/btree.rs:1223-1317 | For every script of reads and deletes on an ordered tree of distinct pairs: exactly the stored entries that a delete names are gone, entries in range never deleted come exactly once, nothing twice, in ascending order |
| ScanRuns.ScanWhileChanging | src/btree.rs:1226-1316 | For every script of reads, inserts and deletes on any tree: the scan stays usable, and all it returns is ascending, within the bounds and was stored at the start or by the script. If the tree stayed in order, as a tree of distinct keys always does, every entry in range that was there at the start and is never deleted comes at least once |
| ScanRuns.InsertDuring | src/btree.rs:1232-1271 | An insert leaves an open scan on a leaf of the chain, or on a root that has become internal, and takes nothing off what the scan still has to return |
| EntryList.InsertSortedCounts | src/btree.rs:1329-1341 | Sorted insertion adds exactly one entry |
| EntryList.InsertSortedKeeps | src/btree.rs:1322-1341 | Sorted insertion keeps key order |
| EntryList.RemoveUndoesInsert | src/btree.rs:440-490 | Deleting a freshly inserted entry gives the old entries back |
| StrayChild.FromEmpty | src/btree.rs:638-761 | The page writes and descents of inserting 5, 5, 5, 5, 5, 7, 8 into an empty tree with pages of the real size |
| StrayChild.SecondFiveGoesAstray | src/btree.rs:672-683 | The tree that results is ordered, and inserting 3 is not clean |
| StrayChild.ThreeAndNine | src/btree.rs:638-683 | The page writes and descents of inserting 3 and 9 |
| StrayChild.SevenIsFound | src/btree.rs:338-340 | After eight inserts into a new index the tree has lost its order, and the lookup for 7 still finds it |
| StrayChild.NineInserts | src/btree.rs:575-633 | The pages that nine calls of insert on a new index leave |
| StrayChild.SevenIsLost | src/btree.rs:338-340 | After these nine calls the tree is valid and stores 7, and the lookup for 7 returns nothing |
| StrayChild.SevenIsBack | src/btree.rs:440-490 | Deleting the 9 makes the lookup complete again |
| PageCodec.LaysInBytes | src/btree_page.rs:99-110 | The layout byte by byte: count, link and directory as numbers with the least significant byte first, then every key and its trailer |
| PageCodec.HoldsBoth | src/btree_page.rs:286-324 | A node on a page byte by byte, record ids and page ids included |
| PageCodec.Validate | src/btree_page.rs:152-191 | Succeeds exactly on bytes that hold records in key order, each number and key in its place, and returns them |
| PageCodec.WriteEntries | src/btree_page.rs:404-430 | Lays the records out in place, byte by byte, and zeroes the rest, or changes nothing if they do not fit |
| PageCodec.Canonical | src/btree_page.rs:137-151 | Two pages with the same records agree on every used byte |
| PageCodec.DecodesOneWay | src/btree_page.rs:137-151 | Bytes hold at most one list of records |
| PageCodec.WriteLeaf | src/btree_page.rs:404-430 | Fails exactly if the entries exceed the page, changing nothing; else the page holds them under the old link |
| PageCodec.WriteInternal | src/btree_page.rs:557-580 | The same for an internal page and its leftmost child |
| PageCodec.ReadLeaf | src/btree_page.rs:287-324 | The leaf the bytes hold, or none if they hold none |
| PageCodec.ReadInternal | src/btree_page.rs:440-470 | The internal node the bytes hold, or none if they hold none |
| PageCodec.LeafBytes | src/btree_page.rs:286-324 | One leaf per page and one layout per leaf |
| PageCodec.InternalBytes | src/btree_page.rs:438-470 | One internal node per page and one layout per node |
| PageCodec.LeafRoundTrip | src/btree_page.rs:404-430 | Writing a leaf and reading it gives the same entries and link |
| PageCodec.LeafRewrite | src/btree_page.rs:152-191 | Rewriting what was read from an accepted page reproduces its used bytes |
| PageCodec.InternalRoundTrip | src/btree_page.rs:557-580 | Writing an internal page and reading it gives the same children and separators |
| PageCodec.InternalRewrite | src/btree_page.rs:152-191 | The rewrite of an accepted internal page reproduces its used bytes |
| PageCodec.SetNextLeaf | src/btree_page.rs:390-392 | Changes the link of a leaf and keeps its entries |
| TreePages.PagesWritable | src/btree_page.rs:401-430 | Every page of a tree is within its capacity and in key order |
| TreePages.StorePage | src/btree_page.rs:404-430 | Every page of every linked tree can be written over any old bytes, and reads back as the same node |
| BufferPools.BufferPool.ChooseVictim | src/buffer_pool.rs:467-505 | Within two turns finds the second-chance victim and clears exactly the reference bits it passes; none exactly if all frames are pinned |
| BufferPools.BufferPool.Evict | src/buffer_pool.rs:467-505 | Empties that frame, touches no pinned frame, shows the same pages, and writes back only dirty pages |
| BufferPools.BufferPool.WriteBack | src/buffer_pool.rs:486-496 | The page goes to disk with its page LSN after the log is durable up to it |
| BufferPools.BufferPool.LocateOrLoad | src/buffer_pool.rs:429-456 | The page's frame; fails exactly if the page is not cached and all frames are pinned or the page does not exist |
| BufferPools.BufferPool.ReadPage | src/buffer_pool.rs:290-299 | Opens a guard on the page; all other guards stay open and nothing shown changes |
| BufferPools.BufferPool.WritePage | src/buffer_pool.rs:305-314 | The same for a write guard, which is alone on its frame |
| BufferPools.BufferPool.PageOf | src/buffer_pool.rs:572-577 | An open guard reads the page it was opened for |
| BufferPools.BufferPool.SetPage | src/buffer_pool.rs:627-639 | Writing through a guard changes this page of the store and no other |
| BufferPools.BufferPool.Close | src/buffer_pool.rs:580-593 | Dropping a guard releases one pin, marks written frames dirty and shows the same pages |
| BufferPools.BufferPool.FlushPage | src/buffer_pool.rs:317-326 | Afterwards the disk shows the page, and no page shown has changed |
| BufferPools.BufferPool.FlushAll | src/buffer_pool.rs:336-347 | Afterwards nothing is dirty and the disk shows every data page |
| BufferPools.BufferPool.AllocatePage | src/disk_manager.rs:200-219 | A page of the kind asked for at the end, with page LSN 0 and zeros only; all other data pages stay |
| BufferPools.BufferPool.BumpPageLsn | src/buffer_pool.rs:244-252 | Raises the page LSN of a cached page, never lowers it |
| PoolRuns.FullIffPinned | src/buffer_pool.rs:467-505 | All frames are pinned exactly if as many different pages are open as there are frames |
| PoolRuns.Step | src/buffer_pool.rs:290-347 | With any guards open, every operation answers as the flat store does, which refuses a page that is not open while all it can lend out are; a flush leaves the page on disk as it is shown, and a bump raises the page LSN of this page alone |
| PoolRuns.Run | src/buffer_pool.rs:290-347 | Over every run, guards held across operations, the answers are those of the flat store, and with a log attached every write followed its log records |
| PoolRuns.RunAndReopen | src/buffer_pool.rs:336-347 | A run on a pool with a log attached, then a flush: a new pool over the file it leaves shows what the flat store holds, and every write followed its log records |
| LatchProtocol.StepInv | src/buffer_pool.rs:261-540 | Every step of every thread keeps the invariant of table, pins, guards and waits |
| LatchProtocol.LiveGuardHoldsItsPage | src/buffer_pool.rs:546-577 | In every interleaving the frame of a guard holds its page and is pinned |
| LatchProtocol.OnePageOneFrame | src/buffer_pool.rs:429-456 | No page is cached in two frames while guards are open |
| LatchProtocol.InnerWaitsForUnpinned | src/buffer_pool.rs:59-91 | A holder of the mutex waits for the log, for the disk, or for the latch of an unpinned frame, held at most by a flush in its write |
| LatchProtocol.NoCycleThroughInner | src/buffer_pool.rs:59-91 | Nobody in a circle of waiting threads holds the mutex, the log or the disk, or waits for one of them |
| LatchProtocol.InnerMakesProgress | src/buffer_pool.rs:385-505 | The holder of the mutex can always go on, or waits for a flush, the log or the disk, whose holder can |
| LatchProtocol.LockMakesProgress | src/buffer_pool.rs:486-496 | Whoever waits for the log or the disk can take it, or its holder can let go |
| LatchProtocol.UnblockedGoesOn | src/buffer_pool.rs:59-91 | A thread inside the pool can go on unless another thread holds what it waits for |
| LatchProtocol.ReadersShare | src/buffer_pool.rs:510-522 | Where nobody writes, a reader gets its latch |
| LatchProtocol.LatchesExclude | src/buffer_pool.rs:510-522 | Write latches, and pages being written out, exclude every other holder |
| Evaluator.CastRoundTrip | src/eval.rs:424-459 | Casting to TEXT and back is the identity on every value |
| Evaluator.CompareAgreesWithIndex | src/eval.rs:297-331 | Comparisons agree with the order of index keys and with the bounds of an index scan |
| EvalMeaning.EvalMeans | src/eval.rs:30-75 | What every form of expression evaluates to, given what its parts evaluate to: exact 64-bit results or overflow, truncating division, NULL, three-valued logic, comparison, casts, calls |
| EvalMeaning.EvalBoundMeans | src/eval.rs:92-144 | The same for bound expressions |
| EvalMeaning.ArithMeans | src/eval.rs:255-291 | A result exactly if it is the mathematical one and fits 64 bits, the quotient by its rest; otherwise overflow, or division by zero |
| EvalMeaning.CompareMeans | src/eval.rs:297-331 | The six comparisons by the order of numbers, of truth values and of bytes |
| EvalMeaning.CastMeans | src/eval.rs:424-459 | Casts to and from decimal text and the words true and false in any case; all others fail |
| EvalMeaning.FollowsOnce | src/eval.rs:255-331 | The outcome of a binary operator is determined by this description |
| EvalMeaning.CallMeans | src/eval.rs:490-598 | `abs` and `length` under their names in any case; every other name is unknown |
| TextMeaning.DecimalTextMeans | src/eval.rs:424-459 | A number is written in decimal digits without needless zeros, with a sign if it is negative |
| TextMeaning.ParseMeans | src/eval.rs:424-459 | A text is read exactly if it is an optional sign and decimal digits within 64 bits |
| TextMeaning.CountsChars | src/eval.rs:584-587 | Encoded code points are well-formed UTF-8, and `length` counts them |
| TextMeaning.CharsOf | src/eval.rs:584-587 | Every text is made of code points |
| TextMeaning.CaseDoesNotMatter | src/eval.rs:506-528 | Names are the same exactly if they differ in the case of ASCII letters at most |
| Evaluator.TruncateMeans | src/eval.rs:255-291 | Division truncates: the rest is smaller than the divisor and has the sign of the dividend |
| TypeSoundness.AcceptedIffUsable | src/binder.rs:1405-1466 | A binary operator is accepted exactly if it can be evaluated for some operands of these types that are not NULL |
| TypeSoundness.UnaryAcceptedIffUsable | src/binder.rs:1380-1403 | The same for the unary operators |
| TypeSoundness.BuiltinsSound | src/eval.rs:490-495 | `abs` and `length` keep to their signatures |
| TypeSoundness.BoundFits | src/binder.rs:1196-1309 | An accepted expression evaluates to NULL or a value of its type, to NULL without one, or fails by overflow, division by zero or a cast |
| TypeSoundness.PredicateIsTruthValue | src/binder.rs:1180-1189 | An accepted condition evaluates to a truth value or NULL |
| TypeSoundness.BoundMeansTheSame | src/eval.rs:92-144 | Over one table, or none, the bound expression has the value or failure of the expression itself |
| TypeSoundness.ResolvedReadsItsTable | src/binder.rs:1480-1553 | A reference resolves to the column of its own table in the joined row; an unqualified one exactly if one table has it |
| TypeSoundness.JoinedColumn | src/binder.rs:1551-1553 | The offset of a table leads to its columns in the joined schema |
| Typing.BindJudges | src/binder.rs:1196-1309 | The binder accepts exactly the expressions that have a type by the typing rules, with that type, and refuses the others with the first error |
| Typing.BindMirrors | src/binder.rs:1196-1309 | The bound form has the operators, literals and parts of the expression in their places, over any tables, with aggregates and parameters |
| Typing.ResolveMeans | src/binder.rs:1480-1553 | What a column reference is bound to, and exactly when it is refused as unknown or ambiguous |
| Typing.ParameterTyped | src/binder.rs:1210-1249 | A parameter gets the type of the operator, or of the other side of a comparison |
| DeadlockSearch.Search.Dfs | src/database.rs:2423-2445 | Returns a simple cycle, or the path is restored and no way leads on from it back to the start |
| DeadlockSearch.FindCycleContaining | src/database.rs:2419-2452 | A simple cycle through the start exactly if any round trip through it exists |
| DeadlockSearch.CutShort | src/database.rs:2419-2452 | Every round trip contains a simple one through its start |
| DeadlockSearch.DetectDeadlock | src/database.rs:1092-1109 | A victim exactly if the owner is deadlocked: the youngest of a cycle, which its abort breaks |
| Constraints.CheckUniqueness | src/constraints.rs:62-92 | Passes exactly if no unique column clashes; else names the first column that does, whether it is the primary key, and a value that a new row shares with another row |
| Constraints.CheckedIsUnique | src/constraints.rs:44-61 | The check decides whether kept rows and new rows together are unique |
| Constraints.UniqueByCount | src/constraints.rs:21-28 | Uniqueness does not depend on the order of the rows |
| Constraints.UniqueMeans | src/constraints.rs:21-28 | Unique means: two rows differ in every PRIMARY KEY or UNIQUE column, or are NULL there |
| Dml.ExpandedMeans | src/executor.rs:258-276 | Named columns get their values in any order, the others NULL |
| Dml.AssignedMeans | src/executor.rs:280-282 | Every assignment of an UPDATE reads the row as it was |
| Dml.InsertPlanMeans | src/executor.rs:229-249 | The rows an INSERT stores, by the values of their expressions, or the error of the first row that fails |
| Dml.UpdatePlanMeans | src/executor.rs:290-316 | What an UPDATE makes of every row: nothing where the condition is FALSE or NULL, and where it is TRUE the values of the assignments on the old row; or the error of the first row that fails |
| Dml.DeletePlanMeans | src/executor.rs:475-495 | Whether the condition is TRUE for every row, or FALSE or NULL; or the error of the first row where it is neither |
| Dml.InsertRowMeans | src/executor.rs:229-276 | The row stored for a row of VALUES, or exactly why there is none |
| Dml.UpdatedRowMeans | src/executor.rs:290-316 | What an UPDATE makes of one row, or exactly why it fails |
| Dml.UpdatesOnce | src/executor.rs:290-316 | What an UPDATE makes of a row is determined by that description |
| Dml.ChosenMeans | src/executor.rs:475-504 | The rows chosen are exactly those the plan marks, in their order |
| Dml.MemDatabase.PlanInsertRows | src/executor.rs:229-249 | All rows, each as built alone, or the error of the first that fails |
| Dml.MemDatabase.Insert | src/executor.rs:113-130 | Succeeds exactly if all rows can be built and the table stays unique, and then appends the rows of the values; else table and undo log are unchanged, with the first error of the rows or the first clash |
| Dml.MemDatabase.Update | src/executor.rs:290-338 | Succeeds exactly if every row can be computed from the old rows and the result is unique; then exactly the rows whose condition is TRUE have changed, by the assignments, and are counted; else nothing changes, and the error is that of the first row that fails or the first clash |
| Dml.MemDatabase.Delete | src/executor.rs:475-504 | Leaves exactly the rows whose condition is FALSE or NULL, in their order, and counts the others; fails only if the condition does, with the error of the first such row, changing nothing |
| Dml.MemDatabase.Rollback | src/transaction.rs:128-152 | The undo log backwards restores the rows of every table as they were at the start, as multisets |
| Dml.UpdateCheck | src/executor.rs:317-329 | Checking new rows against untouched rows decides whether the updated table is unique |
| Dml.RunAndRollBack | src/transaction.rs:128-152 | Every run of statements has their effects one after the other and keeps all tables unique, and rolling back leaves the rows of the beginning |
| Selectivity.And3Exact | src/estimator.rs:449-454 | On distributions nothing is clamped and the result is a distribution |
| Selectivity.Or3Exact | src/estimator.rs:464-469 | The same for OR |
| Selectivity.DeMorgan | src/estimator.rs:449-476 | Both laws of De Morgan and double negation, clamping included |
| Selectivity.And3Associates | src/estimator.rs:449-454 | AND is associative and commutative on distributions |
| Selectivity.Or3Associates | src/estimator.rs:464-469 | OR is associative and commutative on distributions |
| Selectivity.EstimateIsExact | src/estimator.rs:67-87 | Over independent leaves the estimate is exactly the distribution of the value the evaluator computes |
| Selectivity.SureOfTruth | src/estimator.rs:89-110 | Where every leaf is sure, the estimate is the value the evaluator computes |
| Selectivity.CertainStays | src/estimator.rs:90-95 | A condition over leaves that are never UNKNOWN is never UNKNOWN |
| Selectivity.FromTrueAndUnknown | src/estimator.rs:100-104 | Always a distribution, and the two given parts are kept if they fit |

## Left out

- Threads in the tree: operations run one at a time. A delete that rewrites a leaf from a stale copy and an insert between the uniqueness check and the descent are not modelled.
- BTreeIndex.BTree.Lookup: that all stored record ids are found is false of trees that have lost their order (`SevenIsLost`); what is found there is stated by `Seen` instead.
- BTreeIndex.BTree.Range: with equal pairs the cursor returns one of them from each leaf that holds some.
- ScanRuns.ScanWhileChanging: with inserts between two reads an entry can come twice, since a split can move the last returned entry to the next leaf.
- ScanRuns.InsertDuring: for a scan that already stands on a root that has become internal, nothing is stated about entries of its last key with smaller record ids on later leaves.
- BTreeIndex.BTree.FindStart: the three descents for reading are one method with the bound as parameter.
- The meta page of an index, opening an existing file and page types stored outside the payload.
- Page ids and slots as 64 and 16 bit numbers: unbounded in the tree, with the widths as a condition in `PageCodec`.
- TEXT is its UTF-8 bytes. Identifiers are ASCII in case folding.
- The buffer pool on disk errors, hit and miss counts, the order in which a thread gets a contended latch, and flushes that run beside writers: a flush reads the page LSN before it takes the latch.
- PoolRuns.Run: a thread that would block itself (a page opened for writing while it is open, or flushed while it is open) is left out.
- LatchProtocol.InnerMakesProgress: threads outside the pool enter it without holding the log's mutex or the disk's, as everywhere in the source.
- BufferPools.BufferPool.AllocatePage: page 0 is rewritten behind the cache, so nothing is claimed about reading page 0.
- BufferPools.BufferPool.SyncUpTo: the log writer is reduced to how far the log is durable.
- Messages and source positions of errors; failures are kept apart by kind.
- TypeSoundness.BoundFits: parameters and aggregates are bound as in the source but excluded here, as they never reach evaluation.
- The rewriting of aggregates, ORDER BY, joins and plans.
- DeadlockSearch.DetectDeadlock: neighbours are not sorted first, which only decides which of several cycles is reported; the lock manager that supplies the edges is not part of this model.
- Statements on disk tables, their indexes and the write-ahead log records; `src/recovery.rs` is not part of this model.
- The histogram and distinct-value formulas of the estimator, and rounding: the algebra is over the reals.
- Counting a pin beyond 32 bits.
