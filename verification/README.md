# Verification of rq and its storage engine

rq is a job queue for clusters: many hosts share one SQLite database on a network file system, and on each of them a
feeder takes jobs from it and runs them. The repository holds the queue (Ruby, `lib/rq`) and the SQLite 2.8.17 it is built
on (C, `ext/sqlite-2.8.17`). This project models the parts of both that carry the hardest invariants, and proves them.

Code that works in place is modelled in place: pages, red-black nodes, rollback lists, hash chains, byte buffers and the
jobs table are fields of classes or arrays that methods change, each proved against a specification function whose own
properties are lemmas.

| modules | subject |
|---|---|
| `BalanceSplit` | how many cells go on which page: the two passes, and how many pages they need |
| `BtreeShape` to `BtreeSound`, `BtreeRoom`, `Btree` | the file B-tree as a tree of pages, and `balance` |
| `BtreeTrack`, `BtreeIndex` | where `balance` takes a cursor, and the places that pages remember to have in their parents |
| `BtreePlaces`, `BtreeEdit`, `BtreeCursor` | walking, searching and inserting |
| `PageTiles`, `PageMemory`, `PageCells`, `PageInit`, `PageSpace` | space on a page: free blocks, cells, defragmentation, relinking and reading back |
| `PageLayers` | how the bytes of a page refine the sequences of cells that `Btree` works on |
| `FreePages`, `CellPayload`, `PayloadReads`, `Overflow` | the freelist and overflow chains, and what reading them gives |
| `CellLayers` | whole keys and stored keys compare alike |
| `RbShape`, `RbMemory`, `RbPlaces`, `RbEntries`, `RbTree`, `RbCursor` | one in-memory table: a red-black tree with parent pointers |
| `RbJournal`, `RbLocks`, `RbDatabase` | transactions and checkpoints over many such tables, and rollback under read locks |
| `ExprValue`, `VdbeMachine`, `ExprGen`, `ExprCorrect`, `ExprJumps`, `ExprGenerator` | expressions and conditions compiled for the virtual machine |
| `HashKeys`, `HashList`, `HashEntries`, `HashTable` | the hash table |
| `Encoding`, `DecoderInput`, `BinaryEncoder` | binary strings as text, and the decoder on any text |
| `JobTable`, `JobMoves`, `JobQueue`, `Feeder`, `JobProtocol`, `FeederRuns` | the jobs table, its statements, the feeder, runs of many hosts, and the feeder's life as a run |

A tree is described by a context, which is the tree around a hole, and what is in the hole (`BtreeShape.Ctx`, `RbShape.Ctx`);
moving the hole is how the proofs follow pointers. `dafny verify dfyconfig.toml` checks everything.

## Model
| member | source | states |
|---|---|---|
| `BalanceSplit.FirstPass` | ext/sqlite-2.8.17/src/btree.c:2421-2431 | The first pass closes each page at the first cell that would not fit, and szNew then holds the true size of every page. |
| `BalanceSplit.SecondPass` | ext/sqlite-2.8.17/src/btree.c:2432-2439 | The second pass, run on what the first pass left, keeps the state from which every page is shown to fit: pages to the right are final, the one in work has a known drift between szNew and its true size, those to the left are untouched. |
| `BalanceSplit.TakeOne` | ext/sqlite-2.8.17/src/btree.c:2434-2438 | One step of the inner loop: the asserted cntNew[i-1] > 0 holds, and the boundary and both estimates change by exactly the reads the code makes, one cell to the left of the cell that moves. |
| `BalanceSplit.DriftIsHarmless` | ext/sqlite-2.8.17/src/btree.c:2433-2438 | However far szNew has drifted, an estimate below half a page before the last cell came means the true size of the page is within USABLE_SPACE. |
| `BalanceSplit.SplitCells` | ext/sqlite-2.8.17/src/btree.c:2421-2441 | The whole split, for all cell sizes from 16 to 252: every page is in index range, non-empty and truly at most USABLE_SPACE bytes, and the number of pages is within any bound on greedy filling. |
| `BalanceSplit.PageCount` | ext/sqlite-2.8.17/src/btree.c:2421-2431 | k pages need at least 1017 (k - 1) bytes; NB + 1 pages suffice for (NB + 1) pages' worth of bytes. |
| `BalanceSplit.RoomInTotal` | ext/sqlite-2.8.17/src/btree.c:2421-2431 | However cells of n pages' worth of bytes are dealt out, fewer than n pages are closed, so arrays of n are never overrun. |
| `BalanceSplit.RoomOfThree` | ext/sqlite-2.8.17/src/btree.c:2182-2206 | Three siblings of which one is overfull (up to 1740 bytes), with their two dividers, never need more than four pages, although together they can exceed four pages' worth of bytes. |
| `BtreeRoom.GroupRoom` | ext/sqlite-2.8.17/src/btree.c:2182-2206 | For one, two or three siblings, one of them overfull: the gathered row always fits one page more than there were siblings, so the arrays of NB + 1 suffice. |
| `BtreeRoom.Exchanged` | ext/sqlite-2.8.17/src/btree.c:2392-2528 | A page that fits and exchanges some cells for at most one more, and at most NB, has at most 1740 bytes and at most MX_CELL + 1 cells, one short of what its apCell array holds. |
| `BtreeRoom.ParentCrowded` | ext/sqlite-2.8.17/src/btree.c:2392-2528 | After a round of balance the parent is within those limits. |
| `Btree.Btree.IndexInParent` | ext/sqlite-2.8.17/src/btree.c:2293-2310 | The place of a page in its parent, taken from idxParent or, if the parent is marked as changed, found by the search: both give the same, which is the place the page hangs from. |
| `BtreeIndex.RememberedIsFound` | ext/sqlite-2.8.17/src/btree.c:2293-2310 | Whatever is marked, a page that knows its parent remembers the place at which a search of that parent finds it, as long as the parent is not in the middle of a round. |
| `Btree.Btree.ReparentChildPages` | ext/sqlite-2.8.17/src/btree.c:1982-2016 | Every child gets the page as its parent and its place there; no other page forgets its place. |
| `BtreeIndex.DealtIndexed` | ext/sqlite-2.8.17/src/btree.c:2387-2537 | Between gathering a group and telling its pages, every page below any other page than the parent and the new siblings still remembers its true place. |
| `Btree.Btree.FindSiblings` | ext/sqlite-2.8.17/src/btree.c:2319-2351 | The siblings are at most NB neighbouring children, child idx among them, and more than one if the parent has a cell; idxDiv holds the index of each divider, and of the cell behind the group if there is one, and is else not set; telling the siblings their places changes nothing. |
| `Btree.Btree.CursorIndex` | ext/sqlite-2.8.17/src/btree.c:2353-2376 | iCur is the place in the gathered row of the very entry the cursor is on, be it on a sibling or a divider; else it is behind the row. |
| `Btree.Btree.LoadCells` | ext/sqlite-2.8.17/src/btree.c:2387-2409 | Siblings and dividers are gathered into one row in which each divider has taken over the right child of the page before it, and the dividers have left the parent. |
| `Btree.Btree.ChoosePages` | ext/sqlite-2.8.17/src/btree.c:2443-2505 | Old pages are reused first, new ones are in no use, the rest are freed, and the numbers are ascending. |
| `Btree.Btree.DealCells` | ext/sqlite-2.8.17/src/btree.c:2507-2537 | After dealing, every new page holds its stretch of the row with the right child that belongs there, and the parent has the dividers, the tail and the last link; the cursor has moved with its cell, to a new page or to the parent. |
| `BtreeTrack.TrackedIs` | ext/sqlite-2.8.17/src/btree.c:2511-2528 | However the row was cut, dealing takes the cursor exactly to where cell iCur went, and leaves a cursor alone whose cell is not in the row. |
| `Btree.Btree.ShiftCursor` | ext/sqlite-2.8.17/src/btree.c:2538-2547 | A cursor that stood on the parent and not in the row moves by the change in the number of pages if its index is above the last entry of idxDiv. |
| `BtreeTrack.ParentCursorExactly` | ext/sqlite-2.8.17/src/btree.c:2538-2542 | That keeps it on its cell if and only if the number of pages stayed or the comparison tells the cells before the group from those behind it; when idxDiv's last entry is set, it is wrong exactly for the cell right behind the group. |
| `BtreeTrack.ParentEntry` | ext/sqlite-2.8.17/src/btree.c:2522-2542 | Where a cell of the parent outside the group is after the round: the partner of ParentCursorExactly. |
| `BtreeTrack.RoundTracks` | ext/sqlite-2.8.17/src/btree.c:2353-2547 | A cursor on the group or below, or anywhere but on the parent and its ancestors, is on the same entry after the round, on a page of the tree, and again on none of the pages still to be balanced. |
| `Btree.Btree.BalanceSiblings` | ext/sqlite-2.8.17/src/btree.c:2319-2555 | One round keeps the entries in order and the tree equally deep, leaves every page but the parent sound, the parent within limits, loses, leaks or shares no page, and leaves the cursor on its entry. |
| `Btree.Btree.DeepenRoot` | ext/sqlite-2.8.17/src/btree.c:2260-2288 | An overfull root's cells move one level down, and the cursor with them: same entries, one page more. |
| `Btree.Btree.FlattenRoot` | ext/sqlite-2.8.17/src/btree.c:2227-2253 | An empty root takes over its only child, and a cursor that was on it: same entries, one level less, the child's page freed. |
| `Btree.Btree.Balance` | ext/sqlite-2.8.17/src/btree.c:2179-2582 | From a tree in which one page may be overfull or short of cells: the same entries in the same order, all leaves equally deep, every page fits and none is empty (but the root of an empty tree), the root page unchanged, no page lost, leaked or shared; a cursor on that page or below it stays on its entry over all rounds up to the root; and all pages remember their true places in their parents. |
| `Btree.Btree.CreateTable` | ext/sqlite-2.8.17/src/btree.c:2776-2794 | A new table is such a tree without entries, on one page that was in no use; the other pages stay. |
| `BtreeResettled.ResettledAt` | ext/sqlite-2.8.17/src/btree.c:2387-2555 | Laying a group out again over other pages keeps the tree around it, the in-order sequence of entries and the set of all other pages. |
| `BtreeAdopt.AllAdopt` | ext/sqlite-2.8.17/src/btree.c:2549-2555 | Reparenting page by page gives every subtree of the row exactly the new page it hangs from as its parent, and changes nothing but parents. |
| `Btree.Btree.TellGroup` | ext/sqlite-2.8.17/src/btree.c:2549-2555 | Then every child of every page remembers its true place, the parent's own children among them. |
| `BtreeCursor.BtCursor.First` | ext/sqlite-2.8.17/src/btree.c:1491-1539 | The cursor is on the first entry, and the result says whether there is one. |
| `BtreeCursor.BtCursor.Next` | ext/sqlite-2.8.17/src/btree.c:1638-1685 | The cursor steps to the entry numbered one more, interior cells included, and the end is reported exactly behind the last entry; SKIP_NEXT turns one step into none. |
| `BtreeCursor.BtCursor.MoveToParent` | ext/sqlite-2.8.17/src/btree.c:1424-1467 | Going up lands on the cell or page end the page hangs from: the entries before the cursor are those before and in the page left. |
| `BtreeCursor.BtCursor.ParentIndex` | ext/sqlite-2.8.17/src/btree.c:1433-1449 | The assertions hold: the parent is not marked as changed, and the remembered place is the one the page hangs from. |
| `BtreeCursor.BtCursor.MoveToChild` | ext/sqlite-2.8.17/src/btree.c:1390-1408 | Going down lands on the first cell of the child; its place is noted, the page left is no longer marked as changed, and no page above the cursor is if none was. |
| `BtreeCursor.BtCursor.Scan` | ext/sqlite-2.8.17/src/btree.c:1526-1539 | First, then Next to the end, yields all entries once, in ascending key order. |
| `BtreeCursor.BtCursor.SearchPage` | ext/sqlite-2.8.17/src/btree.c:1591-1619 | Binary search ends at the matching cell or beside the one place the key fits on the page. |
| `BtreeCursor.BtCursor.Moveto` | ext/sqlite-2.8.17/src/btree.c:1585-1630 | The result is 0 exactly if the key is in the tree, and the cursor is then on it; else the cursor is on a leaf, or the empty root, where the sign gives the one index at which the key keeps the order. |
| `BtreeCursor.BtCursor.Insert` | ext/sqlite-2.8.17/src/btree.c:2619-2671 | The tree afterwards holds exactly the new entry and the old entries of other keys, sorted, in a balanced tree under the same root, no page was lost, leaked or shared, and the cursor is on the new entry, wherever balancing put it. |
| `BtreeEdit.PutInserted` | ext/sqlite-2.8.17/src/btree.c:2659-2665 | Putting an entry at the place Moveto found keeps the entries sorted and adds that entry only. |
| `BtreeEdit.PutReplaced` | ext/sqlite-2.8.17/src/btree.c:2654-2665 | Putting an entry in the place of the one with its key keeps the entries sorted and changes that entry only. |
| `CellLayers.CompareBoth` | ext/sqlite-2.8.17/src/btree.c:1325-1385 | The comparison of whole keys by which the cursor searches a page gives the result of the one made byte by byte over the cell and its overflow chain. |
| `PageSpace.MemPage.constructor` | ext/sqlite-2.8.17/src/btree.c:639-658 | zeroPage: no cells, one free block of all usable space. |
| `PageSpace.MemPage.AllocateSpace` | ext/sqlite-2.8.17/src/btree.c:470-507 | 0 is returned exactly if too little is free or the page is overfull, and then nothing changed; else an aligned stretch behind the header, apart from all cells, with the cells, their order and contents kept. |
| `PageSpace.MemPage.FreeSpace` | ext/sqlite-2.8.17/src/btree.c:519-564 | A cell's stretch joins the free list, merged with the neighbours it touches; the list stays ascending and nFree its sum. |
| `PageSpace.MemPage.DefragmentPage` | ext/sqlite-2.8.17/src/btree.c:421-454 | Cells keep order and content, and all free space becomes one block. |
| `PageSpace.MemPage.InsertCell` | ext/sqlite-2.8.17/src/btree.c:2057-2076 | If nFree suffices the cell is at index i, the others as they were, nFree less by its size, and the page tiled; if not the page is overfull and its bytes are untouched. |
| `PageSpace.MemPage.DropCell` | ext/sqlite-2.8.17/src/btree.c:2031-2046 | The cell leaves, the others keep order and content, nFree grows by its size, and the page stays tiled. |
| `PageSpace.MemPage.RelinkCellList` | ext/sqlite-2.8.17/src/btree.c:2083-2094 | The chain from the header runs through all cells in their order and ends; cells, free list and tiling stay. |
| `PageSpace.MemPage.InitPage` | ext/sqlite-2.8.17/src/btree.c:580-632 | A page read from the file passes exactly if both chains stay on the page and end, free blocks ascend, and cells and free bytes fill it (or there is nothing on it); then apCell is the chain of cells and nFree the free bytes. |
| `PageInit.ReadsBack` | ext/sqlite-2.8.17/src/btree.c:580-632 | A page in order with its chain rebuilt passes if and only if no cell begins in its last 15 bytes, and what is found is then its apCell and its nFree. |
| `PageSpace.MemPage.ReadBack` | ext/sqlite-2.8.17/src/btree.c:580-632 | Relinked and read back, such a page is in order again with the same cells and free bytes. |
| `PageLayers.FreeIsRest` | ext/sqlite-2.8.17/src/btree.c:2211-2215 | What is free on a page is a page's bytes less those of the sequence of cells it shows: the test of fullness that balance makes on sequences is the one the code makes on nFree. |
| `PageLayers.InsertOn` | ext/sqlite-2.8.17/src/btree.c:2057-2076 | Putting a cell on a page puts it into the sequence that balance and the cursor work on, and the page is overfull if and only if the sequence takes more than USABLE_SPACE. |
| `PageLayers.DropOn` | ext/sqlite-2.8.17/src/btree.c:2031-2043 | Dropping a cell from a page drops it from the sequence. |
| `PageLayers.FillOn` | ext/sqlite-2.8.17/src/btree.c:2511-2521 | A blank page takes every cell that the split dealt to it, with room for each and never overfull, as balance asserts. |
| `PageLayers.ThroughTheFile` | ext/sqlite-2.8.17/src/btree.c:580-632 | Every page of entries, relinked, written and read back, shows the same sequence, by the same pointers, with the same free bytes. |
| `PageTiles.TiledTaken` | ext/sqlite-2.8.17/src/btree.c:495-506 | Header, cells and free blocks tile the page, and no two free blocks touch, after space is taken from any block. |
| `PageTiles.TiledFreed` | ext/sqlite-2.8.17/src/btree.c:528-563 | And after a cell's space is given back, with either, both or no neighbour merged. |
| `PageTiles.TiledStacked` | ext/sqlite-2.8.17/src/btree.c:429-453 | And after all cells are stacked behind the header. |
| `PageMemory.TakenList` | ext/sqlite-2.8.17/src/btree.c:495-506 | The words written when space is taken leave a chain of blocks that is the free list less that space. |
| `PageMemory.FreedList` | ext/sqlite-2.8.17/src/btree.c:534-562 | The words written when space is given back leave a chain that is the free list with that space. |
| `FreePages.TakeLeaf` | ext/sqlite-2.8.17/src/btree.c:1786-1798 | Handing out any entry of the head trunk keeps the account: each page above 1 is in use or free, exactly once, and page 1 knows how many are free. |
| `FreePages.TakeTrunk` | ext/sqlite-2.8.17/src/btree.c:1771-1774 | So does handing out a trunk that lists nothing. |
| `FreePages.GiveLeaf` | ext/sqlite-2.8.17/src/btree.c:1839-1859 | A freed page becomes an entry of a trunk with room. |
| `FreePages.GiveTrunk` | ext/sqlite-2.8.17/src/btree.c:1860-1874 | Or else the new head trunk. |
| `Overflow.Database.AllocatePage` | ext/sqlite-2.8.17/src/btree.c:1752-1809 | The page handed out is the entry of the head trunk that the search for a near page picks, or the head trunk itself if it lists nothing, or the page behind the end of the file; it was in no use and is above 1; in-use pages keep their content; nFree or the file size changes by one, and the account holds. |
| `Overflow.Database.FindClosest` | ext/sqlite-2.8.17/src/btree.c:1776-1787 | The loop picks the last entry that is nearer than the first, or the first. |
| `FreePages.NearestExactly` | ext/sqlite-2.8.17/src/btree.c:1776-1787 | Of what it picks: it is a nearest entry if and only if no entry listed before it is nearer. |
| `FreePages.NotTheNearest` | ext/sqlite-2.8.17/src/btree.c:1776-1787 | A trunk of three entries on which the choice is not the nearest. |
| `Overflow.Database.FreePage` | ext/sqlite-2.8.17/src/btree.c:1816-1872 | The page, and it alone, goes from the pages in use to the free ones. |
| `Overflow.Database.ClearCell` | ext/sqlite-2.8.17/src/btree.c:1882-1904 | Exactly the pages of the cell's overflow chain become free. |
| `Overflow.Database.FillInCell` | ext/sqlite-2.8.17/src/btree.c:1909-1976 | Key and data lie one after the other in the cell and a chain of new pages, just long enough; nothing else changed. An empty key stores nothing. |
| `Overflow.Database.GetPayload` | ext/sqlite-2.8.17/src/btree.c:1176-1227 | For any cell and any range: the bytes of the payload area and then of the chain as it is linked, whatever was stored; corruption is reported exactly if the chain ends before the range does. |
| `PayloadReads.StoredIsFetched` | ext/sqlite-2.8.17/src/btree.c:1176-1227 | Of a stored payload every range comes back, and a range beyond its end exactly as far as the pages of its chain go. |
| `PayloadReads.DataComesBackExactly` | ext/sqlite-2.8.17/src/btree.c:1909-1976 | Whatever fillInCell leaves for a key and data, every range of the data comes back if and only if there is a key or no data. |
| `PayloadReads.StaleDataRead` | ext/sqlite-2.8.17/src/btree.c:1938 | For every non-empty data under the empty key, a cell that fillInCell may leave from which other bytes come back. |
| `Overflow.Database.FillAndRead` | ext/sqlite-2.8.17/src/btree.c:1909-1976 | A cell filled in and read: any range of the data comes back, if there is a key or no data. |
| `Overflow.Database.Key` | ext/sqlite-2.8.17/src/btree.c:1242-1258 | Any range of a stored key comes back. |
| `Overflow.Database.Data` | ext/sqlite-2.8.17/src/btree.c:1287-1303 | Any range of stored data comes back, found behind the key, for keys below 2^24 bytes. |
| `Overflow.Database.KeyCompare` | ext/sqlite-2.8.17/src/btree.c:1325-1385 | The result is that of comparing the stored key, less its ignored bytes, with the given key, lexicographically and a proper prefix smaller, wherever the bytes lie. |
| `Bytes.FileKeyCompareSign` | ext/sqlite-2.8.17/src/btree.c:1344-1384 | The comparison has the sign of the lexicographic order. |
| `CellPayload.SizesFit` | ext/sqlite-2.8.17/src/btree.c:1924-1928 | A size survives the cell header exactly if it is below 2^24. |
| `RbTree.BtRbTree.LeftRotate` | ext/sqlite-2.8.17/src/btree_rb.c:205-222 | The pointer writes turn the represented tree, wherever it hangs, with all parent pointers; the entries and their order stay. |
| `RbTree.BtRbTree.RightRotate` | ext/sqlite-2.8.17/src/btree_rb.c:237-254 | The mirror image. |
| `RbTree.BtRbTree.DoInsertBalancing` | ext/sqlite-2.8.17/src/btree_rb.c:407-496 | From a red node possibly under a red parent to a red-black tree of the same nodes and entries; the loop climbs two levels a round or ends. |
| `RbTree.BtRbTree.DoDeleteBalancing` | ext/sqlite-2.8.17/src/btree_rb.c:514-580 | From a hole one black node short to a red-black tree of the same nodes and entries; the loop ends. |
| `RbShape.PlugRedBlack` | ext/sqlite-2.8.17/src/btree_rb.c:328-399 | The laws of the whole tree (black root, no red-red edge, equal black heights) are those of a subtree and of what surrounds it. |
| `RbCursor.RbtCursor.Moveto` | ext/sqlite-2.8.17/src/btree_rb.c:871-903 | 0 exactly if the key is there, with the cursor on it; else the cursor is on the neighbour whose missing child is the key's place, the sign saying which. |
| `RbCursor.RbtCursor.InsertNode` | ext/sqlite-2.8.17/src/btree_rb.c:781-814 | The table gains exactly the new key, at its place in order, and is again a red-black tree. |
| `RbCursor.RbtCursor.Delete` | ext/sqlite-2.8.17/src/btree_rb.c:920-1021 | Exactly the cursor's key is gone, the tree is red-black, and the cursor is on the next entry with SKIP_NEXT, or on the last one left with SKIP_PREV. |
| `RbCursor.RbtCursor.Next` | ext/sqlite-2.8.17/src/btree_rb.c:1111-1136 | The next entry in key order, or the end. |
| `RbCursor.RbtCursor.Previous` | ext/sqlite-2.8.17/src/btree_rb.c:1138-1163 | The previous entry in key order, or the end. |
| `RbCursor.RbtCursor.DeleteThenNext` | ext/sqlite-2.8.17/src/btree_rb.c:953-1021 | After a delete at key k, stepping on gives the least remaining key above k, or the end if there is none. |
| `RbCursor.RbtCursor.DeleteThenPrevious` | ext/sqlite-2.8.17/src/btree_rb.c:1138-1163 | After a delete at key k, stepping back gives the greatest remaining key below k, or the end if there is none. |
| `RbJournal.Logged` | ext/sqlite-2.8.17/src/btree_rb.c:595-610 | An operation logged in front of a list that restores some state restores it from after the logged change. |
| `RbJournal.Spliced` | ext/sqlite-2.8.17/src/btree_rb.c:1384-1396 | A list spliced in front of another restores what the two restore one after the other. |
| `RbJournal.StepKeeps` | ext/sqlite-2.8.17/src/btree_rb.c:595-1407 | No command, in any mode, breaks the promise of either list: what BeginTrans and BeginCkpt saw comes back. |
| `RbJournal.RunKeeps` | ext/sqlite-2.8.17/src/btree_rb.c:595-1407 | So does no run of commands. |
| `RbJournal.RollbackRestores` | ext/sqlite-2.8.17/src/btree_rb.c:1361-1371 | After any run of inserts, replacements, deletes, clears, creates, drops and checkpoints, rollback gives exactly the tables of BeginTrans. |
| `RbJournal.RollbackCkptRestores` | ext/sqlite-2.8.17/src/btree_rb.c:1398-1407 | After any run inside a checkpoint, rolling it back gives exactly the tables of BeginCkpt. |
| `RbDatabase.Rbtree.Insert` | ext/sqlite-2.8.17/src/btree_rb.c:745-856 | The red-black tables and linked lists do what the journal says of a put: a new row or replaced data, and its undo logged. |
| `RbDatabase.Rbtree.Delete` | ext/sqlite-2.8.17/src/btree_rb.c:920-1021 | And of a delete. |
| `RbDatabase.Rbtree.ClearTable` | ext/sqlite-2.8.17/src/btree_rb.c:1026-1069 | And of a clear: every row logged once, leaf by leaf, and the table empty. |
| `RbDatabase.Rbtree.DropTable` | ext/sqlite-2.8.17/src/btree_rb.c:668-688 | And of a drop. |
| `RbDatabase.Rbtree.CreateTable` | ext/sqlite-2.8.17/src/btree_rb.c:644-663 | And of a create, under a number never used before. |
| `RbDatabase.Rbtree.CommitCkpt` | ext/sqlite-2.8.17/src/btree_rb.c:1384-1396 | The checkpoint's list is in front of the transaction's, through its tail pointer alone. |
| `RbDatabase.Rbtree.ExecuteRollbackList` | ext/sqlite-2.8.17/src/btree_rb.c:1317-1359 | Replaying a list that restores a state meets every assertion and restores each table that is not open for reading; those that are stay as they are. |
| `RbDatabase.Rbtree.Rollback` | ext/sqlite-2.8.17/src/btree_rb.c:1361-1371 | The tables are those of BeginTrans, but for the read-locked ones, which stay as they are; all of them are, if no logged row operation is on a locked table; both lists are empty. |
| `RbDatabase.Rbtree.RollbackCkpt` | ext/sqlite-2.8.17/src/btree_rb.c:1398-1407 | The same for the tables of BeginCkpt, and the transaction goes on; outside a checkpoint nothing happens. |
| `RbLocks.LockedReplay` | ext/sqlite-2.8.17/src/btree_rb.c:1317-1359 | Under read locks the replay of a list meets every assertion if and only if the list drops no locked table and deletes from one only rows that are there now; then the locked tables stay and the others are restored. |
| `RbLocks.LockedRollback` | ext/sqlite-2.8.17/src/btree_rb.c:1361-1371 | The same for both lists one after the other. |
| `RbLocks.RestoresExactly` | ext/sqlite-2.8.17/src/btree_rb.c:1361-1371 | So a rollback restores the tables if and only if the locked ones have not changed. |
| `RbLocks.ReplacementStays` | ext/sqlite-2.8.17/src/btree_rb.c:1317-1359 | A run in which a replaced row survives the rollback, since its table was opened for reading. |
| `RbLocks.AssertionFails` | ext/sqlite-2.8.17/src/btree_rb.c:1337-1339 | A run in which the replay's assertion fails, for the same reason. |
| `ExprCorrect.CodeRuns` | ext/sqlite-2.8.17/src/expr.c:1011-1261 | The code of any expression, at any address, pushes its value under three-valued logic and changes nothing else. |
| `ExprJumps.TrueRuns` | ext/sqlite-2.8.17/src/expr.c:1300-1386 | The code jumps exactly if the expression is true, or NULL with jumpIfNull set, and leaves the stack as it was, for all nestings. |
| `ExprJumps.FalseRuns` | ext/sqlite-2.8.17/src/expr.c:1395-1486 | The code jumps exactly if the expression is false, or NULL with jumpIfNull set, and leaves the stack as it was, for all nestings. |
| `ExprGenerator.ExprCode` | ext/sqlite-2.8.17/src/expr.c:1011-1261 | The generator, with its labels and patched addresses, appends the code the correctness theorems speak of. |
| `ExprGenerator.ExprIfTrue` | ext/sqlite-2.8.17/src/expr.c:1300-1386 | It appends a condition's code with the caller's target, resolved or not. |
| `ExprGenerator.ExprIfFalse` | ext/sqlite-2.8.17/src/expr.c:1395-1486 | It appends a negated condition's code with the caller's target, resolved or not. |
| `ExprGenerator.Vdbe.ResolveLabel` | ext/sqlite-2.8.17/src/vdbeaux.c:176-187 | Every instruction that names the label now names the next address, and no other changes. |
| `ExprGenerator.ResolvedJumps` | ext/sqlite-2.8.17/src/expr.c:1300-1486 | A condition compiled to an open label, in any program in which the label is resolved later, jumps to that address exactly when it should. |
| `ExprGenerator.JumpsRightUnlessToZero` | ext/sqlite-2.8.17/src/vdbe.c:1402-1453 | Conditions jump right for every expression if and only if the target is not address 0. |
| `VdbeMachine.LogicTables` | ext/sqlite-2.8.17/src/vdbe.c:1618-1655 | The machine's and_logic and or_logic tables are the truth tables of SQL-92, section 8.12. |
| `ExprValue.NegatedIsNot` | ext/sqlite-2.8.17/src/expr.c:1395-1446 | The opposite comparison that the negated condition is compiled to is the negation, and unknown on NULL alike. |
| `ExprValue.BetweenIsAnd` | ext/sqlite-2.8.17/src/expr.c:1183-1192 | BETWEEN has the value of the conjunction of its two comparisons if neither of them compares as text. |
| `ExprValue.BetweenAgreesBeforeFormat4` | ext/sqlite-2.8.17/src/expr.c:1072-1085 | For all operands it does so exactly in files before format 4. |
| `ExprValue.DifferenceAgrees` | ext/sqlite-2.8.17/src/vdbe.c:1419-1423 | Comparing two 32-bit integers by their difference cut down to 32 bits is right, for all six comparisons, if and only if the difference fits. |
| `HashKeys.CompareMatches` | ext/sqlite-2.8.17/src/hash.c:71-118 | The comparison of a key class tells the same keys, case ignored in strings. |
| `HashKeys.MatchingKeysHashAlike` | ext/sqlite-2.8.17/src/hash.c:71-118 | Keys that match hash alike, for every key class. |
| `HashKeys.TellsApartUnlessNul` | ext/sqlite-2.8.17/src/util.c:508-514 | The bounded string comparison tells apart all strings of a length exactly if no byte but the last is 0. |
| `HashTable.Hash.Find` | ext/sqlite-2.8.17/src/hash.c:261-273 | The table is a finite map: what is stored under the key, or NULL. |
| `HashTable.Hash.Insert` | ext/sqlite-2.8.17/src/hash.c:290-356 | The map with the key updated, or without it if the data is NULL, and the old data returned, whatever was rehashed. |
| `HashTable.Hash.RemoveElementGivenHash` | ext/sqlite-2.8.17/src/hash.c:230-255 | The map without the element's key; each bucket is still a run of count elements of the one list. |
| `HashTable.Hash.Rehash` | ext/sqlite-2.8.17/src/hash.c:165-197 | The same elements with the same keys and data, dealt out to the new slots as consecutive runs. |
| `HashTable.Hash.Elements` | ext/sqlite-2.8.17/src/hash.c:203-225 | Walking from first along next meets every live element once. |
| `HashTable.Hash.Clear` | ext/sqlite-2.8.17/src/hash.c:48-66 | The empty map. |
| `Encoding.TextIsClean` | ext/sqlite-2.8.17/src/encode.c:102-107 | No 0x00 and no 0x27 in the text before its terminator. |
| `Encoding.FewEscapes` | ext/sqlite-2.8.17/src/encode.c:131-147 | The fewest escapes over the allowed offsets are at most 3 in 254 bytes. |
| `Encoding.TextSize` | ext/sqlite-2.8.17/src/encode.c:109-113 | With its terminator the text fits in 2 + 257 n / 254 bytes. |
| `Encoding.SomeOffset` | ext/sqlite-2.8.17/src/encode.c:134-147 | Some offset needs fewer escapes than there are bytes, so the search always sets one. |
| `Encoding.DecodeText` | ext/sqlite-2.8.17/src/encode.c:175-187 | Reading the text back gives the string, whatever follows the terminator. |
| `BinaryEncoder.ChooseOffset` | ext/sqlite-2.8.17/src/encode.c:134-147 | The offset chosen is the first with the fewest escapes, and m is their number. |
| `BinaryEncoder.EncodeBinary` | ext/sqlite-2.8.17/src/encode.c:123-163 | The output is the text of the input with its terminator, within the promised size; the result is its length, also without an output buffer. |
| `BinaryEncoder.DecodeBinary` | ext/sqlite-2.8.17/src/encode.c:165-187 | For any input: the output is what the text says, up to where the reader would leave the input, also when it overwrites the text; the first result says whether it stayed inside. |
| `BinaryEncoder.RoundTrip` | ext/sqlite-2.8.17/src/encode.c:123-187 | Decoding what was encoded, into another buffer or in place, gives the input back. |
| `DecoderInput.StaysWithin` | ext/sqlite-2.8.17/src/encode.c:175-187 | On every NUL-terminated input the decoder stays within it if and only if there is an offset byte and the 0x01s right before the NUL pair up. |
| `DecoderInput.TerminatorSwallowed` | ext/sqlite-2.8.17/src/encode.c:175-187 | An unpaired 0x01 swallows the terminator: for one input, three contents of the memory behind it with three results. |
| `DecoderInput.WellFormedIsEncoding` | ext/sqlite-2.8.17/src/encode.c:92-113 | A look at a text tells whether it is an encoding: first byte an offset or 'x', no quote behind it, 0x01 only before 1, 2 or 40, one NUL at the end. Exactly the encodings of strings pass. |
| `DecoderInput.CommentHoldsExactly` | ext/sqlite-2.8.17/src/encode.c:165-187 | On every NUL-terminated input the decoder does what its comment says (the string's length, or -1 for what is no encoding) if and only if the input is well formed. |
| `DecoderInput.QuoteIsTaken` | ext/sqlite-2.8.17/src/encode.c:165-187 | A text with a quote, which the encoder never emits, for which the result is 1 and the comment says -1. |
| `JobQueue.Queue.GetJob` | lib/rq/jobqueue.rb:717-731 | The row returned is the first this host may start, by priority descending, then submitted, then jid; none exactly if there is none. |
| `JobQueue.Queue.Submit` | lib/rq/jobqueue.rb:116-178 | New pending rows get the jids from max(jid) + 1 on; a job without a command leaves the table as it was. |
| `JobQueue.Queue.Delete` | lib/rq/jobqueue.rb:531-607 | A row goes if some word removes it; running rows go by name and force only. |
| `JobQueue.Queue.Update` | lib/rq/jobqueue.rb:613-716 | Pending and holding rows named get the new values; a state a client may not set, or no row, changes nothing. |
| `JobQueue.ReSubmitter.Resubmit` | lib/rq/resubmitter.rb:66-89 | Without a job named it aborts; else all listed rows that are not running are rewritten, or, if one has no command, none. |
| `JobMoves.NeverMoreThanMaxFeed` | lib/rq/feeder.rb:372-385 | A feeder never holds more than max_feed jobs, whatever it starts and reaps in whatever order. |
| `JobMoves.StartsTakeInOrder` | lib/rq/feeder.rb:372-416 | Each start takes a row that comes before those taken later and those left behind. |
| `JobMoves.StartsTakeOnly` | lib/rq/feeder.rb:387-416 | A batch of starts changes the rows it takes, as their start writes them, and no others. |
| `JobMoves.NothingLeftBehind` | lib/rq/feeder.rb:376-380 | A startable row was left behind only if the feeder filled up, and then with rows that come before it. |
| `Feeder.Feeder.StartJobs` | lib/rq/feeder.rb:372-386 | The loop is such a batch, each start stamped with a time not before the last, and it stops only when busy or when no row is startable. |
| `Feeder.Feeder.ReapJobs` | lib/rq/feeder.rb:422-479 | Waiting, with transactions of starts in between, then reaping, with starts in between, is a sequence of transactions of the moves above, whatever others commit before each; every child reported is reaped once. |
| `Feeder.Feeder.FillMorgue` | lib/rq/feeder.rb:283-299 | Exactly the rows this host was running when the feeder came up are dead. |
| `Feeder.Feeder.Stop` | lib/rq/feeder.rb:328-353 | A feeder told to stop starts nothing more and reaps until it holds no job. |
| `Feeder.Feeder.Feed` | lib/rq/feeder.rb:41-97 | A feeder's whole life is the morgue, then transactions of moves, each from whatever table it finds. |
| `JobProtocol.StepKeepsExactly` | lib/rq/feeder.rb:283-479 | Any step of any host or client keeps the invariant if and only if it does not delete, by force, a running row that a live feeder holds. |
| `JobProtocol.NoJobIsHeldTwice` | lib/rq/feeder.rb:372-479 | In every run without such a delete each running row is held by exactly one child of one live feeder or awaits its host's morgue, never both. |
| `JobProtocol.ExclusiveExactly` | lib/rq/jobqueue.rb:531-607 | What clients can see of that breaks by such a delete and by nothing else. |
| `JobProtocol.MorgueBuriesTheLost` | lib/rq/feeder.rb:283-299 | Filling the morgue turns exactly the rows left running on its host dead. |
| `JobProtocol.DeadStaysDead` | lib/rq/jobqueue.rb:762-790 | In every run without such a delete a dead row that is not restartable stays dead until a client resubmits it or deletes it. |
| `JobProtocol.RetiredNeverRuns` | lib/rq/jobqueue.rb:717-731 | In any run at all, such deletes included, it never runs until then. |
| `JobProtocol.FeedSplits` | lib/rq/feeder.rb:494-509 | A transaction is the same as its moves one at a time. |
| `FeederRuns.MorgueIsStep` | lib/rq/feeder.rb:283-299 | The feeder's first transaction is an enabled step of the protocol in any world whose table it found. |
| `FeederRuns.CommitIsStep` | lib/rq/feeder.rb:372-514 | So is every later transaction. |
| `FeederRuns.LifeIsRun` | lib/rq/feeder.rb:41-97 | A feeder's transactions, woven with any events of other hosts and clients that lead to the tables they find, are a run of the protocol that ends with the feeder's children and clock. |
| `FeederRuns.WholeLifeIsRun` | lib/rq/feeder.rb:41-97 | So is its whole life from the morgue on; and if nothing robs it, no job is worked on twice at its end. |
| `JobProtocol.RobberyLetsTwoHoldOne` | lib/rq/jobqueue.rb:555-557 | The freed jid is given to a new job: two live feeders then hold job 1, and the end of the first process closes the other's row. |

## Findings
- A forced delete of running rows (lib/rq/jobqueue.rb:555-557) frees jids that submit hands out again (lib/rq/jobqueue.rb:124-127). `JobProtocol.StepKeepsExactly` and `ExclusiveExactly` give the exact condition: mutual exclusion breaks if and only if such a delete comes while a live feeder holds one of the rows. `RobberyLetsTwoHoldOne` is a run in which it goes wrong.
- The second pass of the split updates szNew by the sizes of the cells one to the left of those that move (ext/sqlite-2.8.17/src/btree.c:2437-2438). The drift is harmless (`BalanceSplit.DriftIsHarmless`, `SplitCells`).
- A comparison whose jump target is address 0 pushes its result instead of jumping (ext/sqlite-2.8.17/src/vdbe.c:1443-1450). `ExprGenerator.JumpsRightUnlessToZero` shows this to be the only target that is wrong. Callers pass labels, which are resolved to addresses behind the condition, so the code does not get there.
- From file format 4 on, `x BETWEEN lo AND hi` on texts is not `x >= lo AND x <= hi`: the comparisons compare as text, BETWEEN does not (ext/sqlite-2.8.17/src/expr.c:1183-1192). `ExprValue.BetweenAgreesBeforeFormat4` gives the exact condition.
- An entry with an empty key stores no data: the copying loop of fillInCell never starts (ext/sqlite-2.8.17/src/btree.c:1938). `PayloadReads.DataComesBackExactly` gives the exact condition on key and data under which every range of the data comes back, `StaleDataRead` a cell from which other bytes come back. Moveto and Insert are proved for keys of one byte and more.
- A cell without key and data takes 12 bytes; in the last 12 bytes of a page it would make initPage report a corrupt page (ext/sqlite-2.8.17/src/btree.c:601). `PageInit.ReadsBack` gives the exact condition, and `PageLayers.ThroughTheFile` shows that entries with a key never meet it.
- Sizes of 2^24 bytes and more do not survive the cell header (`CellPayload.SizesFit`).
- A NUL inside a string key hides what follows it from the comparison but not from the hash (ext/sqlite-2.8.17/src/util.c:508-514). `HashKeys.TellsApartUnlessNul` gives the exact condition. The callers count a string up to and including its terminator.
- The decoder never returns -1, although its comment promises that for text that is not well formed (ext/sqlite-2.8.17/src/encode.c:165-187). `DecoderInput.CommentHoldsExactly`: it does what the comment says if and only if the text is well formed; `QuoteIsTaken` is a text on which it does not.
- A 0x01 without a partner before the terminator makes the decoder take the terminator for its partner and read on (ext/sqlite-2.8.17/src/encode.c:175-187). `DecoderInput.StaysWithin` gives the exact condition; after `TerminatorSwallowed`'s input the result depends on what lies behind it. What the encoder writes is never such a text (`TextIsWellFormed`).
- The choice of a page near another one never updates the distance it compares with (ext/sqlite-2.8.17/src/btree.c:1778-1787). `FreePages.NearestExactly`: what it picks is a nearest entry if and only if no entry listed before it is nearer; `NotTheNearest` is a trunk on which it is not.
- balance's arrays of NB + 1 pages suffice, although an overfull page and its siblings can hold more than NB + 1 pages' worth of bytes (`BalanceSplit.RoomOfThree`, `BtreeRoom.GroupRoom`).
- Rolling back ignores the return codes of the operations it replays (ext/sqlite-2.8.17/src/btree_rb.c:1332,1342), and row operations on a table that is open for reading are refused. `RbLocks.LockedReplay` says exactly when the replay gets through and what it leaves; `RestoresExactly`, that it restores the tables if and only if the locked ones have not changed; `ReplacementStays` and `AssertionFails` are two runs.
- balance leaves a cursor that stands on the parent's cell right behind the group where it is, when that cell moves by the change in the number of pages (ext/sqlite-2.8.17/src/btree.c:2539); for a group that ends at the parent's last child it compares with an entry of idxDiv that is not set. `BtreeTrack.ParentCursorExactly` gives the exact condition, `CellAfterGroupMissed` three pages that become four. Insert's cursor never stands there: it is on the page that is balanced first, and `BtreeTrack.OffSpine` is kept from round to round.
- Integers are compared by their difference in 32 bits (ext/sqlite-2.8.17/src/vdbe.c:1422). `ExprValue.DifferenceAgrees`: all comparisons are right if and only if the difference fits; `DifferenceWraps` is a pair for which it does not.

## Left out
- Memory management and failure: malloc, I/O errors, reference counts, the pager's own journal and cache. Pages are a map, and reads and writes succeed.
- Byte order: the native one; the swapping macros are the identity.
- Transactions, locks and read-only checks of the file back end: inTrans, wrFlag, checkReadLocks. Callers are in a transaction and may write.
- fileBtreeDelete, fileBtreeLast, fileBtreePrevious, copying, vacuum and the integrity check of btree.c.
- Cursors that share a table in btree.c.
- fileBtreeClearTable, meta values of both back ends, dumps.
- Column, function and aggregate resolution, subqueries as such, and the other code generators of the SQL compiler; the value operations that are not logic are left open.
- Forking, daemons, signals, sleeping, pid files, YAML, cron, file copying, the lock file, retried transactions: lib/rq around the protocol.
- Btree.Btree.AllocatePage: any unused page number above 1 may come; the freelist it comes from is Overflow.Database's.
- Btree.Btree.FreePage: the page leaves the map; the freelist it goes to is Overflow.Database's.
- Btree.Btree.Balance: pages are sequences of cells, which PageLayers shows bytes to refine page by page, not call by call; pages stay in memory, so that none has to be told its place anew after it was read again; the scratch array apCell is a sequence, and the recursion on the parent is a recursive call.
- BtreeCursor.BtCursor.Insert: the cursor is on the new entry with SKIP_INVALID, and must be moved before it can step either way. The overflow pages of a replaced entry are Overflow.Database.ClearCell's subject.
- BtreeCursor.BtCursor.Next: does not model a cursor whose page a rollback took away.
- PageSpace.MemPage.DefragmentPage: called with free space, as its one caller does; with none the code would write its free block behind the page.
- PageSpace.MemPage.InitPage: a chain of cells that never ends, over which the code would run past apCell, is excluded; parent pointers and the isInit guard are not modelled.
- PageLayers.InsertOn: what a cell's words mean is a parameter, since entries go on in overflow pages, which are Overflow.Database's subject.
- PageSpace.MemPage.FreeSpace: its precondition is a page tiled by cells and free blocks; a corrupt free list is not modelled.
- Overflow.Database.FillInCell: what a payload area held before is open; freeing on an error path is not modelled.
- Overflow.Database.AllocatePage: a freelist whose pages are not trunks is not modelled.
- Overflow.Database.GetPayload: a page number of the chain that is no page of the file ends it, and the words of a freelist page read as zeros.
- RbTree.BtRbTree.DoInsertBalancing: nodes are records in a map by address, in a field of the table; the same holds for the rollback operations of RbDatabase.
- RbDatabase.Rbtree.Rollback: where the source's assertions would fail (RbLocks.LockSafe does not hold) the model does not go on. Rollback operations are not freed in the model, and cursors are not told.
- RbJournal.RollbackRestores: speaks of tables only; next_idx is never rewound, and meta values are not logged.
- ExprGenerator.ExprCode: functions, aggregates, unary minus, concatenation, LIKE and GLOB, shifts, bitwise not, RAISE and subqueries are not modelled; operand types are decided by one flag on each expression; text operands of opcodes that do not matter to control flow are left open.
- VdbeMachine.LogicTables: integers are unbounded, where the machine compares them by a 32-bit difference; ExprValue.DifferenceAgrees says when that makes no difference.
- HashTable.Hash.Insert: does not model copied keys (copyKey); masking with htsize - 1 is a remainder.
- BinaryEncoder.DecodeBinary: stops where the code would read behind its input, and needs room for what it takes until then, as the code does.
- Feeder.Feeder.ReapJobs: does not model the wait's duration; polls bounds how often it looks before a child exits. A runner that fails to launch is not modelled. Others commit between transactions only.
- JobProtocol.NoJobIsHeldTwice: at most one live feeder a host, atomic transactions, and a clock a host that never goes back are assumed; a crash comes between transactions.
- JobQueue.Queue.Submit: standard input and data files are not modelled, and priority is a number.
