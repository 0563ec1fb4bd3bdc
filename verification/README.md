# A verified model of the database engine

This project models the storage engine, the SQL server and the query path of the database, and proves what
they keep over every input, every run and every interleaving. `dafny verify dfyconfig.toml` (Dafny 4.11) checks
all of it.

- **Page B+ tree** (`Paged*.dfy`, `PageView.dfy`, `Bitmap.dfy`, `Keys.dfy`). The tree of `src/storage/btree` over
  pages named by id: binary searches, descents, leaf splits, parent updates, new roots, merges, the page
  allocator. A well-formed tree of any height stores a finite map; insertion, deletion, lookup and range scan are
  proved against that map, and the allocator's bits against the pages in the tree. `Acceptance.dfy`, `Merging.dfy` and
  `Nodes.dfy` say in sizes, fills and ids when a record is stored, when leaves are merged, and what each change writes.
- **Slotted page** (`PageBytes.dfy`, `SlottedPage.dfy`). The 2048 bytes of a page: header, records, slot directory. Byte
  by byte the operations refine the sorted record sequence that the tree is proved over. `Layouts.dfy` has the formats of
  pages, rows and table definitions.
- **In-memory B+ tree** (`Mem*.dfy`). Nodes on the heap with parent pointers and a leaf chain; splits cascade to any
  height; cursors.
- **Levels and towers** (`Levels.dfy`, `Towers.dfy`; `Seqs.dfy` has facts about sequences). The theory both trees share: a level is a sequence of nodes with
  key bounds, and each level lists the children of the one above. A split is one pending separator that the
  next level up has to take.
- **Server** (`Server.dfy`, `Lines.dfy`). The event loop and the worker as a state machine whose steps are the stretches that
  locks or ownership keep whole, and a class with the server's fields whose methods are these steps. A schedule
  is any sequence of events. `Progress.dfy`: no request is forgotten, and the server can always go on until everything is
  answered. `Client.dfy`: what the client makes of the responses.
- **Pins** (`PagePool.dfy`). The tree operations keep a ledger of pins and of pages that may be in memory, moved at every fetch, new page,
  unpin and delete; the ledger is that of the buffer pool, and with two frames or more no fetch fails.
- **Buffer pool** (`BufferPool.dfy`) and **catalog cache** (`Catalog.dfy`). Both are compared with the map they stand in for: the page,
  or table, as seen, which is the cached copy where there is one and otherwise the disk. `Recency.dfy`: which page the
  pool gives up.
- **Parser** (`Lexing.dfy`, `Parsing.dfy`, `ParserClass.dfy`). The lexer and the precedence-climbing expression parser, against a
  grammar and a printer; `Operators.dfy` and `Words.dfy` tell the levels of the operators and the words and symbols
  from tables.
- **Codecs** (`RowCodec.dfy`, `SchemaCodec.dfy`) and **tables of rows** (`Relation.dfy`): rows through bytes
  through the tree and back; `KeyOrder.dfy`: the order in which a scan delivers them.
- **Queries** (`Evaluator.dfy`, `Execution.dfy`). Planner, executors pulled one tuple at a time, expression evaluation; the
  result of a SELECT as a statement about the rows of its table. `Arithmetic.dfy` has the laws of the operators, `Plans.dfy`
  what the plans of statements change and deliver.

Conventions. Code that updates fields or arrays is a class or a method with loops, proved against functions on values;
the functions' own properties are lemmas. Sizes that the program keeps in 16, 32 or 64 bits wrap here, too.
An exception or error return is a value. A failed `assert` of the program is taken as compiled out, so the call
goes on with what it has. Disk, sockets and thread scheduling are parameters: a file is a map, a socket
gives any chunk of bytes, the next event is any that is possible.

What the proofs show about the code, besides that it works:

- `btree_insert` can return true for an absent key although that entry, or another one, cannot be found afterwards: when
  the value is empty, when the record size wraps 16 bits, when the parent of a split leaf has no room and the pending
  separator is dropped (`FullParentOverflows` gives a tree), when the bitmap has no page for the upper half, or when the
  first record of an empty table fits no page. `BtreeInsert` states the exact condition for success, `Accepts`.
- `btree_insert` can return false and lose records: the leaf is split and both halves written, the chosen half refuses
  the record, and the parent is never told (`RefusedLoses` gives the sizes). A split that cannot be carried out has already
  taken a page id, which stays marked.
- Deleting gives no space in a page back, so a leaf with one record left can refuse a small one (`WornRefuses`); of records
  of one size from 7 to 500 bytes nothing else makes a leaf refuse (`UniformStores`).
- A page freed by a merge with the right neighbour stays in memory, since the neighbour is pinned then. Leaf and internal
  splits write such a page in full before it is read again. `create_new_root` does not: where an internal root overflows, the
  new root can be the old leaf.
- `create_new_root` uses the invalid id when no page is free; `Accepts` asks for one free id for a split and for two where
  the root leaf splits.
- The server keeps "none" for no database, so a session that selects a database of that name runs its next query without
  one (`NoneForgotten`); `OwnDbExactly` gives the condition. Its part about queries that throw concerns the interface of the
  callback alone: `run_query` (`src/orchestrator/orchestrator.cpp:11-47`) lets no exception of its own out.
- After a read whose first line is empty the rest of the lines waits for more input (`StalledAfter`); no other request is
  ever left lying (`EveryRequestAnswered`).
- The client takes a response to end where a line of it ends with END, so a database of such a name shifts all its later
  responses (`NameCutsResponse`); otherwise it finds every response (`TakenWhole`).
- A frame whose last pin is given back after it has left the list comes last there, however late it was used
  (`GivenBackByUse`).
- Keys are ordered by their bytes, so a scan delivers INT keys by their lowest byte first (`NotByValue`).
- `lower_bound` of the in-memory tree passes over copies of a key when two neighbouring leaves part them (`MissedCopies`).
- `deserialize_schema` forgets AUTO_INCREMENT; `RowCodec` writes every DATETIME as 0 and cuts strings of 65536 bytes or more.
- The catalog cache finds tables by name alone, so a table of the same name in another database is answered for
  (`SharedRowIds`).
- `update_record` deletes before it inserts, so a refused insertion leaves the record gone (`UpdateRecord`).
- Among the statements the planner accepts, only a SELECT without ORDER BY can be executed.
- When a write-back fails, the buffer pool no longer lists the frame it could not empty; `MakeRoom` says exactly when.

## Model

A function that only computes has no row of its own; the row of the lemma or method about it says what it means.

| member | source | states |
|---|---|---|
| `PagedTree.TableHandle.BtreeInsert` | src/storage/btree/btree.cpp:104-189 | a stored key is refused and nothing changes; for an absent key the call returns true exactly when `Attempts` held; it returns true, every lookup afterwards is that of the map with the entry added, and the root is on a page laid out for it, exactly when `Accepts` held before (the target leaf takes the record, or it can be split, the chosen half takes it, the parent has room, and the bitmap has one free id, two where the root leaf splits); then the tree is well formed. A false answer leaves every lookup as it was, but for the upper half of a leaf that was split and not told of; an id that a failed split took is accounted for, and so is that of a refused half: no descent comes to its page, and every other bit stands for a page or for an id wasted before. No pin is left |
| `PagedTree.TableHandle.BtreeSearch` | src/storage/btree/btree.cpp:78-102 | in a well-formed tree of any height, the answer is that of the stored map; tree and pins are as before |
| `PagedTree.TableHandle.BtreeDelete` | src/storage/btree/btree.cpp:475-606 | true exactly for a stored key, and on a root that gave up its last leaf false; afterwards every key is found as in the map without it, and the bitmap has the remaining pages and what failed splits took; the tree stays well formed, without empty leaves, unless the key was the last one below an internal node; a two-level tree that loses its last key is a root that finds nothing. Which leaf is merged with which neighbour, or given up, and what pages, root and bitmap are then, is exact (`DeletedAs`). No pin is left, also through the merges |
| `PagedTree.TableHandle.BtreeRangeScan` | src/storage/btree/btree.cpp:20-76 | hands over exactly the entries within the bounds, in ascending key order, each once; an empty bound is no bound; it ends, also on a root that gave up its last leaf, and leaves no pin |
| `PagedTree.TableHandle.constructor` | src/storage/table.cpp:38-80 | a new table has an empty root leaf on page 2 and stores the empty map |
| `PagedTree.TableHandle.FindLeafPage` | src/storage/btree/leaf.cpp:11-43 | the descent gives up past the depth limit or on a page that is not there, and otherwise ends at the leaf that the separators lead to |
| `PagedTree.TableHandle.FindLeftmostLeafPage` | src/storage/btree/leaf.cpp:45-78 | follows leftmost children, with the same limits |
| `PagedTree.TableHandle.InsertFirst` | src/storage/btree/btree.cpp:108-128 | false, and nothing changed, exactly when the bitmap is full; otherwise the record is stored exactly when an empty page takes it |
| `PagedTree.TableHandle.InsertNoSplit` | src/storage/btree/leaf.cpp:80-96 | a record that passed the room test is stored exactly when the page takes it; a refused write goes unnoticed |
| `PagedTree.TableHandle.InsertWithSplit` | src/storage/btree/btree.cpp:142-188 | true exactly when the leaf divides and the chosen half takes the record; the record is stored in a well-formed tree exactly when the split is accepted; if the half refuses, exactly the upper half of the leaf is lost to lookups, its page id is held for nothing, and no descent comes to that page; if the leaf does not divide, nothing changes but the page id that was taken |
| `PagedTree.TableHandle.SplitLeafPage` | src/storage/btree/leaf.cpp:98-231 | with two live records and a short separator: a new page from the allocator, the upper half on it, links and parent as the code sets them; otherwise the pages stay, and the id taken from the bitmap is lost unless the leaf was empty |
| `PagedTree.TableHandle.CreateNewRoot` | src/storage/btree/internal.cpp:216-254 | a new root over the two pages, both of which get it as parent, and meta page and handle agree; only a page still in memory from an earlier use may stay the leaf it was |
| `PagedTree.TableHandle.InsertIntoParent` | src/storage/btree/internal.cpp:256-303 | puts separator and page into a parent with room, makes a new root above a root, and on overflow leaves the page without any parent entry; unless a new root lands on a page still in memory |
| `PagedTree.TableHandle.SplitParent` | src/storage/btree/internal.cpp:136-214 | an overflowing parent is split and the split passed up; leaves are untouched and the new leaf remains nobody's child |
| `PagedTree.TableHandle.MergeLeafPages` | src/storage/btree/btree.cpp:409-473 | left takes both record sequences in order, the chain skips right, and right's page and bit are given back; right leaves memory exactly when the caller does not hold it |
| `PagedTree.TableHandle.RemoveFromInternal` | src/storage/btree/btree.cpp:298-334 | drops the entry with the separator; a deleted leftmost child is replaced by the first entry's child |
| `PagedTree.TableHandle.FindLeafSiblings` | src/storage/btree/btree.cpp:200-282 | the neighbours of the j-th child below the same parent and the separators between |
| `PagedTree.TableHandle.ChooseMerge` | src/storage/btree/btree.cpp:528-560 | exactly the choice of `ChoiceOf`: none unless the leaf is underused, else the left neighbour, then the right one, where both fit one page; the pin on the chosen one is kept, the others are given back |
| `PagedTree.TableHandle.MergeIfSmall` | src/storage/btree/btree.cpp:528-560 | an underused leaf is merged where it can be, and a leaf that stays empty has no neighbour |
| `PagedTree.TableHandle.SettleRoot` | src/storage/btree/btree.cpp:514-526 | an emptied root leaf is given back and the tree is empty |
| `PagedTree.TableHandle.GiveUp` | src/storage/btree/btree.cpp:574-584 | an empty only child is unlinked, given back and forgotten by its parent |
| `PagedTree.TableHandle.UpdateLinksOnFree` | src/storage/btree/btree.cpp:388-407 | the neighbours of the freed leaf point at each other, where they are leaves; no other page changes |
| `PagedTree.TableHandle.FreePage` | src/storage/table.cpp:114-130 | page and bit are given back; a page that somebody holds stays in memory |
| `PagedTree.TableHandle.WriteSplit` | src/storage/btree/internal.cpp:160-211 | the upper half is written in full to its page, whatever was in memory there, and the parent is given back |
| `PagedTree.SearchRecord` | src/storage/record.cpp:43-65 | the loop computes the binary search whose meaning is PageView.SearchSorted |
| `PagedTree.InternalFindChild` | src/storage/btree/internal.cpp:27-79 | the loop computes the routing whose meaning is PagedSteps.ChildFound |
| `PagedTree.TotalRecords` | src/storage/btree/btree.cpp:360-371 | the 16-bit sum of the record sizes |
| `PagedTree.Rebuild` | src/storage/btree/btree.cpp:457-463 | writing records that fit into a fresh page one after another gives the compacted page |
| `PagedTree.ScanPage` | src/storage/btree/btree.cpp:44-59 | a leaf hands over the stretch from the start slot to the first key past the end bound |
| `PagedSteps.LookupIsMap` | src/storage/btree/btree.cpp:78-102 | in a well-formed tree a lookup gives the value in the in-order records |
| `PagedSteps.ChildFound` | src/storage/btree/internal.cpp:27-79 | the chosen child is the one between the separators around the key |
| `PagedOps.LookupStored` | src/storage/btree/btree.cpp:78-102 | the same for the stored map, empty tree included |
| `PagedSteps.LeafWasSplit` | src/storage/btree/leaf.cpp:98-231 | splitting a leaf leaves a tree with one separator pending for its parent |
| `PagedEdits.ParentWasGrown` | src/storage/btree/internal.cpp:121-134 | entering the pending separator completes the tree |
| `PagedEdits.RootWasAdded` | src/storage/btree/internal.cpp:216-254 | so does a new root, one level up |
| `PagedEdits.LeavesWereMerged` | src/storage/btree/btree.cpp:409-473 | merging two neighbours and dropping their separator keeps the tree |
| `PagedInsert.SplitFinish` | src/storage/btree/btree.cpp:142-188 | the split path yields the updated map exactly when the split was accepted |
| `PagedInsert.SplitConcludes` | src/storage/btree/btree.cpp:142-188 | the same when a climb may have put the new root on a page still in memory |
| `PagedInsert.UntoldSplit` | src/storage/btree/btree.cpp:156-178 | a split whose parent is never told loses the upper half of the leaf and nothing else |
| `PagedInsert.RefusedLoses` | src/storage/btree/btree.cpp:156-178 | a leaf with records of 95 and 1700 bytes refuses one of 1950 bytes between them, and loses the second |
| `PagedInsert.RefusedWastes` | src/storage/btree/btree.cpp:156-178 | there, the page id taken for the upper half is the one bit that stands for no page in use |
| `PagedInsert.NoPageLoses` | src/storage/btree/leaf.cpp:144-147 | with no page for the upper half, its first key is no longer found: descents stop at such ids |
| `PagedInsert.OverflowLoses` | src/storage/btree/internal.cpp:300-302 | on parent overflow the separator, a stored key until then, is no longer found |
| `PagedInsert.FullParentOverflows` | src/storage/btree/internal.cpp:292-302 | a well-formed tree of two leaves below a parent without room: a third record splits a leaf and is taken by its half, so the call answers true, but it is not accepted, and the parent overflows on a separator whose record was found before |
| `PagedInsert.SeparatorStored` | src/storage/btree/leaf.cpp:186-199 | the separator is a stored key other than the inserted one, so a lost separator is a lost entry |
| `Acceptance.AcceptsInNumbers` | src/storage/btree/btree.cpp:104-189 | a record is accepted exactly by numbers a caller sees: value not empty, size below 65536, and a place in the leaf (fill + size + 4 * slots + 2 within 2048), or two records, a separator of at most 256 bytes, a place in the half from the middle record on or below it, one free id of 3 to 16063 (two where the root is split), and a place for separator and 6 bytes in the parent |
| `Acceptance.AttemptsInNumbers` | src/storage/btree/btree.cpp:104-189 | likewise when the call answers true, with sizes cut to 16 bits |
| `Acceptance.Insert` | src/storage/btree/btree.cpp:104-189 | btree_insert of an absent key answers, and stores, exactly by these numbers |
| `Acceptance.InsertUniform` | src/storage/btree/btree.cpp:142-188 | from any well-formed tree, with records and key of one size from 7 to 500 bytes, keys of at most 256 bytes, ids free and a place in the parent, the call answers true and the key is added, unless the leaf is worn out |
| `Acceptance.UniformStores` | src/storage/btree/btree.cpp:142-188 | under these conditions the record is accepted exactly unless the leaf has fewer than two records and no place; a leaf filled by its records alone is never so |
| `Acceptance.TallTrees` | src/storage/btree/leaf.cpp:11-43 | a tree of up to 101 levels whose separators have at most 256 bytes is well formed: no lower limit than the code's stands in the way |
| `Acceptance.DescentStops` | src/storage/btree/leaf.cpp:11-43 | a descent goes on to the chosen child unless its id is 0 or 1000000 and more, or depth 100 is reached |
| `Acceptance.Refuses` | src/storage/btree/leaf.cpp:182-201 | a leaf without a place refuses if it has fewer than two records or its separator has more than 256 bytes |
| `Acceptance.WornRefuses` | src/storage/btree/leaf.cpp:98-110 | a root leaf with one record of 205 bytes, where eight more were deleted, refuses another |
| `Nodes.LeafSplitTold` | src/storage/btree/leaf.cpp:98-231 | which page holds which records after a leaf split, how far each is filled, and all links |
| `Nodes.MergeTold` | src/storage/btree/btree.cpp:409-473 | likewise after a merge |
| `Nodes.UnlinkTold` | src/storage/btree/btree.cpp:388-407 | the neighbours of a freed leaf are each other's, and no other page changes |
| `Nodes.RootTold` | src/storage/btree/internal.cpp:216-254 | the one entry and the fill of a new root, and the parents of its children |
| `Nodes.GrowTold` | src/storage/btree/internal.cpp:121-134 | an entry stands in its place and takes 6 bytes and its key |
| `Nodes.InnerSplitTold` | src/storage/btree/internal.cpp:136-214 | the halves of an internal node and how far they are filled; the children of the entries behind the middle one learn their parent, the new leftmost child does not |
| `Merging.MergesInNumbers` | src/storage/btree/btree.cpp:336-386 | a leaf whose records and slots take less than 1004 bytes is merged with its left neighbour if both take at most 2008, else with its right one if those do, else not at all |
| `PagedOverflow.SplitKeepsRouting` | src/storage/btree/internal.cpp:136-214 | choosing a half by the promoted separator and a child in it is choosing a child of the unsplit node, and the child lists of the halves are the old one cut in two |
| `PagedOverflow.HalvesReady` | src/storage/btree/internal.cpp:136-214 | both halves keep ascending separators |
| `PagedDelete.DeleteFinish` | src/storage/btree/btree.cpp:475-606 | whatever way the leaf was settled, lookups lose only the deleted key and pages are conserved |
| `PagedDelete.GivenUpRemoves` | src/storage/btree/btree.cpp:574-584 | giving up the empty only child changes no other lookup, at any height |
| `PagedDelete.HollowFindsNothing` | src/storage/btree/leaf.cpp:11-43 | a root without children finds no key |
| `PagedDelete.MergeFits` | src/storage/btree/btree.cpp:373-386 | the merge test's 16-bit sums are those of the true sizes, and what passes it fits one page |
| `PagedScan.LeftmostFound` | src/storage/btree/leaf.cpp:45-78 | the leftmost descent ends at the first leaf of the chain |
| `PagedScan.StartPlace` | src/storage/btree/btree.cpp:34-41 | the slot found for the start key divides all stored records |
| `PagedScan.StretchLists` | src/storage/btree/btree.cpp:20-76 | the stretch between the two bounds is the in-bounds part of the map |
| `PagedScan.ListsOnce` | src/storage/btree/btree.cpp:20-76 | only one listing satisfies what a range scan promises |
| `Bitmap.PageBitmap.Allocate` | src/storage/table.cpp:82-112 | the least free id from 3 on, now taken; the invalid id and no change when all are taken |
| `Bitmap.PageBitmap.Free` | src/storage/table.cpp:114-130 | exactly the one id becomes free |
| `Bitmap.PageBitmap.constructor` | src/storage/table.cpp:56-63 | ids 0, 1 and 2 are taken at first |
| `Bitmap.NextFrom` | src/storage/table.cpp:94-111 | the id handed out is free and all smaller ones are taken; invalid only when none is free |
| `Bitmap.SetBit` | src/storage/table.cpp:101-102 | setting a bit changes that bit only |
| `Bitmap.ClearBit` | src/storage/table.cpp:124-126 | clearing a bit changes that bit only |
| `PageView.SearchSorted` | src/storage/record.cpp:43-65 | on ascending keys the search finds a key exactly when it is there, and otherwise the place where it belongs |
| `PageView.InsertTaken` | src/storage/record.cpp:67-112 | an accepted record goes to its place; order, non-emptiness and room are kept |
| `PageView.TakesIsOk` | src/storage/record.cpp:67-112 | page_insert of an absent key succeeds, readably, exactly when the page takes the record |
| `PageView.DeleteKeepsPage` | src/storage/record.cpp:114-124 | deletion removes the key and keeps order and room |
| `PageView.SplitMakesRoom` | src/storage/btree/leaf.cpp:98-231 | if all records have one size from 7 to 500 bytes and two are live, the chosen half takes the record that did not fit |
| `PageView.CompactFits` | src/storage/btree/leaf.cpp:150-176 | any stretch of a page's records fits a page of its own |
| `Keys.CompareKeys` | src/storage/record.cpp:12-17 | the sign is that of the lexicographic order, zero exactly for equal keys |
| `Keys.Trichotomy` | src/storage/record.cpp:12-17 | exactly one of less, equal, greater |
| `Keys.Transitive` | src/storage/record.cpp:12-17 | the order is transitive |
| `SlottedPage.Page.Insert` | src/storage/record.cpp:67-112 | byte for byte, the page afterwards reads as the sorted record sequence with the record added, or unchanged and false; no other header field changes |
| `SlottedPage.Page.Delete` | src/storage/record.cpp:114-124 | byte for byte, the record sequence without the key, or unchanged and false; the dropped record is marked, and no other header field changes |
| `SlottedPage.Page.SearchRecord` | src/storage/record.cpp:43-65 | the search over slots and bytes is the search over the record sequence |
| `SlottedPage.Page.WriteRecord` | src/storage/record.cpp:19-41 | the record at the old free start, or 0 and no change when it does not fit; no other record byte changes |
| `SlottedPage.Page.InsertSlot` | src/storage/slot_helpers.cpp:80-117 | the slot directory with one more offset at its place; the record area stays; refused when the directory would reach it |
| `SlottedPage.Page.RemoveSlot` | src/storage/slot_helpers.cpp:119-145 | the directory without one offset; the record area stays |
| `SlottedPage.Page.SlotPtr` | src/storage/slot_helpers.cpp:8-18 | the place of an existing slot in the directory, nothing else |
| `SlottedPage.Page.SlotKey` | src/storage/slot_helpers.cpp:20-47 | the bytes of the key, for a slot that exists |
| `SlottedPage.Page.SlotValue` | src/storage/slot_helpers.cpp:49-78 | the bytes of the value, unless it is empty |
| `SlottedPage.Page.constructor` | src/storage/page.cpp:6-22 | a fresh page holds no records; its header has id, type and level, and zeros |
| `PageBytes.RecordWrittenView` | src/storage/record.cpp:19-41 | a written record without a slot changes nothing that is read, and reads back |
| `PageBytes.SlotInsertedView` | src/storage/slot_helpers.cpp:80-117 | one more slot is one more record at that place |
| `PageBytes.SlotRemovedView` | src/storage/slot_helpers.cpp:119-145 | one slot less is one record less |
| `PageBytes.FlagsView` | src/storage/record.cpp:114-124 | marking a record as deleted changes no record |
| `PageBytes.InsertFinish` | src/storage/record.cpp:67-112 | write and slot together are insertion into the sorted sequence |
| `PageBytes.DeleteFinish` | src/storage/record.cpp:114-124 | mark and slot removal together are removal from it |
| `PageBytes.InsertHeader` | src/storage/record.cpp:67-112 | an insertion changes no header field but the count and the two ends of the free space |
| `PageBytes.DeleteHeader` | src/storage/record.cpp:114-124 | nor does a deletion, and the dropped record is marked |
| `Layouts.PageLayout` | include/storage/page.hpp:20-37 | where the header says how many records there are and where the free space lies |
| `Layouts.RecordLayout` | include/storage/record.hpp:6-12 | where the slots are, and key and value of each record |
| `MemTree.BPlusTree.Insert` | experiments/b+tree_iterator/btree.py:72-80 | from any valid tree: a valid tree whose keys are the old ones and the new one, as multisets; valid means sorted, one leaf depth, key counts between the bounds, right parents, and a next chain that lists the leaves |
| `MemTree.Build` | experiments/b+tree_iterator/btree.py:72-80 | inserting any sequence of keys gives a valid tree with exactly these keys, in order |
| `MemTree.BPlusTree.SplitLeaf` | experiments/b+tree_iterator/btree.py:96-109 | an overfull leaf is halved and the tree completed above it, keys unchanged |
| `MemTree.BPlusTree.SplitInternal` | experiments/b+tree_iterator/btree.py:111-128 | likewise an overfull internal node, at any height |
| `MemTree.BPlusTree.InsertIntoParent` | experiments/b+tree_iterator/btree.py:130-147 | completes the tree above a node that was split, through any cascade |
| `MemTree.BPlusTree.KeysSorted` | experiments/b+tree_iterator/btree.py:72-147 | the keys of a valid tree ascend |
| `MemTree.BPlusTree.Search` | experiments/b+tree_iterator/btree.py:42-53 | a cursor at the key, exactly when it is stored |
| `MemTree.BPlusTree.LowerBound` | experiments/b+tree_iterator/btree.py:55-68 | everything from the cursor on is at least the key and everything before at most; copies of the key are passed over exactly when one leaf ends with the key and the next begins with it |
| `MemTree.BPlusTree.RangeFrom` | experiments/b+tree_iterator/btree.py:220-223 | a cursor from lower_bound yields exactly the stored keys from the bound on, in order, exactly when no two neighbouring leaves part copies of the bound; otherwise fewer |
| `MemTree.BPlusTree.Drain` | experiments/b+tree_iterator/btree.py:220-223 | reading on until the cursor is invalid yields all keys from its position on, and ends |
| `MemTree.BPlusTree.CursorLive` | experiments/b+tree_iterator/btree.py:22-26 | a standing cursor is valid exactly while keys remain, and shows the next one |
| `MemTree.IndexCursor.NextTuple` | experiments/b+tree_iterator/btree.py:28-33 | one step is one position further in the sorted keys |
| `MemTree.AppendAndSort` | experiments/b+tree_iterator/btree.py:90-92 | append and sort is insertion in order |
| `MemCursor.LowerBoundFound` | experiments/b+tree_iterator/btree.py:55-68 | where the descent by strict comparison comes out among all keys, and when copies lie before |
| `MemCursor.PartedCopies` | experiments/b+tree_iterator/btree.py:82-88 | the leaf a key is routed to has copies of it before exactly when two neighbouring leaves part them |
| `MemTree.MissedCopies` | experiments/b+tree_iterator/btree.py:220-223 | of three copies of a key between two other keys, inserted into an empty tree, the cursor misses at least one |
| `MemSteps.LeafWasSplit` | experiments/b+tree_iterator/btree.py:96-109 | halving a leaf leaves a tree with one separator pending |
| `MemSteps.InnerWasSplit` | experiments/b+tree_iterator/btree.py:111-128 | so does halving an internal node, one level up |
| `MemSteps.ParentWasGrown` | experiments/b+tree_iterator/btree.py:140-147 | entering the separator completes the tree |
| `MemSteps.RootWasAdded` | experiments/b+tree_iterator/btree.py:131-138 | so does a new root |
| `Levels.FlatSplit` | experiments/b+tree_iterator/btree.py:111-128 | splitting an internal node leaves the level below as it is listed |
| `Levels.FlatGrow` | experiments/b+tree_iterator/btree.py:140-147 | a separator entered in a node divides one slot of the level below and no other |
| `Levels.FlatShrink` | src/storage/btree/btree.cpp:298-334 | a dropped separator joins two slots of the level below and no others |
| `Server.EveryInterleaving` | src/server/main.cpp:49-293 | after any schedule: one task for each waiting connection and none for another; the worker's connection exists; queries ran in the order their lines arrived; a query is for the database that its own connection's queries really left selected, exactly when the last one that was not refused left no database named "none" and, if it threw, left the one it began with; the bytes sent are a prefix of the responses in that order |
| `Server.StepSafe` | src/server/main.cpp:66-99 | in a reachable state the connection that any step uses exists, also where the worker uses its pointer without the lock |
| `Server.StepOk` | src/server/main.cpp:49-293 | every step keeps the invariant |
| `Server.OneTask` | src/server/main.cpp:235-243 | a connection is waiting exactly when one task of its own is queued or in the worker's hand |
| `Server.HistoryTold` | src/server/main.cpp:205-293 | what a connection's record says about order, databases and bytes |
| `Server.OwnDbExactly` | src/server/main.cpp:74-107 | storing the name shown loses the selection exactly for a database named "none", and after a query that threw with a selection it had changed, which the interface of the callback allows and the present `run_query`, catching its exceptions, does not do |
| `Server.NoneForgotten` | src/server/main.cpp:74-103 | a schedule of one client: it selects a database named "none", and its next query runs with none selected |
| `Progress.EveryRequest` | src/server/main.cpp:202-293 | after any schedule, the requests received on a live connection are its tasks and those still in its buffer, in order; where it is read from, all its tasks are executed and answered, and none is left in the buffer unless it is stalled |
| `Progress.EveryRequestAnswered` | src/server/main.cpp:49-293 | after any schedule there is a continuation without another byte from a client after which the connection is gone or all requests received on it are executed and answered, unless it was stalled before |
| `Progress.StalledAfter` | src/server/main.cpp:212-246 | a connection is read from although its buffer holds a complete line exactly after a read whose first line was empty and had a complete line behind it, until the next read |
| `Progress.WriteTold` | src/server/main.cpp:249-287 | sending the last byte of a response passes over empty lines; the next other line closes the connection or becomes its task, and if there is none the connection rests with an incomplete line |
| `Progress.WriteTaskIsNext` | src/server/main.cpp:263-284 | that task is the next of the requests received |
| `Progress.ReadTold` | src/server/main.cpp:212-246 | a read uses up one complete line if there is one: an exit, a task, or nothing |
| `Progress.ReadTaskIsNext` | src/server/main.cpp:224-243 | its task is the next of the requests received |
| `Progress.ExitWords` | src/server/main.cpp:229-234 | the lines that end a connection are exit; and quit; in capital or small letters |
| `Progress.NoneNeglected` | src/server/main.cpp:165-174 | a live connection waits for its one task, or is read from, or is written to |
| `Progress.SelectTold` | src/server/main.cpp:74-92 | a query runs with its connection's database selected or none, and is answered unrun if that database is gone |
| `Client.TakenWhole` | src/network/tcp_client.cpp:47-63 | whatever follows it in the stream, a response is taken as sent, and nothing more, exactly if neither the database's name nor a line of the body ends with END |
| `Client.Understood` | src/client/main.cpp:28-61 | and then the client shows the status, the database and the body as sent, without blanks at the end |
| `Client.QuerySent` | src/server/main.cpp:80-113 | the response to each outcome of a query, and to one for a database that is gone |
| `Client.ConversationRead` | src/client/main.cpp:126-135 | of the responses of a connection, in order, the client finds each where it begins, as long as that is so |
| `Client.NameCutsResponse` | src/server/main.cpp:80-82 | the refusal of a query for a database named WEEKEND is cut inside the name |
| `Client.ReadUntil` | src/network/tcp_client.cpp:47-63 | reads up to the first place where the stream ends with the delimiter, and hands on what is before it |
| `Server.SweptOk` | src/server/main.cpp:290-293 | erasing closed connections never erases a waiting one |
| `Server.FoundOk` | src/server/main.cpp:66-72 | the worker always finds the connection of its task |
| `Server.DbSelectedOk` | src/server/main.cpp:74-93 | a database that is gone answers the query with an error and keeps everything else |
| `Server.QueryRunOk` | src/server/main.cpp:99-112 | a query runs under the database its own connection stored, whatever other sessions selected |
| `Server.PublishedOk` | src/server/main.cpp:114-122 | a response goes to the connection that waits for it |
| `Server.ReadVisitOk` | src/server/main.cpp:205-247 | reading any chunk of bytes keeps a connection's account of lines, queries and responses |
| `Server.WriteVisitOk` | src/server/main.cpp:249-287 | so does sending any part of a response, and looking for the next request after it |
| `Server.ServerContext.constructor` | src/server/main.cpp:175-184 | the initial state of the state machine |
| `Server.ServerContext.Accept` | src/server/main.cpp:186-201 | step of the accept of the state machine, field by field |
| `Server.ServerContext.Receive` | src/server/main.cpp:205-247 | step of one readable socket of the state machine, field by field |
| `Server.ServerContext.Send` | src/server/main.cpp:249-287 | step of one writable socket of the state machine, field by field |
| `Server.ServerContext.Unlock` | src/server/main.cpp:290-293 | step that erases the closed connections of the state machine, field by field |
| `Server.ServerContext.TakeTask` | src/server/main.cpp:50-61 | step that takes the oldest task of the state machine, field by field |
| `Server.ServerContext.FindConnection` | src/server/main.cpp:66-72 | step that looks the connection up of the state machine, field by field |
| `Server.ServerContext.SelectDb` | src/server/main.cpp:74-93 | step that selects the connection's database or refuses of the state machine, field by field |
| `Server.ServerContext.RunQuery` | src/server/main.cpp:99-112 | step that runs the query and records the response of the state machine, field by field |
| `Server.ServerContext.Publish` | src/server/main.cpp:114-122 | step that hands the response over of the state machine, field by field |
| `Server.HandleLine` | src/server/main.cpp:223-245 | a line is left, queued or skipped as the state machine has it |
| `Server.ReadFrom` | src/server/main.cpp:205-247 | the loop body on a readable socket is the state machine's visit |
| `Server.WriteTo` | src/server/main.cpp:249-287 | the loop body on a writable socket is the state machine's visit |
| `Server.TakeNext` | src/server/main.cpp:260-286 | the loop over buffered lines stops at the first that is not empty |
| `Lines.TasksConcat` | src/server/main.cpp:223-245 | the queries in complete text followed by more text are those of both |
| `Lines.TakeLine` | src/server/main.cpp:223-245 | cutting one line off adds that line to the queries, unless it is empty |
| `BufferPool.BufferPoolManager.FetchPage` | src/storage/buffer_pool.cpp:20-56 | no page changes as seen; the frame holds the page with one more pin; there is none exactly when the page is not resident and all frames are pinned or the disk is broken; the list stays complete unless the victim is stuck; the frame comes first in the list, the others keep their order |
| `BufferPool.BufferPoolManager.UnpinPage` | src/storage/buffer_pool.cpp:58-84 | no page changes as seen; false exactly when not resident or not pinned; evictable frames stay in the list, and a frame that had left it comes last |
| `BufferPool.BufferPoolManager.NewPage` | src/storage/buffer_pool.cpp:86-117 | only the new page changes, and a resident one not even that; null exactly when it is not resident and all frames are pinned or the victim is stuck |
| `BufferPool.BufferPoolManager.DeletePage` | src/storage/buffer_pool.cpp:119-139 | an unpinned resident page falls back to what the disk has; nothing else changes |
| `BufferPool.BufferPoolManager.FlushPage` | src/storage/buffer_pool.cpp:141-159 | the disk agrees with the page as seen; no other page is written |
| `BufferPool.BufferPoolManager.FlushAll` | src/storage/buffer_pool.cpp:161-172 | with a working disk, the disk agrees with every page as seen |
| `BufferPool.BufferPoolManager.FindOrEvictFrame` | src/storage/buffer_pool.cpp:194-213 | a free frame, or the last unpinned one of the list, taken off it; none only if every listed frame is pinned; unpinned frames stay listed although the search drops pinned ones |
| `BufferPool.BufferPoolManager.EvictFrame` | src/storage/buffer_pool.cpp:215-237 | a dirty page is written before its frame is emptied; a failed write changes nothing |
| `BufferPool.BufferPoolManager.MakeRoom` | src/storage/buffer_pool.cpp:30-41 | finding a frame changes no page as seen and no pinned frame; there is none, for a complete list, exactly when all frames are pinned or the victim (none free, the last unpinned of the list) is dirty and the disk broken; the list stays complete exactly when not the latter |
| `BufferPool.BufferPoolManager.MarkFrameUsed` | src/storage/buffer_pool.cpp:239-242 | the frame is first in the list, once |
| `BufferPool.BufferPoolManager.RemoveFromLru` | src/storage/buffer_pool.cpp:244-249 | exactly this frame leaves the list |
| `Recency.FetchedByUse` | src/storage/buffer_pool.cpp:20-28 | a page fetched or made comes first, and the list stays in order of last use |
| `Recency.VictimLeastRecent` | src/storage/buffer_pool.cpp:194-213 | while the list is in that order, the frame evicted has been used least recently of all that are not pinned |
| `Recency.GivenBackByUse` | src/storage/buffer_pool.cpp:75-81 | giving back the last pin keeps the order exactly unless the frame had left the list and a listed one was used before it |
| `PagePool.RoomToPin` | src/storage/buffer_pool.cpp:194-213 | with fewer pins than frames some frame is not pinned, so no fetch in a tree operation gives null |
| `PagePool.Fetch` | src/storage/buffer_pool.cpp:20-56 | the pins that tree operations count are those of the pool after a fetch, and what is resident is among what they count so |
| `PagePool.New` | src/storage/buffer_pool.cpp:86-117 | likewise after new_page; a page that is not resident starts out as given |
| `PagePool.Unpin` | src/storage/buffer_pool.cpp:58-84 | likewise after unpin_page |
| `PagePool.Delete` | src/storage/buffer_pool.cpp:119-139 | likewise after delete_page, which leaves a pinned page resident |
| `BufferPool.BufferPoolManager.constructor` | src/storage/buffer_pool.cpp:7-14 | an empty pool shows the disk |
| `Catalog.CatalogManager.Run` | src/storage_new/catalog_manager.cpp:388-405 | over any run of row-id and AUTO_INCREMENT requests, page and schema reads, schema writes, flushes, clears and evictions in one database, the row ids handed out for a table are consecutive, and so are the values of a column, as many as were asked for |
| `Catalog.Pigeonhole` | src/storage_new/catalog_manager.cpp:146-160 | with a slot of the index free, one of the pool is free, so the fallback to slot 0 is never taken |
| `Catalog.CatalogManager.EvictLruSlot` | src/storage_new/catalog_manager.cpp:54-86 | the victim is the table accessed least recently; its changes reach the disk and no table changes as seen |
| `Catalog.CatalogManager.FindOrAllocateSlot` | src/storage_new/catalog_manager.cpp:88-117 | the slot of a cached table, or a free one; no table changes as seen |
| `Catalog.CatalogManager.FindSlot` | src/storage_new/catalog_manager.cpp:43-52 | the valid slot with the name, if there is one |
| `Catalog.CatalogManager.FindPoolSlot` | src/storage_new/catalog_manager.cpp:146-160 | a pool slot no cached table owns |
| `Catalog.CatalogManager.WriteSlotToDisk` | src/storage_new/catalog_manager.cpp:125-135 | the table's file is as the table was seen; no other file changes |
| `Catalog.CatalogManager.LoadTableMeta` | src/storage_new/catalog_manager.cpp:137-182 | the table is cached as the disk has it; only a cached table of that name can change as seen |
| `Catalog.CatalogManager.GetPage0` | src/storage_new/catalog_manager.cpp:184-199 | the page is that of the table asked for, or of the table of that name cached from another database; no table changes as seen |
| `Catalog.CatalogManager.GetTableMeta` | src/storage_new/catalog_manager.cpp:201-222 | likewise for the schema page, and the access is noted |
| `Catalog.CatalogManager.WriteSchema` | src/storage_new/catalog_manager.cpp:275-308 | exactly the one schema changes, or nothing when it is too large |
| `Catalog.CatalogManager.SchemaOf` | src/storage_new/catalog_manager.cpp:250-273 | the schema as it is seen; nothing changes as seen |
| `Catalog.CatalogManager.Flush` | src/storage_new/catalog_manager.cpp:310-321 | the disk has every table as seen, and nothing is dirty |
| `Catalog.CatalogManager.Clear` | src/storage_new/catalog_manager.cpp:323-346 | likewise, and the cache is empty |
| `Catalog.CatalogManager.EvictTable` | src/storage_new/catalog_manager.cpp:374-386 | the table is no longer cached, and no table changes as seen |
| `Catalog.CatalogManager.GetAndIncrementRowId` | src/storage_new/catalog_manager.cpp:388-394 | the table's counter, which goes up by one modulo 2^64; nothing else changes |
| `Catalog.CatalogManager.SharedRowIds` | src/storage_new/catalog_manager.cpp:184-199 | two tables of one name in different databases: the second takes its row ids from the header of the first, and its own stays |
| `Catalog.CatalogManager.GetAndIncrementAutoIncrement` | src/storage_new/catalog_manager.cpp:396-405 | the column's counter likewise; refused past the last column, and then nothing changes |
| `Catalog.CatalogManager.ChangeHeader` | src/storage_new/catalog_manager.cpp:224-230 | a change through the page pointer is seen, of this table only |
| `Catalog.Saved` | src/storage_new/catalog_manager.cpp:125-135 | writing dirty pages makes disk and cache agree on them and changes nothing seen |
| `Catalog.Released` | src/storage_new/catalog_manager.cpp:374-386 | a clean table can leave the cache unseen |
| `Parsing.ParsesGrammar` | src/parser/parser.cpp:246-287 | the parser accepts exactly what the five-level left-associative grammar derives, with that expression |
| `Parsing.Unambiguous` | src/parser/parser.cpp:213-287 | no token string stands for two expressions |
| `Parsing.ExprSound` | src/parser/parser.cpp:246-257 | what is parsed off was derived, and what follows does not bind as tightly |
| `Parsing.ExprComplete` | src/parser/parser.cpp:246-257 | what is derived is parsed, up to a token that does not bind above the minimum |
| `Parsing.WriteParse` | src/parser/parser.cpp:213-287 | an expression written with needed parentheses only, then anything of precedence 0, parses to that expression and that rest |
| `Parsing.WrittenDerives` | src/parser/parser.cpp:213-287 | that writing is derived as the expression at its level |
| `Parsing.WrittenShortest` | src/parser/parser.cpp:213-287 | no derivation of the expression uses fewer tokens |
| `Parsing.TextRoundTrip` | src/parser/parser.cpp:46-287 | spelled as text, lexed and parsed, an expression comes back |
| `Parsing.SpelledRead` | src/parser/parser.cpp:46-169 | spelled tokens are read back one by one |
| `Operators.SecondTakes` | src/parser/parser.cpp:213-257 | of two operators, the second takes the operand between them exactly if it stands in a later one of the groups OR; AND; = < > <= >=; + -; * / |
| `Operators.OthersEnd` | src/parser/parser.cpp:213-257 | a token of any other kind ends the expression |
| `Words.WordToken` | src/parser/parser.cpp:55-107 | a word in any case is the token of the table that spells it, and otherwise an identifier; AUTO_INCREMENT is cut in two |
| `Words.SymbolToken` | src/parser/parser.cpp:143-165 | each symbol is its token, two characters where they can be |
| `Words.FractionToken` | src/parser/parser.cpp:130-141 | digits with a point and digits behind it are one number |
| `Words.TextToken` | src/parser/parser.cpp:110-127 | a quoted text up to its closing quote; a backslash takes the next character with it |
| `Words.OtherToken` | src/parser/parser.cpp:47-168 | spaces are passed over, and any other character cannot be read |
| `Words.NumberValue` | src/parser/parser.cpp:267-272 | a number is the value of the digits before its point, and refused beyond 32 bits |
| `Lexing.LexAdvances` | src/parser/parser.cpp:46-169 | reading a token advances or is at the end, and stays in the text |
| `Lexing.Lexer.Next` | src/parser/parser.cpp:46-169 | the loops over the text produce the token that its beginning spells and move past it |
| `ParserClass.Parser.ParseExpr` | src/parser/parser.cpp:246-257 | over the lexer's state, the expression and the rest of the tokens that the grammar function gives, or a throw where it fails |
| `ParserClass.Parser.ParsePrimary` | src/parser/parser.cpp:260-287 | likewise for primaries |
| `ParserClass.Parser.Eat` | src/parser/parser.cpp:239-243 | the next token, if the current one is as expected and the next can be read |
| `RowCodec.RoundTrip` | src/storage/relational/row_codec.cpp:79-147 | decode gives a well-typed row back, whatever follows, exactly when no string has 65536 bytes or more and every DATETIME is the one value that is written |
| `RowCodec.RowBack` | src/storage/relational/row_codec.cpp:79-147 | and otherwise the row as its bytes keep it |
| `RowCodec.KeyInjective` | src/storage/relational/row_codec.cpp:67-73 | two rows have one key exactly when their primary keys are the same as far as bytes keep them |
| `KeyOrder.IntKeyOrder` | src/storage/relational/row_codec.cpp:16-27 | rows with an INT key come by the bytes of the key, the lowest first |
| `KeyOrder.NotByValue` | src/storage/relational/row_codec.cpp:16-27 | so 256 comes before 1, and 1 before -1 |
| `KeyOrder.StringKeyOrder` | src/storage/relational/row_codec.cpp:44-53 | rows with a STRING key come by the lower byte of the length, the upper one, and the text |
| `KeyOrder.BoundsTaken` | src/storage/btree/btree.cpp:20-76 | a scan takes both its bounds in |
| `Layouts.ColumnLayout` | src/storage/relational/row_codec.cpp:16-63 | the bytes of each column |
| `Layouts.ColumnRead` | src/storage/relational/row_codec.cpp:89-147 | a column is read exactly if its number comes first and enough bytes follow, and is what would be written |
| `RowCodec.AppendColumn` | src/storage/relational/row_codec.cpp:16-63 | tag and bytes of one value at the end of the buffer |
| `RowCodec.EncodeRow` | src/storage/relational/row_codec.cpp:79-87 | column after column; nothing for a row of another length |
| `RowCodec.DecodeRow` | src/storage/relational/row_codec.cpp:89-147 | the pointer walk accepts what the grammar of rows does, and else gives the empty row |
| `Relation.RelationalTable.Insert` | src/storage/interface/storage_engine.cpp:205-222 | a row that cannot be stored or whose key is there is refused and nothing changes; a new one is stored as its bytes keep it when the tree accepts it, and exactly then the call returns true with all lookups right |
| `Relation.RelationalTable.Scan` | src/storage/interface/storage_engine.cpp:224-240 | exactly the stored rows, one for each key, in key order |
| `Relation.RelationalTable.InsertRecord` | src/storage/interface/storage_engine.cpp:87-96 | refused without a change unless key and value have 16-bit lengths and the key is new; then as the tree insertion: the entry is added exactly when the tree accepts it |
| `Relation.RelationalTable.GetRecord` | src/storage/interface/storage_engine.cpp:98-112 | the stored bytes of the row, if there is one |
| `Relation.RelationalTable.DeleteRecord` | src/storage/interface/storage_engine.cpp:114-121 | true exactly for a stored row; every other row is still found; the tree stays well formed unless the row was the last below an internal node |
| `Relation.RelationalTable.UpdateRecord` | src/storage/interface/storage_engine.cpp:123-138 | nothing changes unless the record is stored; otherwise it is deleted first, the answer is that of the insertion into what the deletion left, the new value is stored exactly when that tree accepts it, and if the insertion is refused the record is gone |
| `SchemaCodec.RoundTrip` | src/storage_new/schema_serializer.cpp:6-125 | deserialising what was serialised gives the table without its AUTO_INCREMENT marks, so the table itself exactly when it has none |
| `SchemaCodec.Rewritten` | src/storage_new/schema_serializer.cpp:6-125 | accepted bytes are serialised again to themselves up to meaningless flag bits, and mean the same |
| `Layouts.SchemaLayout` | src/storage_new/schema_serializer.cpp:6-26 | the bytes of a table definition |
| `Layouts.SchemaColumnLayout` | src/storage_new/schema_serializer.cpp:28-51 | the bytes of each of its columns, flags included |
| `SchemaCodec.SerializeSchema` | src/storage_new/schema_serializer.cpp:6-54 | name, column count and columns in turn |
| `SchemaCodec.DeserializeSchema` | src/storage_new/schema_serializer.cpp:56-125 | the checked reads accept what the layout function does |
| `Execution.SelectMeaning` | src/planner/planner.cpp:38-61 | a SELECT without ORDER BY over any table: if no row throws, exactly the projected rows that satisfy WHERE, in table order; if some row throws, the exception of the first that does |
| `Execution.OneAnswer` | src/executor/executor.cpp:7-23 | only one sequence of results is such an answer |
| `Execution.ExecutePlan` | src/executor/executor.cpp:7-23 | building and draining the executors terminates and gives what the plan means over the tables, or its exception; a scanned table that did not exist is created empty |
| `Execution.Next` | src/executor/executors.cpp:11-60 | each pull takes the first tuple of what the executor still has to give, or ends, or throws |
| `Execution.NextKept` | src/executor/executors.cpp:24-37 | the filter pulls until a tuple passes, the end, or an exception |
| `Execution.NextProjected` | src/executor/executors.cpp:46-60 | one input tuple, one output tuple |
| `Execution.SeqScanExecutor.Next` | src/executor/executors.cpp:11-16 | the row under the cursor, once each |
| `Execution.BuildExecutor` | src/executor/executor_factory.cpp:6-84 | an executor exactly for chains of filters and projections over a scan, which has the whole run of the plan before it; other plans throw and leave the tables alone |
| `Execution.BaseColumns` | src/executor/executor_factory.cpp:27-45 | the walk down ends at the scanned table and gives its column names |
| `Execution.ProjectsEach` | src/executor/executors.cpp:53-57 | the columns in order, or the exception of the first that throws |
| `Execution.PipelineIsRowwise` | src/planner/planner.cpp:38-61 | filter and projection one after the other are one verdict for each row |
| `Execution.BuildSelectPlan` | src/planner/planner.cpp:38-61 | scan, filter, barrier and sort, projection, each where the statement asks for it |
| `Execution.PlansAreCursorSafe` | src/planner/planner.cpp:79-127 | in no plan of any statement is a change to a table fed by a scan that is still open |
| `Execution.CollectsWhenOpen` | src/planner/planner.cpp:10-35 | needs_collection is true exactly for plans with a scan not behind a barrier, where no sort or change is involved |
| `Execution.OnlySelectsExecute` | src/executor/executor_factory.cpp:6-84 | of all statements only a SELECT without ORDER BY gets executors |
| `Plans.UpdateChanges` | src/planner/planner.cpp:79-102 | the plan changes the named table with the given assignments; below its barrier come, in table order, exactly the rows on which WHERE holds, or these up to the first exception |
| `Plans.DeleteChanges` | src/planner/planner.cpp:104-127 | likewise for DELETE |
| `Plans.SelectSorts` | src/planner/planner.cpp:38-61 | with ORDER BY the sort has exactly those rows below its barrier, and the projection is on top |
| `Plans.InsertChanges` | src/planner/planner.cpp:63-77 | an INSERT has its one list of values below it |
| `Plans.ExecutesScans` | src/executor/executor_factory.cpp:6-84 | a plan is executed exactly if below its filters and projections there is a scan |
| `Evaluator.ComparesInOrder` | src/executor/evaluator.cpp:89-133 | the comparison operators are those of one total order on integers and one on strings, false across kinds, and never throw |
| `Evaluator.ComparesTransitively` | src/executor/evaluator.cpp:98-106 | less-than is transitive |
| `Evaluator.ReadsOnlyNamed` | src/executor/evaluator.cpp:37-151 | an expression's value or exception depends only on the columns it names |
| `Evaluator.FindColumn` | src/executor/evaluator.cpp:27-35 | the first column of the name |
| `Evaluator.DivideTruncates` | src/executor/evaluator.cpp:82-86 | the quotient is the one that rounds toward zero |
| `Evaluator.ToStringInjective` | src/executor/evaluator.cpp:16-24 | different integers have different texts |
| `Arithmetic.AddLaws` | src/executor/evaluator.cpp:69-75 | addition is commutative, has unit 0, goes up by one with its operand, and throws exactly outside 32 bits |
| `Arithmetic.SubtractLaws` | src/executor/evaluator.cpp:76-78 | subtraction undoes it |
| `Arithmetic.MultiplyLaws` | src/executor/evaluator.cpp:79-81 | multiplication is repeated addition |
| `Arithmetic.DivideLaws` | src/executor/evaluator.cpp:82-86 | the quotient rounds toward zero; which operand throws first |
| `Arithmetic.ConcatenateLaws` | src/executor/evaluator.cpp:69-75 | with a string, + joins the texts, and an integer's text is its decimal numeral |
| `Arithmetic.LogicLaws` | src/executor/evaluator.cpp:134-143 | a conjunction holds exactly if both sides do, a disjunction if one does |
| `Arithmetic.IntegersNeeded` | src/executor/evaluator.cpp:76-143 | the other arithmetic and logical operators throw on a string |
| `Arithmetic.CompareLaws` | src/executor/evaluator.cpp:89-133 | the comparisons of numbers and of byte strings; none holds between the two kinds |
| `Arithmetic.OperandsFirst` | src/executor/evaluator.cpp:65-66 | both operands are evaluated first, the left one before the right |
| `Arithmetic.ColumnValue` | src/executor/evaluator.cpp:44-51 | a name is the value in the first column of that name |
| `Arithmetic.PredicateOf` | src/executor/evaluator.cpp:153-162 | a row is kept for any value but the integer 0 |
| `MemTree.BPlusTree.FindLeaf` | experiments/b+tree_iterator/btree.py:82-88 | the descent ends at the leaf whose bounds hold the key |

## Left out

- BtreeInsert: takes keys to be non-empty, as the storage engine does (`src/storage/interface/storage_engine.cpp:87-96`), and starts from a tree at rest: one below a root that gave up its last leaf, or one that a refused or overflowing insertion left behind, is not covered.
- BtreeDelete: when the key was the last one below an internal node of a tree of three levels or more, only the lookups and the page bits are stated, since the tree is then no longer one on which insertions are promised anything.
- InsertIntoParent: on overflow only the loss of the separator and the fate of the leaf are stated, not the whole tree of internal nodes; a moved leftmost child keeps its old parent id there.
- SplitParent: likewise states of the climb only what becomes of leaves and of pages that are nobody's child, not the internal nodes it leaves.
- UpdateLinksOnFree: previous-page links are set as in the code, but no invariant speaks of them, since a split clears the left page's.
- Insert: when the tree does not accept the record, nothing is stated of the table's later use.
- UnpinPage: takes for granted that whoever gives up the last pin of a page it wrote says so; otherwise the change is lost with the frame.
- SplitKeepsRouting: internal nodes are sequences of separators and children; their bytes are not modelled, those of leaves are. The slot writes of a leaf split and the raw records of a merge are record sequences, too; bytes end at the operations on one page.
- CreateNewRoot: what a page still in memory reads as once an entry was written over it is left open, but for being a leaf. Pages under the invalid id are kept like others, although the pool takes their frame for a free one; success is only claimed of roots with an id of their own.
- Pool: pages of the tree are a map of contents; the bytes in the buffer pool's frames are not tied to them. Inside tree operations the disk works and the pool has at least two frames.
- GetPage0: catalog pages are records of the header's fields and the schema; their bytes are not modelled. The access counter is taken not to reach 2^64.
- ParsePrimary: of a number with a decimal point only the integer before it is kept, as `std::stoi` does; statements other than expressions are not parsed.
- Evaluate: 32-bit overflow, undefined in C++, counts as an exception of its own; messages of exceptions are kinds.
- GROUP BY is carried in a SELECT and, as in the planner, without effect; sorting, insertion, update and deletion plans are built but have no executors in the program.
- Floating-point values are their raw bytes.
- UpdateRecord: a record that is the last one below an internal node is left out, since the insertion then meets a root without children, or one above a node without any.
- The statement parsers, analyser and orchestrator: sequences of modelled calls.
- `experiments/b+tree_iterator/btree.py` deletion: `_rebalance` treats internal nodes like leaves, so there is no tree to keep.
- The transaction manager, the file layer, sockets and start-up code, and the older parsers and trees under `experiments/` and in other languages.
