// The table's B+ tree: search, insertion with leaf splits, deletion with merges, and range scans.
// A failed assert in the program is taken as compiled out: the call goes on with what it has.
module PagedTree {
  import opened Levels
  import opened Towers
  import opened Keys
  import opened PageView
  import opened PagedShape
  import opened PagedSteps
  import opened PagedEdits
  import opened PagedOps
  import opened PagedOverflow
  import opened PagedInsert
  import opened PagedDelete
  import opened PagedScan
  import opened Bitmap
  import opened PagePool

  datatype SplitResult = SplitFailed | SplitDone(newPage: nat, separator: Bytes)

  // search_record and internal_search_record.
  method SearchRecord(keys: seq<Bytes>, key: Bytes) returns (r: SearchResult)
    ensures r == Search(keys, key, 0, |keys|)
  {
    var left, right := 0, |keys|;
    while left < right
      invariant left <= right <= |keys|
      invariant Search(keys, key, left, right) == Search(keys, key, 0, |keys|)
    {
      var mid := left + (right - left) / 2;
      var cmp := CompareKeys(keys[mid], key);
      if cmp < 0 {
        left := mid + 1;
      } else if cmp > 0 {
        right := mid;
      } else {
        return SearchResult(true, mid);
      }
    }
    return SearchResult(false, left);
  }

  method ChildPosition(keys: seq<Bytes>, key: Bytes) returns (pos: nat)
    ensures pos == ChildPos(keys, key, 0, |keys| - 1, |keys|) && pos <= |keys|
  {
    var left: nat, right: int := 0, |keys| - 1;
    pos := |keys|;
    while left <= right
      invariant 0 <= left && right < |keys| && pos <= |keys| && left <= |keys|
      invariant ChildPos(keys, key, left, right, pos) == ChildPos(keys, key, 0, |keys| - 1, |keys|)
      decreases right + 1 - left
    {
      var mid := (right + left) / 2;
      var cmp := CompareKeys(key, keys[mid]);
      if cmp < 0 {
        pos, right := mid, mid - 1;
      } else {
        left := mid + 1;
      }
    }
  }

  method InternalFindChild(n: Node, key: Bytes) returns (child: nat)
    requires n.InnerNode?
    ensures child == FindChild(n, key)
  {
    var pos := ChildPosition(EntryKeys(n.entries), key);
    if pos == 0 {
      if n.leftmost != 0 && n.leftmost < MAX_CHILD_ID {
        return n.leftmost;
      }
      if |n.entries| > 0 && n.entries[0].child != 0 && n.entries[0].child < MAX_CHILD_ID {
        return n.entries[0].child;
      }
      return 0;
    }
    return n.entries[pos - 1].child;
  }

  lemma Wraps(a: nat, b: nat)
    ensures (a % U16 + b % U16) % U16 == (a + b) % U16
  {
  }

  // calculate_total_records_size, a 16-bit sum.
  method TotalRecords(recs: seq<Rec>) returns (total: nat)
    ensures total == TotalSize(recs) % U16
  {
    total := 0;
    var i := 0;
    while i < |recs|
      invariant i <= |recs| && total == TotalSize(recs[..i]) % U16
    {
      TotalNext(recs, i);
      Wraps(TotalSize(recs[..i]), RecSize(recs[i]));
      total := (total + RecordSize(|recs[i].key|, |recs[i].val|)) % U16;
      i := i + 1;
    }
    assert recs[..i] == recs;
  }

  // A page written anew, record by record from the start of the record area.
  method Rebuild(recs: seq<Rec>) returns (page: Content)
    requires Fits(recs, Compact(recs).freeStart)
    ensures page == Compact(recs)
  {
    page := Content([], HEADER_SIZE);
    var i := 0;
    while i < |recs|
      invariant i <= |recs| && page == Compact(recs[..i])
    {
      TotalNext(recs, i);
      assert recs[..i + 1] == recs[..i] + [recs[i]] && recs == recs[..i + 1] + recs[i + 1..];
      TotalConcat(recs[..i + 1], recs[i + 1..]);
      page := Content(page.recs + [recs[i]], page.freeStart + RecordSize(|recs[i].key|, |recs[i].val|));
      i := i + 1;
    }
    assert recs[..i] == recs;
  }

  // The scan of one leaf, from slot i on.
  method ScanPage(recs: seq<Rec>, start: nat, end: Bytes) returns (out: seq<Rec>, stopped: bool)
    requires start <= |recs| && Filled(recs)
    ensures start + |out| <= |recs| && out == recs[start..start + |out|]
    ensures forall x :: start <= x < start + |out| ==> UpToEnd(end, recs[x].key)
    ensures if stopped then start + |out| < |recs| && !UpToEnd(end, recs[start + |out|].key)
                            else start + |out| == |recs|
  {
    out, stopped := [], false;
    var i := start;
    while i < |recs|
      invariant start <= i <= |recs| && out == recs[start..i]
      invariant forall x :: start <= x < i ==> UpToEnd(end, recs[x].key)
    {
      if |recs[i].key| == 0 || |recs[i].val| == 0 {
        // slot_key or slot_value gives nothing
        assert false;
      }
      if end != [] {
        var cmp := CompareKeys(recs[i].key, end);
        if cmp > 0 {
          return out, true;
        }
      }
      out := out + [recs[i]];
      i := i + 1;
    }
  }

  class TableHandle {
    var pages: Pages
    var rootPage: nat
    var metaRoot: nat
    const bm: PageBitmap
    const pool: Pool
    ghost var lv: seq<seq<PSlot>>
    // Ids that a failed split took from the bitmap for nothing.
    ghost var leaked: set<nat>

    ghost predicate Valid()
      reads this, bm.bits, pool
    {
      && bm.Valid() && metaRoot == rootPage && TreeOk(pages, rootPage, lv) && Conserved(pages, bm.Used(), leaked)
      && Rested() && (InnerRoot() || Contained())
    }

    // Nobody holds a pin.  No operation needs more than two at a time.
    ghost predicate Rested()
      reads pool
    {
      pool.pins == multiset{} && pool.frames >= 2
    }

    ghost predicate InnerRoot()
      reads this
    {
      rootPage in pages && pages[rootPage].InnerNode?
    }

    // Nothing is in memory but pages of the tree, the meta page and the bitmap page.  Pages freed while they were
    // pinned stay, but only below an internal root.
    ghost predicate Contained()
      reads this, pool
    {
      pool.resident <= pages.Keys + {0, 1}
    }

    ghost predicate Room(n: nat)
      reads pool
    {
      |pool.pins| + n <= pool.frames
    }

    // An internal root that gave up its last leaf.
    ghost predicate Emptied()
      reads this, bm.bits, pool
    {
      bm.Valid() && metaRoot == rootPage && Hollow(pages, rootPage) && Rested()
    }

    // The map the table stores.
    ghost function Model(): map<Bytes, Bytes>
      reads this, bm.bits, pool
      requires Valid()
    {
      StoredMap(pages, rootPage, lv)
    }

    // create_table: page 2 is an empty leaf and the root.
    constructor (frames: nat)
      requires frames >= 2
      ensures Valid() && fresh(bm) && fresh(bm.bits) && fresh(pool) && Model() == map[] && leaked == {}
    {
      bm := new PageBitmap();
      pool := new Pool(frames);
      pages := map[2 := LeafNode(0, 0, 0, Content([], HEADER_SIZE))];
      rootPage, metaRoot := 2, 2;
      lv := [[Slot(2, Bot, Top)]];
      leaked := {};
      new;
      NewConserved(pages[2]);
      OneLeaf(pages, 2);
    }

    // The levels of the tree as it is now.
    ghost method Relevel(lv': seq<seq<PSlot>>)
      requires bm.Valid() && metaRoot == rootPage && TreeOk(pages, rootPage, lv') && Conserved(pages, bm.Used(), leaked)
      requires Rested() && (InnerRoot() || Contained())
      modifies `lv
      ensures Valid() && lv == lv' && bm.Used() == old(bm.Used())
    {
      lv := lv';
    }

    // A page fetched, read or written, and given back.
    method Visit(id: nat)
      requires Room(1)
      modifies pool
      ensures pool.pins == old(pool.pins) && pool.resident == old(pool.resident) + {id}
    {
      pool.FetchPage(id);
      pool.UnpinPage(id);
    }

    // allocate_page.
    method AllocatePage() returns (id: nat)
      requires bm.Valid() && Room(1)
      modifies bm.bits, pool
      ensures id == NextId(old(bm.Used())) && bm.Used() == Taken(old(bm.Used()))
      ensures pool.pins == old(pool.pins) && pool.resident == old(pool.resident) + {1}
    {
      pool.FetchPage(1);
      id := bm.Allocate();
      pool.UnpinPage(1);
    }

    // free_page.  A page that is still pinned stays in memory.
    method FreePage(id: nat)
      requires bm.Valid() && id < PAGE_IDS && Room(1)
      modifies `pages, bm.bits, pool
      ensures pages == old(pages) - {id} && bm.Used() == old(bm.Used()) - {id}
      ensures pool.pins == old(pool.pins)
      ensures pool.resident == if id in pool.pins then old(pool.resident) + {1} else old(pool.resident) + {1} - {id}
    {
      pool.FetchPage(1);
      bm.Free(id);
      pool.UnpinPage(1);
      pool.DeletePage(id);
      pages := pages - {id};
    }

    method FindLeafPage(key: Bytes) returns (id: Option<nat>)
      requires Room(1)
      modifies pool
      ensures id == FindLeaf(pages, rootPage, key, 0)
      ensures pool.pins == old(pool.pins) && (InnerRoot() || pool.resident <= old(pool.resident) + {rootPage})
    {
      var pageId: nat, depth: nat := rootPage, 0;
      while true
        invariant depth <= MAX_DEPTH && pool.pins == old(pool.pins)
        invariant InnerRoot() || (pageId == rootPage && pool.resident == old(pool.resident))
        invariant FindLeaf(pages, pageId, key, depth) == FindLeaf(pages, rootPage, key, 0)
        decreases MAX_DEPTH - depth
      {
        pool.FetchPage(pageId);
        if pageId !in pages {
          pool.UnpinPage(pageId);
          return None;
        }
        if pages[pageId].LeafNode? {
          pool.UnpinPage(pageId);
          return Some(pageId);
        }
        var next := InternalFindChild(pages[pageId], key);
        pool.UnpinPage(pageId);
        if next == 0 || next >= MAX_CHILD_ID {
          return None;
        }
        pageId, depth := next, depth + 1;
        if depth > MAX_DEPTH {
          return None;
        }
      }
    }

    // Answers for any state; in a well-formed one the answer is the map's.
    method BtreeSearch(key: Bytes) returns (value: Option<Bytes>)
      requires Room(1)
      modifies pool
      ensures value == Lookup(pages, rootPage, key)
      ensures pool.pins == old(pool.pins)
      ensures old(Valid()) ==> Valid() && Model() == old(Model()) && value == if key in Model()
                               then Some(Model()[key]) else None
    {
      if Valid() {
        LookupStored(pages, rootPage, lv, key);
      }
      if rootPage == 0 {
        return None;
      }
      ghost var valid := Valid();
      var leaf := FindLeafPage(key);
      if valid {
        RootIsInner(pages, rootPage, lv);
      }
      if leaf.None? {
        return None;
      }
      var recs := pages[leaf.value].page.recs;
      var r := SearchRecord(KeysOf(recs), key);
      if !r.found {
        return None;
      }
      var data := recs[r.index].val;
      if |data| == 0 {
        return None;
      }
      return Some(data);
    }

    // A key that is stored already is refused.  For any other the call returns true exactly when `Attempts` held, and
    // the record is stored exactly when `Accepts` held.  A call that returns false has stored nothing, but a split
    // that was not taken further has cut off the upper half of the leaf, and one that failed has wasted a page id.
    method BtreeInsert(key: Bytes, value: Bytes) returns (ok: bool)
      requires Valid() && |key| > 0
      modifies this, bm.bits, pool
      ensures pool.pins == old(pool.pins)
      ensures key in old(Model()) ==> !ok && Valid() && Model() == old(Model()) && leaked == old(leaked)
      ensures key !in old(Model()) ==> (ok <==> Attempts(old(pages), old(rootPage), old(bm.Used()), key, value))
      ensures key !in old(Model()) && Accepts(old(pages), old(rootPage), old(bm.Used()), key, value) ==>
        ok && Valid() && Model() == old(Model())[key := value] && leaked == old(leaked)
      ensures key !in old(Model()) ==>
        (Accepts(old(pages), old(rootPage), old(bm.Used()), key, value) <==>
          ok && Refines(old(pages), old(rootPage), pages, rootPage, key, value)
            && RootOk(old(rootPage), pages, rootPage))
      ensures key !in old(Model()) && !ok ==>
        forall k :: Lookup(pages, rootPage, k) == if CutOff(old(pages), old(rootPage), key, k)
                    then None else Lookup(old(pages), old(rootPage), k)
      ensures key !in old(Model()) && !ok ==>
        leaked == old(leaked) + WastedFor(old(pages), old(rootPage), old(bm.Used()), key)
      ensures key !in old(Model()) && !ok && !Divides(old(pages), old(rootPage), key) ==>
        Valid() && Model() == old(Model())
      ensures key !in old(Model()) && !ok && Divides(old(pages), old(rootPage), key) ==>
        HalfRefused(pages, rootPage, bm.Used(), NextId(old(bm.Used())), leaked)
    {
      if rootPage == 0 {
        ok := InsertFirst(key, value);
      } else {
        ok := InsertBelow(key, value);
      }
    }

    // The insertion into a tree that has a root.
    method InsertBelow(key: Bytes, value: Bytes) returns (ok: bool)
      requires Valid() && |key| > 0 && rootPage != 0
      modifies this, bm.bits, pool
      ensures pool.pins == old(pool.pins)
      ensures key in old(Model()) ==> !ok && Valid() && Model() == old(Model()) && leaked == old(leaked)
      ensures key !in old(Model()) ==>
        InsertTold(old(pages), old(rootPage), old(bm.Used()), key, value, pages, rootPage, ok)
      ensures key !in old(Model()) && Accepts(old(pages), old(rootPage), old(bm.Used()), key, value) ==>
        Valid() && Model() == old(Model())[key := value] && leaked == old(leaked)
      ensures key !in old(Model()) && !ok ==>
        leaked == old(leaked) + WastedFor(old(pages), old(rootPage), old(bm.Used()), key)
      ensures key !in old(Model()) && !ok && !Divides(old(pages), old(rootPage), key) ==>
        Valid() && Model() == old(Model())
      ensures key !in old(Model()) && !ok && Divides(old(pages), old(rootPage), key) ==>
        HalfRefused(pages, rootPage, bm.Used(), NextId(old(bm.Used())), leaked)
    {
      var id, found;
      ghost var p;
      id, found, p := FindRecord(key);
      if found {
        return false;
      }
      ok := InsertAt(id, key, value, p);
    }

    // The leaf where a key belongs, and whether it is stored there.
    method FindRecord(key: Bytes) returns (id: nat, found: bool, ghost p: nat)
      requires Valid() && rootPage != 0
      modifies pool
      ensures Valid() && pool.pins == old(pool.pins) && Model() == old(Model())
      ensures p < |lv[0]| && id == lv[0][p].id && AtLeast(key, lv[0][p].lo) && Before(key, lv[0][p].hi)
      ensures FindLeaf(pages, rootPage, key, 0) == Some(id) && id in pages && pages[id].LeafNode?
      ensures found == Find(pages[id].page.recs, key).found && (found <==> key in Model())
    {
      var leaf := FindLeafPage(key);
      RootIsInner(pages, rootPage, lv);
      p := RootFound(pages, lv, rootPage, key);
      LookupIn(pages, lv[0], p, key);
      id := leaf.value;
      var r := SearchRecord(KeysOf(pages[id].page.recs), key);
      found := r.found;
    }

    // The insertion into the leaf where the key belongs.
    method InsertAt(id: nat, key: Bytes, value: Bytes, ghost p: nat) returns (ok: bool)
      requires Valid() && rootPage != 0 && |key| > 0 && key !in Model() && FindLeaf(pages, rootPage, key, 0) == Some(id)
      requires p < |lv[0]| && id == lv[0][p].id && AtLeast(key, lv[0][p].lo) && Before(key, lv[0][p].hi)
      requires id in pages && pages[id].LeafNode? && !Find(pages[id].page.recs, key).found
      modifies this, bm.bits, pool
      ensures pool.pins == old(pool.pins)
      ensures InsertTold(old(pages), old(rootPage), old(bm.Used()), key, value, pages, rootPage, ok)
      ensures Accepts(old(pages), old(rootPage), old(bm.Used()), key, value) ==>
        Valid() && Model() == old(Model())[key := value] && leaked == old(leaked)
      ensures !ok ==> leaked == old(leaked) + WastedFor(old(pages), old(rootPage), old(bm.Used()), key)
      ensures !ok && !Divides(old(pages), old(rootPage), key) ==> Valid() && Model() == old(Model())
      ensures !ok && Divides(old(pages), old(rootPage), key) ==>
        HalfRefused(pages, rootPage, bm.Used(), NextId(old(bm.Used())), leaked)
    {
      AcceptsAt(pages, rootPage, bm.Used(), key, value, id);
      ok := InsertNoSplit(id, key, value, p);
      if !ok {
        ok := InsertWithSplit(id, key, value, p);
      }
    }

    // The first record of an empty tree goes into a new root leaf.
    method InsertFirst(key: Bytes, value: Bytes) returns (ok: bool)
      requires Valid() && rootPage == 0 && |key| > 0
      modifies this, bm.bits, pool
      ensures pool.pins == old(pool.pins) && leaked == old(leaked)
      ensures ok == (NextId(old(bm.Used())) != INVALID_PAGE_ID)
      ensures !ok ==> Valid() && pages == old(pages) && rootPage == 0
      ensures ok && Takes(Content([], HEADER_SIZE), key, value) ==> Valid() && Model() == old(Model())[key := value]
      ensures ok ==>
        (Takes(Content([], HEADER_SIZE), key, value) <==>
        Refines(old(pages), old(rootPage), pages, rootPage, key, value))
      ensures ok ==> RootOk(old(rootPage), pages, rootPage)
    {
      ghost var used := bm.Used();
      ok := NewRootLeaf(key, value);
      if ok {
        ghost var lv' := FirstOutcome(old(lv), used, key, value, pages, leaked);
        lv := lv';
      }
    }

    // No page of an earlier tree is in memory any more, so this one is laid out.
    method NewRootLeaf(key: Bytes, value: Bytes) returns (ok: bool)
      requires bm.Valid() && Rested() && rootPage == 0 && pages == map[] && Contained()
      modifies `pages, `rootPage, `metaRoot, bm.bits, pool
      ensures pool.pins == old(pool.pins)
      ensures ok == (NextId(old(bm.Used())) != INVALID_PAGE_ID) && bm.Used() == Taken(old(bm.Used()))
      ensures !ok ==> pages == old(pages) && rootPage == old(rootPage) && metaRoot == old(metaRoot) && Contained()
      ensures ok ==> rootPage == metaRoot == NextId(old(bm.Used())) && Contained()
      ensures ok ==> pages == map[rootPage := LeafNode(0, 0, 0, PageInsert(Content([], HEADER_SIZE), key, value).page)]
    {
      var id := AllocatePage();
      if id == INVALID_PAGE_ID {
        return false;
      }
      LayFirst(id, key, value);
      return true;
    }

    method LayFirst(id: nat, key: Bytes, value: Bytes)
      requires Room(2)
      modifies `pages, `rootPage, `metaRoot, pool
      ensures pool.pins == old(pool.pins) && pool.resident == old(pool.resident) + {id, 0}
      ensures rootPage == metaRoot == id
      ensures pages == old(pages)[id := LeafNode(0, 0, 0, PageInsert(Content([], HEADER_SIZE), key, value).page)]
    {
      var stale := pool.NewPage(id);
      pages := pages[id := LeafNode(0, 0, 0, Content([], HEADER_SIZE))];
      SetRoot(id);
      pages := pages[id := pages[id].(page := PageInsert(pages[id].page, key, value).page)];
      pool.UnpinPage(id);
    }

    // The root, here and in the meta page.
    method SetRoot(id: nat)
      requires Room(1)
      modifies `rootPage, `metaRoot, pool
      ensures rootPage == metaRoot == id
      ensures pool.pins == old(pool.pins) && pool.resident == old(pool.resident) + {0}
    {
      rootPage := id;
      Visit(0);
      metaRoot := id;
    }

    // btree_insert_leaf_no_split; the result of page_insert is not looked at.
    method InsertNoSplit(id: nat, key: Bytes, value: Bytes, ghost p: nat) returns (done: bool)
      requires Valid() && rootPage != 0 && |key| > 0 && key !in Model()
      requires p < |lv[0]| && id == lv[0][p].id && AtLeast(key, lv[0][p].lo) && Before(key, lv[0][p].hi)
      requires id in pages && pages[id].LeafNode? && !Find(pages[id].page.recs, key).found
      modifies this, pool
      ensures pool.pins == old(pool.pins) && leaked == old(leaked) && rootPage == old(rootPage) && lv == old(lv)
      ensures done == CanInsert(old(pages)[id].page.freeStart, |old(pages)[id].page.recs|, RecordSize(|key|, |value|))
      ensures !done ==> Valid() && pages == old(pages)
      ensures done && Takes(old(pages)[id].page, key, value) ==> Valid() && Model() == old(Model())[key := value]
      ensures done ==>
        (Takes(old(pages)[id].page, key, value) <==> Refines(old(pages), old(rootPage), pages, rootPage, key, value))
      ensures done ==> RootOk(old(rootPage), pages, rootPage)
    {
      Visit(id);
      done := CanInsert(pages[id].page.freeStart, |pages[id].page.recs|, RecordSize(|key|, |value|));
      if done {
        ghost var pages' := NoSplitOutcome(pages, lv, rootPage, p, key, value);
        pages := pages[id := pages[id].(page := PageInsert(pages[id].page, key, value).page)];
        SameKeysConserved(old(pages), pages, bm.Used(), leaked);
      }
    }

    // The split path of btree_insert: split the leaf, insert into the half the key belongs to, tell the parent.
    method InsertWithSplit(id: nat, key: Bytes, value: Bytes, ghost p: nat) returns (ok: bool)
      requires Valid() && rootPage != 0 && |key| > 0
      requires p < |lv[0]| && id == lv[0][p].id && AtLeast(key, lv[0][p].lo) && Before(key, lv[0][p].hi)
      requires id in pages && pages[id].LeafNode? && !Find(pages[id].page.recs, key).found
      modifies this, bm.bits, pool
      ensures pool.pins == old(pool.pins)
      ensures SplitResults(old(pages), old(rootPage), old(bm.Used()), id, key, value, pages, rootPage, ok)
      ensures AcceptsSplit(old(pages), old(bm.Used()), id, key, value) ==>
        Valid() && Model() == old(Model())[key := value] && leaked == old(leaked)
      ensures !ok ==> leaked == old(leaked) + Wasted(old(pages), old(bm.Used()), id)
      ensures !ok && !SplitsInTwo(old(pages), id) ==> Valid() && pages == old(pages) && lv == old(lv)
      ensures !ok && SplitsInTwo(old(pages), id) ==>
        HalfRefused(pages, rootPage, bm.Used(), NextId(old(bm.Used())), leaked)
    {
      ghost var before, root, lv0, used := pages, rootPage, lv, bm.Used();
      ghost var rank;
      ok, rank := TrySplit(id, key, value, p);
      ghost var lv' :=
        SplitTriedOut(before, lv0, root, used, p, key, value, rank, pages, rootPage, bm.Used(), leaked, ok);
      if !ok {
        leaked := leaked + Wasted(before, used, id);
      } else if AcceptsSplit(before, used, id, key, value) {
        Relevel(lv');
      }
    }

    // The split path on the pages alone.
    method TrySplit(id: nat, key: Bytes, value: Bytes, ghost p: nat) returns (ok: bool, ghost rank: map<nat, nat>)
      requires Valid() && rootPage != 0 && |key| > 0
      requires p < |lv[0]| && id == lv[0][p].id && AtLeast(key, lv[0][p].lo) && Before(key, lv[0][p].hi)
      requires id in pages && pages[id].LeafNode? && !Find(pages[id].page.recs, key).found
      modifies `pages, `rootPage, `metaRoot, bm.bits, pool
      ensures pool.pins == old(pool.pins) && bm.Valid() && metaRoot == rootPage
      ensures rank.Keys == old(pages).Keys && id in old(pages) && old(pages)[id].LeafNode?
      ensures SplitTried(old(pages), old(rootPage), old(bm.Used()), id, key, value, rank, pages, rootPage, bm.Used(),
        ok)
      ensures ok && old(pages)[id].parent == 0 && NextId(Taken(old(bm.Used()))) != INVALID_PAGE_ID ==>
        SplitTold(old(pages), old(rootPage), old(bm.Used()), id, key, value, rank, pages, rootPage, bm.Used())
      ensures !ok && !SplitsInTwo(old(pages), id) ==> InnerRoot() || Contained()
    {
      rank := SplitPlan(pages, lv, rootPage, bm.Used(), p, key, value, leaked);
      RootIsInner(pages, rootPage, lv);
      LoneLeaf(pages, lv, rootPage, p);
      assert NextOk(pages, lv[0], p) && LeafOk(pages[id], lv[0][p]);
      Visit(id);
      ok := SplitAndTell(id, key, value, rank, |lv| - 1);
    }

    // The pages after a split and an insertion, and the parent told; false if the split failed or the half refused.
    method SplitAndTell(id: nat, key: Bytes, value: Bytes, ghost rank: map<nat, nat>, ghost top: nat) returns (ok: bool)
      requires bm.Valid() && id in pages && pages[id].LeafNode? && Fits(pages[id].page.recs, pages[id].page.freeStart)
        && Room(2)
      requires pages[id].next == 0 || pages[id].next in pages
      requires SplitsInTwo(pages, id) ==> SplitFacts(pages, bm.Used(), id, key, value, rank, top)
      modifies `pages, `rootPage, `metaRoot, bm.bits, pool
      ensures pool.pins == old(pool.pins)
      ensures id in old(pages) && old(pages)[id].LeafNode?
      ensures SplitTried(old(pages), old(rootPage), old(bm.Used()), id, key, value, rank, pages, rootPage, bm.Used(),
        ok)
      ensures ok && old(pages)[id].parent == 0 && old(Contained())
               && NextId(Taken(old(bm.Used()))) != INVALID_PAGE_ID ==>
        SplitTold(old(pages), old(rootPage), old(bm.Used()), id, key, value, rank, pages, rootPage, bm.Used())
      ensures !ok && !SplitsInTwo(old(pages), id) && old(Contained()) ==> Contained()
      ensures old(metaRoot == rootPage) ==> metaRoot == rootPage
    {
      var separator, newPage;
      ok, separator, newPage := SplitAndFill(id, key, value);
      if ok {
        InsertIntoParent(id, separator, newPage, rank, top);
      }
    }

    method SplitAndFill(id: nat, key: Bytes, value: Bytes) returns (ok: bool, separator: Bytes, newPage: nat)
      requires bm.Valid() && id in pages && pages[id].LeafNode? && Fits(pages[id].page.recs, pages[id].page.freeStart)
        && Room(1)
      requires pages[id].next == 0 || pages[id].next in pages
      requires SplitsInTwo(pages, id) ==>
        NextId(bm.Used()) !in pages && !Find(ChosenHalf(pages[id].page.recs, key).recs, key).found
      modifies `pages, bm.bits, pool
      ensures pool.pins == old(pool.pins) && (old(Contained()) && (ok || !SplitsInTwo(old(pages), id)) ==> Contained())
      ensures ok <==>
        SplitsInTwo(old(pages), id) && PageInsert(ChosenHalf(old(pages)[id].page.recs, key), key, value).ok
      ensures bm.Used() == if old(pages)[id].page.recs == [] then old(bm.Used()) else Taken(old(bm.Used()))
      ensures ok ==>
        && separator == SeparatorOf(old(pages), id) && newPage == NextId(old(bm.Used()))
        && pages == HalfFilled(old(pages), id, newPage, key, value)
      ensures !ok && SplitsInTwo(old(pages), id) ==>
        pages == LeafSplit(old(pages), id, NextId(old(bm.Used())), SplitIndex(|old(pages)[id].page.recs|))
      ensures !ok && !SplitsInTwo(old(pages), id) ==> pages == old(pages)
    {
      ghost var before := pages;
      var split := SplitLeafPage(id);
      if split.SplitFailed? {
        // the zeroed pages of the failed result take nothing
        return false, [], 0;
      }
      separator, newPage := split.separator, split.newPage;
      ok := FillHalf(before, id, newPage, separator, key, value);
    }

    // The insertion into the half that the separator comparison picks.
    method FillHalf(ghost before: Pages, id: nat, newPage: nat, separator: Bytes, key: Bytes, value: Bytes)
      returns (ok: bool)
      requires id in before && before[id].LeafNode? && |before[id].page.recs| >= 2
        && separator == SeparatorOf(before, id) && Room(1)
      requires newPage !in before && pages == LeafSplit(before, id, newPage, SplitIndex(|before[id].page.recs|))
      requires !Find(ChosenHalf(before[id].page.recs, key).recs, key).found
      modifies `pages, pool
      ensures pool.pins == old(pool.pins) && (old(Contained()) ==> Contained())
      ensures ok <==> PageInsert(ChosenHalf(before[id].page.recs, key), key, value).ok
      ensures ok ==> pages == HalfFilled(before, id, newPage, key, value)
      ensures !ok ==> pages == old(pages)
    {
      var cmp := CompareKeys(key, separator);
      var half := if cmp < 0 then id else newPage;
      var page := pages[half].page;
      assert page == ChosenHalf(before[id].page.recs, key);
      TakesIsOk(page, key, value);
      if !CanInsert(page.freeStart, |page.recs|, RecordSize(|key|, |value|)) {
        return false;
      }
      var inserted := PageInsert(page, key, value);
      if !inserted.ok {
        return false;
      }
      Visit(half);
      pages := pages[half := pages[half].(page := inserted.page)];
      return true;
    }

    // split_leaf_page.  The new page is written in full, whatever its frame still held.
    method SplitLeafPage(id: nat) returns (r: SplitResult)
      requires id in pages && pages[id].LeafNode? && bm.Valid() && Fits(pages[id].page.recs, pages[id].page.freeStart)
        && Room(1)
      requires pages[id].next == 0 || pages[id].next in pages
      modifies `pages, bm.bits, pool
      ensures pool.pins == old(pool.pins) && (old(Contained()) ==> Contained())
      ensures bm.Used() == if old(pages)[id].page.recs == [] then old(bm.Used()) else Taken(old(bm.Used()))
      ensures SplitsInTwo(old(pages), id) ==>
        && r == SplitDone(NextId(old(bm.Used())), SeparatorOf(old(pages), id))
        && pages == LeafSplit(old(pages), id, r.newPage, SplitIndex(|old(pages)[id].page.recs|))
      ensures !SplitsInTwo(old(pages), id) ==> r.SplitFailed? && pages == old(pages)
    {
      var n := pages[id];
      var recs := n.page.recs;
      var total := |recs|;
      if total == 0 {
        return SplitFailed;
      }
      var splitIdx := total / 2;
      if splitIdx == 0 {
        splitIdx := 1;
      }
      var newPage := AllocatePage();
      assert recs[0..splitIdx] == recs[..splitIdx] && recs[splitIdx..total] == recs[splitIdx..];
      CompactFits(n.page, 0, splitIdx);
      CompactFits(n.page, splitIdx, total);
      var lower := Rebuild(recs[..splitIdx]);
      var upper := Rebuild(recs[splitIdx..]);
      if |lower.recs| == 0 || |upper.recs| == 0 {
        return SplitFailed;
      }
      var separator := upper.recs[0].key;
      if |separator| > MAX_SEPARATOR {
        return SplitFailed;
      }
      WriteHalves(id, newPage, lower, upper);
      return SplitDone(newPage, separator);
    }

    method WriteHalves(id: nat, newPage: nat, lower: Content, upper: Content)
      requires id in pages && pages[id].LeafNode? && Room(1) && (pages[id].next == 0 || pages[id].next in pages)
      modifies `pages, pool
      ensures pool.pins == old(pool.pins) && (old(Contained()) ==> Contained())
      ensures var n := old(pages)[id];
        pages ==
          SetPrev(old(pages), n.next, newPage)[id := LeafNode(n.parent, 0, newPage, lower)][newPage :=
          LeafNode(n.parent, id, n.next, upper)]
    {
      var n := pages[id];
      LinkBack(n.next, newPage);
      Visit(id);
      pages := pages[id := LeafNode(n.parent, 0, newPage, lower)];
      LayLeaf(newPage, LeafNode(n.parent, id, n.next, upper));
    }

    method LinkBack(next: nat, prev: nat)
      requires Room(1) && (next == 0 || next in pages)
      modifies `pages, pool
      ensures pool.pins == old(pool.pins) && (old(Contained()) ==> Contained())
      ensures pages == SetPrev(old(pages), next, prev)
    {
      if next != 0 {
        Visit(next);
        if next in pages && pages[next].LeafNode? {
          pages := pages[next := pages[next].(prev := prev)];
        }
      }
    }

    method LayLeaf(id: nat, n: Node)
      requires Room(1)
      modifies `pages, pool
      ensures pool.pins == old(pool.pins) && (old(Contained()) ==> Contained())
      ensures pages == old(pages)[id := n]
    {
      var stale := pool.NewPage(id);
      pages := pages[id := n];
      pool.UnpinPage(id);
    }

    // create_new_root.  A page that is still in memory is not laid out anew: it stays the leaf it was, with an entry
    // among its records that is none.
    method CreateNewRoot(left: nat, key: Bytes, right: nat)
      requires bm.Valid() && Room(2)
      modifies `pages, `rootPage, `metaRoot, bm.bits, pool
      ensures pool.pins == old(pool.pins)
      ensures rootPage == metaRoot == NextId(old(bm.Used())) && bm.Used() == Taken(old(bm.Used()))
      ensures pages == RootAdded(old(pages), left, key, right, rootPage)
        || (rootPage in pages && pages[rootPage].LeafNode?)
      ensures rootPage !in old(pool.resident) ==> pages == RootAdded(old(pages), left, key, right, rootPage)
    {
      var id := AllocatePage();
      LayRoot(id, InnerNode(0, HEADER_SIZE + ENTRY_HEADER + |key|, left, [Entry(key, right)]));
      Adopt(left, right, id);
    }

    method Adopt(left: nat, right: nat, parent: nat)
      requires Room(1)
      modifies `pages, pool
      ensures pool.pins == old(pool.pins)
      ensures pages == SetParent(SetParent(old(pages), left, parent), right, parent)
    {
      Visit(left);
      pages := SetParent(pages, left, parent);
      Visit(right);
      pages := SetParent(pages, right, parent);
    }

    method LayRoot(id: nat, n: Node)
      requires Room(2)
      modifies `pages, `rootPage, `metaRoot, pool
      ensures pool.pins == old(pool.pins) && rootPage == metaRoot == id
      ensures id in pages && pages == old(pages)[id := pages[id]]
      ensures pages[id] == n || (pages[id].LeafNode? && id in old(pool.resident))
    {
      var stale := pool.NewPage(id);
      var laid := n;
      if stale {
        laid := *;
        if laid.InnerNode? {
          laid := n;
        }
      }
      pages := pages[id := laid];
      SetRoot(id);
      pool.UnpinPage(id);
    }

    // insert_into_parent.  When the parent is full it is split, but the pending separator and page are
    // not put into either half: only the split itself is passed on upwards.
    method InsertIntoParent(left: nat, key: Bytes, right: nat, ghost rank: map<nat, nat>, ghost top: nat)
      requires bm.Valid() && left in rank && Ranked(pages, rank, rank[left], top) && IdsTaken(pages, bm.Used())
        && Room(2)
      modifies `pages, `rootPage, `metaRoot, bm.bits, pool
      ensures pool.pins == old(pool.pins)
      ensures ParentTold(old(pages), old(rootPage), old(bm.Used()), left, key, right, rank, pages, rootPage, bm.Used())
        || Spoilt(old(pages), pages, rootPage)
      ensures HasRoom(old(pages), left, key)
               || (old(pages)[left].parent == 0 && old(Contained()) && NextId(old(bm.Used())) != INVALID_PAGE_ID) ==>
        ParentTold(old(pages), old(rootPage), old(bm.Used()), left, key, right, rank, pages, rootPage, bm.Used())
      ensures old(metaRoot == rootPage) ==> metaRoot == rootPage
      decreases top - rank[left], 2
    {
      assert ParentAbove(pages, rank, left);
      Visit(left);
      var parent := pages[left].parent;
      if parent == 0 || parent == INVALID_PAGE_ID {
        TellRoot(left, key, right, rank);
        return;
      }
      pool.FetchPage(parent);
      if parent !in pages || pages[parent].LeafNode? {
        pool.UnpinPage(parent);
        TellRoot(left, key, right, rank);
        return;
      }
      var r := SearchRecord(EntryKeys(pages[parent].entries), key);
      if r.found {
        pool.UnpinPage(parent);
        TellRoot(left, key, right, rank);
        return;
      }
      TellParent(left, key, right, r.index, rank, top);
    }

    method TellRoot(left: nat, key: Bytes, right: nat, ghost rank: map<nat, nat>)
      requires bm.Valid() && left in rank && left in pages && IdsTaken(pages, bm.Used()) && Room(2)
        && !ParentReady(pages, left, key)
      modifies `pages, `rootPage, `metaRoot, bm.bits, pool
      ensures pool.pins == old(pool.pins)
      ensures ParentTold(old(pages), old(rootPage), old(bm.Used()), left, key, right, rank, pages, rootPage, bm.Used())
        || Spoilt(old(pages), pages, rootPage)
      ensures old(Contained()) && NextId(old(bm.Used())) != INVALID_PAGE_ID ==>
        ParentTold(old(pages), old(rootPage), old(bm.Used()), left, key, right, rank, pages, rootPage, bm.Used())
      ensures metaRoot == rootPage
    {
      ToldAtRoot(pages, rootPage, bm.Used(), left, key, right, rank);
      NewIdFree(pages, bm.Used());
      CreateNewRoot(left, key, right);
    }

    // The parent is pinned and does not have the separator.
    method TellParent(left: nat, key: Bytes, right: nat, index: nat, ghost rank: map<nat, nat>, ghost top: nat)
      requires bm.Valid() && left in rank && Ranked(pages, rank, rank[left], top) && IdsTaken(pages, bm.Used())
        && Room(1)
      requires ParentReady(pages, left, key) && pages[left].parent in pool.pins
      requires index ==
        Search(EntryKeys(pages[pages[left].parent].entries), key, 0, |pages[pages[left].parent].entries|).index
      modifies `pages, `rootPage, `metaRoot, bm.bits, pool
      ensures pool.pins == old(pool.pins) - multiset{old(pages)[left].parent}
      ensures ParentTold(old(pages), old(rootPage), old(bm.Used()), left, key, right, rank, pages, rootPage, bm.Used())
        || (Spoilt(old(pages), pages, rootPage) && !HasRoom(old(pages), left, key))
      ensures old(metaRoot == rootPage) ==> metaRoot == rootPage
      decreases top - rank[left], 1
    {
      assert ParentAbove(pages, rank, left);
      var parent := pages[left].parent;
      ghost var root, used := rootPage, bm.Used();
      if index == 0 {
        LeftmostRanked(pages, rank, rank[left], top, parent, left);
        pages := pages[parent := pages[parent].(leftmost := left)];
      }
      var n := pages[parent];
      if CanInsert(n.freeStart, |n.entries|, (ENTRY_HEADER + |key|) % U16) {
        ToldWithRoom(old(pages), root, used, left, key, right, rank, top);
        pages := ParentGrown(pages, parent, index, key, right);
        pool.UnpinPage(parent);
        return;
      }
      ghost var marked := pages;
      SplitParent(parent, rank, top, rank[left]);
      if Climbed(marked, root, rank, 0, pages, rootPage, bm.Used()) {
        ToldOverflow(old(pages), root, used, left, key, right, rank, top, marked, pages, rootPage, bm.Used());
      }
    }

    // split_internal_page and the recursive call.  A split that fails hands up an empty separator and page 0.
    method SplitParent(parent: nat, ghost rank: map<nat, nat>, ghost top: nat, ghost d: nat)
      requires bm.Valid() && parent in rank && rank[parent] > d && Ranked(pages, rank, d, top)
        && IdsTaken(pages, bm.Used())
      requires pages[parent].InnerNode? && parent in pool.pins && Room(1)
      modifies `pages, `rootPage, `metaRoot, bm.bits, pool
      ensures pool.pins == old(pool.pins) - multiset{parent}
      ensures Climbed(old(pages), old(rootPage), rank, 0, pages, rootPage, bm.Used())
        || Spoilt(old(pages), pages, rootPage)
      ensures old(metaRoot == rootPage) ==> metaRoot == rootPage
      decreases top - rank[parent], 4
    {
      var y := AllocatePage();
      var n := pages[parent];
      var mid := |n.entries| / 2;
      if |n.entries| < 2 || |n.entries[mid].key| > MAX_SEPARATOR {
        ghost var used := bm.Used();
        RankedFrom(pages, rank, d, rank[parent], top);
        pool.UnpinPage(parent);
        InsertIntoParent(parent, [], 0, rank, top);
        ClimbsOn(old(pages), old(rootPage), used, parent, [], 0, rank, pages, rootPage, bm.Used());
      } else {
        DivideParent(parent, y, n.entries[mid].key, old(bm.Used()), rank, top, d);
      }
    }

    method DivideParent(parent: nat, y: nat, separator: Bytes, ghost used: set<nat>, ghost rank: map<nat, nat>,
                        ghost top: nat, ghost d: nat)
      requires bm.Valid() && parent in rank && rank[parent] > d && Ranked(pages, rank, d, top) && IdsTaken(pages, used)
      requires pages[parent].InnerNode? && |pages[parent].entries| >= 2 && parent in pool.pins && Room(1)
      requires y == NextId(used) && bm.Used() == Taken(used) && forall u :: u in used ==> u < PAGE_IDS
      modifies `pages, `rootPage, `metaRoot, bm.bits, pool
      ensures pool.pins == old(pool.pins) - multiset{parent}
      ensures Climbed(old(pages), old(rootPage), rank, 0, pages, rootPage, bm.Used())
        || Spoilt(old(pages), pages, rootPage)
      ensures old(metaRoot == rootPage) ==> metaRoot == rootPage
      decreases top - rank[parent], 3
    {
      ghost var split := SplitClimb(pages, used, rank, d, top, parent);
      WriteSplit(parent, y);
      InsertIntoParent(parent, separator, y, rank, top);
      SplitClimbed(old(pages), old(rootPage), used, rank, d, top, parent, separator, pages, rootPage, bm.Used());
    }

    // The new page is written in full, whatever its frame still held.
    method WriteSplit(parent: nat, y: nat)
      requires parent in pages && pages[parent].InnerNode? && |pages[parent].entries| >= 2 && parent in pool.pins
        && Room(1)
      modifies `pages, pool
      ensures pages == InnerSplit(old(pages), parent, y)
      ensures pool.pins == old(pool.pins) - multiset{parent}
    {
      var n := pages[parent];
      VisitChildren(n.entries[|n.entries| / 2 + 1..]);
      var stale := pool.NewPage(y);
      pages := InnerSplit(pages, parent, y);
      pool.UnpinPage(y);
      pool.UnpinPage(parent);
    }

    method VisitChildren(es: seq<Entry>)
      requires Room(1)
      modifies pool
      ensures pool.pins == old(pool.pins)
    {
      var i := 0;
      while i < |es|
        invariant i <= |es| && pool.pins == old(pool.pins)
      {
        Visit(es[i].child);
        i := i + 1;
      }
    }

    // Where a key is deleted, every other key keeps its value, and all pages but those in use are given back.
    // The tree stays whole unless the key was the last one below an internal node.
    method BtreeDelete(key: Bytes) returns (ok: bool)
      requires Valid() || Emptied()
      modifies this, bm.bits, pool
      ensures pool.pins == old(pool.pins) && leaked == old(leaked)
      ensures old(Emptied()) ==> !ok && Emptied()
      ensures old(Valid()) ==> ok == (key in old(Model()))
      ensures !ok ==> pages == old(pages) && rootPage == old(rootPage)
      ensures old(Valid()) && !ok ==> Valid() && Model() == old(Model())
      ensures ok && !DropsLast(old(pages), old(rootPage), key) ==> Valid() && Model() == old(Model()) - {key}
      ensures ok ==> Removes(old(pages), old(rootPage), pages, rootPage, key) && Conserved(pages, bm.Used(), leaked)
      ensures ok ==> DeletedAs(old(pages), old(rootPage), old(bm.Used()), key, pages, rootPage, bm.Used())
      ensures ok && DropsLast(old(pages), old(rootPage), key) && |old(lv)| == 2 ==> Emptied()
    {
      if rootPage == 0 {
        return false;
      }
      ghost var h: nat := 0;
      if Valid() {
        h := DeleteStart(pages, rootPage, lv, key);
      } else {
        assert FindChild(pages[rootPage], key) == 0;
      }
      var leaf := FindLeafPage(key);
      if leaf.None? {
        return false;
      }
      RootIsInner(pages, rootPage, lv);
      var id := leaf.value;
      var r := SearchRecord(KeysOf(pages[id].page.recs), key);
      if !r.found {
        return false;
      }
      DeleteFound(id, key, h);
      return true;
    }

    method DeleteFound(id: nat, key: Bytes, ghost h: nat)
      requires Valid() && rootPage != 0 && h < |lv[0]| && id == lv[0][h].id
        && FindLeaf(pages, rootPage, key, 0) == Some(id)
      requires AtLeast(key, lv[0][h].lo) && Before(key, lv[0][h].hi) && Find(pages[id].page.recs, key).found
      modifies `pages, `rootPage, `metaRoot, `lv, bm.bits, pool
      ensures pool.pins == old(pool.pins) && leaked == old(leaked)
      ensures !DropsLast(old(pages), old(rootPage), key) ==> Valid() && Model() == old(Model()) - {key}
      ensures Removes(old(pages), old(rootPage), pages, rootPage, key) && Conserved(pages, bm.Used(), leaked)
      ensures DeletedAs(old(pages), old(rootPage), old(bm.Used()), key, pages, rootPage, bm.Used())
      ensures DropsLast(old(pages), old(rootPage), key) && |old(lv)| == 2 ==> Emptied()
    {
      ghost var before, root, lv0, used := pages, rootPage, lv, bm.Used();
      ghost var trimmed, j, choice := DeletePlanned(id, key, h);
      Settle(before, root, lv0, h, key, used, trimmed, j, choice);
    }

    // The levels after a deletion, where the tree is still one.
    ghost method Settle(before: Pages, root: nat, lv0: seq<seq<PSlot>>, h: nat, key: Bytes, used: set<nat>,
                        trimmed: Pages, j: nat, choice: MergeChoice)
      requires TreeOk(before, root, lv0) && root != 0 && h < |lv0[0]| && Conserved(before, used, leaked)
      requires FindLeaf(before, root, key, 0) == Some(lv0[0][h].id)
      requires lv0[0][h].id in before && before[lv0[0][h].id].LeafNode?
        && Find(before[lv0[0][h].id].page.recs, key).found
      requires AtLeast(key, lv0[0][h].lo) && Before(key, lv0[0][h].hi)
      requires trimmed == RecordDeleted(before, lv0[0][h].id, key) && bm.Valid() && metaRoot == rootPage && Rested()
      requires |lv0| == 1 ==> RootSettledAs(trimmed, used, lv0[0][h].id, pages, rootPage, bm.Used()) && Contained()
      requires |lv0| > 1 ==> rootPage == root && Placed(trimmed, lv0[0][h].id, j)
                             && LeafSettled(trimmed, used, lv0[0][h].id, j, choice, pages, bm.Used())
      modifies `lv
      ensures !DropsLast(before, root, key) ==> Valid() && Model() == StoredMap(before, root, lv0) - {key}
      ensures Removes(before, root, pages, rootPage, key) && Conserved(pages, bm.Used(), leaked)
      ensures bm.Used() == old(bm.Used())
      ensures DropsLast(before, root, key) && |lv0| == 2 ==> Hollow(pages, rootPage)
    {
      var lv' := DeleteFinish(before, root, lv0, h, key, used, trimmed, j, choice, pages, rootPage, bm.Used(), leaked);
      if !DropsLast(before, root, key) {
        Relevel(lv');
      }
    }

    // The deletion on the pages alone.
    method DeletePlanned(id: nat, key: Bytes, ghost h: nat)
      returns (ghost trimmed: Pages, ghost j: nat, ghost choice: MergeChoice)
      requires Valid() && rootPage != 0 && h < |lv[0]| && id == lv[0][h].id
      requires id in pages && pages[id].LeafNode? && Find(pages[id].page.recs, key).found
      modifies `pages, `rootPage, `metaRoot, bm.bits, pool
      ensures bm.Valid() && metaRoot == rootPage && Rested()
      ensures id in old(pages) && old(pages)[id].LeafNode? && trimmed == RecordDeleted(old(pages), id, key)
      ensures FindLeaf(old(pages), old(rootPage), key, 0) == Some(id) ==>
        DeletedAs(old(pages), old(rootPage), old(bm.Used()), key, pages, rootPage, bm.Used())
      ensures |lv| == 1 ==> RootSettledAs(trimmed, old(bm.Used()), id, pages, rootPage, bm.Used()) && Contained()
      ensures |lv| > 1 ==>
        && rootPage == old(rootPage) && Placed(trimmed, id, j)
        && LeafSettled(trimmed, old(bm.Used()), id, j, choice, pages, bm.Used())
    {
      trimmed, j := DeletePlan(pages, rootPage, lv, h, key);
      choice := DeleteFrom(id, key, j);
    }

    // The deletion itself, in the leaf where the key was found.
    method DeleteFrom(id: nat, key: Bytes, ghost j: nat) returns (ghost choice: MergeChoice)
      requires bm.Valid() && metaRoot == rootPage && id in pages && pages[id].LeafNode?
        && Find(pages[id].page.recs, key).found && Rested()
      requires pages[id].parent == 0 ==> id == rootPage && LoneRoot(RecordDeleted(pages, id, key), id) && Contained()
      requires pages[id].parent != 0 ==> Placed(RecordDeleted(pages, id, key), id, j)
      modifies `pages, `rootPage, `metaRoot, bm.bits, pool
      ensures metaRoot == rootPage && Rested()
      ensures id in old(pages) && old(pages)[id].LeafNode?
      ensures old(pages)[id].parent == 0 ==>
        RootSettledAs(RecordDeleted(old(pages), id, key), old(bm.Used()), id, pages, rootPage, bm.Used()) && Contained()
      ensures old(pages)[id].parent != 0 ==>
        && rootPage == old(rootPage) && Placed(RecordDeleted(old(pages), id, key), id, j)
        && LeafSettled(RecordDeleted(old(pages), id, key), old(bm.Used()), id, j, choice, pages, bm.Used())
    {
      Visit(id);
      pages := pages[id := pages[id].(page := PageDelete(pages[id].page, key).page)];
      Visit(id);
      if pages[id].parent == 0 {
        SettleRoot(id);
        choice := NoMerge;
      } else {
        choice := SettleLeaf(id, j);
      }
    }

    // A root leaf may be empty; then the tree is.
    method SettleRoot(id: nat)
      requires bm.Valid() && metaRoot == rootPage && id == rootPage && LoneRoot(pages, id) && Rested() && Contained()
      modifies `pages, `rootPage, `metaRoot, bm.bits, pool
      ensures LoneRoot(old(pages), id) && RootSettledAs(old(pages), old(bm.Used()), id, pages, rootPage, bm.Used())
      ensures metaRoot == rootPage && Rested() && Contained()
    {
      if |pages[id].page.recs| == 0 {
        SetRoot(0);
        UpdateLinksOnFree(id);
        FreePage(id);
        assert pages.Keys == {};
      }
    }

    // A leaf below another node is merged if it has become too small, and given up if it is empty and alone.
    method SettleLeaf(id: nat, ghost j: nat) returns (choice: MergeChoice)
      requires bm.Valid() && Placed(pages, id, j) && Rested()
      modifies `pages, bm.bits, pool
      ensures Rested()
      ensures Placed(old(pages), id, j) && LeafSettled(old(pages), old(bm.Used()), id, j, choice, pages, bm.Used())
    {
      choice := MergeIfSmall(id, j);
      if !choice.WithLeft? && |pages[id].page.recs| == 0 {
        var siblings := FindLeafSiblings(id, j);
        if siblings.isLeftmost && siblings.right == 0 {
          GiveUp(id);
        } else {
          // an empty leaf with a neighbour has been merged
          assert false;
        }
      }
    }

    // Merging with the left neighbour ends the deletion.  An empty leaf stays only if it has no neighbour.
    method MergeIfSmall(id: nat, ghost j: nat) returns (choice: MergeChoice)
      requires bm.Valid() && Placed(pages, id, j) && Rested()
      modifies `pages, bm.bits, pool
      ensures Rested()
      ensures Placed(old(pages), id, j) && LeafMerged(old(pages), old(bm.Used()), id, j, choice, pages, bm.Used())
    {
      choice := ChooseMerge(id, j);
      if choice.WithLeft? {
        MergeWithLeft(id, choice, j);
      } else if choice.WithRight? {
        MergeWithRight(id, choice, j);
      }
    }

    method MergeWithLeft(id: nat, choice: MergeChoice, ghost j: nat)
      requires bm.Valid() && Placed(pages, id, j) && choice.WithLeft? && Chosen(pages, id, j, choice)
        && pool.pins == PinsFor(choice) && pool.frames >= 2
      modifies `pages, bm.bits, pool
      ensures Rested()
      ensures Placed(old(pages), id, j) && LeafMerged(old(pages), old(bm.Used()), id, j, choice, pages, bm.Used())
    {
      MergePair(choice.sibling, id, choice.separator, pages[id].parent, choice.sibling, j - 1);
    }

    method MergeWithRight(id: nat, choice: MergeChoice, ghost j: nat)
      requires bm.Valid() && Placed(pages, id, j) && choice.WithRight? && Chosen(pages, id, j, choice)
        && pool.pins == PinsFor(choice) && pool.frames >= 2
      modifies `pages, bm.bits, pool
      ensures Rested()
      ensures Placed(old(pages), id, j) && LeafMerged(old(pages), old(bm.Used()), id, j, choice, pages, bm.Used())
    {
      MergePair(id, choice.sibling, choice.separator, pages[id].parent, choice.sibling, j);
      Visit(id);
    }

    // The pin on the neighbour that is merged with is kept until the merge is done.
    ghost function PinsFor(choice: MergeChoice): multiset<nat> {
      if choice.NoMerge? then multiset{} else multiset{choice.sibling}
    }

    // The left neighbour is tried first.
    method ChooseMerge(id: nat, ghost j: nat) returns (choice: MergeChoice)
      requires Placed(pages, id, j) && Rested()
      modifies pool
      ensures Chosen(pages, id, j, choice)
      ensures pool.pins == PinsFor(choice)
    {
      var recs := pages[id].page.recs;
      var used := TotalRecords(recs);
      if Underutilized(|recs|, used) {
        var siblings := FindLeafSiblings(id, j);
        if siblings.left != 0 {
          pool.FetchPage(siblings.left);
          var mergeable := CanMergePages(siblings.left, id);
          if mergeable {
            return WithLeft(siblings.left, siblings.separator);
          }
          EmptyMerges(pages[siblings.left].page);
          pool.UnpinPage(siblings.left);
        }
        if siblings.right != 0 {
          pool.FetchPage(siblings.right);
          var mergeable := CanMergePages(id, siblings.right);
          if mergeable {
            return WithRight(siblings.right, siblings.rightSeparator);
          }
          EmptyMerges(pages[siblings.right].page);
          pool.UnpinPage(siblings.right);
        }
      }
      return NoMerge;
    }

    // merge_leaf_pages, and remove_from_internal for the page that is gone.
    method MergePair(left: nat, right: nat, separator: Bytes, parent: nat, pinned: nat, ghost i: nat)
      requires bm.Valid() && Pair(pages, left, right, parent, i)
        && CanMerge(pages[left].page.recs, pages[right].page.recs)
      requires separator == pages[parent].entries[i].key && pool.pins == multiset{pinned} && pool.frames >= 2
      modifies `pages, bm.bits, pool
      ensures Rested()
      ensures Pair(old(pages), left, right, parent, i)
        && MergedInto(old(pages), old(bm.Used()), left, right, parent, i, pages, bm.Used())
      ensures left in pages && pages[left].LeafNode?
        && pages[left].page.recs == old(pages)[left].page.recs + old(pages)[right].page.recs
    {
      MergeFits(pages[left].page, pages[right].page);
      EntryDropped(pages, left, right, parent, i);
      MergeLeafPages(left, right);
      pool.UnpinPage(pinned);
      RemoveFromInternal(parent, separator, right);
    }

    method CanMergePages(left: nat, right: nat) returns (r: bool)
      requires left in pages && right in pages && pages[left].LeafNode? && pages[right].LeafNode?
      ensures r == CanMerge(pages[left].page.recs, pages[right].page.recs)
    {
      var leftSize := TotalRecords(pages[left].page.recs);
      var rightSize := TotalRecords(pages[right].page.recs);
      var slots := 2 * (|pages[left].page.recs| + |pages[right].page.recs|);
      return (HEADER_SIZE + (leftSize + rightSize) % U16 + slots) % U16 <= PAGE_SIZE;
    }

    // merge_leaf_pages.  When it is the right page that the caller holds, free_page cannot take it out of memory.
    method MergeLeafPages(left: nat, right: nat)
      requires bm.Valid() && left in pages && right in pages && pages[left].LeafNode? && pages[right].LeafNode?
        && Room(1)
      requires left != right && right < PAGE_IDS
      requires Fits(pages[left].page.recs + pages[right].page.recs,
        Compact(pages[left].page.recs + pages[right].page.recs).freeStart)
      modifies `pages, bm.bits, pool
      ensures pages == MergedLeaves(old(pages), left, right)
      ensures bm.Used() == old(bm.Used()) - {right}
      ensures pool.pins == old(pool.pins)
      ensures if right in pool.pins then old(pool.resident) <= pool.resident else right !in pool.resident
    {
      var l, r := pages[left], pages[right];
      var merged := Rebuild(l.page.recs + r.page.recs);
      if r.next != 0 {
        Visit(r.next);
        if r.next in pages && pages[r.next].LeafNode? {
          pages := pages[r.next := pages[r.next].(prev := left)];
        }
      }
      Visit(left);
      pages := pages[left := LeafNode(l.parent, l.prev, r.next, merged)];
      FreePage(right);
    }

    method RemoveFromInternal(parent: nat, key: Bytes, deleted: nat)
      requires Room(1)
      modifies `pages, pool
      ensures pages == Forgotten(old(pages), parent, key, deleted)
      ensures pool.pins == old(pool.pins)
    {
      Visit(parent);
      if parent !in pages || !pages[parent].InnerNode? {
        return;
      }
      var n := pages[parent];
      if deleted != 0 && n.leftmost == deleted {
        if |n.entries| > 0 {
          pages := pages[parent := n.(leftmost := n.entries[0].child, entries := n.entries[1..])];
        } else {
          pages := pages[parent := n.(leftmost := 0)];
        }
        return;
      }
      var i := 0;
      while i < |n.entries| && n.entries[i].key != key
        invariant i <= |n.entries|
        invariant EntryIndex(n.entries, key, i) == EntryIndex(n.entries, key, 0)
      {
        i := i + 1;
      }
      if i < |n.entries| {
        pages := pages[parent := n.(entries := n.entries[..i] + n.entries[i + 1..])];
      }
    }

    method FindLeafSiblings(id: nat, ghost j: nat) returns (info: SiblingInfo)
      requires id in pages && pages[id].LeafNode? && pages[id].parent in pages && pages[id].parent != 0 && Room(1)
      requires KidAt(pages[pages[id].parent], id, j) && ShortNode(pages[pages[id].parent])
      modifies pool
      ensures info == SiblingsOf(pages[pages[id].parent], j)
      ensures pool.pins == old(pool.pins)
    {
      info := SiblingInfo(0, 0, [], [], false, false);
      var parent := pages[id].parent;
      var n := pages[parent];
      pool.FetchPage(parent);
      ghost var cs := Children(n.leftmost, n.entries);
      assert cs[0] == n.leftmost;
      if n.leftmost == id {
        info := info.(isLeftmost := true);
        if |n.entries| > 0 {
          info := info.(right := n.entries[0].child, rightSeparator := n.entries[0].key);
        }
        pool.UnpinPage(parent);
        return;
      }
      var i := 0;
      while i < |n.entries|
        invariant i <= |n.entries| && forall k :: 0 <= k <= i ==> cs[k] != id
        invariant info == SiblingInfo(0, 0, [], [], false, false)
        invariant pool.pins == old(pool.pins) + multiset{parent}
      {
        if n.entries[i].child == id {
          assert cs[i + 1] == id;
          info := info.(left := if i == 0 then n.leftmost else n.entries[i - 1].child, separator := n.entries[i].key);
          if i + 1 < |n.entries| {
            info := info.(right := n.entries[i + 1].child, rightSeparator := n.entries[i + 1].key);
          } else {
            info := info.(isRightmost := true);
          }
          pool.UnpinPage(parent);
          return;
        }
        i := i + 1;
      }
      assert false;
    }

    // The last step for an empty only child.
    method GiveUp(id: nat)
      requires bm.Valid() && id in pages && pages[id].LeafNode? && LeftAlone(pages, id) && id < PAGE_IDS && Room(1)
      requires pages[pages[id].parent].leftmost == id
      modifies `pages, bm.bits, pool
      ensures GivenUp(old(pages), pages, id, old(pages)[id].parent) && bm.Used() == old(bm.Used()) - {id}
      ensures pool.pins == old(pool.pins)
    {
      var parent := pages[id].parent;
      Visit(parent);
      pages := pages[parent := pages[parent].(leftmost := 0)];
      UnlinkedFrame(pages, id);
      UpdateLinksOnFree(id);
      FreePage(id);
    }

    method UpdateLinksOnFree(id: nat)
      requires id in pages && pages[id].LeafNode? && Room(1)
      modifies `pages, pool
      ensures pages == Unlinked(old(pages), id)
      ensures pool.pins == old(pool.pins)
      ensures old(pages)[id].prev == 0 && old(pages)[id].next == 0 ==>
        pages == old(pages) && pool.resident == old(pool.resident)
    {
      var n := pages[id];
      if n.prev != 0 {
        Visit(n.prev);
        if n.prev in pages && pages[n.prev].LeafNode? {
          pages := pages[n.prev := pages[n.prev].(next := n.next)];
        }
      }
      if n.next != 0 {
        Visit(n.next);
        if n.next in pages && pages[n.next].LeafNode? {
          pages := pages[n.next := pages[n.next].(prev := n.prev)];
        }
      }
    }

    method FindLeftmostLeafPage() returns (id: Option<nat>)
      requires Room(1)
      modifies pool
      ensures id == if rootPage == 0 then None else FindLeftmost(pages, rootPage, 0)
      ensures pool.pins == old(pool.pins) && (InnerRoot() || pool.resident <= old(pool.resident) + {rootPage})
    {
      if rootPage == 0 {
        return None;
      }
      var pageId: nat, depth: nat := rootPage, 0;
      while true
        invariant depth <= MAX_DEPTH && pool.pins == old(pool.pins)
        invariant InnerRoot() || (pageId == rootPage && pool.resident == old(pool.resident))
        invariant FindLeftmost(pages, pageId, depth) == FindLeftmost(pages, rootPage, 0)
        decreases MAX_DEPTH - depth
      {
        Visit(pageId);
        if pageId !in pages {
          return None;
        }
        if pages[pageId].LeafNode? {
          return Some(pageId);
        }
        var next := pages[pageId].leftmost;
        if next == 0 {
          return None;
        }
        pageId, depth := next, depth + 1;
        if depth > MAX_DEPTH {
          return None;
        }
      }
    }

    // The entries handed to the callback, in order.
    method BtreeRangeScan(start: Bytes, end: Bytes) returns (out: seq<Rec>)
      requires Valid() || Emptied()
      modifies pool
      ensures pool.pins == old(pool.pins)
      ensures old(Valid()) ==> Valid() && Model() == old(Model()) && Lists(out, Model(), start, end)
      ensures old(Emptied()) ==> Emptied() && out == []
    {
      out := [];
      if rootPage == 0 {
        return;
      }
      ghost var q: nat := 0;
      ghost var valid := Valid();
      if valid {
        q := ScanPlace(pages, rootPage, lv, start);
        RootIsInner(pages, rootPage, lv);
      } else {
        assert FindChild(pages[rootPage], start) == 0;
      }
      var first := ScanStart(start);
      if first.None? {
        return;
      }
      out := ScanChain(first.value.0, first.value.1, start, end, q);
    }

    // The leaf and the slot where a scan begins.
    method ScanStart(start: Bytes) returns (r: Option<(nat, nat)>)
      requires Room(1)
      modifies pool
      ensures var leaf :=
        if start == [] then (if rootPage == 0 then None else FindLeftmost(pages, rootPage, 0))
                            else FindLeaf(pages, rootPage, start, 0);
        r == if leaf.None?
          then None else Some((leaf.value, if start == [] then 0 else Find(pages[leaf.value].page.recs, start).index))
      ensures pool.pins == old(pool.pins) && (InnerRoot() || pool.resident <= old(pool.resident) + {rootPage})
    {
      if start == [] {
        var leaf := FindLeftmostLeafPage();
        return if leaf.None? then None else Some((leaf.value, 0));
      }
      var leaf := FindLeafPage(start);
      if leaf.None? {
        return None;
      }
      var r' := SearchRecord(KeysOf(pages[leaf.value].page.recs), start);
      return Some((leaf.value, r'.index));
    }

    // The walk along the leaf chain.
    method ScanChain(first: nat, index: nat, ghost start: Bytes, end: Bytes, ghost first': nat) returns (out: seq<Rec>)
      requires lv != [] && LeavesOk(pages, lv[0]) && Ordered(lv[0]) && Chained(pages, lv[0]) && first' < |lv[0]|
        && first == lv[0][first'].id
      requires forall q :: 0 <= q < |lv[0]| ==> lv[0][q].id != 0
      requires index <= |pages[first].page.recs| && StartsAt(pages, lv[0], Pos(pages, lv[0], first', index), start)
        && Room(1)
      modifies pool
      ensures Lists(out, ToMap(Records(pages, lv[0])), start, end)
      ensures pool.pins == old(pool.pins) && (old(Contained()) ==> Contained())
    {
      ghost var slots, q := lv[0], first';
      ghost var g := Pos(pages, slots, q, index);
      out := [];
      var pageId: nat, i: nat := first, index;
      while true
        invariant pageId != 0 && q < |slots| && pageId == slots[q].id && Scanned(pages, slots, q, i, g, out, end)
        invariant pool.pins == old(pool.pins) && (old(Contained()) ==> Contained())
        decreases |slots| - q
      {
        assert LeafOk(pages[pageId], slots[q]) && NextOk(pages, slots, q);
        var part, stopped := ScanPage(pages[pageId].page.recs, i, end);
        ScanStep(pages, slots, q, i, g, out, part, end);
        out := out + part;
        if stopped {
          ScanDone(pages, slots, q, i + |part|, g, out, start, end);
          return;
        }
        pageId := pages[pageId].next;
        if pageId == 0 {
          ScanDone(pages, slots, q, i + |part|, g, out, start, end);
          return;
        }
        ScanOn(pages, slots, q, g, out, end);
        i, q := 0, q + 1;
        assert NextOk(pages, slots, q);
        Visit(pageId);
      }
    }
  }
}
