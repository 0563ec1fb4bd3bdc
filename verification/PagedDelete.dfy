// What a deletion leaves behind: records removed, underfull leaves merged, the last child given up.
module PagedDelete {
  import opened Levels
  import opened Towers
  import opened Keys
  import opened PageView
  import opened PagedShape
  import opened PagedSteps
  import opened PagedEdits
  import opened PagedOps
  import opened PagedInsert
  import opened Bitmap

  const MERGE_THRESHOLD_PERCENT := 50

  // is_page_underutilized, with the record bytes already added up.
  predicate Underutilized(count: nat, recordBytes: nat) {
    count == 0 || ((recordBytes + 2 * count) % U16 * 100 / (PAGE_SIZE - HEADER_SIZE)) % U16 < MERGE_THRESHOLD_PERCENT
  }

  // can_merge_pages, likewise.
  predicate CanMerge(left: seq<Rec>, right: seq<Rec>) {
    (HEADER_SIZE + (TotalSize(left) % U16 + TotalSize(right) % U16) % U16 + 2 * (|left| + |right|)) % U16 <= PAGE_SIZE
  }

  // The entry of the page that is merged away is the one that goes.
  lemma {:induction false} EntryDropped(pages: Pages, left: nat, right: nat, parent: nat, i: nat)
    requires Pair(pages, left, right, parent, i)
    ensures var merged := MergedLeaves(pages, left, right);
      && parent in merged && merged[parent] == pages[parent]
      && Forgotten(merged, parent, pages[parent].entries[i].key, right) == ParentShrunk(merged, parent, i)
  {
    var n := pages[parent];
    EntryNamed(n.entries, 0, i);
    assert Children(n.leftmost, n.entries)[0] == n.leftmost;
  }

  lemma {:induction false} MergeFits(l: Content, r: Content)
    requires Fits(l.recs, l.freeStart) && Fits(r.recs, r.freeStart) && CanMerge(l.recs, r.recs)
    ensures Fits(l.recs + r.recs, Compact(l.recs + r.recs).freeStart)
  {
    TotalConcat(l.recs, r.recs);
    SmallSums(TotalSize(l.recs), TotalSize(r.recs), |l.recs| + |r.recs|);
  }

  // Nothing wraps in the sums for two pages.
  lemma {:induction false} SmallSums(a: nat, b: nat, slots: nat)
    requires a + b + 2 * slots <= 2 * PAGE_SIZE
    ensures (HEADER_SIZE + (a % U16 + b % U16) % U16 + 2 * slots) % U16 == HEADER_SIZE + a + b + 2 * slots
  {
  }

  // An empty leaf can be merged with any other.
  lemma {:induction false} EmptyMerges(c: Content)
    requires Fits(c.recs, c.freeStart)
    ensures CanMerge(c.recs, []) && CanMerge([], c.recs)
  {
  }

  // Every leaf but the one at h holds something.
  ghost predicate OthersFull(pages: Pages, slots: seq<PSlot>, h: nat) {
    forall q :: 0 <= q < |slots| && q != h ==>
      slots[q].id in pages && pages[slots[q].id].LeafNode? && |pages[slots[q].id].page.recs| > 0
  }

  // A tree in which the leaf at h may have become empty.
  ghost predicate Trimmed(pages: Pages, root: nat, lv: seq<seq<PSlot>>, h: nat) {
    && root != 0 && 1 <= |lv| <= MAX_DEPTH + 1
    && Shape(pages, lv, root, NONE, 0) && LeavesFit(pages, lv[0]) && ShortSeparators(pages)
    && h < |lv[0]| && OthersFull(pages, lv[0], h)
  }

  lemma {:induction false} TrimmedIsOk(pages: Pages, root: nat, lv: seq<seq<PSlot>>, h: nat)
    requires Trimmed(pages, root, lv, h) && lv[0][h].id in pages && pages[lv[0][h].id].LeafNode?
    requires |pages[lv[0][h].id].page.recs| > 0 || |lv[0]| == 1
    ensures TreeOk(pages, root, lv)
  {
  }

  function RecordDeleted(pages: Pages, id: nat, key: Bytes): Pages
    requires id in pages && pages[id].LeafNode?
  {
    pages[id := pages[id].(page := PageDelete(pages[id].page, key).page)]
  }

  // page_delete in the leaf the key belongs to.
  lemma {:induction false} LeafLoses(pages: Pages, lv: seq<seq<PSlot>>, root: nat, h: nat, key: Bytes)
    returns (pages': Pages)
    requires TreeOk(pages, root, lv) && root != 0 && h < |lv[0]|
    requires lv[0][h].id in pages && pages[lv[0][h].id].LeafNode? && Find(pages[lv[0][h].id].page.recs, key).found
    ensures pages' == RecordDeleted(pages, lv[0][h].id, key)
    ensures Trimmed(pages', root, lv, h)
    ensures ToMap(Records(pages', lv[0])) == ToMap(Records(pages, lv[0])) - {key}
  {
    pages' := RecordDeleted(pages, lv[0][h].id, key);
    LeafTrimmed(pages, lv, root, h, key);
    MapLosesKey(pages, lv[0], h, key);
  }

  lemma {:induction false} LeafTrimmed(pages: Pages, lv: seq<seq<PSlot>>, root: nat, h: nat, key: Bytes)
    requires TreeOk(pages, root, lv) && root != 0 && h < |lv[0]|
    requires lv[0][h].id in pages && pages[lv[0][h].id].LeafNode? && Find(pages[lv[0][h].id].page.recs, key).found
    ensures Trimmed(RecordDeleted(pages, lv[0][h].id, key), root, lv, h)
  {
    var x := lv[0][h].id;
    var c := pages[x].page;
    assert LeafOk(pages[x], lv[0][h]);
    DeleteKeepsPage(c, key);
    var c' := PageDelete(c, key).page;
    assert LeafOk(pages[x].(page := c'), lv[0][h]) by {
      RemovedInRange(c.recs, Find(c.recs, key).index, lv[0][h]);
    }
    LeafReplaced(pages, lv, root, NONE, 0, h, c');
    ReplacedFits(pages, lv[0], h, c');
    ReplacedShort(pages, x, c');
  }

  lemma {:induction false} MapLosesKey(pages: Pages, slots: seq<PSlot>, h: nat, key: Bytes)
    requires LeavesOk(pages, slots) && Ordered(slots) && h < |slots|
    requires forall i, j :: 0 <= i < j < |slots| ==> slots[i].id != slots[j].id
    requires Find(pages[slots[h].id].page.recs, key).found
    ensures var pages' := RecordDeleted(pages, slots[h].id, key);
      (forall q :: 0 <= q < |slots| ==> slots[q].id in pages' && pages'[slots[q].id].LeafNode?)
      && ToMap(Records(pages', slots)) == ToMap(Records(pages, slots)) - {key}
  {
    var c := pages[slots[h].id].page;
    var i := Find(c.recs, key).index;
    var pages' := pages[slots[h].id := pages[slots[h].id].(page := PageDelete(c, key).page)];
    RecordsAt(pages, slots, h);
    RecordsUpdated(pages, pages', slots, h);
    RecordsSorted(pages, slots);
    MapLosesRecord(Records(pages, slots[..h]), c.recs, Records(pages, slots[h + 1..]), i);
  }

  lemma {:induction false} ReplacedShort(pages: Pages, x: nat, c: Content)
    requires ShortSeparators(pages) && x in pages && pages[x].LeafNode?
    ensures ShortSeparators(pages[x := pages[x].(page := c)])
  {
    var pages' := pages[x := pages[x].(page := c)];
    forall id | id in pages' ensures ShortNode(pages'[id]) {
      assert ShortNode(pages[id]);
    }
  }

  ghost predicate IsLeaf(pages: Pages, id: nat) {
    id in pages && pages[id].LeafNode?
  }

  // merge_leaf_pages on neighbours and remove_from_internal on their parent, when one of the two may be empty.
  lemma {:induction false} MergeStep(pages: Pages, lv: seq<seq<PSlot>>, root: nat, h: nat, q: nat, i: nat, p: nat,
                                     used: set<nat>, leaked: set<nat>)
    returns (pages': Pages, lv': seq<seq<PSlot>>)
    requires Trimmed(pages, root, lv, h) && MergeAt(pages, lv, q, i, p) && (h == p || h == p + 1)
    requires CanMerge(pages[lv[0][p].id].page.recs, pages[lv[0][p + 1].id].page.recs)
    requires Conserved(pages, used, leaked)
    ensures UnchangedAt(pages, MergedLeaves(pages, lv[0][p].id, lv[0][p + 1].id), lv[1][q].id)
    ensures pages' == ParentShrunk(MergedLeaves(pages, lv[0][p].id, lv[0][p + 1].id), lv[1][q].id, i)
    ensures lv[0][p].id in pages' && pages'[lv[0][p].id].LeafNode? && |pages'[lv[0][p].id].page.recs| > 0
    ensures TreeOk(pages', root, lv') && |lv'| == |lv| && Conserved(pages', used - {lv[0][p + 1].id}, leaked)
    ensures StoredMap(pages', root, lv') == ToMap(Records(pages, lv[0]))
  {
    var x, y := lv[0][p].id, lv[0][p + 1].id;
    pages' := LeavesWereMerged(pages, lv, root, q, i, p);
    lv' := lv[0 := Fold(lv[0], p)];
    LeavesIn(pages, lv, root);
    MergedAs(pages, pages', lv[0], lv[1][q].id, i, p);
    MergedFits(pages, pages', lv[0], p, h);
    MergedRecords(pages, pages', lv[0], p);
    MergedShort(pages, x, y, lv[1][q].id, i);
    MergedConserved(pages, x, y, lv[1][q].id, i, used, leaked);
  }

  lemma {:induction false} LeavesIn(pages: Pages, lv: seq<seq<PSlot>>, root: nat)
    requires Shape(pages, lv, root, NONE, 0)
    ensures forall r :: 0 <= r < |lv[0]| ==> IsLeaf(pages, lv[0][r].id)
    ensures forall a, b :: 0 <= a < b < |lv[0]| ==> lv[0][a].id != lv[0][b].id
  {
    forall r | 0 <= r < |lv[0]| ensures IsLeaf(pages, lv[0][r].id) {
      InTree(pages, lv, root, NONE, 0, 0, r);
    }
  }

  lemma {:induction false} MergedAs(pages: Pages, pages': Pages, slots: seq<PSlot>, up: nat, i: nat, p: nat)
    requires (forall r :: 0 <= r < |slots| ==> IsLeaf(pages, slots[r].id)) && p + 1 < |slots|
    requires forall a, b :: 0 <= a < b < |slots| ==> slots[a].id != slots[b].id
    requires IsLeaf(pages, slots[p].id) && IsLeaf(pages, slots[p + 1].id)
    requires UnchangedAt(pages, MergedLeaves(pages, slots[p].id, slots[p + 1].id), up)
    requires up in pages && pages[up].InnerNode? && i < |pages[up].entries|
    requires pages' == ParentShrunk(MergedLeaves(pages, slots[p].id, slots[p + 1].id), up, i)
    ensures forall r :: 0 <= r < |slots| && r != p + 1 ==> MergedLeafAs(pages, pages', slots, p, r)
  {
    forall r | 0 <= r < |slots| && r != p + 1 ensures MergedLeafAs(pages, pages', slots, p, r) {
      assert IsLeaf(pages, slots[r].id) && slots[r].id != slots[p + 1].id;
    }
  }

  lemma {:induction false} MergedConserved(pages: Pages, x: nat, y: nat, up: nat, i: nat, used: set<nat>,
                                           leaked: set<nat>)
    requires IsLeaf(pages, x) && IsLeaf(pages, y) && UnchangedAt(pages, MergedLeaves(pages, x, y), up)
    requires up in pages && pages[up].InnerNode? && i < |pages[up].entries| && Conserved(pages, used, leaked)
    ensures Conserved(ParentShrunk(MergedLeaves(pages, x, y), up, i), used - {y}, leaked)
  {
    assert ParentShrunk(MergedLeaves(pages, x, y), up, i).Keys == pages.Keys - {y};
  }

  lemma {:induction false} MergedFits(pages: Pages, pages': Pages, slots: seq<PSlot>, p: nat, h: nat)
    requires LeavesFit(pages, slots) && p + 1 < |slots| && (h == p || h == p + 1) && OthersFull(pages, slots, h)
    requires slots[p].id in pages && slots[p + 1].id in pages && pages[slots[p].id].LeafNode?
      && pages[slots[p + 1].id].LeafNode?
    requires CanMerge(pages[slots[p].id].page.recs, pages[slots[p + 1].id].page.recs)
    requires forall r :: 0 <= r < |slots| && r != p + 1 ==> MergedLeafAs(pages, pages', slots, p, r)
    requires slots[p].id in pages' && pages'[slots[p].id].LeafNode?
      && pages'[slots[p].id].page == Compact(pages[slots[p].id].page.recs + pages[slots[p + 1].id].page.recs)
    ensures LeavesFit(pages', Fold(slots, p)) && NoEmptyLeaf(pages', Fold(slots, p))
      && |pages'[slots[p].id].page.recs| > 0
  {
    var f := Fold(slots, p);
    MergeFits(pages[slots[p].id].page, pages[slots[p + 1].id].page);
    forall r | 0 <= r < |f|
      ensures f[r].id in pages' && pages'[f[r].id].LeafNode?
        && Fits(pages'[f[r].id].page.recs, pages'[f[r].id].page.freeStart) && |pages'[f[r].id].page.recs| > 0
    {
      var o := if r <= p then r else r + 1;
      assert f[r].id == slots[o].id;
      assert MergedLeafAs(pages, pages', slots, p, o);
    }
  }

  lemma {:induction false} MergedRecords(pages: Pages, pages': Pages, slots: seq<PSlot>, p: nat)
    requires forall q :: 0 <= q < |slots| ==> slots[q].id in pages && pages[slots[q].id].LeafNode?
    requires p + 1 < |slots|
    requires forall r :: 0 <= r < |slots| && r != p + 1 ==> MergedLeafAs(pages, pages', slots, p, r)
    requires forall q :: 0 <= q < |Fold(slots, p)| ==>
      Fold(slots, p)[q].id in pages' && pages'[Fold(slots, p)[q].id].LeafNode?
    ensures Records(pages', Fold(slots, p)) == Records(pages, slots)
  {
    var f := Fold(slots, p);
    var a, b := slots[..p], slots[p + 2..];
    assert f[..p] == a && f[p + 1..] == b;
    RecordsAt(pages', f, p);
    RecordsAt(pages, slots, p);
    RecordsAt(pages, slots[p + 1..], 0);
    assert slots[p + 1..][1..] == b && Records(pages, slots[p + 1..][..0]) == [];
    assert MergedLeafAs(pages, pages', slots, p, p);
    forall q | 0 <= q < |a| ensures SameRecords(pages, pages', a[q].id) {
      assert MergedLeafAs(pages, pages', slots, p, q);
    }
    RecordsFrame(pages, pages', a);
    forall q | 0 <= q < |b| ensures SameRecords(pages, pages', b[q].id) {
      assert b[q] == slots[p + 2 + q];
      assert MergedLeafAs(pages, pages', slots, p, p + 2 + q);
    }
    RecordsFrame(pages, pages', b);
  }

  ghost predicate SameRecords(pages: Pages, pages': Pages, id: nat) {
    id in pages && id in pages' && pages[id].LeafNode? && pages'[id].LeafNode?
      && pages'[id].page.recs == pages[id].page.recs
  }

  lemma {:induction false} MergedShort(pages: Pages, x: nat, y: nat, up: nat, i: nat)
    requires ShortSeparators(pages) && x in pages && y in pages && pages[x].LeafNode? && pages[y].LeafNode?
    requires UnchangedAt(pages, MergedLeaves(pages, x, y), up) && i < |pages[up].entries|
    ensures ShortSeparators(ParentShrunk(MergedLeaves(pages, x, y), up, i))
  {
    var pages' := ParentShrunk(MergedLeaves(pages, x, y), up, i);
    forall id | id in pages' ensures ShortNode(pages'[id]) {
      assert ShortNode(pages[id]);
    }
  }

  // What find_leaf_siblings reports.
  datatype SiblingInfo = SiblingInfo(left: nat, right: nat, separator: Bytes, rightSeparator: Bytes, isLeftmost: bool,
    isRightmost: bool)

  // A node with child j at id, no child occurring twice.
  ghost predicate KidAt(n: Node, id: nat, j: nat) {
    n.InnerNode? && j <= |n.entries| && Children(n.leftmost, n.entries)[j] == id && NoKidTwice(n)
  }

  ghost predicate NoKidTwice(n: Node)
    requires n.InnerNode?
  {
    forall a, b :: 0 <= a < b <= |n.entries| ==>
      Children(n.leftmost, n.entries)[a] != Children(n.leftmost, n.entries)[b]
  }

  function LeftOf(n: Node, j: nat): nat
    requires n.InnerNode? && j <= |n.entries|
  {
    if j == 0 then 0 else Children(n.leftmost, n.entries)[j - 1]
  }

  function RightOf(n: Node, j: nat): nat
    requires n.InnerNode? && j <= |n.entries|
  {
    if j == |n.entries| then 0 else n.entries[j].child
  }

  function SiblingsOf(n: Node, j: nat): SiblingInfo
    requires n.InnerNode? && j <= |n.entries|
  {
    SiblingInfo(LeftOf(n, j), RightOf(n, j),
      if j == 0 then [] else n.entries[j - 1].key,
      if j == |n.entries| then [] else n.entries[j].key,
      j == 0,
      j == |n.entries| && j > 0)
  }

  // The first entry with this key.
  function EntryIndex(es: seq<Entry>, key: Bytes, i: nat): int
    requires i <= |es|
    ensures EntryIndex(es, key, i) == -1 || i <= EntryIndex(es, key, i) < |es|
    decreases |es| - i
  {
    if i == |es| then -1 else if es[i].key == key then i else EntryIndex(es, key, i + 1)
  }

  // remove_from_internal.
  function Forgotten(pages: Pages, parent: nat, key: Bytes, deleted: nat): Pages {
    if parent !in pages || !pages[parent].InnerNode? then pages
    else
      var n := pages[parent];
      if deleted != 0 && n.leftmost == deleted then
        pages[parent :=
          if |n.entries| > 0 then n.(leftmost := n.entries[0].child, entries := n.entries[1..]) else n.(leftmost := 0)]
      else
        var i := EntryIndex(n.entries, key, 0);
        if i >= 0 then ParentShrunk(pages, parent, i) else pages
  }

  // On ascending separators the key names its entry.
  lemma {:induction false} EntryNamed(es: seq<Entry>, i: nat, j: nat)
    requires SortedKeys(EntryKeys(es)) && i <= j < |es|
    ensures EntryIndex(es, es[j].key, i) == j
    decreases j - i
  {
    if i < j {
      assert Lt(EntryKeys(es)[i], EntryKeys(es)[j]);
      Irreflexive(es[j].key);
      EntryNamed(es, i + 1, j);
    }
  }

  lemma {:induction false} KidsDiffer(pages: Pages, root: nat, lv: seq<seq<PSlot>>, q: nat)
    requires Shape(pages, lv, root, NONE, 0) && 1 < |lv| && q < |lv[1]| && lv[1][q].id in pages
      && pages[lv[1][q].id].InnerNode?
    ensures NoKidTwice(pages[lv[1][q].id])
  {
    var n := pages[lv[1][q].id];
    forall a, b | 0 <= a < b <= |n.entries|
      ensures Children(n.leftmost, n.entries)[a] != Children(n.leftmost, n.entries)[b] {
      ChildIs(pages, lv, root, 1, q, a);
      ChildIs(pages, lv, root, 1, q, b);
    }
  }

  // Where a leaf sits under its parent.
  lemma {:induction false} LeafPlace(pages: Pages, root: nat, lv: seq<seq<PSlot>>, h: nat) returns (q: nat, j: nat)
    requires Trimmed(pages, root, lv, h) && |lv| > 1
    ensures q < |lv[1]| && lv[0][h].id in pages && pages[lv[0][h].id].parent == lv[1][q].id
    ensures lv[1][q].id in pages && KidAt(pages[lv[1][q].id], lv[0][h].id, j)
    ensures SortedKeys(EntryKeys(pages[lv[1][q].id].entries))
    ensures j > 0 ==> h > 0 && MergeAt(pages, lv, q, j - 1, h - 1) && LeftOf(pages[lv[1][q].id], j) == lv[0][h - 1].id
    ensures j < |pages[lv[1][q].id].entries| ==>
      MergeAt(pages, lv, q, j, h) && RightOf(pages[lv[1][q].id], j) == lv[0][h + 1].id
    ensures |pages[lv[1][q].id].entries| == 0 ==> j == 0
  {
    q, j := FindParent(pages, lv, root, NONE, 0, h);
    var m, up := Inodes(pages), lv[1][q].id;
    var n := pages[up];
    assert Linked(m, lv, NONE, 0, 1);
    SeparatorsAscend(m, lv[1], q);
    KidsDiffer(pages, root, lv, q);
    InTree(pages, lv, root, NONE, 0, 0, h);
    if j > 0 {
      LeftNeighbour(pages, root, lv, h, q, j);
    }
    if j < |n.entries| {
      RightNeighbour(pages, root, lv, h, q, j);
    }
  }

  lemma {:induction false} LeftNeighbour(pages: Pages, root: nat, lv: seq<seq<PSlot>>, h: nat, q: nat, j: nat)
    requires Shape(pages, lv, root, NONE, 0) && 1 < |lv| && q < |lv[1]| && h < |lv[0]|
    requires lv[1][q].id in pages && pages[lv[1][q].id].InnerNode? && 0 < j <= |pages[lv[1][q].id].entries|
    requires Covers(Inodes(pages), lv[1]) && Offset(Inodes(pages), lv[1], q) + j == h
    ensures h > 0 && MergeAt(pages, lv, q, j - 1, h - 1) && LeftOf(pages[lv[1][q].id], j) == lv[0][h - 1].id
  {
    Siblings(pages, lv, root, q, j - 1);
    InTree(pages, lv, root, NONE, 0, 0, h - 1);
    InTree(pages, lv, root, NONE, 0, 0, h);
  }

  lemma {:induction false} RightNeighbour(pages: Pages, root: nat, lv: seq<seq<PSlot>>, h: nat, q: nat, j: nat)
    requires Shape(pages, lv, root, NONE, 0) && 1 < |lv| && q < |lv[1]| && h < |lv[0]|
    requires lv[1][q].id in pages && pages[lv[1][q].id].InnerNode? && j < |pages[lv[1][q].id].entries|
    requires Covers(Inodes(pages), lv[1]) && Offset(Inodes(pages), lv[1], q) + j == h
    ensures MergeAt(pages, lv, q, j, h) && RightOf(pages[lv[1][q].id], j) == lv[0][h + 1].id
  {
    Siblings(pages, lv, root, q, j);
    InTree(pages, lv, root, NONE, 0, 0, h);
    InTree(pages, lv, root, NONE, 0, 0, h + 1);
  }

  // The key's leaf holds nothing else and is all that its parent has.
  predicate DropsLast(pages: Pages, root: nat, key: Bytes) {
    root != 0 && match FindLeaf(pages, root, key, 0)
      case None => false
      case Some(id) =>
        var up := pages[id].parent;
        |pages[id].page.recs| == 1 && up != 0 && up in pages && pages[up].InnerNode? && pages[up].entries == []
  }

  // What btree_delete is for.
  ghost predicate Removes(before: Pages, root: nat, after: Pages, root': nat, key: Bytes) {
    forall k :: Lookup(after, root', k) == if k == key then None else Lookup(before, root, k)
  }

  lemma {:induction false} RemovesMap(pages: Pages, root: nat, lv: seq<seq<PSlot>>, pages': Pages, root': nat,
                                      lv': seq<seq<PSlot>>, key: Bytes)
    requires TreeOk(pages, root, lv) && TreeOk(pages', root', lv')
    requires StoredMap(pages', root', lv') == StoredMap(pages, root, lv) - {key}
    ensures Removes(pages, root, pages', root', key)
  {
    forall k ensures Lookup(pages', root', k) == if k == key then None else Lookup(pages, root, k) {
      LookupStored(pages, root, lv, k);
      LookupStored(pages', root', lv', k);
    }
  }

  // The pages with the only child x of node up gone, whatever links between leaves were changed.
  ghost predicate GivenUp(pages: Pages, after: Pages, x: nat, up: nat) {
    && x in pages && pages[x].LeafNode? && up in pages && pages[up].InnerNode? && pages[up].entries == []
      && pages[up].leftmost == x
    && after.Keys == pages.Keys - {x}
    && (forall id :: id in after && pages[id].InnerNode? && id != up ==> after[id] == pages[id])
    && (up in after ==> after[up] == pages[up].(leftmost := 0))
    && (forall id :: id in after && pages[id].LeafNode? ==> after[id].LeafNode? && after[id].page == pages[id].page)
  }

  // Descents then end where they did, or find nothing where x was.
  lemma {:induction false} GivenUpDescent(pages: Pages, after: Pages, x: nat, up: nat, id: nat, key: Bytes, depth: nat)
    requires GivenUp(pages, after, x, up) && depth <= MAX_DEPTH
    ensures FindLeaf(after, id, key, depth) == if FindLeaf(pages, id, key, depth) == Some(x)
      then None else FindLeaf(pages, id, key, depth)
    decreases MAX_DEPTH - depth
  {
    if id in pages && pages[id].InnerNode? {
      var next := FindChild(pages[id], key);
      if id == up {
        assert FindChild(after[id], key) == 0;
        assert next == x || next == 0;
      } else if !(next == 0 || next >= MAX_CHILD_ID || depth + 1 > MAX_DEPTH) {
        GivenUpDescent(pages, after, x, up, next, key, depth + 1);
      }
    }
  }

  // Giving up an emptied only child loses nothing but the key just deleted.
  lemma {:induction false} GivenUpRemoves(before: Pages, lv: seq<seq<PSlot>>, root: nat, h: nat, key: Bytes,
                                          pages: Pages, after: Pages, up: nat)
    requires TreeOk(before, root, lv) && root != 0 && h < |lv[0]| && lv[0][h].id in before
      && before[lv[0][h].id].LeafNode?
    requires AtLeast(key, lv[0][h].lo) && Before(key, lv[0][h].hi)
    requires |before[lv[0][h].id].page.recs| == 1 && before[lv[0][h].id].page.recs[0].key == key
    requires pages == RecordDeleted(before, lv[0][h].id, key)
    requires GivenUp(pages, after, lv[0][h].id, up)
    ensures Removes(before, root, after, root, key)
  {
    var x := lv[0][h].id;
    forall k ensures Lookup(after, root, k) == if k == key then None else Lookup(before, root, k) {
      SameDescent(before, pages, root, k, 0);
      GivenUpDescent(pages, after, x, up, root, k, 0);
      var p := RootFound(before, lv, root, k);
      if k == key {
        SameLeaf(lv[0], p, h, k);
      } else if lv[0][p].id == x {
        assert !Find(before[x].page.recs, k).found;
      }
    }
  }

  // An internal root that gave up its last leaf: no page but itself, and nothing to be found.
  ghost predicate Hollow(pages: Pages, root: nat) {
    root in pages && pages.Keys == {root} && pages[root].InnerNode? && pages[root].entries == []
      && pages[root].leftmost == 0
  }

  lemma {:induction false} HollowFindsNothing(pages: Pages, root: nat, key: Bytes)
    requires Hollow(pages, root)
    ensures Lookup(pages, root, key) == None
  {
    assert FindChild(pages[root], key) == 0;
  }

  lemma {:induction false} GivenUpIsHollow(pages: Pages, root: nat, lv: seq<seq<PSlot>>, h: nat, after: Pages)
    requires Trimmed(pages, root, lv, h) && |lv| == 2
    requires lv[0][h].id in pages && GivenUp(pages, after, lv[0][h].id, pages[lv[0][h].id].parent)
    ensures Hollow(after, root)
  {
    var x := lv[0][h].id;
    AloneAtTop(pages, lv, root);
    var q, j := LeafPlace(pages, root, lv, h);
    assert Linked(Inodes(pages), lv, NONE, 0, 1);
    assert lv[1] == [Slot(root, Bot, Top)] && q == 0;
    OneChild(pages, lv, root);
    forall id | id in pages ensures id == root || id == x {
      assert Listed(lv, id);
    }
    InTree(pages, lv, root, NONE, 0, 1, 0);
  }

  lemma {:induction false} OneChild(pages: Pages, lv: seq<seq<PSlot>>, root: nat)
    requires Shape(pages, lv, root, NONE, 0) && |lv| == 2 && lv[1] == [Slot(root, Bot, Top)] && root in pages
      && pages[root].InnerNode? && pages[root].entries == []
    ensures |lv[0]| == 1
  {
    var m := Inodes(pages);
    assert Linked(m, lv, NONE, 0, 1);
    FlatAt(m, lv[1], 0);
    assert Flat(m, lv[1][..0]) == [] && Flat(m, lv[1][1..]) == [];
  }

  // The root of a tree with more than one level is an internal node.
  lemma {:induction false} RootIsInner(pages: Pages, root: nat, lv: seq<seq<PSlot>>)
    requires Shape(pages, lv, root, NONE, 0)
    ensures root in pages && (pages[root].InnerNode? <==> |lv| > 1)
    ensures |lv| == 1 ==> pages.Keys == {root} && pages[root].next == 0
  {
    AloneAtTop(pages, lv, root);
    InTree(pages, lv, root, NONE, 0, |lv| - 1, 0);
    if |lv| == 1 {
      assert NextOk(pages, lv[0], 0);
      forall id | id in pages ensures id == root {
        assert Listed(lv, id);
      }
    }
  }

  // update_leaf_links_on_free: the neighbours of the leaf point at each other.
  function SetNext(pages: Pages, id: nat, next: nat): Pages {
    if id != 0 && id in pages && pages[id].LeafNode? then pages[id := pages[id].(next := next)] else pages
  }

  function Unlinked(pages: Pages, id: nat): Pages
    requires id in pages && pages[id].LeafNode?
  {
    SetPrev(SetNext(pages, pages[id].prev, pages[id].next), pages[id].next, pages[id].prev)
  }

  lemma {:induction false} UnlinkedFrame(pages: Pages, id: nat)
    requires id in pages && pages[id].LeafNode?
    ensures LinksOnly(pages, Unlinked(pages, id))
    ensures pages[id].prev == 0 && pages[id].next == 0 ==> Unlinked(pages, id) == pages
  {
  }

  // Only the links between leaves differ.
  ghost predicate LinksOnly(pages: Pages, after: Pages) {
    && after.Keys == pages.Keys
    && forall id :: id in pages ==>
      if pages[id].LeafNode? then after[id].LeafNode? && after[id].page == pages[id].page else after[id] == pages[id]
  }

  // A root leaf is the only page and has no neighbours.
  lemma {:induction false} RootLeafAlone(pages: Pages, root: nat, lv: seq<seq<PSlot>>)
    requires Trimmed(pages, root, lv, 0) && |lv| == 1
    ensures pages.Keys == {root} && pages[root].LeafNode? && pages[root].prev == 0 && pages[root].next == 0
    ensures Records(pages, lv[0]) == pages[root].page.recs
  {
    AloneAtTop(pages, lv, root);
    InTree(pages, lv, root, NONE, 0, 0, 0);
    assert NextOk(pages, lv[0], 0);
    RecordsAt(pages, lv[0], 0);
    assert Records(pages, lv[0][..0]) == [] && Records(pages, lv[0][1..]) == [];
    forall id | id in pages ensures id == root {
      assert Listed(lv, id);
    }
  }

  // An empty leaf that is its parent's only child.
  predicate LeftAlone(pages: Pages, id: nat)
    requires id in pages && pages[id].LeafNode?
  {
    var up := pages[id].parent;
    pages[id].page.recs == [] && up in pages && pages[up].InnerNode? && pages[up].entries == []
  }

  lemma {:induction false} DropsLastAt(pages: Pages, root: nat, key: Bytes, id: nat)
    requires root != 0 && FindLeaf(pages, root, key, 0) == Some(id) && Find(pages[id].page.recs, key).found
    ensures DropsLast(pages, root, key) <==>
      pages[id].parent != 0 && LeftAlone(RecordDeleted(pages, id, key), id)
  {
    var recs := pages[id].page.recs;
    var i := Find(recs, key).index;
    assert |RemoveAt(recs, i)| == |recs| - 1;
  }

  // The tree after the leaf was settled, in one of the two ways.
  ghost predicate Settled(trimmed: Pages, root: nat, lv: seq<seq<PSlot>>, id: nat, after: Pages, root': nat,
                          lv': seq<seq<PSlot>>)
    requires id in trimmed && trimmed[id].LeafNode?
    requires forall q :: |lv| > 0 && 0 <= q < |lv[0]| ==> lv[0][q].id in trimmed && trimmed[lv[0][q].id].LeafNode?
  {
    && |lv| > 0
    && if |lv| > 1 && LeftAlone(trimmed, id) then root' == root && GivenUp(trimmed, after, id, trimmed[id].parent)
       else TreeOk(after, root', lv') && StoredMap(after, root', lv') == ToMap(Records(trimmed, lv[0]))
  }

  // What btree_delete starts from.
  lemma {:induction false} DeleteStart(pages: Pages, root: nat, lv: seq<seq<PSlot>>, key: Bytes) returns (h: nat)
    requires TreeOk(pages, root, lv) && root != 0
    ensures h < |lv[0]| && lv[0][h].id in pages && pages[lv[0][h].id].LeafNode? && lv[0][h].id < PAGE_LIMIT
    ensures FindLeaf(pages, root, key, 0) == Some(lv[0][h].id) && AtLeast(key, lv[0][h].lo) && Before(key, lv[0][h].hi)
    ensures Find(pages[lv[0][h].id].page.recs, key).found <==> key in StoredMap(pages, root, lv)
    ensures pages[lv[0][h].id].parent == 0 <==> |lv| == 1
    ensures |lv| == 1 ==> h == 0 && lv[0][0].id == root
  {
    h := RootFound(pages, lv, root, key);
    LookupIn(pages, lv[0], h, key);
    LoneLeaf(pages, lv, root, h);
    InTree(pages, lv, root, NONE, 0, 0, h);
  }

  // Two neighbouring leaves, their parent, and the separator between them.
  ghost predicate Pair(pages: Pages, left: nat, right: nat, up: nat, i: nat) {
    && left in pages && right in pages && pages[left].LeafNode? && pages[right].LeafNode?
    && left != right && right < PAGE_IDS && up in pages && pages[up].InnerNode? && i < |pages[up].entries|
    && KidAt(pages[up], left, i) && KidAt(pages[up], right, i + 1) && SortedKeys(EntryKeys(pages[up].entries))
    && Fits(pages[left].page.recs, pages[left].page.freeStart)
      && Fits(pages[right].page.recs, pages[right].page.freeStart)
    && UnchangedAt(pages, MergedLeaves(pages, left, right), up)
    && |pages[left].page.recs| + |pages[right].page.recs| > 0
  }

  lemma {:induction false} PairAt(pages: Pages, lv: seq<seq<PSlot>>, root: nat, h: nat, q: nat, i: nat, p: nat)
    requires Trimmed(pages, root, lv, h) && MergeAt(pages, lv, q, i, p) && (h == p || h == p + 1)
    requires KidAt(pages[lv[1][q].id], lv[0][p].id, i) && KidAt(pages[lv[1][q].id], lv[0][p + 1].id, i + 1)
    requires SortedKeys(EntryKeys(pages[lv[1][q].id].entries))
    ensures Pair(pages, lv[0][p].id, lv[0][p + 1].id, lv[1][q].id, i)
  {
    InTree(pages, lv, root, NONE, 0, 0, p);
    InTree(pages, lv, root, NONE, 0, 0, p + 1);
    var pages1 := MergeFrame(pages, lv, root, q, i, p);
  }

  // A leaf that is child j of its parent, paired with its neighbours there.
  ghost predicate Placed(pages: Pages, id: nat, j: nat) {
    && id in pages && pages[id].LeafNode? && 0 < id < PAGE_IDS
    && var up := pages[id].parent;
      up != 0 && up in pages && KidAt(pages[up], id, j) && ShortNode(pages[up])
      && var left, right := LeftOf(pages[up], j), RightOf(pages[up], j);
        (j > 0 ==> left != 0 && Pair(pages, left, id, up, j - 1))
        && (j < |pages[up].entries| ==> right != 0 && Pair(pages, id, right, up, j))
  }

  lemma {:induction false} LeafPlaced(pages: Pages, root: nat, lv: seq<seq<PSlot>>, h: nat) returns (q: nat, j: nat)
    requires Trimmed(pages, root, lv, h) && |lv| > 1
    ensures PlacedAt(pages, lv, h, q, j) && Placed(pages, lv[0][h].id, j)
  {
    q, j := LeafPlace(pages, root, lv, h);
    InTree(pages, lv, root, NONE, 0, 0, h);
    InTree(pages, lv, root, NONE, 0, 1, q);
    assert ShortNode(pages[lv[1][q].id]);
    if j > 0 {
      LeftPairOf(pages, root, lv, h, q, j);
    }
    if j < |pages[lv[1][q].id].entries| {
      RightPair(pages, root, lv, h, q, j);
    }
    PlacedFrom(pages, lv, h, q, j);
  }

  lemma {:induction false} PlacedFrom(pages: Pages, lv: seq<seq<PSlot>>, h: nat, q: nat, j: nat)
    requires PlacedAt(pages, lv, h, q, j) && 0 < lv[0][h].id < PAGE_IDS && lv[1][q].id != 0
      && ShortNode(pages[lv[1][q].id])
    requires j > 0 ==> LeftOf(pages[lv[1][q].id], j) != 0
                       && Pair(pages, LeftOf(pages[lv[1][q].id], j), lv[0][h].id, lv[1][q].id, j - 1)
    requires j < |pages[lv[1][q].id].entries| ==>
      RightOf(pages[lv[1][q].id], j) != 0 && Pair(pages, lv[0][h].id, RightOf(pages[lv[1][q].id], j), lv[1][q].id, j)
    ensures Placed(pages, lv[0][h].id, j)
  {
  }

  lemma {:induction false} LeftPairOf(pages: Pages, root: nat, lv: seq<seq<PSlot>>, h: nat, q: nat, j: nat)
    requires Trimmed(pages, root, lv, h) && PlacedAt(pages, lv, h, q, j) && j > 0
      && SortedKeys(EntryKeys(pages[lv[1][q].id].entries))
    ensures LeftOf(pages[lv[1][q].id], j) != 0
      && Pair(pages, LeftOf(pages[lv[1][q].id], j), lv[0][h].id, lv[1][q].id, j - 1)
  {
    LeftPair(pages, root, lv, h - 1, q, j - 1);
  }

  // The leaf at h is child j of node q, and its siblings are its neighbours.
  ghost predicate PlacedAt(pages: Pages, lv: seq<seq<PSlot>>, h: nat, q: nat, j: nat) {
    && 1 < |lv| && h < |lv[0]| && lv[0][h].id in pages && pages[lv[0][h].id].LeafNode?
    && q < |lv[1]| && pages[lv[0][h].id].parent == lv[1][q].id
    && var up := lv[1][q].id;
      up in pages && KidAt(pages[up], lv[0][h].id, j)
      && (j > 0 ==> h > 0 && MergeAt(pages, lv, q, j - 1, h - 1) && LeftOf(pages[up], j) == lv[0][h - 1].id)
      && (j < |pages[up].entries| ==> MergeAt(pages, lv, q, j, h) && RightOf(pages[up], j) == lv[0][h + 1].id)
  }

  lemma {:induction false} LeftKid(pages: Pages, lv: seq<seq<PSlot>>, p: nat, q: nat, i: nat)
    requires PlacedAt(pages, lv, p + 1, q, i + 1)
    ensures MergeAt(pages, lv, q, i, p) && LeftOf(pages[lv[1][q].id], i + 1) == lv[0][p].id
    ensures KidAt(pages[lv[1][q].id], lv[0][p].id, i) && KidAt(pages[lv[1][q].id], lv[0][p + 1].id, i + 1)
  {
  }

  lemma {:induction false} LeftPair(pages: Pages, root: nat, lv: seq<seq<PSlot>>, p: nat, q: nat, i: nat)
    requires Trimmed(pages, root, lv, p + 1) && PlacedAt(pages, lv, p + 1, q, i + 1)
    requires SortedKeys(EntryKeys(pages[lv[1][q].id].entries))
    ensures LeftOf(pages[lv[1][q].id], i + 1) != 0
    ensures Pair(pages, LeftOf(pages[lv[1][q].id], i + 1), lv[0][p + 1].id, lv[1][q].id, i)
  {
    LeftKid(pages, lv, p, q, i);
    InTree(pages, lv, root, NONE, 0, 0, p);
    PairAt(pages, lv, root, p + 1, q, i, p);
  }

  lemma {:induction false} RightPair(pages: Pages, root: nat, lv: seq<seq<PSlot>>, h: nat, q: nat, j: nat)
    requires Trimmed(pages, root, lv, h) && PlacedAt(pages, lv, h, q, j)
      && SortedKeys(EntryKeys(pages[lv[1][q].id].entries))
    requires j < |pages[lv[1][q].id].entries|
    ensures RightOf(pages[lv[1][q].id], j) != 0
      && Pair(pages, lv[0][h].id, RightOf(pages[lv[1][q].id], j), lv[1][q].id, j)
  {
    InTree(pages, lv, root, NONE, 0, 0, h + 1);
    PairAt(pages, lv, root, h, q, j, h);
  }

  ghost predicate MergedInto(pages: Pages, used: set<nat>, left: nat, right: nat, up: nat, i: nat, after: Pages,
                             used': set<nat>) {
    && Pair(pages, left, right, up, i) && CanMerge(pages[left].page.recs, pages[right].page.recs)
    && after == ParentShrunk(MergedLeaves(pages, left, right), up, i) && used' == used - {right}
  }

  datatype MergeChoice = NoMerge | WithLeft(sibling: nat, separator: Bytes) | WithRight(sibling: nat, separator: Bytes)

  // A merge that is possible; an empty leaf goes unmerged only if it has no neighbour.
  ghost predicate Chosen(pages: Pages, id: nat, j: nat, choice: MergeChoice)
    requires Placed(pages, id, j)
  {
    var n := pages[pages[id].parent];
    && choice == ChoiceOf(pages, id, j)
    && match choice
    case NoMerge => pages[id].page.recs == [] ==> j == 0 && n.entries == []
    case WithLeft(sibling, separator) =>
      && j > 0 && sibling == LeftOf(n, j) && separator == n.entries[j - 1].key
      && CanMerge(pages[sibling].page.recs, pages[id].page.recs)
    case WithRight(sibling, separator) =>
      && j < |n.entries| && sibling == RightOf(n, j) && separator == n.entries[j].key
      && CanMerge(pages[id].page.recs, pages[sibling].page.recs)
  }

  // Which neighbour a leaf that lost a record is merged with: none if it is not underused, else the left one before
  // the right one, if both fit a page together.
  ghost function ChoiceOf(pages: Pages, id: nat, j: nat): MergeChoice
    requires Placed(pages, id, j)
  {
    var n, recs := pages[pages[id].parent], pages[id].page.recs;
    if !Underutilized(|recs|, TotalSize(recs) % U16) then NoMerge
    else if j > 0 && CanMerge(pages[LeftOf(n, j)].page.recs, recs) then WithLeft(LeftOf(n, j), n.entries[j - 1].key)
    else if j < |n.entries| && CanMerge(recs, pages[RightOf(n, j)].page.recs)
    then WithRight(RightOf(n, j), n.entries[j].key)
    else NoMerge
  }

  // What can become of a leaf that lost a record.
  ghost predicate LeafSettled(pages: Pages, used: set<nat>, id: nat, j: nat, choice: MergeChoice, after: Pages,
                              used': set<nat>)
    requires Placed(pages, id, j)
  {
    && choice == ChoiceOf(pages, id, j)
    && if choice.NoMerge? then
      if |pages[id].page.recs| > 0 then after == pages && used' == used
      else LeftAlone(pages, id) && GivenUp(pages, after, id, pages[id].parent) && used' == used - {id}
    else LeafMerged(pages, used, id, j, choice, after, used')
  }

  // The merges alone.
  ghost predicate LeafMerged(pages: Pages, used: set<nat>, id: nat, j: nat, choice: MergeChoice, after: Pages,
                             used': set<nat>)
    requires Placed(pages, id, j)
  {
    var up := pages[id].parent;
    && choice == ChoiceOf(pages, id, j)
    && match choice
    case NoMerge => after == pages && used' == used && (pages[id].page.recs == [] ==> j == 0 && pages[up].entries == [])
    case WithLeft(_, _) => j > 0 && MergedInto(pages, used, LeftOf(pages[up], j), id, up, j - 1, after, used')
    case WithRight(_, _) =>
      && j < |pages[up].entries| && MergedInto(pages, used, id, RightOf(pages[up], j), up, j, after, used')
      && id in after && after[id].LeafNode? && |after[id].page.recs| > 0
  }

  lemma {:induction false} SettleOutcome(pages: Pages, root: nat, lv: seq<seq<PSlot>>, h: nat, used: set<nat>, q: nat,
                                         j: nat, choice: MergeChoice,
                                         after: Pages, used': set<nat>, leaked: set<nat>)
    returns (lv': seq<seq<PSlot>>)
    requires Trimmed(pages, root, lv, h) && Conserved(pages, used, leaked) && PlacedAt(pages, lv, h, q, j)
      && Placed(pages, lv[0][h].id, j)
    requires LeafSettled(pages, used, lv[0][h].id, j, choice, after, used')
    ensures Settled(pages, root, lv, lv[0][h].id, after, root, lv') && |lv'| == |lv| && Conserved(after, used', leaked)
  {
    match choice {
      case NoMerge =>
        lv' := lv;
        SettledUnmerged(pages, root, lv, h, used, j, choice, after, used', leaked);
      case WithLeft(_, _) =>
        LeftMerged(pages, lv, h, used, q, j, choice, after, used');
        lv' := MergeOutcome(pages, root, lv, h, used, q, j - 1, h - 1, after, used', leaked);
      case WithRight(_, _) =>
        RightMerged(pages, lv, h, used, q, j, choice, after, used');
        lv' := MergeOutcome(pages, root, lv, h, used, q, j, h, after, used', leaked);
    }
  }

  lemma {:induction false} SettledUnmerged(pages: Pages, root: nat, lv: seq<seq<PSlot>>, h: nat, used: set<nat>, j: nat,
                                           choice: MergeChoice,
                                           after: Pages, used': set<nat>, leaked: set<nat>)
    requires Trimmed(pages, root, lv, h) && Conserved(pages, used, leaked) && Placed(pages, lv[0][h].id, j) && |lv| > 1
    requires choice.NoMerge? && LeafSettled(pages, used, lv[0][h].id, j, choice, after, used')
    ensures Settled(pages, root, lv, lv[0][h].id, after, root, lv) && Conserved(after, used', leaked)
  {
    if |pages[lv[0][h].id].page.recs| > 0 {
      TrimmedIsOk(pages, root, lv, h);
    } else {
      GivenUpConserved(pages, used, lv[0][h].id, after, used', leaked);
    }
  }

  lemma {:induction false} GivenUpConserved(pages: Pages, used: set<nat>, id: nat, after: Pages, used': set<nat>,
                                            leaked: set<nat>)
    requires Conserved(pages, used, leaked) && id in pages && after.Keys == pages.Keys - {id} && used' == used - {id}
    ensures Conserved(after, used', leaked)
  {
  }

  // The neighbours that a leaf is merged with, in the tree.
  lemma {:induction false} LeftMerged(pages: Pages, lv: seq<seq<PSlot>>, h: nat, used: set<nat>, q: nat, j: nat,
                                      choice: MergeChoice, after: Pages, used': set<nat>)
    requires PlacedAt(pages, lv, h, q, j) && Placed(pages, lv[0][h].id, j)
    requires choice.WithLeft? && LeafSettled(pages, used, lv[0][h].id, j, choice, after, used')
    ensures j > 0 && h > 0 && MergeAt(pages, lv, q, j - 1, h - 1) && !LeftAlone(pages, lv[0][h].id)
    ensures MergedInto(pages, used, lv[0][h - 1].id, lv[0][h].id, lv[1][q].id, j - 1, after, used')
  {
  }

  lemma {:induction false} RightMerged(pages: Pages, lv: seq<seq<PSlot>>, h: nat, used: set<nat>, q: nat, j: nat,
                                       choice: MergeChoice, after: Pages, used': set<nat>)
    requires PlacedAt(pages, lv, h, q, j) && Placed(pages, lv[0][h].id, j)
    requires choice.WithRight? && LeafSettled(pages, used, lv[0][h].id, j, choice, after, used')
    ensures MergeAt(pages, lv, q, j, h) && !LeftAlone(pages, lv[0][h].id)
    ensures MergedInto(pages, used, lv[0][h].id, lv[0][h + 1].id, lv[1][q].id, j, after, used')
  {
  }

  lemma {:induction false} MergeOutcome(pages: Pages, root: nat, lv: seq<seq<PSlot>>, h: nat, used: set<nat>, q: nat,
                                        i: nat, p: nat, after: Pages, used': set<nat>, leaked: set<nat>)
    returns (lv': seq<seq<PSlot>>)
    requires Trimmed(pages, root, lv, h) && Conserved(pages, used, leaked) && MergeAt(pages, lv, q, i, p)
      && (h == p || h == p + 1)
    requires MergedInto(pages, used, lv[0][p].id, lv[0][p + 1].id, lv[1][q].id, i, after, used')
    ensures TreeOk(after, root, lv') && |lv'| == |lv| && StoredMap(after, root, lv') == ToMap(Records(pages, lv[0]))
      && Conserved(after, used', leaked)
  {
    var pages';
    pages', lv' := MergeStep(pages, lv, root, h, q, i, p, used, leaked);
  }

  // A root leaf with no neighbours, the only page.
  ghost predicate LoneRoot(pages: Pages, id: nat) {
    pages.Keys == {id} && id < PAGE_IDS && pages[id].LeafNode? && pages[id].parent == 0 && pages[id].prev == 0
      && pages[id].next == 0
  }

  lemma {:induction false} DeletePlan(pages: Pages, root: nat, lv: seq<seq<PSlot>>, h: nat, key: Bytes)
    returns (trimmed: Pages, j: nat)
    requires TreeOk(pages, root, lv) && root != 0 && h < |lv[0]|
    requires lv[0][h].id in pages && pages[lv[0][h].id].LeafNode? && Find(pages[lv[0][h].id].page.recs, key).found
    ensures trimmed == RecordDeleted(pages, lv[0][h].id, key)
    ensures |lv| == 1 ==> root == lv[0][h].id && LoneRoot(trimmed, lv[0][h].id)
    ensures |lv| > 1 ==> Placed(trimmed, lv[0][h].id, j)
    ensures pages[lv[0][h].id].parent == 0 <==> |lv| == 1
    ensures root in pages && (pages[root].InnerNode? <==> |lv| > 1)
  {
    LoneLeaf(pages, lv, root, h);
    RootIsInner(pages, root, lv);
    trimmed := LeafLoses(pages, lv, root, h, key);
    j := 0;
    if |lv| == 1 {
      LoneLeaf(pages, lv, root, h);
      RootLeafAlone(trimmed, root, lv);
      InTree(trimmed, lv, root, NONE, 0, 0, 0);
    } else {
      var q;
      q, j := LeafPlaced(trimmed, root, lv, h);
    }
  }

  // What the deletion does to a root leaf, and to a leaf below another node.
  ghost predicate RootSettledAs(trimmed: Pages, used: set<nat>, id: nat, after: Pages, root': nat, used': set<nat>)
    requires id in trimmed && trimmed[id].LeafNode?
  {
    if trimmed[id].page.recs == [] then after == map[] && root' == 0 && used' == used - {id}
    else after == trimmed && root' == id && used' == used
  }

  lemma {:induction false} DeleteSettles(pages: Pages, root: nat, lv: seq<seq<PSlot>>, h: nat, key: Bytes,
                                         used: set<nat>, trimmed: Pages, j: nat, choice: MergeChoice,
                                         after: Pages, root': nat, used': set<nat>, leaked: set<nat>)
    returns (lv': seq<seq<PSlot>>)
    requires TreeOk(pages, root, lv) && root != 0 && h < |lv[0]| && Conserved(pages, used, leaked)
    requires lv[0][h].id in pages && pages[lv[0][h].id].LeafNode? && Find(pages[lv[0][h].id].page.recs, key).found
    requires trimmed == RecordDeleted(pages, lv[0][h].id, key)
    requires |lv| == 1 ==> RootSettledAs(trimmed, used, lv[0][h].id, after, root', used')
    requires |lv| > 1 ==> root' == root && Placed(trimmed, lv[0][h].id, j)
                          && LeafSettled(trimmed, used, lv[0][h].id, j, choice, after, used')
    ensures Trimmed(trimmed, root, lv, h) && ToMap(Records(trimmed, lv[0])) == StoredMap(pages, root, lv) - {key}
    ensures Settled(trimmed, root, lv, lv[0][h].id, after, root', lv') && (|lv| > 1 ==> |lv'| == |lv|)
      && Conserved(after, used', leaked)
  {
    var trimmed' := LeafLoses(pages, lv, root, h, key);
    if |lv| == 1 {
      RootTrimmed(trimmed, root, lv, h, used, after, root', used', leaked);
      lv' := if root' == 0 then [] else lv;
    } else {
      var q, j' := LeafPlaced(trimmed, root, lv, h);
      assert j' == j;
      lv' := SettleOutcome(trimmed, root, lv, h, used, q, j, choice, after, used', leaked);
    }
  }

  lemma {:induction false} RootTrimmed(pages: Pages, root: nat, lv: seq<seq<PSlot>>, h: nat, used: set<nat>,
                                       after: Pages, root': nat, used': set<nat>, leaked: set<nat>)
    requires Trimmed(pages, root, lv, h) && |lv| == 1 && Conserved(pages, used, leaked)
    requires lv[0][h].id in pages && pages[lv[0][h].id].LeafNode?
    requires RootSettledAs(pages, used, lv[0][h].id, after, root', used')
    ensures TreeOk(after, root', if root' == 0 then [] else lv)
    ensures StoredMap(after, root', if root' == 0 then [] else lv) == ToMap(Records(pages, lv[0]))
      && Conserved(after, used', leaked)
  {
    AloneAtTop(pages, lv, root);
    RootLeafAlone(pages, root, lv);
    if root' != 0 {
      TrimmedIsOk(pages, root, lv, h);
    }
  }

  // What btree_delete does to the pages, the root and the bitmap.
  ghost predicate DeletedAs(pages: Pages, root: nat, used: set<nat>, key: Bytes, after: Pages, root': nat,
                            used': set<nat>) {
    match FindLeaf(pages, root, key, 0)
    case None => false
    case Some(id) =>
      var trimmed := RecordDeleted(pages, id, key);
      if pages[id].parent == 0 then RootSettledAs(trimmed, used, id, after, root', used')
      else root' == root && exists j: nat ::
        Placed(trimmed, id, j) && LeafSettled(trimmed, used, id, j, ChoiceOf(trimmed, id, j), after, used')
  }

  // btree_delete as a whole.
  lemma {:induction false} DeleteOutcome(before: Pages, root: nat, lv: seq<seq<PSlot>>, h: nat, key: Bytes,
                                         trimmed: Pages, after: Pages, root': nat, lv': seq<seq<PSlot>>)
    requires TreeOk(before, root, lv) && root != 0 && h < |lv[0]| && FindLeaf(before, root, key, 0) == Some(lv[0][h].id)
    requires AtLeast(key, lv[0][h].lo) && Before(key, lv[0][h].hi) && Find(before[lv[0][h].id].page.recs, key).found
    requires trimmed == RecordDeleted(before, lv[0][h].id, key)
    requires Trimmed(trimmed, root, lv, h)
    requires ToMap(Records(trimmed, lv[0])) == StoredMap(before, root, lv) - {key}
    requires Settled(trimmed, root, lv, lv[0][h].id, after, root', lv')
    ensures !DropsLast(before, root, key) ==>
      TreeOk(after, root', lv') && StoredMap(after, root', lv') == StoredMap(before, root, lv) - {key}
    ensures Removes(before, root, after, root', key)
    ensures DropsLast(before, root, key) && |lv| == 2 ==> Hollow(after, root')
  {
    var id := lv[0][h].id;
    LoneLeaf(before, lv, root, h);
    DropsLastAt(before, root, key, id);
    if DropsLast(before, root, key) {
      assert LeftAlone(trimmed, id);
      var recs := before[id].page.recs;
      assert |RemoveAt(recs, Find(recs, key).index)| == |recs| - 1;
      GivenUpRemoves(before, lv, root, h, key, trimmed, after, trimmed[id].parent);
      if |lv| == 2 {
        GivenUpIsHollow(trimmed, root, lv, h, after);
      }
    } else {
      RemovesMap(before, root, lv, after, root', lv', key);
    }
  }

  lemma {:induction false} DeleteFinish(pages: Pages, root: nat, lv: seq<seq<PSlot>>, h: nat, key: Bytes,
                                        used: set<nat>, trimmed: Pages, j: nat, choice: MergeChoice,
                                        after: Pages, root': nat, used': set<nat>, leaked: set<nat>)
    returns (lv': seq<seq<PSlot>>)
    requires TreeOk(pages, root, lv) && root != 0 && h < |lv[0]| && Conserved(pages, used, leaked)
      && FindLeaf(pages, root, key, 0) == Some(lv[0][h].id)
    requires lv[0][h].id in pages && pages[lv[0][h].id].LeafNode? && Find(pages[lv[0][h].id].page.recs, key).found
    requires AtLeast(key, lv[0][h].lo) && Before(key, lv[0][h].hi)
    requires trimmed == RecordDeleted(pages, lv[0][h].id, key)
    requires |lv| == 1 ==> RootSettledAs(trimmed, used, lv[0][h].id, after, root', used')
    requires |lv| > 1 ==> root' == root && Placed(trimmed, lv[0][h].id, j)
                          && LeafSettled(trimmed, used, lv[0][h].id, j, choice, after, used')
    ensures !DropsLast(pages, root, key) ==>
      TreeOk(after, root', lv') && StoredMap(after, root', lv') == StoredMap(pages, root, lv) - {key}
    ensures Removes(pages, root, after, root', key) && Conserved(after, used', leaked)
    ensures DropsLast(pages, root, key) && |lv| == 2 ==> Hollow(after, root')
    ensures |lv| > 1 && !DropsLast(pages, root, key) ==> root' in after && after[root'].InnerNode?
  {
    lv' := DeleteSettles(pages, root, lv, h, key, used, trimmed, j, choice, after, root', used', leaked);
    DeleteOutcome(pages, root, lv, h, key, trimmed, after, root', lv');
    if |lv| > 1 && !DropsLast(pages, root, key) {
      RootIsInner(after, root', lv');
    }
  }
}
