// The map that a page tree stores, and how single steps of the operations change it.
module PagedOps {
  import opened Levels
  import opened Towers
  import opened Keys
  import opened PageView
  import opened PagedShape
  import opened PagedSteps
  import opened PagedEdits

  // A whole tree at rest.
  ghost predicate TreeOk(pages: Pages, root: nat, lv: seq<seq<PSlot>>) {
    if root == 0 then pages == map[] && lv == []
    else 1 <= |lv| <= MAX_DEPTH + 1 && Shape(pages, lv, root, NONE, 0) && LeavesFit(pages, lv[0])
         && NoEmptyLeaf(pages, lv[0]) && ShortSeparators(pages)
  }

  // The code holds separators in buffers of MAX_SEPARATOR bytes.
  const MAX_SEPARATOR := 256

  ghost predicate ShortSeparators(pages: Pages) {
    forall id :: id in pages ==> ShortNode(pages[id])
  }

  ghost predicate ShortNode(n: Node) {
    n.InnerNode? ==> forall i :: 0 <= i < |n.entries| ==> |n.entries[i].key| <= MAX_SEPARATOR
  }

  ghost function StoredMap(pages: Pages, root: nat, lv: seq<seq<PSlot>>): map<Bytes, Bytes>
    requires TreeOk(pages, root, lv)
  {
    if root == 0 then map[] else
      assert LeavesOk(pages, lv[0]);
      ToMap(Records(pages, lv[0]))
  }

  // What btree_insert is for.
  ghost predicate Refines(before: Pages, root: nat, after: Pages, root': nat, key: Bytes, val: Bytes) {
    forall k :: Lookup(after, root', k) == if k == key then Some(val) else Lookup(before, root, k)
  }

  lemma {:induction false} LookupStored(pages: Pages, root: nat, lv: seq<seq<PSlot>>, key: Bytes)
    requires TreeOk(pages, root, lv)
    ensures Lookup(pages, root, key) == if key in StoredMap(pages, root, lv)
      then Some(StoredMap(pages, root, lv)[key]) else None
  {
    if root != 0 {
      LookupIsMap(pages, lv, root, key);
    }
  }

  lemma {:induction false} RefinesMap(pages: Pages, root: nat, lv: seq<seq<PSlot>>, pages': Pages, root': nat,
                                      lv': seq<seq<PSlot>>, key: Bytes, val: Bytes)
    requires TreeOk(pages, root, lv) && TreeOk(pages', root', lv')
    requires StoredMap(pages', root', lv') == StoredMap(pages, root, lv)[key := val]
    ensures Refines(pages, root, pages', root', key, val)
  {
    forall k ensures Lookup(pages', root', k) == if k == key then Some(val) else Lookup(pages, root, k) {
      LookupStored(pages, root, lv, k);
      LookupStored(pages', root', lv', k);
    }
  }

  lemma {:induction false} RecordsUpdated(pages: Pages, pages': Pages, slots: seq<PSlot>, p: nat)
    requires p < |slots| && forall q :: 0 <= q < |slots| ==> slots[q].id in pages && pages[slots[q].id].LeafNode?
    requires forall q :: 0 <= q < |slots| ==> slots[q].id in pages' && pages'[slots[q].id].LeafNode?
    requires forall q :: 0 <= q < |slots| && q != p ==> pages'[slots[q].id].page.recs == pages[slots[q].id].page.recs
    ensures Records(pages', slots) == Records(pages, slots[..p]) + pages'[slots[p].id].page.recs +
      Records(pages, slots[p + 1..])
  {
    RecordsAt(pages', slots, p);
    RecordsFrame(pages, pages', slots[..p]);
    RecordsFrame(pages, pages', slots[p + 1..]);
  }

  // Storing a record in its place in one leaf.
  lemma {:induction false} MapTakesRecord(A: seq<Rec>, L: seq<Rec>, B: seq<Rec>, i: nat, r: Rec)
    requires i <= |L| && SortedRecs(A + InsertAt(L, i, r) + B)
    ensures ToMap(A + InsertAt(L, i, r) + B) == ToMap(A + L + B)[r.key := r.val]
  {
    assert A + InsertAt(L, i, r) + B == (A + L[..i]) + [r] + (L[i..] + B);
    assert A + L + B == (A + L[..i]) + (L[i..] + B);
    ToMapInsert(A + L[..i], r, L[i..] + B);
  }

  lemma {:induction false} MapLosesRecord(A: seq<Rec>, L: seq<Rec>, B: seq<Rec>, i: nat)
    requires i < |L| && SortedRecs(A + L + B)
    ensures ToMap(A + RemoveAt(L, i) + B) == ToMap(A + L + B) - {L[i].key}
  {
    assert A + L + B == (A + L[..i]) + [L[i]] + (L[i + 1..] + B);
    assert A + RemoveAt(L, i) + B == (A + L[..i]) + (L[i + 1..] + B);
    ToMapRemove(A + L[..i], L[i], L[i + 1..] + B);
  }

  // page_insert into the leaf the key belongs to, with or without a split under way.
  lemma {:induction false} LeafTakes(pages: Pages, lv: seq<seq<PSlot>>, root: nat, d: int, p: nat, h: nat, key: Bytes,
                                     val: Bytes) returns (pages': Pages)
    requires Shape(pages, lv, root, d, p) && LeavesFit(pages, lv[0]) && NoEmptyLeaf(pages, lv[0]) && h < |lv[0]|
    requires AtLeast(key, lv[0][h].lo) && Before(key, lv[0][h].hi) && |key| > 0
    requires lv[0][h].id in pages && pages[lv[0][h].id].LeafNode?
    requires Takes(pages[lv[0][h].id].page, key, val) && !Find(pages[lv[0][h].id].page.recs, key).found
    ensures pages' ==
      pages[lv[0][h].id := pages[lv[0][h].id].(page := PageInsert(pages[lv[0][h].id].page, key, val).page)]
    ensures PageInsert(pages[lv[0][h].id].page, key, val).ok
    ensures Shape(pages', lv, root, d, p) && LeavesFit(pages', lv[0]) && NoEmptyLeaf(pages', lv[0])
    ensures ToMap(Records(pages', lv[0])) == ToMap(Records(pages, lv[0]))[key := val]
  {
    var x := lv[0][h].id;
    var c := pages[x].page;
    assert LeafOk(pages[x], lv[0][h]);
    InsertTaken(c, key, val);
    var c' := PageInsert(c, key, val).page;
    pages' := pages[x := pages[x].(page := c')];
    InsertedInRange(c.recs, Find(c.recs, key).index, Rec(key, val), lv[0][h]);
    LeafReplaced(pages, lv, root, d, p, h, c');
    ReplacedFits(pages, lv[0], h, c');
    MapTakesKey(pages, pages', lv[0], h, Find(c.recs, key).index, Rec(key, val));
  }

  lemma {:induction false} MapTakesKey(pages: Pages, pages': Pages, slots: seq<PSlot>, h: nat, i: nat, r: Rec)
    requires LeavesOk(pages, slots) && LeavesOk(pages', slots) && Ordered(slots) && h < |slots|
      && i <= |pages[slots[h].id].page.recs|
    requires forall q :: 0 <= q < |slots| && q != h ==> pages'[slots[q].id].page.recs == pages[slots[q].id].page.recs
    requires pages'[slots[h].id].page.recs == InsertAt(pages[slots[h].id].page.recs, i, r)
    ensures ToMap(Records(pages', slots)) == ToMap(Records(pages, slots))[r.key := r.val]
  {
    RecordsAt(pages, slots, h);
    RecordsUpdated(pages, pages', slots, h);
    RecordsSorted(pages', slots);
    MapTakesRecord(Records(pages, slots[..h]), pages[slots[h].id].page.recs, Records(pages, slots[h + 1..]), i, r);
  }

  lemma {:induction false} InsertedInRange(recs: seq<Rec>, i: nat, r: Rec, s: PSlot)
    requires i <= |recs| && AtLeast(r.key, s.lo) && Before(r.key, s.hi)
    requires forall j :: 0 <= j < |recs| ==> AtLeast(recs[j].key, s.lo) && Before(recs[j].key, s.hi)
    ensures forall j :: 0 <= j < |InsertAt(recs, i, r)| ==>
      AtLeast(InsertAt(recs, i, r)[j].key, s.lo) && Before(InsertAt(recs, i, r)[j].key, s.hi)
  {
    var n := InsertAt(recs, i, r);
    forall j | 0 <= j < |n| ensures AtLeast(n[j].key, s.lo) && Before(n[j].key, s.hi) {
      assert n[j] == if j < i then recs[j] else if j == i then r else recs[j - 1];
    }
  }

  lemma {:induction false} RemovedInRange(recs: seq<Rec>, i: nat, s: PSlot)
    requires i < |recs|
    requires forall j :: 0 <= j < |recs| ==> AtLeast(recs[j].key, s.lo) && Before(recs[j].key, s.hi)
    ensures forall j :: 0 <= j < |RemoveAt(recs, i)| ==>
      AtLeast(RemoveAt(recs, i)[j].key, s.lo) && Before(RemoveAt(recs, i)[j].key, s.hi)
  {
    var n := RemoveAt(recs, i);
    forall j | 0 <= j < |n| ensures AtLeast(n[j].key, s.lo) && Before(n[j].key, s.hi) {
      assert n[j] == recs[if j < i then j else j + 1];
    }
  }

  lemma {:induction false} ReplacedFits(pages: Pages, slots: seq<PSlot>, h: nat, c: Content)
    requires LeavesFit(pages, slots) && h < |slots| && slots[h].id in pages && pages[slots[h].id].LeafNode?
    requires Fits(c.recs, c.freeStart)
    ensures LeavesFit(pages[slots[h].id := pages[slots[h].id].(page := c)], slots)
    ensures NoEmptyLeaf(pages, slots) && |c.recs| > 0 ==>
      NoEmptyLeaf(pages[slots[h].id := pages[slots[h].id].(page := c)], slots)
  {
  }

  // split_leaf_page as a whole: the level list it leaves, nothing stored is lost.
  lemma {:induction false} SplitStep(pages: Pages, lv: seq<seq<PSlot>>, root: nat, p: nat, y: nat)
    returns (lv': seq<seq<PSlot>>, pages': Pages)
    requires Shape(pages, lv, root, NONE, 0) && LeavesFit(pages, lv[0]) && NoEmptyLeaf(pages, lv[0]) && p < |lv[0]|
    requires lv[0][p].id in pages && pages[lv[0][p].id].LeafNode? && |pages[lv[0][p].id].page.recs| >= 2
    requires y !in pages && 2 <= y < PAGE_LIMIT
    ensures pages' == LeafSplit(pages, lv[0][p].id, y, SplitIndex(|pages[lv[0][p].id].page.recs|))
    ensures |lv'| == |lv| && lv' == lv[0 := lv'[0]] && p + 1 < |lv'[0]|
    ensures lv'[0][p] ==
      Slot(lv[0][p].id, lv[0][p].lo,
      Bound.Key(pages[lv[0][p].id].page.recs[SplitIndex(|pages[lv[0][p].id].page.recs|)].key))
    ensures lv'[0][p + 1] ==
      Slot(y, Bound.Key(pages[lv[0][p].id].page.recs[SplitIndex(|pages[lv[0][p].id].page.recs|)].key), lv[0][p].hi)
    ensures Shape(pages', lv', root, 0, p) && LeavesFit(pages', lv'[0]) && NoEmptyLeaf(pages', lv'[0])
    ensures Records(pages', lv'[0]) == Records(pages, lv[0])
  {
    var x := lv[0][p].id;
    var s := SplitIndex(|pages[x].page.recs|);
    var key := pages[x].page.recs[s].key;
    pages' := LeafSplit(pages, x, y, s);
    lv' := lv[0 := Cut(lv[0], p, key, y)];
    LeafWasSplit(pages, lv, root, p, y, s);
    SplitFits(pages, lv[0], p, y, s);
    SplitRecords(pages, lv[0], p, y, s);
  }

  lemma {:induction false} SplitFits(pages: Pages, slots: seq<PSlot>, p: nat, y: nat, s: nat)
    requires LeavesFit(pages, slots) && NoEmptyLeaf(pages, slots) && p < |slots| && slots[p].id in pages
      && pages[slots[p].id].LeafNode?
    requires 0 < s < |pages[slots[p].id].page.recs| && y !in pages
    requires forall i, j :: 0 <= i < j < |slots| ==> slots[i].id != slots[j].id
    ensures LeavesFit(LeafSplit(pages, slots[p].id, y, s), Cut(slots, p, pages[slots[p].id].page.recs[s].key, y))
    ensures NoEmptyLeaf(LeafSplit(pages, slots[p].id, y, s), Cut(slots, p, pages[slots[p].id].page.recs[s].key, y))
  {
    var c := Cut(slots, p, pages[slots[p].id].page.recs[s].key, y);
    var page := pages[slots[p].id].page;
    var pages' := LeafSplit(pages, slots[p].id, y, s);
    assert page.recs[0..s] == page.recs[..s] && page.recs[s..|page.recs|] == page.recs[s..];
    CompactFits(page, 0, s);
    CompactFits(page, s, |page.recs|);
    forall q | 0 <= q < |c|
      ensures c[q].id in pages' && pages'[c[q].id].LeafNode?
        && Fits(pages'[c[q].id].page.recs, pages'[c[q].id].page.freeStart) && |pages'[c[q].id].page.recs| > 0
    {
      if q != p && q != p + 1 {
        var o := if q < p then q else q - 1;
        assert c[q] == slots[o];
        assert slots[o].id in pages && pages[slots[o].id].LeafNode?;
      }
    }
  }

  lemma {:induction false} SplitRecords(pages: Pages, slots: seq<PSlot>, p: nat, y: nat, s: nat)
    requires forall q :: 0 <= q < |slots| ==> slots[q].id in pages && pages[slots[q].id].LeafNode?
    requires p < |slots| && s < |pages[slots[p].id].page.recs| && y !in pages
    requires forall i, j :: 0 <= i < j < |slots| ==> slots[i].id != slots[j].id
    ensures forall q :: 0 <= q < |Cut(slots, p, pages[slots[p].id].page.recs[s].key, y)| ==>
      CutIsLeaf(LeafSplit(pages, slots[p].id, y, s), Cut(slots, p, pages[slots[p].id].page.recs[s].key, y), q)
    ensures Records(LeafSplit(pages, slots[p].id, y, s), Cut(slots, p, pages[slots[p].id].page.recs[s].key, y)) ==
      Records(pages, slots)
  {
    var recs := pages[slots[p].id].page.recs;
    var c := Cut(slots, p, recs[s].key, y);
    var pages' := LeafSplit(pages, slots[p].id, y, s);
    var a, b := slots[..p], slots[p + 1..];
    var two := [c[p], c[p + 1]];
    assert c == a + two + b;
    forall q | 0 <= q < |c| ensures CutIsLeaf(pages', c, q) {
      if q != p && q != p + 1 {
        assert c[q] == slots[if q < p then q else q - 1];
      }
    }
    assert Records(pages', two) == recs by {
      assert two[1..][1..] == [];
      assert Records(pages', two[1..]) == recs[s..];
      assert recs == recs[..s] + recs[s..];
    }
    RecordsAt(pages, slots, p);
    assert Records(pages', a) == Records(pages, a) by { RecordsFrame(pages, pages', a); }
    assert Records(pages', b) == Records(pages, b) by { RecordsFrame(pages, pages', b); }
    RecordsConcat(pages', a, two);
    RecordsConcat(pages', a + two, b);
  }

  ghost predicate CutIsLeaf(pages: Pages, slots: seq<PSlot>, q: nat)
    requires q < |slots|
  {
    slots[q].id in pages && pages[slots[q].id].LeafNode?
  }

  // Changes above the leaves store nothing and lose nothing.
  lemma {:induction false} LeavesCarried(pages: Pages, pages': Pages, slots: seq<PSlot>)
    requires LeavesFit(pages, slots) && NoEmptyLeaf(pages, slots)
    requires forall q :: 0 <= q < |slots| ==>
      slots[q].id in pages' && pages'[slots[q].id].LeafNode? && pages'[slots[q].id].page == pages[slots[q].id].page
    ensures LeavesFit(pages', slots) && NoEmptyLeaf(pages', slots) && Records(pages', slots) == Records(pages, slots)
  {
    RecordsFrame(pages, pages', slots);
  }

  // A tree of one empty leaf.
  lemma {:induction false} OneLeaf(pages: Pages, id: nat)
    requires pages == map[id := LeafNode(0, 0, 0, Content([], HEADER_SIZE))] && 2 <= id < PAGE_LIMIT
    ensures TreeOk(pages, id, [[Slot(id, Bot, Top)]])
    ensures Records(pages, [Slot(id, Bot, Top)]) == []
  {
    var row: seq<PSlot> := [Slot(id, Bot, Top)];
    var lv: seq<seq<PSlot>> := [row];
    assert NextOk(pages, row, 0);
    assert Records(pages, row[1..]) == [];
    assert lv[0][0].id == id;
    assert Listed(lv, id);
  }

  // One key has one leaf.
  lemma {:induction false} SameLeaf(slots: seq<PSlot>, p: nat, q: nat, key: Bytes)
    requires Ordered(slots) && p < |slots| && q < |slots|
    requires AtLeast(key, slots[p].lo) && Before(key, slots[p].hi)
    requires AtLeast(key, slots[q].lo) && Before(key, slots[q].hi)
    ensures p == q
  {
    Irreflexive(key);
    if p < q {
      assert Leq(slots[p].hi, slots[q].lo);
      Apart(key, slots[p].hi, slots[q].lo, key);
    } else if q < p {
      assert Leq(slots[q].hi, slots[p].lo);
      Apart(key, slots[q].hi, slots[p].lo, key);
    }
  }

  // Descents do not depend on what the leaves hold.
  lemma {:induction false} SameDescent(pages: Pages, pages': Pages, id: nat, key: Bytes, depth: nat)
    requires depth <= MAX_DEPTH && pages'.Keys == pages.Keys
    requires forall x :: x in pages ==> (pages[x].LeafNode? && pages'[x].LeafNode?) || pages'[x] == pages[x]
    ensures FindLeaf(pages', id, key, depth) == FindLeaf(pages, id, key, depth)
    decreases MAX_DEPTH - depth
  {
    if id in pages && pages[id].InnerNode? {
      var next := FindChild(pages[id], key);
      if !(next == 0 || next >= MAX_CHILD_ID || depth + 1 > MAX_DEPTH) {
        SameDescent(pages, pages', next, key, depth + 1);
      }
    }
  }

  // A record the page does not take is not found there afterwards.
  lemma {:induction false} NotTaken(c: Content, key: Bytes, val: Bytes)
    requires SortedRecs(c.recs) && !Find(c.recs, key).found && !Takes(c, key, val)
    requires CanInsert(c.freeStart, |c.recs|, RecordSize(|key|, |val|)) || !PageInsert(c, key, val).ok
    ensures var recs := PageInsert(c, key, val).page.recs;
      Find(recs, key).found ==> |recs[Find(recs, key).index].val| == 0
  {
    if PageInsert(c, key, val).ok {
      var i := Find(c.recs, key).index;
      var recs := InsertAt(c.recs, i, Rec(key, val));
      FindSorted(c.recs, key);
      SortedInsert(c.recs, i, Rec(key, val));
      FindSorted(recs, key);
      assert recs[i].key == key;
      Irreflexive(key);
    }
  }
}
