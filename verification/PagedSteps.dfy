// What descents find in a well-formed page tree, and what insertions and deletions do to its shape.
module PagedSteps {
  import opened Levels
  import opened Towers
  import opened Keys
  import opened PageView
  import opened PagedShape

  // Because no child interval is empty, the separators of a node ascend.
  lemma {:induction false} SeparatorsAscend(m: map<nat, Inode<nat, Bytes>>, slots: seq<PSlot>, q: nat)
    requires Covers(m, slots) && q < |slots| && Strict(Flat(m, slots))
    ensures SortedKeys(m[slots[q].id].keys)
  {
    var ks := m[slots[q].id].keys;
    forall i, j | 0 <= i < j < |ks| ensures Lt(ks[i], ks[j]) {
      AscendFrom(m, slots, q, i, j);
    }
  }

  lemma {:induction false} AscendFrom(m: map<nat, Inode<nat, Bytes>>, slots: seq<PSlot>, q: nat, i: nat, j: nat)
    requires Covers(m, slots) && q < |slots| && Strict(Flat(m, slots))
    requires i < j < |m[slots[q].id].keys|
    ensures Lt(m[slots[q].id].keys[i], m[slots[q].id].keys[j])
    decreases j - i
  {
    ChildSlot(m, slots, q, j);
    var f := Flat(m, slots)[Offset(m, slots, q) + j];
    assert Less(f.lo, f.hi);
    if i + 1 < j {
      AscendFrom(m, slots, q, i, j - 1);
      Transitive(m[slots[q].id].keys[i], m[slots[q].id].keys[j - 1], m[slots[q].id].keys[j]);
    }
  }

  lemma {:induction false} InTree(pages: Pages, lv: seq<seq<PSlot>>, root: nat, d: int, p: nat, e: nat, q: nat)
    requires Shape(pages, lv, root, d, p) && e < |lv| && q < |lv[e]|
    ensures lv[e][q].id in pages && 2 <= lv[e][q].id < PAGE_LIMIT
    ensures pages[lv[e][q].id].LeafNode? <==> e == 0
    ensures e >= 1 ==> Covers(Inodes(pages), lv[e]) && Linked(Inodes(pages), lv, d, p, e)
  {
    if e >= 1 {
      assert Linked(Inodes(pages), lv, d, p, e);
    } else {
      assert LeafOk(pages[lv[0][q].id], lv[0][q]);
    }
  }

  // internal_find_child goes to the child of the position found.
  lemma {:induction false} FindChildAt(n: Node, key: Bytes)
    requires n.InnerNode? && 0 < n.leftmost < MAX_CHILD_ID
    ensures FindChild(n, key) ==
      Children(n.leftmost, n.entries)[ChildPos(EntryKeys(n.entries), key, 0, |n.entries| - 1, |n.entries|)]
  {
  }

  lemma {:induction false} ChildPosAt(ks: seq<Bytes>, key: Bytes) returns (i: nat)
    requires SortedKeys(ks)
    ensures i == ChildPos(ks, key, 0, |ks| - 1, |ks|) <= |ks|
    ensures i > 0 ==> !Lt(key, ks[i - 1])
    ensures i < |ks| ==> Lt(key, ks[i])
  {
    i := ChildPos(ks, key, 0, |ks| - 1, |ks|);
    ChildPosSorted(ks, key, 0, |ks| - 1, |ks|);
  }

  lemma {:induction false} KeyAround(es: seq<Entry>, key: Bytes, i: nat)
    requires i <= |es|
    requires i > 0 ==> !Lt(key, EntryKeys(es)[i - 1])
    requires i < |es| ==> Lt(key, EntryKeys(es)[i])
    ensures i > 0 ==> !Lt(key, es[i - 1].key)
    ensures i < |es| ==> Lt(key, es[i].key)
  {
  }

  // internal_find_child picks the child between the separators around the key.
  lemma {:induction false} ChildFound(n: Node, key: Bytes) returns (i: nat)
    requires n.InnerNode? && SortedKeys(EntryKeys(n.entries))
    requires forall j :: 0 <= j <= |n.entries| ==> 0 < Children(n.leftmost, n.entries)[j] < MAX_CHILD_ID
    ensures i <= |n.entries| && FindChild(n, key) == Children(n.leftmost, n.entries)[i]
    ensures i > 0 ==> !Lt(key, n.entries[i - 1].key)
    ensures i < |n.entries| ==> Lt(key, n.entries[i].key)
  {
    i := ChildPosAt(EntryKeys(n.entries), key);
    KeyAround(n.entries, key, i);
    assert Children(n.leftmost, n.entries)[0] == n.leftmost;
    FindChildAt(n, key);
  }

  // One step of a descent stays with the key.
  lemma {:induction false} ChildHolds(pages: Pages, lv: seq<seq<PSlot>>, root: nat, e: nat, q: nat, key: Bytes)
    returns (r: nat)
    requires Shape(pages, lv, root, NONE, 0) && 1 <= e < |lv| && q < |lv[e]|
    requires lv[e][q].id in pages && pages[lv[e][q].id].InnerNode?
    requires AtLeast(key, lv[e][q].lo) && Before(key, lv[e][q].hi)
    ensures r < |lv[e - 1]| && FindChild(pages[lv[e][q].id], key) == lv[e - 1][r].id
    ensures AtLeast(key, lv[e - 1][r].lo) && Before(key, lv[e - 1][r].hi)
  {
    InTree(pages, lv, root, NONE, 0, e, q);
    var low := lv[e - 1];
    forall j | 0 <= j < |low| ensures 0 < low[j].id < MAX_CHILD_ID {
      InTree(pages, lv, root, NONE, 0, e - 1, j);
    }
    r := ChildHoldsAt(pages, lv[e], low, q, key);
  }

  lemma {:induction false} KeyInExpand(n: Inode<nat, Bytes>, lo: Bound<Bytes>, hi: Bound<Bytes>, i: nat, key: Bytes)
    requires Wide(n) && i < |n.kids| && AtLeast(key, lo) && Before(key, hi)
    requires i > 0 ==> !Lt(key, n.keys[i - 1])
    requires i < |n.keys| ==> Lt(key, n.keys[i])
    ensures AtLeast(key, Expand(n, lo, hi)[i].lo) && Before(key, Expand(n, lo, hi)[i].hi)
  {
  }

  lemma {:induction false} KidsListed(pages: Pages, up: seq<PSlot>, q: nat)
    requires Covers(Inodes(pages), up) && q < |up|
    requires forall j :: 0 <= j < |Flat(Inodes(pages), up)| ==> 0 < Flat(Inodes(pages), up)[j].id < MAX_CHILD_ID
    ensures up[q].id in pages && pages[up[q].id].InnerNode?
    ensures forall j :: 0 <= j <= |pages[up[q].id].entries| ==>
      0 < Children(pages[up[q].id].leftmost, pages[up[q].id].entries)[j] < MAX_CHILD_ID
  {
    var m := Inodes(pages);
    assert up[q].id in m;
    var n := pages[up[q].id];
    var cs := Children(n.leftmost, n.entries);
    forall j | 0 <= j <= |n.entries| ensures 0 < cs[j] < MAX_CHILD_ID {
      ChildSlot(m, up, q, j);
      assert Flat(m, up)[Offset(m, up, q) + j].id == cs[j];
    }
  }

  lemma {:induction false} KeyInSlot(m: map<nat, Inode<nat, Bytes>>, up: seq<PSlot>, low: seq<PSlot>, q: nat, i: nat,
                                     key: Bytes) returns (r: nat)
    requires Covers(m, up) && Flat(m, up) == low && q < |up| && AtLeast(key, up[q].lo) && Before(key, up[q].hi)
    requires i < |m[up[q].id].kids|
    requires i > 0 ==> !Lt(key, m[up[q].id].keys[i - 1])
    requires i < |m[up[q].id].keys| ==> Lt(key, m[up[q].id].keys[i])
    ensures r < |low| && low[r].id == m[up[q].id].kids[i] && AtLeast(key, low[r].lo) && Before(key, low[r].hi)
  {
    ChildSlot(m, up, q, i);
    r := Offset(m, up, q) + i;
    KeyInExpand(m[up[q].id], up[q].lo, up[q].hi, i, key);
  }

  lemma {:induction false} ChildHoldsAt(pages: Pages, up: seq<PSlot>, low: seq<PSlot>, q: nat, key: Bytes)
    returns (r: nat)
    requires Covers(Inodes(pages), up) && Flat(Inodes(pages), up) == low && Strict(low)
    requires q < |up| && AtLeast(key, up[q].lo) && Before(key, up[q].hi)
    requires forall j :: 0 <= j < |low| ==> 0 < low[j].id < MAX_CHILD_ID
    ensures up[q].id in pages && pages[up[q].id].InnerNode?
    ensures r < |low| && FindChild(pages[up[q].id], key) == low[r].id
    ensures AtLeast(key, low[r].lo) && Before(key, low[r].hi)
  {
    var m := Inodes(pages);
    KidsListed(pages, up, q);
    var n := pages[up[q].id];
    SeparatorsAscend(m, up, q);
    var i := ChildFound(n, key);
    r := KeyInSlot(m, up, low, q, i, key);
  }

  // find_leaf_page ends in the leaf whose interval holds the key.
  lemma {:induction false} LeafFound(pages: Pages, lv: seq<seq<PSlot>>, root: nat, e: nat, q: nat, key: Bytes,
                                     depth: nat) returns (p: nat)
    requires Shape(pages, lv, root, NONE, 0) && e < |lv| && q < |lv[e]| && depth + e <= MAX_DEPTH
    requires AtLeast(key, lv[e][q].lo) && Before(key, lv[e][q].hi)
    ensures p < |lv[0]| && FindLeaf(pages, lv[e][q].id, key, depth) == Some(lv[0][p].id)
    ensures AtLeast(key, lv[0][p].lo) && Before(key, lv[0][p].hi)
    decreases e
  {
    var x := lv[e][q].id;
    if e == 0 {
      p := q;
      LeafStops(pages, lv, root, q, key, depth);
    } else {
      var r := Descent(pages, lv, root, e, q, key, depth);
      p := LeafFound(pages, lv, root, e - 1, r, key, depth + 1);
    }
  }

  lemma {:induction false} LeafStops(pages: Pages, lv: seq<seq<PSlot>>, root: nat, q: nat, key: Bytes, depth: nat)
    requires Shape(pages, lv, root, NONE, 0) && q < |lv[0]| && depth <= MAX_DEPTH
    ensures FindLeaf(pages, lv[0][q].id, key, depth) == Some(lv[0][q].id)
  {
    InTree(pages, lv, root, NONE, 0, 0, q);
  }

  lemma {:induction false} Descent(pages: Pages, lv: seq<seq<PSlot>>, root: nat, e: nat, q: nat, key: Bytes, depth: nat)
    returns (r: nat)
    requires Shape(pages, lv, root, NONE, 0) && 1 <= e < |lv| && q < |lv[e]| && depth + 1 <= MAX_DEPTH
    requires AtLeast(key, lv[e][q].lo) && Before(key, lv[e][q].hi)
    ensures r < |lv[e - 1]| && AtLeast(key, lv[e - 1][r].lo) && Before(key, lv[e - 1][r].hi)
    ensures FindLeaf(pages, lv[e][q].id, key, depth) == FindLeaf(pages, lv[e - 1][r].id, key, depth + 1)
  {
    InTree(pages, lv, root, NONE, 0, e, q);
    r := ChildHolds(pages, lv, root, e, q, key);
    InTree(pages, lv, root, NONE, 0, e - 1, r);
  }

  lemma {:induction false} RootFound(pages: Pages, lv: seq<seq<PSlot>>, root: nat, key: Bytes) returns (p: nat)
    requires Shape(pages, lv, root, NONE, 0) && |lv| <= MAX_DEPTH + 1
    ensures p < |lv[0]| && FindLeaf(pages, root, key, 0) == Some(lv[0][p].id)
    ensures AtLeast(key, lv[0][p].lo) && Before(key, lv[0][p].hi)
  {
    assert Seen(lv, NONE, 0, |lv| - 1)[0] == Slot(root, Bot, Top);
    p := LeafFound(pages, lv, root, |lv| - 1, 0, key, 0);
  }

  ghost predicate AllBelow(recs: seq<Rec>, key: Bytes) {
    forall i :: 0 <= i < |recs| ==> Lt(recs[i].key, key)
  }

  ghost predicate AllAbove(key: Bytes, recs: seq<Rec>) {
    forall i :: 0 <= i < |recs| ==> Lt(key, recs[i].key)
  }

  // A stored key is in the leaf it is routed to and in no other.
  lemma {:induction false} OnlyHere(pages: Pages, slots: seq<PSlot>, p: nat, key: Bytes)
    requires LeavesOk(pages, slots) && Ordered(slots) && p < |slots|
    requires AtLeast(key, slots[p].lo) && Before(key, slots[p].hi)
    ensures AllBelow(Records(pages, slots[..p]), key)
    ensures AllAbove(key, Records(pages, slots[p + 1..]))
  {
    var A, B := Records(pages, slots[..p]), Records(pages, slots[p + 1..]);
    forall i | 0 <= i < |A| ensures Lt(A[i].key, key) {
      var q, j := RecordsLocate(pages, slots[..p], i);
      assert LeafOk(pages[slots[q].id], slots[q]);
      Apart(A[i].key, slots[q].hi, slots[p].lo, key);
    }
    forall i | 0 <= i < |B| ensures Lt(key, B[i].key) {
      var q, j := RecordsLocate(pages, slots[p + 1..], i);
      var r := p + 1 + q;
      assert slots[p + 1..][q] == slots[r];
      assert LeafOk(pages[slots[r].id], slots[r]);
      Apart(key, slots[p].hi, slots[r].lo, B[i].key);
    }
  }

  lemma {:induction false} LookupIn(pages: Pages, slots: seq<PSlot>, p: nat, key: Bytes)
    requires LeavesOk(pages, slots) && Ordered(slots) && p < |slots|
    requires AtLeast(key, slots[p].lo) && Before(key, slots[p].hi)
    ensures Find(pages[slots[p].id].page.recs, key).found <==> key in ToMap(Records(pages, slots))
    ensures Find(pages[slots[p].id].page.recs, key).found ==>
      ToMap(Records(pages, slots))[key] ==
        pages[slots[p].id].page.recs[Find(pages[slots[p].id].page.recs, key).index].val
  {
    assert LeafOk(pages[slots[p].id], slots[p]);
    RecordsSorted(pages, slots);
    RecordsAt(pages, slots, p);
    OnlyHere(pages, slots, p, key);
    LookupSplit(Records(pages, slots[..p]), pages[slots[p].id].page.recs, Records(pages, slots[p + 1..]), key);
  }

  lemma {:induction false} LookupSplit(A: seq<Rec>, L: seq<Rec>, B: seq<Rec>, key: Bytes)
    requires AllBelow(A, key) && SortedRecs(L) && AllAbove(key, B) && SortedRecs(A + L + B)
    ensures Find(L, key).found <==> key in ToMap(A + L + B)
    ensures Find(L, key).found ==> ToMap(A + L + B)[key] == L[Find(L, key).index].val
  {
    var all := A + L + B;
    Irreflexive(key);
    FindSorted(L, key);
    ToMapAt(all, key);
    forall i | 0 <= i < |all| && !(|A| <= i < |A| + |L|) ensures all[i].key != key {
      assert all[i] == if i < |A| then A[i] else B[i - |A| - |L|];
    }
    forall i | |A| <= i < |A| + |L| ensures all[i] == L[i - |A|] {
    }
    if Find(L, key).found {
      var i := Find(L, key).index;
      assert all[|A| + i] == L[i];
    }
  }

  // btree_search answers as the map does.
  lemma {:induction false} LookupIsMap(pages: Pages, lv: seq<seq<PSlot>>, root: nat, key: Bytes)
    requires Shape(pages, lv, root, NONE, 0) && |lv| <= MAX_DEPTH + 1
    ensures Lookup(pages, root, key) ==
      if key in ToMap(Records(pages, lv[0])) then Some(ToMap(Records(pages, lv[0]))[key]) else None
  {
    var p := RootFound(pages, lv, root, key);
    LookupIn(pages, lv[0], p, key);
    InTree(pages, lv, root, NONE, 0, 0, p);
    AloneAtTop(pages, lv, root);
    InTree(pages, lv, root, NONE, 0, |lv| - 1, 0);
    assert LeafOk(pages[lv[0][p].id], lv[0][p]);
  }

  lemma {:induction false} AloneAtTop(pages: Pages, lv: seq<seq<PSlot>>, root: nat)
    requires Shape(pages, lv, root, NONE, 0)
    ensures lv[|lv| - 1] == [Slot(root, Bot, Top)]
  {
    assert Seen(lv, NONE, 0, |lv| - 1) == [Slot(root, Bot, Top)];
  }

  // Internal nodes untouched.
  lemma {:induction false} KeepsAll(pages: Pages, pages': Pages, lv: seq<seq<PSlot>>, d: int, q: int)
    requires Inner(pages, lv) && Inner(pages', lv)
    requires forall e, r :: 1 <= e < |lv| && 0 <= r < |lv[e]| && !(e == d && r == q) ==> (
      pages'[lv[e][r].id].entries == pages[lv[e][r].id].entries
        && pages'[lv[e][r].id].leftmost == pages[lv[e][r].id].leftmost)
    ensures KeepsBut(Inodes(pages), Inodes(pages'), lv, d, q)
  {
  }

  // Another content for a leaf.
  lemma {:induction false} LeafReplaced(pages: Pages, lv: seq<seq<PSlot>>, root: nat, d: int, p: nat, q: nat,
                                        c: Content)
    requires Shape(pages, lv, root, d, p) && q < |lv[0]| && lv[0][q].id in pages && pages[lv[0][q].id].LeafNode?
    requires LeafOk(pages[lv[0][q].id].(page := c), lv[0][q])
    ensures Shape(pages[lv[0][q].id := pages[lv[0][q].id].(page := c)], lv, root, d, p)
  {
    var x := lv[0][q].id;
    var pages' := pages[x := pages[x].(page := c)];
    forall e, r | 1 <= e < |lv| && 0 <= r < |lv[e]| ensures lv[e][r].id != x {
      InTree(pages, lv, root, d, p, e, r);
    }
    KeepsAll(pages, pages', lv, NONE, NONE);
    TowerFrame(Inodes(pages), Inodes(pages'), lv, root, d, p);
    forall r | 0 <= r < |lv[0]| ensures LeafOk(pages'[lv[0][r].id], lv[0][r]) && NextOk(pages', lv[0], r) {
      assert LeafOk(pages[lv[0][r].id], lv[0][r]) && NextOk(pages, lv[0], r);
    }
  }

  // split_leaf_page: both halves rebuilt, the new page linked in after the old one.
  function SetPrev(pages: Pages, id: nat, prev: nat): Pages {
    if id != 0 && id in pages && pages[id].LeafNode? then pages[id := pages[id].(prev := prev)] else pages
  }

  function LeafSplit(pages: Pages, x: nat, y: nat, s: nat): Pages
    requires x in pages && pages[x].LeafNode? && s <= |pages[x].page.recs|
  {
    var n := pages[x];
    SetPrev(pages, n.next, y)
      [x := LeafNode(n.parent, 0, y, Compact(n.page.recs[..s]))]
      [y := LeafNode(n.parent, x, n.next, Compact(n.page.recs[s..]))]
  }

  lemma {:induction false} LeafWasSplit(pages: Pages, lv: seq<seq<PSlot>>, root: nat, p: nat, y: nat, s: nat)
    requires Shape(pages, lv, root, NONE, 0) && p < |lv[0]| && lv[0][p].id in pages && pages[lv[0][p].id].LeafNode?
    requires y !in pages && 2 <= y < PAGE_LIMIT && 0 < s < |pages[lv[0][p].id].page.recs|
    ensures Shape(LeafSplit(pages, lv[0][p].id, y, s), lv[0 := Cut(lv[0], p, pages[lv[0][p].id].page.recs[s].key, y)],
      root, 0, p)
  {
    var x := lv[0][p].id;
    var key := pages[x].page.recs[s].key;
    var pages' := LeafSplit(pages, x, y, s);
    var c := Cut(lv[0], p, key, y);
    var lv': seq<seq<PSlot>> := lv[0 := c];
    assert LeafOk(pages[x], lv[0][p]);
    forall e, r | 1 <= e < |lv| && 0 <= r < |lv[e]| ensures lv[e][r].id in pages && pages[lv[e][r].id].InnerNode? {
    }
    KeepsAll(pages, pages', lv, NONE, NONE);
    LeafPends(Inodes(pages), Inodes(pages'), lv, root, p, key, y);
    DistinctCut(lv, 0, p, key, y);
    CutOrdered(lv[0], p, key, y, pages[x].page.recs[0].key);
    CutLeaves(pages, lv[0], p, s, y);
    CutChained(pages, lv[0], p, s, y);
    CutListed(pages, pages', lv, p, key, y);
    assert Within(lv', pages'.Keys) by {
      forall e, q | 0 <= e < |lv'| && 0 <= q < |lv'[e]| ensures lv'[e][q].id in pages' {
        if e == 0 && q > p + 1 { assert c[q] == lv[0][q - 1]; }
      }
    }
  }

  lemma {:induction false} CutOrdered(slots: seq<PSlot>, p: nat, key: Bytes, y: nat, below: Bytes)
    requires Ordered(slots) && Strict(slots) && p < |slots|
    requires AtLeast(below, slots[p].lo) && Lt(below, key) && Before(key, slots[p].hi)
    ensures Ordered(Cut(slots, p, key, y)) && Strict(Cut(slots, p, key, y))
  {
    var c := Cut(slots, p, key, y);
    if slots[p].lo.Key? {
      LtLe(slots[p].lo.key, below, key);
    }
    Trichotomy(key, key);
    forall i, j | 0 <= i < j < |c| ensures Leq(c[i].hi, c[j].lo) {
      var i', j' := if i <= p then i else i - 1, if j <= p then j else j - 1;
      assert c[i].hi == if i == p then Bound.Key(key) else slots[i'].hi;
      assert c[j].lo == if j == p + 1 then Bound.Key(key) else slots[j'].lo;
      if i' < j' {
        assert Leq(slots[i'].hi, slots[j'].lo);
        if i == p && slots[j'].lo.Key? {
          LtLe(key, slots[p].hi.key, slots[j'].lo.key);
          Trichotomy(key, slots[j'].lo.key);
        }
        if j == p + 1 && slots[i'].hi.Key? {
          if slots[p].lo.Key? {
            LtLe(slots[i'].hi.key, slots[p].lo.key, key);
            Trichotomy(slots[i'].hi.key, key);
          }
        }
      }
    }
    forall q | 0 <= q < |c| ensures Less(c[q].lo, c[q].hi) {
      if q > p + 1 { assert c[q] == slots[q - 1]; }
    }
  }

  lemma {:induction false} CutLeaves(pages: Pages, slots: seq<PSlot>, p: nat, s: nat, y: nat)
    requires LeavesOk(pages, slots) && p < |slots| && y !in pages
    requires 0 < s < |pages[slots[p].id].page.recs|
    requires forall i, j :: 0 <= i < j < |slots| ==> slots[i].id != slots[j].id
    ensures LeavesOk(LeafSplit(pages, slots[p].id, y, s), Cut(slots, p, pages[slots[p].id].page.recs[s].key, y))
  {
    var x := slots[p].id;
    assert LeafOk(pages[x], slots[p]);
    var recs := pages[x].page.recs;
    var c := Cut(slots, p, recs[s].key, y);
    var pages' := LeafSplit(pages, x, y, s);
    HalvesOk(recs, s);
    forall i | s <= i < |recs| ensures AtLeast(recs[i].key, Bound.Key(recs[s].key)) {
      Trichotomy(recs[i].key, recs[s].key);
    }
    forall q | 0 <= q < |c| ensures c[q].id in pages' && LeafOk(pages'[c[q].id], c[q]) {
      if q == p || q == p + 1 {
      } else {
        var o := if q < p then q else q - 1;
        assert c[q] == slots[o];
        assert LeafOk(pages[slots[o].id], slots[o]);
      }
    }
  }

  lemma {:induction false} HalvesOk(recs: seq<Rec>, s: nat)
    requires SortedRecs(recs) && Filled(recs) && s <= |recs|
    ensures SortedRecs(recs[..s]) && Filled(recs[..s])
    ensures SortedRecs(recs[s..]) && Filled(recs[s..])
  {
  }

  lemma {:induction false} CutChained(pages: Pages, slots: seq<PSlot>, p: nat, s: nat, y: nat)
    requires Chained(pages, slots) && p < |slots| && y !in pages && y != 0
    requires slots[p].id in pages && pages[slots[p].id].LeafNode? && 0 < s < |pages[slots[p].id].page.recs|
    requires forall i, j :: 0 <= i < j < |slots| ==> slots[i].id != slots[j].id
    ensures Chained(LeafSplit(pages, slots[p].id, y, s), Cut(slots, p, pages[slots[p].id].page.recs[s].key, y))
  {
    var c := Cut(slots, p, pages[slots[p].id].page.recs[s].key, y);
    var pages' := LeafSplit(pages, slots[p].id, y, s);
    assert NextOk(pages, slots, p);
    forall q | 0 <= q < |c| ensures NextOk(pages', c, q) {
      var o := if q <= p then q else q - 1;
      assert NextOk(pages, slots, o);
      if q > p + 1 {
        assert c[q] == slots[q - 1];
      }
      if q > p && q + 1 < |c| {
        assert c[q + 1] == slots[q];
      }
    }
  }

  lemma {:induction false} CutListed(pages: Pages, pages': Pages, lv: seq<seq<PSlot>>, p: nat, key: Bytes, y: nat)
    requires AllListed(pages, lv) && InRange(pages) && 1 <= |lv| && p < |lv[0]| && 2 <= y < PAGE_LIMIT
    requires pages'.Keys == pages.Keys + {y}
    ensures InRange(pages') && AllListed(pages', lv[0 := Cut(lv[0], p, key, y)])
  {
    var c := Cut(lv[0], p, key, y);
    var lv': seq<seq<PSlot>> := lv[0 := c];
    forall id | id in pages' ensures Listed(lv', id) {
      if id == y {
        assert lv'[0][p + 1].id == id;
      } else {
        assert Listed(lv, id);
        var e, q :| 0 <= e < |lv| && 0 <= q < |lv[e]| && lv[e][q].id == id;
        if e == 0 && q > p {
          assert c[q + 1] == lv[0][q];
          assert lv'[0][q + 1].id == id;
        } else {
          assert lv'[e][q].id == id;
        }
      }
    }
  }
}
