// Growing and shrinking the internal nodes of the page tree.
module PagedEdits {
  import opened Levels
  import opened Towers
  import opened Keys
  import opened PageView
  import opened PagedShape
  import opened PagedSteps

  // A leaf is child i of one node one level up; its parent field names that node.
  lemma {:induction false} FindParent(pages: Pages, lv: seq<seq<PSlot>>, root: nat, d: int, p: nat, r: nat)
    returns (q: nat, i: nat)
    requires Shape(pages, lv, root, d, p) && 1 < |lv| && r < |lv[0]| && (d == 0 ==> r == p)
    ensures q < |lv[1]| && lv[0][r].id in pages && pages[lv[0][r].id].parent == lv[1][q].id
    ensures Covers(Inodes(pages), lv[1]) && lv[1][q].id in pages && pages[lv[1][q].id].InnerNode?
    ensures i <= |pages[lv[1][q].id].entries|
    ensures Children(pages[lv[1][q].id].leftmost, pages[lv[1][q].id].entries)[i] == lv[0][r].id
    ensures Offset(Inodes(pages), lv[1], q) + i == r
  {
    var m := Inodes(pages);
    assert Linked(m, lv, d, p, 1);
    assert Seen(lv, d, p, 0)[r].id == lv[0][r].id;
    q, i := Locate(m, lv[1], r);
    var n := pages[lv[1][q].id];
    assert ParentOf(pages, Children(n.leftmost, n.entries)[i], lv[1][q].id);
  }

  lemma {:induction false} FoldStrict(slots: seq<PSlot>, p: nat)
    requires Strict(slots) && p + 1 < |slots| && slots[p + 1].lo == slots[p].hi
    ensures Strict(Fold(slots, p))
    ensures Less(slots[p].lo, slots[p + 1].hi)
  {
    var f := Fold(slots, p);
    assert Less(slots[p].lo, slots[p].hi) && Less(slots[p + 1].lo, slots[p + 1].hi);
    if slots[p].lo.Key? && slots[p + 1].hi.Key? {
      Transitive(slots[p].lo.key, slots[p].hi.key, slots[p + 1].hi.key);
    }
    forall q | 0 <= q < |f| ensures Less(f[q].lo, f[q].hi) {
      if q > p { assert f[q] == slots[q + 1]; }
    }
  }

  lemma {:induction false} FoldOrdered(slots: seq<PSlot>, p: nat)
    requires Ordered(slots) && p + 1 < |slots|
    ensures Ordered(Fold(slots, p))
  {
    var f := Fold(slots, p);
    forall i, j | 0 <= i < j < |f| ensures Leq(f[i].hi, f[j].lo) {
      var i', j' := if i < p then i else i + 1, if j <= p then j else j + 1;
      assert f[i].hi == slots[i'].hi && f[j].lo == slots[j'].lo;
      assert Leq(slots[i'].hi, slots[j'].lo);
    }
  }

  // The separator of a fresh split goes right after its left half, and is not in the parent yet.
  lemma {:induction false} SeparatorPlace(pages: Pages, lv: seq<seq<PSlot>>, root: nat, p: nat, q: nat, i: nat)
    requires Shape(pages, lv, root, 0, p) && 1 < |lv| && q < |lv[1]|
    requires lv[1][q].id in pages && pages[lv[1][q].id].InnerNode? && i <= |pages[lv[1][q].id].entries|
    requires Covers(Inodes(pages), lv[1]) && Offset(Inodes(pages), lv[1], q) + i == p
    ensures Search(EntryKeys(pages[lv[1][q].id].entries), lv[0][p].hi.key, 0, |pages[lv[1][q].id].entries|) ==
      SearchResult(false, i)
  {
    assert Linked(Inodes(pages), lv, 0, p, 1);
    FoldStrict(lv[0], p);
    SeparatorPlaceAt(pages, lv[0], lv[1], p, q, i);
  }

  lemma {:induction false} SeparatorPlaceAt(pages: Pages, low: seq<PSlot>, up: seq<PSlot>, p: nat, q: nat, i: nat)
    requires p + 1 < |low| && low[p].hi.Key? && low[p + 1].lo == low[p].hi
    requires Covers(Inodes(pages), up) && Flat(Inodes(pages), up) == Fold(low, p) && Strict(Fold(low, p)) && Strict(low)
    requires q < |up| && up[q].id in pages && pages[up[q].id].InnerNode? && i <= |pages[up[q].id].entries|
    requires Offset(Inodes(pages), up, q) + i == p
    ensures Search(EntryKeys(pages[up[q].id].entries), low[p].hi.key, 0, |pages[up[q].id].entries|) ==
      SearchResult(false, i)
  {
    var m := Inodes(pages);
    var ks, key := m[up[q].id].keys, low[p].hi.key;
    SeparatorsAscend(m, up, q);
    BoundsAt(m, up, q, i);
    assert Fold(low, p)[p] == Slot(low[p].id, low[p].lo, low[p + 1].hi);
    assert Less(low[p].lo, low[p].hi) && Less(low[p + 1].lo, low[p + 1].hi);
    PlaceFound(ks, key, i);
  }

  // The separators around child i bound its slot.
  lemma {:induction false} BoundsAt(m: map<nat, Inode<nat, Bytes>>, up: seq<PSlot>, q: nat, i: nat)
    requires Covers(m, up) && q < |up| && i <= |m[up[q].id].keys|
    ensures Offset(m, up, q) + i < |Flat(m, up)|
    ensures i > 0 ==> Flat(m, up)[Offset(m, up, q) + i].lo == Bound.Key(m[up[q].id].keys[i - 1])
    ensures i < |m[up[q].id].keys| ==> Flat(m, up)[Offset(m, up, q) + i].hi == Bound.Key(m[up[q].id].keys[i])
  {
    ChildSlot(m, up, q, i);
  }

  lemma {:induction false} PlaceFound(ks: seq<Bytes>, key: Bytes, i: nat)
    requires SortedKeys(ks) && i <= |ks|
    requires i > 0 ==> Lt(ks[i - 1], key)
    requires i < |ks| ==> Lt(key, ks[i])
    ensures Search(ks, key, 0, |ks|) == SearchResult(false, i)
  {
    SearchSorted(ks, key, 0, |ks|);
    PlaceUnique(ks, key, i, Search(ks, key, 0, |ks|));
  }

  lemma {:induction false} PlaceUnique(ks: seq<Bytes>, key: Bytes, i: nat, r: SearchResult)
    requires SortedKeys(ks) && i <= |ks| && r.index <= |ks|
    requires i > 0 ==> Lt(ks[i - 1], key)
    requires i < |ks| ==> Lt(key, ks[i])
    requires r.found ==> r.index < |ks| && ks[r.index] == key
    requires forall j :: 0 <= j < r.index ==> Lt(ks[j], key)
    requires forall j :: r.index <= j < |ks| && ks[j] != key ==> Lt(key, ks[j])
    requires r.found <==> key in ks
    ensures r == SearchResult(false, i)
  {
    forall j | 0 <= j < |ks| ensures if j < i then Lt(ks[j], key) else Lt(key, ks[j]) {
      if j + 1 < i { Transitive(ks[j], ks[i - 1], key); }
      if j > i { Transitive(key, ks[i], ks[j]); }
    }
    forall j | 0 <= j < |ks| ensures ks[j] != key && !(Lt(ks[j], key) && Lt(key, ks[j])) {
      Trichotomy(ks[j], key);
    }
  }

  // The parent given the separator and the new leaf.
  function ParentGrown(pages: Pages, x: nat, i: nat, key: Bytes, right: nat): Pages
    requires x in pages && pages[x].InnerNode? && i <= |pages[x].entries|
  {
    var n := pages[x];
    pages[x :=
      n.(freeStart := n.freeStart + ENTRY_HEADER + |key|, entries :=
      n.entries[..i] + [Entry(key, right)] + n.entries[i..])]
  }

  lemma {:induction false} GrownInode(pages: Pages, x: nat, i: nat, key: Bytes, right: nat)
    requires x in pages && pages[x].InnerNode? && i <= |pages[x].entries|
    ensures Inodes(ParentGrown(pages, x, i, key, right))[x] == Grow(Inodes(pages)[x], i, key, right)
  {
    var es := pages[x].entries;
    var es' := es[..i] + [Entry(key, right)] + es[i..];
    assert EntryKeys(es') == EntryKeys(es)[..i] + [key] + EntryKeys(es)[i..];
    GrownChildren(pages[x].leftmost, es, i, key, right);
  }

  lemma {:induction false} ParentWasGrown(pages: Pages, lv: seq<seq<PSlot>>, root: nat, p: nat, q: nat, i: nat)
    requires Shape(pages, lv, root, 0, p) && 1 < |lv| && q < |lv[1]|
    requires lv[1][q].id in pages && pages[lv[1][q].id].InnerNode? && i <= |pages[lv[1][q].id].entries|
    requires pages[lv[0][p].id].parent == lv[1][q].id
    requires Covers(Inodes(pages), lv[1]) && Offset(Inodes(pages), lv[1], q) + i == p
    ensures Shape(ParentGrown(pages, lv[1][q].id, i, lv[0][p].hi.key, lv[0][p + 1].id), lv, root, NONE, 0)
  {
    var x, right := lv[1][q].id, lv[0][p + 1].id;
    var m := Inodes(pages);
    var n := pages[x];
    var pages' := ParentGrown(pages, x, i, lv[0][p].hi.key, right);
    assert Inner(pages', lv);
    KeepsAll(pages, pages', lv, 1, q);
    GrownInode(pages, x, i, lv[0][p].hi.key, right);
    assert Linked(m, lv, 0, p, 1);
    GrowSettles(m, Inodes(pages'), lv, root, 0, p, q, i);
    LeavesKept(pages, pages', lv[0]);
    GrownParented(pages, lv, x, i, lv[0][p].hi.key, right);
  }

  lemma {:induction false} GrownChildren(leftmost: nat, es: seq<Entry>, i: nat, key: Bytes, right: nat)
    requires i <= |es|
    ensures Children(leftmost, es[..i] + [Entry(key, right)] + es[i..]) ==
      Children(leftmost, es)[..i + 1] + [right] + Children(leftmost, es)[i + 1..]
  {
    var es' := es[..i] + [Entry(key, right)] + es[i..];
    var a, b := Children(leftmost, es'), Children(leftmost, es)[..i + 1] + [right] + Children(leftmost, es)[i + 1..];
    forall j | 0 <= j < |a| ensures a[j] == b[j] {
      if j > 0 {
        assert a[j] == es'[j - 1].child;
      }
    }
  }

  lemma {:induction false} GrownParented(pages: Pages, lv: seq<seq<PSlot>>, x: nat, i: nat, key: Bytes, right: nat)
    requires Parented(pages, lv) && x in pages && pages[x].InnerNode? && i <= |pages[x].entries|
    requires right in pages && pages[right].parent == x
    ensures Parented(ParentGrown(pages, x, i, key, right), lv)
  {
    var pages' := ParentGrown(pages, x, i, key, right);
    GrownChildren(pages[x].leftmost, pages[x].entries, i, key, right);
    forall e, q, j | 1 <= e < |lv| && 0 <= q < |lv[e]| && lv[e][q].id in pages' && pages'[lv[e][q].id].InnerNode?
      && 0 <= j <= |pages'[lv[e][q].id].entries|
      ensures ParentOf(pages', Children(pages'[lv[e][q].id].leftmost, pages'[lv[e][q].id].entries)[j], lv[e][q].id)
    {
      var z := lv[e][q].id;
      var j' := if z == x && j > i then j - 1 else j;
      var kid := Children(pages[z].leftmost, pages[z].entries)[j'];
      assert ParentOf(pages, kid, z);
    }
  }

  lemma {:induction false} LeavesKept(pages: Pages, pages': Pages, slots: seq<PSlot>)
    requires LeavesOk(pages, slots) && Chained(pages, slots)
    requires forall q :: 0 <= q < |slots| ==> (
      slots[q].id in pages' && pages'[slots[q].id].LeafNode? && pages'[slots[q].id].page == pages[slots[q].id].page
      && pages'[slots[q].id].next == pages[slots[q].id].next && pages'[slots[q].id].prev == pages[slots[q].id].prev)
    ensures LeavesOk(pages', slots) && Chained(pages', slots)
  {
    forall q | 0 <= q < |slots| ensures LeafOk(pages'[slots[q].id], slots[q]) && NextOk(pages', slots, q) {
      assert LeafOk(pages[slots[q].id], slots[q]) && NextOk(pages, slots, q);
    }
  }

  // A new root over two leaves.
  function RootAdded(pages: Pages, left: nat, key: Bytes, right: nat, top: nat): Pages {
    var a := pages[top := InnerNode(0, HEADER_SIZE + ENTRY_HEADER + |key|, left, [Entry(key, right)])];
    SetParent(SetParent(a, left, top), right, top)
  }

  function SetParent(pages: Pages, id: nat, up: nat): Pages {
    if id in pages then pages[id := pages[id].(parent := up)] else pages
  }

  lemma {:induction false} RootWasAdded(pages: Pages, lv: seq<seq<PSlot>>, root: nat, root': nat)
    requires Shape(pages, lv, root, 0, 0) && |lv| == 1 && root' !in pages && 2 <= root' < PAGE_LIMIT
    ensures |lv[0]| == 2 && lv[0][0].id == root
    ensures Shape(RootAdded(pages, root, lv[0][0].hi.key, lv[0][1].id, root'), lv + [[Slot(root', Bot, Top)]], root',
      NONE, 0)
  {
    var f := Fold(lv[0], 0);
    assert Seen(lv, 0, 0, 0) == f;
    assert f[0].id == lv[0][0].id && |f| == |lv[0]| - 1;
    var key, right := lv[0][0].hi.key, lv[0][1].id;
    var pages' := RootAdded(pages, root, key, right, root');
    var top := [Slot(root', Bot, Top)];
    var lv': seq<seq<PSlot>> := lv + [top];
    assert LeafOk(pages[root], lv[0][0]) && LeafOk(pages[right], lv[0][1]);
    assert Inodes(pages')[root'] == Inode([key], [root, right]) by {
      assert EntryKeys([Entry(key, right)]) == [key];
      assert Children(root, [Entry(key, right)]) == [root, right];
    }
    RootSettles(Inodes(pages), Inodes(pages'), lv, root, root');
    DistinctRoot(lv, root');
    LeavesKept(pages, pages', lv'[0]);
    RootParented(pages, pages', lv, root, key, right, root');
    RootListed(pages, pages', lv, root');
  }

  lemma {:induction false} RootParented(pages: Pages, pages': Pages, lv: seq<seq<PSlot>>, root: nat, key: Bytes,
                                        right: nat, root': nat)
    requires |lv| == 1 && pages' == RootAdded(pages, root, key, right, root')
    requires root in pages && right in pages && root' !in pages
    ensures Parented(pages', lv + [[Slot(root', Bot, Top)]])
  {
    var top := [Slot(root', Bot, Top)];
    var lv': seq<seq<PSlot>> := lv + [top];
    forall e, q, j | 1 <= e < |lv'| && 0 <= q < |lv'[e]| && lv'[e][q].id in pages' && pages'[lv'[e][q].id].InnerNode?
      && 0 <= j <= |pages'[lv'[e][q].id].entries|
      ensures ParentOf(pages', Children(pages'[lv'[e][q].id].leftmost, pages'[lv'[e][q].id].entries)[j], lv'[e][q].id)
    {
      assert lv'[e] == top;
      assert pages'[root'].entries == [Entry(key, right)];
    }
  }

  lemma {:induction false} RootListed(pages: Pages, pages': Pages, lv: seq<seq<PSlot>>, root': nat)
    requires AllListed(pages, lv) && pages'.Keys == pages.Keys + {root'}
    ensures AllListed(pages', lv + [[Slot(root', Bot, Top)]])
  {
    var lv': seq<seq<PSlot>> := lv + [[Slot(root', Bot, Top)]];
    forall id | id in pages' ensures Listed(lv', id) {
      if id == root' {
        assert lv'[|lv|][0].id == id;
      } else {
        assert Listed(lv, id);
        var e, q :| 0 <= e < |lv| && 0 <= q < |lv[e]| && lv[e][q].id == id;
        assert lv'[e][q].id == id;
      }
    }
  }

  // merge_leaf_pages and remove_from_internal: the right leaf's records move into the left one,
  // the right page is freed, and the parent forgets it.
  function MergedLeaves(pages: Pages, x: nat, y: nat): Pages
    requires x in pages && y in pages && pages[x].LeafNode? && pages[y].LeafNode?
  {
    var l, r := pages[x], pages[y];
    SetPrev(pages, r.next, x)[x := LeafNode(l.parent, l.prev, r.next, Compact(l.page.recs + r.page.recs))] - {y}
  }

  function ParentShrunk(pages: Pages, x: nat, i: nat): Pages
    requires x in pages && pages[x].InnerNode? && i < |pages[x].entries|
  {
    var n := pages[x];
    pages[x := n.(entries := n.entries[..i] + n.entries[i + 1..])]
  }

  lemma {:induction false} ShrunkChildren(leftmost: nat, es: seq<Entry>, i: nat)
    requires i < |es|
    ensures Children(leftmost, es[..i] + es[i + 1..]) ==
      Children(leftmost, es)[..i + 1] + Children(leftmost, es)[i + 2..]
    ensures EntryKeys(es[..i] + es[i + 1..]) == EntryKeys(es)[..i] + EntryKeys(es)[i + 1..]
  {
    var es' := es[..i] + es[i + 1..];
    var a, b := Children(leftmost, es'), Children(leftmost, es)[..i + 1] + Children(leftmost, es)[i + 2..];
    assert |a| == |b|;
    forall j | 0 <= j < |a| ensures a[j] == b[j] {
      if j > 0 {
        assert a[j] == es'[j - 1].child;
      }
    }
    ShrunkKeys(es, i);
  }

  lemma {:induction false} ShrunkKeys(es: seq<Entry>, i: nat)
    requires i < |es|
    ensures EntryKeys(es[..i] + es[i + 1..]) == EntryKeys(es)[..i] + EntryKeys(es)[i + 1..]
  {
    var es' := es[..i] + es[i + 1..];
    var a, b := EntryKeys(es'), EntryKeys(es)[..i] + EntryKeys(es)[i + 1..];
    assert |a| == |b|;
    forall j | 0 <= j < |a| ensures a[j] == b[j] {
      assert es'[j] == es[if j < i then j else j + 1];
    }
  }

  // Neighbouring children of one node are neighbouring slots, sharing the separator between them.
  lemma {:induction false} Siblings(pages: Pages, lv: seq<seq<PSlot>>, root: nat, q: nat, i: nat)
    requires Shape(pages, lv, root, NONE, 0) && 1 < |lv| && q < |lv[1]|
    requires lv[1][q].id in pages && pages[lv[1][q].id].InnerNode? && i < |pages[lv[1][q].id].entries|
    requires Covers(Inodes(pages), lv[1])
    ensures Offset(Inodes(pages), lv[1], q) + i + 1 < |lv[0]|
    ensures lv[0][Offset(Inodes(pages), lv[1], q) + i].id ==
      Children(pages[lv[1][q].id].leftmost, pages[lv[1][q].id].entries)[i]
    ensures lv[0][Offset(Inodes(pages), lv[1], q) + i + 1].id == pages[lv[1][q].id].entries[i].child
    ensures lv[0][Offset(Inodes(pages), lv[1], q) + i].hi == Bound.Key(pages[lv[1][q].id].entries[i].key)
    ensures lv[0][Offset(Inodes(pages), lv[1], q) + i + 1].lo == Bound.Key(pages[lv[1][q].id].entries[i].key)
  {
    assert Linked(Inodes(pages), lv, NONE, 0, 1);
    SiblingSlots(Inodes(pages), lv[1], lv[0], q, i);
  }

  lemma {:induction false} SiblingSlots(m: map<nat, Inode<nat, Bytes>>, up: seq<PSlot>, low: seq<PSlot>, q: nat, i: nat)
    requires Covers(m, up) && Flat(m, up) == low && q < |up| && i < |m[up[q].id].keys|
    ensures Offset(m, up, q) + i + 1 < |low|
    ensures low[Offset(m, up, q) + i].id == m[up[q].id].kids[i]
      && low[Offset(m, up, q) + i + 1].id == m[up[q].id].kids[i + 1]
    ensures low[Offset(m, up, q) + i].hi == low[Offset(m, up, q) + i + 1].lo == Bound.Key(m[up[q].id].keys[i])
  {
    ChildSlot(m, up, q, i);
    ChildSlot(m, up, q, i + 1);
  }

  // Slots p and p + 1 are children i and i + 1 of node q.
  ghost predicate MergeAt(pages: Pages, lv: seq<seq<PSlot>>, q: nat, i: nat, p: nat) {
    && 1 < |lv| && q < |lv[1]| && p + 1 < |lv[0]|
    && lv[1][q].id in pages && pages[lv[1][q].id].InnerNode? && i < |pages[lv[1][q].id].entries|
    && Covers(Inodes(pages), lv[1]) && p == Offset(Inodes(pages), lv[1], q) + i
    && lv[0][p].id in pages && pages[lv[0][p].id].LeafNode?
    && lv[0][p + 1].id in pages && pages[lv[0][p + 1].id].LeafNode?
    && lv[0][p].hi == lv[0][p + 1].lo == Bound.Key(pages[lv[1][q].id].entries[i].key)
  }

  ghost predicate UnchangedAt(pages: Pages, pages': Pages, id: nat) {
    id in pages && id in pages' && pages'[id] == pages[id] && pages[id].InnerNode?
  }

  ghost predicate UppersKept(pages: Pages, pages1: Pages, lv: seq<seq<PSlot>>) {
    forall e, r :: 1 <= e < |lv| && 0 <= r < |lv[e]| ==> UnchangedAt(pages, pages1, lv[e][r].id)
  }

  // A merge of two leaves touches no internal node, and no records but theirs.
  lemma {:induction false} MergeFrame(pages: Pages, lv: seq<seq<PSlot>>, root: nat, q: nat, i: nat, p: nat)
    returns (pages1: Pages)
    requires Shape(pages, lv, root, NONE, 0) && MergeAt(pages, lv, q, i, p)
    ensures pages1 == MergedLeaves(pages, lv[0][p].id, lv[0][p + 1].id)
    ensures pages1.Keys == pages.Keys - {lv[0][p + 1].id}
    ensures UppersKept(pages, pages1, lv) && UnchangedAt(pages, pages1, lv[1][q].id)
  {
    pages1 := MergedLeaves(pages, lv[0][p].id, lv[0][p + 1].id);
    forall e, r | 1 <= e < |lv| && 0 <= r < |lv[e]| ensures UnchangedAt(pages, pages1, lv[e][r].id) {
      InTree(pages, lv, root, NONE, 0, e, r);
    }
    assert UnchangedAt(pages, pages1, lv[1][q].id);
  }

  lemma {:induction false} LeavesWereMerged(pages: Pages, lv: seq<seq<PSlot>>, root: nat, q: nat, i: nat, p: nat)
    returns (pages': Pages)
    requires Shape(pages, lv, root, NONE, 0) && MergeAt(pages, lv, q, i, p)
    ensures UnchangedAt(pages, MergedLeaves(pages, lv[0][p].id, lv[0][p + 1].id), lv[1][q].id)
    ensures pages' == ParentShrunk(MergedLeaves(pages, lv[0][p].id, lv[0][p + 1].id), lv[1][q].id, i)
    ensures Shape(pages', lv[0 := Fold(lv[0], p)], root, NONE, 0)
  {
    var pages1 := MergeFrame(pages, lv, root, q, i, p);
    pages' := ParentShrunk(pages1, lv[1][q].id, i);
    MergedShape(pages, lv, root, q, i, p, pages1);
  }

  lemma {:induction false} MergedShape(pages: Pages, lv: seq<seq<PSlot>>, root: nat, q: nat, i: nat, p: nat,
                                       pages1: Pages)
    requires Shape(pages, lv, root, NONE, 0) && MergeAt(pages, lv, q, i, p)
    requires pages1 == MergedLeaves(pages, lv[0][p].id, lv[0][p + 1].id)
    requires pages1.Keys == pages.Keys - {lv[0][p + 1].id}
    requires UppersKept(pages, pages1, lv) && UnchangedAt(pages, pages1, lv[1][q].id)
    ensures Shape(ParentShrunk(pages1, lv[1][q].id, i), lv[0 := Fold(lv[0], p)], root, NONE, 0)
  {
    MergedTower(pages, lv, root, q, i, p, pages1);
    MergedParented(pages, lv, root, q, i, p, pages1);
    MergedLeafLevel(pages, lv, root, q, i, p, pages1);
  }

  lemma {:induction false} MergedTower(pages: Pages, lv: seq<seq<PSlot>>, root: nat, q: nat, i: nat, p: nat,
                                       pages1: Pages)
    requires Shape(pages, lv, root, NONE, 0) && MergeAt(pages, lv, q, i, p)
    requires UppersKept(pages, pages1, lv) && UnchangedAt(pages, pages1, lv[1][q].id)
    requires pages1.Keys == pages.Keys - {lv[0][p + 1].id}
    ensures Tower(Inodes(ParentShrunk(pages1, lv[1][q].id, i)), lv[0 := Fold(lv[0], p)], root, NONE, 0)
    ensures Inner(ParentShrunk(pages1, lv[1][q].id, i), lv[0 := Fold(lv[0], p)])
    ensures root in ParentShrunk(pages1, lv[1][q].id, i) && ParentShrunk(pages1, lv[1][q].id, i)[root].parent == 0
  {
    var up := lv[1][q].id;
    var pages' := ParentShrunk(pages1, up, i);
    var m := Inodes(pages);
    forall e, r | 1 <= e < |lv| && 0 <= r < |lv[e]|
      ensures lv[e][r].id in pages' && pages'[lv[e][r].id].InnerNode?
        && pages'[lv[e][r].id].parent == pages[lv[e][r].id].parent
      ensures lv[e][r].id != up ==> pages'[lv[e][r].id] == pages[lv[e][r].id]
    {
      assert UnchangedAt(pages, pages1, lv[e][r].id);
    }
    KeepsAll(pages, pages', lv, 1, q);
    ShrunkChildren(pages[up].leftmost, pages[up].entries, i);
    assert Inodes(pages')[up] == Shrink(m[up], i);
    assert Linked(m, lv, NONE, 0, 1);
    ShrinkSettles(m, Inodes(pages'), lv, root, p, q, i);
    AloneAtTop(pages, lv, root);
    assert lv[|lv| - 1][0].id == root;
  }

  lemma {:induction false} MergedLeafLevel(pages: Pages, lv: seq<seq<PSlot>>, root: nat, q: nat, i: nat, p: nat,
                                           pages1: Pages)
    requires Shape(pages, lv, root, NONE, 0) && MergeAt(pages, lv, q, i, p)
    requires pages1 == MergedLeaves(pages, lv[0][p].id, lv[0][p + 1].id)
    requires UnchangedAt(pages, pages1, lv[1][q].id) && pages1.Keys == pages.Keys - {lv[0][p + 1].id}
    ensures Within(lv[0 := Fold(lv[0], p)], pages1.Keys) && Distinct(lv[0 := Fold(lv[0], p)])
    ensures Ordered(Fold(lv[0], p)) && Strict(Fold(lv[0], p))
    ensures LeavesOk(ParentShrunk(pages1, lv[1][q].id, i), Fold(lv[0], p))
    ensures Chained(ParentShrunk(pages1, lv[1][q].id, i), Fold(lv[0], p))
    ensures AllListed(ParentShrunk(pages1, lv[1][q].id, i), lv[0 := Fold(lv[0], p)])
  {
    var f, pages' := Fold(lv[0], p), ParentShrunk(pages1, lv[1][q].id, i);
    DistinctFold(lv, 0, p);
    FoldStrict(lv[0], p);
    FoldOrdered(lv[0], p);
    MergedListed(pages, pages', lv, p);
    var lv': seq<seq<PSlot>> := lv[0 := f];
    assert Within(lv', pages1.Keys) by {
      forall e, r | 0 <= e < |lv'| && 0 <= r < |lv'[e]| ensures lv'[e][r].id in pages1 {
        if e == 0 {
          FoldedId(lv[0], p, r);
        } else {
          InTree(pages, lv, root, NONE, 0, e, r);
          InTree(pages, lv, root, NONE, 0, 0, p + 1);
        }
      }
    }
    MergedRow(pages, lv, root, q, i, p, pages1);
  }

  lemma {:induction false} FoldedId(slots: seq<PSlot>, p: nat, r: nat)
    requires p + 1 < |slots| && r < |slots| - 1
    ensures Fold(slots, p)[r].id == slots[if r <= p then r else r + 1].id
  {
  }

  lemma {:induction false} MergedRow(pages: Pages, lv: seq<seq<PSlot>>, root: nat, q: nat, i: nat, p: nat,
                                     pages1: Pages)
    requires Shape(pages, lv, root, NONE, 0) && MergeAt(pages, lv, q, i, p)
    requires pages1 == MergedLeaves(pages, lv[0][p].id, lv[0][p + 1].id)
    requires UnchangedAt(pages, pages1, lv[1][q].id) && pages1.Keys == pages.Keys - {lv[0][p + 1].id}
    ensures LeavesOk(ParentShrunk(pages1, lv[1][q].id, i), Fold(lv[0], p))
    ensures Chained(ParentShrunk(pages1, lv[1][q].id, i), Fold(lv[0], p))
  {
    var pages' := ParentShrunk(pages1, lv[1][q].id, i);
    forall r | 0 <= r < |lv[0]| && r != p + 1 ensures MergedLeafAs(pages, pages', lv[0], p, r) {
      InTree(pages, lv, root, NONE, 0, 0, r);
    }
    MergedLeavesOk(pages, pages', lv[0], p);
    MergedChained(pages, pages', lv[0], p);
  }

  lemma {:induction false} MergedLeavesOk(pages: Pages, pages': Pages, slots: seq<PSlot>, p: nat)
    requires LeavesOk(pages, slots) && Strict(slots) && p + 1 < |slots| && slots[p].hi == slots[p + 1].lo
      && slots[p].hi.Key?
    requires forall i, j :: 0 <= i < j < |slots| ==> slots[i].id != slots[j].id
    requires pages'.Keys == pages.Keys - {slots[p + 1].id}
    requires forall r :: 0 <= r < |slots| && r != p + 1 ==> MergedLeafAs(pages, pages', slots, p, r)
    ensures LeavesOk(pages', Fold(slots, p))
  {
    var f := Fold(slots, p);
    var L, R := pages[slots[p].id].page.recs, pages[slots[p + 1].id].page.recs;
    assert LeafOk(pages[slots[p].id], slots[p]) && LeafOk(pages[slots[p + 1].id], slots[p + 1]);
    JoinSorted(L, R, slots[p], slots[p + 1]);
    forall r | 0 <= r < |f| ensures f[r].id in pages' && LeafOk(pages'[f[r].id], f[r]) {
      var o := if r <= p then r else r + 1;
      assert f[r].id == slots[o].id;
      assert MergedLeafAs(pages, pages', slots, p, o);
      assert LeafOk(pages[slots[o].id], slots[o]);
    }
  }

  // What a merge leaves in the leaf at slot r.
  ghost predicate MergedLeafAs(pages: Pages, pages': Pages, slots: seq<PSlot>, p: nat, r: nat)
    requires p + 1 < |slots| && r < |slots|
    requires slots[p].id in pages && slots[p + 1].id in pages && pages[slots[p].id].LeafNode?
      && pages[slots[p + 1].id].LeafNode?
  {
    && slots[r].id in pages' && pages'[slots[r].id].LeafNode?
    && (if r == p then pages'[slots[r].id].page.recs == pages[slots[p].id].page.recs + pages[slots[p + 1].id].page.recs
        else slots[r].id in pages && pages[slots[r].id].LeafNode?
             && pages'[slots[r].id].page == pages[slots[r].id].page)
  }

  lemma {:induction false} JoinSorted(L: seq<Rec>, R: seq<Rec>, a: PSlot, b: PSlot)
    requires SortedRecs(L) && SortedRecs(R) && a.hi == b.lo && a.hi.Key? && Less(a.lo, a.hi) && Less(b.lo, b.hi)
    requires forall i :: 0 <= i < |L| ==> AtLeast(L[i].key, a.lo) && Before(L[i].key, a.hi)
    requires forall i :: 0 <= i < |R| ==> AtLeast(R[i].key, b.lo) && Before(R[i].key, b.hi)
    ensures SortedRecs(L + R)
    ensures forall i :: 0 <= i < |L + R| ==> AtLeast((L + R)[i].key, a.lo) && Before((L + R)[i].key, b.hi)
  {
    var s, k := L + R, a.hi.key;
    forall i, j | 0 <= i < |L| && 0 <= j < |R| ensures Lt(L[i].key, R[j].key) {
      LtLe(L[i].key, k, R[j].key);
    }
    forall i | 0 <= i < |s| ensures AtLeast(s[i].key, a.lo) && Before(s[i].key, b.hi) {
      if i < |L| {
        if b.hi.Key? { Transitive(L[i].key, k, b.hi.key); }
      } else if a.lo.Key? {
        var r := R[i - |L|].key;
        LtLe(a.lo.key, k, r);
        Trichotomy(a.lo.key, r);
      }
    }
  }

  lemma {:induction false} MergedChained(pages: Pages, pages': Pages, slots: seq<PSlot>, p: nat)
    requires Chained(pages, slots) && p + 1 < |slots|
    requires slots[p].id in pages && slots[p + 1].id in pages && pages[slots[p].id].LeafNode?
      && pages[slots[p + 1].id].LeafNode?
    requires forall r :: 0 <= r < |slots| ==> slots[r].id in pages && slots[r].id != 0
    requires forall i, j :: 0 <= i < j < |slots| ==> slots[i].id != slots[j].id
    requires forall r :: 0 <= r < |slots| && r != p + 1 ==>
      slots[r].id in pages' && pages'[slots[r].id] == MergedLeaves(pages, slots[p].id, slots[p + 1].id)[slots[r].id]
    ensures Chained(pages', Fold(slots, p))
  {
    var f := Fold(slots, p);
    assert NextOk(pages, slots, p) && NextOk(pages, slots, p + 1);
    forall r | 0 <= r < |f| ensures NextOk(pages', f, r) {
      var o := if r <= p then r else r + 1;
      assert f[r].id == slots[o].id;
      assert NextOk(pages, slots, o);
      if r + 1 < |f| {
        assert f[r + 1].id == slots[if r + 1 <= p then r + 1 else r + 2].id;
      }
    }
  }

  lemma {:induction false} MergedParented(pages: Pages, lv: seq<seq<PSlot>>, root: nat, q: nat, i: nat, p: nat,
                                          pages1: Pages)
    requires Shape(pages, lv, root, NONE, 0) && MergeAt(pages, lv, q, i, p)
    requires pages1 == MergedLeaves(pages, lv[0][p].id, lv[0][p + 1].id)
    requires UppersKept(pages, pages1, lv) && UnchangedAt(pages, pages1, lv[1][q].id)
    ensures Parented(ParentShrunk(pages1, lv[1][q].id, i), lv[0 := Fold(lv[0], p)])
  {
    forall e, r, j | 1 <= e < |lv| && 0 <= r < |lv[e]| && lv[e][r].id in pages && pages[lv[e][r].id].InnerNode?
      && 0 <= j <= |pages[lv[e][r].id].entries| && !(lv[e][r].id == lv[1][q].id && j == i + 1)
      ensures ParentOf(pages1, Children(pages[lv[e][r].id].leftmost, pages[lv[e][r].id].entries)[j], lv[e][r].id)
    {
      MergedChild(pages, lv, root, q, i, p, pages1, e, r, j);
    }
    ShrunkParented(pages, pages1, lv, lv[0 := Fold(lv[0], p)], lv[1][q].id, i);
  }

  // Parent fields are right for all children except child i + 1 of node up.
  ghost predicate ParentedBut(pages: Pages, pages1: Pages, lv: seq<seq<PSlot>>, up: nat, i: nat) {
    forall e, r, j :: 1 <= e < |lv| && 0 <= r < |lv[e]| && lv[e][r].id in pages && pages[lv[e][r].id].InnerNode?
                      && 0 <= j <= |pages[lv[e][r].id].entries| && !(lv[e][r].id == up && j == i + 1) ==>
      ParentOf(pages1, Children(pages[lv[e][r].id].leftmost, pages[lv[e][r].id].entries)[j], lv[e][r].id)
  }

  lemma {:induction false} ShrunkParented(pages: Pages, pages1: Pages, lv: seq<seq<PSlot>>, lv': seq<seq<PSlot>>,
                                          up: nat, i: nat)
    requires ParentedBut(pages, pages1, lv, up, i) && UppersKept(pages, pages1, lv)
    requires UnchangedAt(pages, pages1, up) && i < |pages[up].entries|
    requires |lv'| == |lv| && forall e :: 1 <= e < |lv| ==> lv'[e] == lv[e]
    ensures Parented(ParentShrunk(pages1, up, i), lv')
  {
    var pages' := ParentShrunk(pages1, up, i);
    var es := pages[up].entries;
    ShrunkChildren(pages[up].leftmost, es, i);
    forall e, r, j | 1 <= e < |lv'| && 0 <= r < |lv'[e]| && lv'[e][r].id in pages' && pages'[lv'[e][r].id].InnerNode?
      && 0 <= j <= |pages'[lv'[e][r].id].entries|
      ensures ParentOf(pages', Children(pages'[lv'[e][r].id].leftmost, pages'[lv'[e][r].id].entries)[j], lv'[e][r].id)
    {
      var z := lv[e][r].id;
      assert UnchangedAt(pages, pages1, z);
      var j' := if z == up && j > i then j + 1 else j;
      assert ParentOf(pages1, Children(pages[z].leftmost, pages[z].entries)[j'], z);
    }
  }

  // Every child but the one merged away still has its parent.
  lemma {:induction false} MergedChild(pages: Pages, lv: seq<seq<PSlot>>, root: nat, q: nat, i: nat, p: nat,
                                       pages1: Pages, e: nat, r: nat, j: nat)
    requires Shape(pages, lv, root, NONE, 0) && MergeAt(pages, lv, q, i, p)
    requires pages1 == MergedLeaves(pages, lv[0][p].id, lv[0][p + 1].id)
    requires 1 <= e < |lv| && r < |lv[e]| && lv[e][r].id in pages && pages[lv[e][r].id].InnerNode?
      && j <= |pages[lv[e][r].id].entries|
    requires !(lv[e][r].id == lv[1][q].id && j == i + 1)
    ensures ParentOf(pages1, Children(pages[lv[e][r].id].leftmost, pages[lv[e][r].id].entries)[j], lv[e][r].id)
  {
    assert ParentOf(pages, Children(pages[lv[e][r].id].leftmost, pages[lv[e][r].id].entries)[j], lv[e][r].id);
    ChildIs(pages, lv, root, e, r, j);
    var t := Offset(Inodes(pages), lv[e], r) + j;
    if e == 1 && t == p + 1 {
      SamePlace(pages, lv, root, q, i + 1, r, j);
    }
  }

  // Child j of node r is the slot the level below has for it.
  lemma {:induction false} ChildIs(pages: Pages, lv: seq<seq<PSlot>>, root: nat, e: nat, r: nat, j: nat)
    requires Shape(pages, lv, root, NONE, 0) && 1 <= e < |lv| && r < |lv[e]|
    requires lv[e][r].id in pages && pages[lv[e][r].id].InnerNode? && j <= |pages[lv[e][r].id].entries|
    ensures Covers(Inodes(pages), lv[e]) && Offset(Inodes(pages), lv[e], r) + j < |lv[e - 1]|
    ensures lv[e - 1][Offset(Inodes(pages), lv[e], r) + j].id ==
      Children(pages[lv[e][r].id].leftmost, pages[lv[e][r].id].entries)[j]
  {
    assert Linked(Inodes(pages), lv, NONE, 0, e);
    ListedChild(pages, lv[e], lv[e - 1], r, j);
  }

  lemma {:induction false} ListedChild(pages: Pages, up: seq<PSlot>, low: seq<PSlot>, q: nat, i: nat)
    requires Covers(Inodes(pages), up) && Flat(Inodes(pages), up) == low
    requires q < |up| && up[q].id in pages && pages[up[q].id].InnerNode? && i <= |pages[up[q].id].entries|
    ensures Offset(Inodes(pages), up, q) + i < |low|
    ensures low[Offset(Inodes(pages), up, q) + i].id == Children(pages[up[q].id].leftmost, pages[up[q].id].entries)[i]
  {
    ChildSlot(Inodes(pages), up, q, i);
  }

  lemma {:induction false} ChildParent(pages: Pages, lv: seq<seq<PSlot>>, root: nat, q: nat, i: nat)
    requires Shape(pages, lv, root, NONE, 0) && 1 < |lv| && q < |lv[1]| && Covers(Inodes(pages), lv[1])
    requires lv[1][q].id in pages && pages[lv[1][q].id].InnerNode? && i <= |pages[lv[1][q].id].entries|
    ensures Offset(Inodes(pages), lv[1], q) + i < |lv[0]|
    ensures ParentOf(pages, lv[0][Offset(Inodes(pages), lv[1], q) + i].id, lv[1][q].id)
  {
    ChildIs(pages, lv, root, 1, q, i);
    assert ParentOf(pages, Children(pages[lv[1][q].id].leftmost, pages[lv[1][q].id].entries)[i], lv[1][q].id);
  }

  // No leaf is a child twice.
  lemma {:induction false} SamePlace(pages: Pages, lv: seq<seq<PSlot>>, root: nat, q: nat, i: nat, r: nat, j: nat)
    requires Shape(pages, lv, root, NONE, 0) && 1 < |lv| && q < |lv[1]| && r < |lv[1]| && Covers(Inodes(pages), lv[1])
    requires lv[1][q].id in pages && pages[lv[1][q].id].InnerNode? && i <= |pages[lv[1][q].id].entries|
    requires lv[1][r].id in pages && pages[lv[1][r].id].InnerNode? && j <= |pages[lv[1][r].id].entries|
    requires Offset(Inodes(pages), lv[1], q) + i == Offset(Inodes(pages), lv[1], r) + j
    ensures r == q && j == i
  {
    ChildParent(pages, lv, root, q, i);
    ChildParent(pages, lv, root, r, j);
    assert lv[1][q].id == lv[1][r].id;
  }

  lemma {:induction false} MergedListed(pages: Pages, pages': Pages, lv: seq<seq<PSlot>>, p: nat)
    requires AllListed(pages, lv) && 1 <= |lv| && p + 1 < |lv[0]| && pages'.Keys == pages.Keys - {lv[0][p + 1].id}
    ensures AllListed(pages', lv[0 := Fold(lv[0], p)])
  {
    var f := Fold(lv[0], p);
    var lv': seq<seq<PSlot>> := lv[0 := f];
    forall id | id in pages' ensures Listed(lv', id) {
      assert Listed(lv, id);
      var e, q :| 0 <= e < |lv| && 0 <= q < |lv[e]| && lv[e][q].id == id;
      if e == 0 && q > p {
        assert f[q - 1].id == lv[0][q].id;
        assert lv'[0][q - 1].id == id;
      } else {
        assert e == 0 ==> f[q].id == lv[0][q].id;
        assert lv'[e][q].id == id;
      }
    }
  }
}
