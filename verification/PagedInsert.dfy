// When an insertion can be carried out, what it stores then, and what it loses otherwise.
module PagedInsert {
  import opened Levels
  import opened Towers
  import opened Keys
  import opened PageView
  import opened PagedShape
  import opened PagedSteps
  import opened PagedEdits
  import opened PagedOps
  import opened PagedOverflow
  import opened Bitmap

  // The pages of the tree and those that were leaked are marked in the bitmap, and nothing else is.
  ghost predicate Conserved(pages: Pages, used: set<nat>, leaked: set<nat>) {
    forall id: nat :: FIRST_FREE <= id < PAGE_IDS ==>
      (id in used <==> id in pages || id in leaked) && !(id in pages && id in leaked)
  }

  // No page lies outside the bitmap, but for one stored under the failed allocation's id.
  ghost predicate IdsTaken(pages: Pages, used: set<nat>) {
    forall id :: id in pages ==> id == 2 || id in used || id == INVALID_PAGE_ID
  }

  // The bitmap has a page for a split, and another for a new root if it is the root that is split.
  ghost predicate IdsFree(pages: Pages, used: set<nat>, id: nat)
    requires id in pages
  {
    NextId(used) != INVALID_PAGE_ID && (pages[id].parent == 0 ==> NextId(Taken(used)) != INVALID_PAGE_ID)
  }

  predicate ParentRoom(pages: Pages, parent: nat, separator: Bytes) {
    parent == 0 || (parent in pages && pages[parent].InnerNode?
      && CanInsert(pages[parent].freeStart, |pages[parent].entries|, ENTRY_HEADER + |separator|))
  }

  // What an insertion that has to split needs: free pages, two records to divide, a separator the code can hold,
  // a half that takes the new record, and a parent with room.
  ghost predicate AcceptsSplit(pages: Pages, used: set<nat>, id: nat, key: Bytes, val: Bytes)
    requires id in pages && pages[id].LeafNode?
  {
    var recs := pages[id].page.recs;
    && IdsFree(pages, used, id)
    && |recs| >= 2
    && |recs[SplitIndex(|recs|)].key| <= MAX_SEPARATOR
    && Takes(ChosenHalf(recs, key), key, val)
    && ParentRoom(pages, pages[id].parent, recs[SplitIndex(|recs|)].key)
  }

  // When btree_insert can store a key that is not there yet.
  ghost predicate Accepts(pages: Pages, root: nat, used: set<nat>, key: Bytes, val: Bytes) {
    if root == 0 then NextId(used) != INVALID_PAGE_ID && Takes(Content([], HEADER_SIZE), key, val)
    else match FindLeaf(pages, root, key, 0)
      case None => false
      case Some(id) => Takes(pages[id].page, key, val) || AcceptsSplit(pages, used, id, key, val)
  }

  // When btree_insert answers true for a key that is not there yet.
  ghost predicate Attempts(pages: Pages, root: nat, used: set<nat>, key: Bytes, val: Bytes) {
    if root == 0 then NextId(used) != INVALID_PAGE_ID
    else match FindLeaf(pages, root, key, 0)
      case None => false
      case Some(id) =>
        || CanInsert(pages[id].page.freeStart, |pages[id].page.recs|, RecordSize(|key|, |val|))
        || (SplitsInTwo(pages, id) && PageInsert(ChosenHalf(pages[id].page.recs, key), key, val).ok)
  }

  // The root is where it was, or on a page that was laid out for it and that the pool can keep.
  ghost predicate RootOk(root: nat, after: Pages, root': nat) {
    root' != INVALID_PAGE_ID && (root' == root || root == 0 || (root' in after && after[root'].InnerNode?))
  }

  // A root on a page that was still in memory and was not laid out: it is read as the leaf it has been.
  ghost predicate Spoilt(before: Pages, after: Pages, root': nat) {
    root' in after && after[root'].LeafNode? && (root' !in before || root' == INVALID_PAGE_ID)
  }

  // The leaf of the key, where it is split, can be divided in two.
  predicate Divides(pages: Pages, root: nat, key: Bytes) {
    root != 0 && match FindLeaf(pages, root, key, 0)
      case None => false
      case Some(id) => SplitsInTwo(pages, id)
  }

  // Whether an insertion of an absent key answers true, whether it then did what it is for, and what is left if not.
  ghost predicate InsertTold(before: Pages, root: nat, used: set<nat>, key: Bytes, val: Bytes, after: Pages, root': nat,
                             ok: bool) {
    && (ok <==> Attempts(before, root, used, key, val))
    && (Accepts(before, root, used, key, val) <==>
      ok && Refines(before, root, after, root', key, val) && RootOk(root, after, root'))
    && (!ok ==> forall k :: Lookup(after, root', k) == if CutOff(before, root, key, k)
                            then None else Lookup(before, root, k))
  }

  // What allocate_page took for a split that then failed; nothing for an empty leaf.
  ghost function Wasted(pages: Pages, used: set<nat>, id: nat): set<nat>
    requires id in pages && pages[id].LeafNode?
  {
    if pages[id].page.recs == [] then {} else Taken(used) - used
  }

  ghost function WastedFor(pages: Pages, root: nat, used: set<nat>, key: Bytes): set<nat> {
    if root == 0 then {}
    else match FindLeaf(pages, root, key, 0)
      case None => {}
      case Some(id) => Wasted(pages, used, id)
  }

  lemma {:induction false} SameKeysConserved(a: Pages, b: Pages, used: set<nat>, leaked: set<nat>)
    requires Conserved(a, used, leaked) && b.Keys == a.Keys
    ensures Conserved(b, used, leaked)
  {
  }

  lemma {:induction false} WastedConserved(pages: Pages, used: set<nat>, id: nat, leaked: set<nat>)
    requires Conserved(pages, used, leaked) && id in pages && pages[id].LeafNode?
    ensures Conserved(pages, if pages[id].page.recs == [] then used else Taken(used), leaked + Wasted(pages, used, id))
  {
  }

  // The key belongs to the upper half of the leaf.
  predicate InUpperHalf(pages: Pages, id: nat, k: Bytes)
    requires id in pages && pages[id].LeafNode?
  {
    SplitsInTwo(pages, id) && exists i ::
      SplitIndex(|pages[id].page.recs|) <= i < |pages[id].page.recs| && pages[id].page.recs[i].key == k
  }

  // It is in the half that a split for `key` puts on a page of its own.
  predicate CutOff(pages: Pages, root: nat, key: Bytes, k: Bytes) {
    root != 0 && match FindLeaf(pages, root, key, 0)
      case None => false
      case Some(id) => InUpperHalf(pages, id, k)
  }

  // A page that the ranked nodes do not include and that is really there.
  ghost predicate Outside(pages: Pages, rank: map<nat, nat>, z: nat) {
    z in pages && z !in rank && 0 < z < MAX_CHILD_ID
  }

  predicate SplitsInTwo(pages: Pages, id: nat)
    requires id in pages && pages[id].LeafNode?
  {
    |pages[id].page.recs| >= 2 && |SeparatorOf(pages, id)| <= MAX_SEPARATOR
  }

  function SeparatorOf(pages: Pages, id: nat): Bytes
    requires id in pages && pages[id].LeafNode? && |pages[id].page.recs| >= 2
  {
    pages[id].page.recs[SplitIndex(|pages[id].page.recs|)].key
  }

  // The parent of `left` is an internal page without the separator, and has room for it or not.
  predicate ParentReady(pages: Pages, left: nat, key: Bytes)
    requires left in pages
  {
    var parent := pages[left].parent;
    parent != 0 && parent != INVALID_PAGE_ID && parent in pages && pages[parent].InnerNode?
      && !Search(EntryKeys(pages[parent].entries), key, 0, |pages[parent].entries|).found
  }

  predicate HasRoom(pages: Pages, left: nat, key: Bytes)
    requires left in pages
  {
    ParentReady(pages, left, key)
      && CanInsert(pages[pages[left].parent].freeStart, |pages[pages[left].parent].entries|,
        (ENTRY_HEADER + |key|) % U16)
  }

  predicate Overflows(pages: Pages, left: nat, key: Bytes)
    requires left in pages
  {
    ParentReady(pages, left, key) && !HasRoom(pages, left, key)
  }

  function ParentInserted(pages: Pages, left: nat, key: Bytes, right: nat): Pages
    requires left in pages && ParentReady(pages, left, key)
  {
    var parent := pages[left].parent;
    var i := Search(EntryKeys(pages[parent].entries), key, 0, |pages[parent].entries|).index;
    ParentGrown(if i == 0 then pages[parent := pages[parent].(leftmost := left)] else pages, parent, i, key, right)
  }

  lemma {:induction false} NewIdFree(pages: Pages, used: set<nat>)
    requires IdsTaken(pages, used) && forall u :: u in used ==> u < PAGE_IDS
    ensures NextId(used) !in pages || NextId(used) == INVALID_PAGE_ID
    ensures NextId(used) >= FIRST_FREE
  {
  }

  lemma {:induction false} RankedFrom(pages: Pages, rank: map<nat, nat>, d: nat, d': nat, top: nat)
    requires Ranked(pages, rank, d, top) && d <= d'
    ensures Ranked(pages, rank, d', top)
  {
  }

  // A split leaf, with the new record in the half it belongs to, before the parent is told.
  lemma {:induction false} HalfTakes(pages: Pages, lv: seq<seq<PSlot>>, root: nat, p: nat, y: nat, key: Bytes,
                                     val: Bytes)
    returns (lv1: seq<seq<PSlot>>, pages2: Pages)
    requires Shape(pages, lv, root, NONE, 0) && LeavesFit(pages, lv[0]) && NoEmptyLeaf(pages, lv[0]) && p < |lv[0]|
    requires lv[0][p].id in pages && pages[lv[0][p].id].LeafNode? && |pages[lv[0][p].id].page.recs| >= 2
    requires y !in pages && 2 <= y < PAGE_LIMIT
    requires AtLeast(key, lv[0][p].lo) && Before(key, lv[0][p].hi) && |key| > 0
      && !Find(pages[lv[0][p].id].page.recs, key).found
    requires Takes(ChosenHalf(pages[lv[0][p].id].page.recs, key), key, val)
    ensures |lv1| == |lv| && lv1 == lv[0 := lv1[0]] && p + 1 < |lv1[0]| && lv1[0][p].id == lv[0][p].id
      && lv1[0][p + 1].id == y
    ensures lv1[0][p].hi == Bound.Key(SeparatorOf(pages, lv[0][p].id))
    ensures pages2 == HalfFilled(pages, lv[0][p].id, y, key, val)
    ensures Shape(pages2, lv1, root, 0, p) && LeavesFit(pages2, lv1[0]) && NoEmptyLeaf(pages2, lv1[0])
    ensures ToMap(Records(pages2, lv1[0])) == ToMap(Records(pages, lv[0]))[key := val]
  {
    var x := lv[0][p].id;
    var recs := pages[x].page.recs;
    var pages1;
    lv1, pages1 := SplitStep(pages, lv, root, p, y);
    var h := if Lt(key, SeparatorOf(pages, x)) then p else p + 1;
    assert pages1[lv1[0][h].id].page == ChosenHalf(recs, key);
    assert LeafOk(pages[x], lv[0][p]);
    HalfLacksKey(recs, key);
    assert lv1[0][h].id in pages1 && pages1[lv1[0][h].id].LeafNode?;
    pages2 := LeafTakes(pages1, lv1, root, 0, p, h, key, val);
  }

  lemma {:induction false} HalfReady(pages: Pages, lv: seq<seq<PSlot>>, root: nat, p: nat, key: Bytes, val: Bytes)
    requires TreeOk(pages, root, lv) && root != 0 && p < |lv[0]| && lv[0][p].id in pages && pages[lv[0][p].id].LeafNode?
    requires |pages[lv[0][p].id].page.recs| >= 2 && !Find(pages[lv[0][p].id].page.recs, key).found
    ensures !Find(ChosenHalf(pages[lv[0][p].id].page.recs, key).recs, key).found
    ensures Takes(ChosenHalf(pages[lv[0][p].id].page.recs, key), key, val) <==>
      PageInsert(ChosenHalf(pages[lv[0][p].id].page.recs, key), key, val).ok && |val| > 0
  {
    assert LeafOk(pages[lv[0][p].id], lv[0][p]);
    HalfLacksKey(pages[lv[0][p].id].page.recs, key);
    TakesIsOk(ChosenHalf(pages[lv[0][p].id].page.recs, key), key, val);
  }

  // The pages after the split and the insertion into one half.
  function HalfFilled(pages: Pages, x: nat, y: nat, key: Bytes, val: Bytes): Pages
    requires x in pages && pages[x].LeafNode? && |pages[x].page.recs| >= 2
  {
    var pages1 := LeafSplit(pages, x, y, SplitIndex(|pages[x].page.recs|));
    var half := if Lt(key, SeparatorOf(pages, x)) then x else y;
    pages1[half := pages1[half].(page := PageInsert(pages1[half].page, key, val).page)]
  }

  lemma {:induction false} HalfLacksKey(recs: seq<Rec>, key: Bytes)
    requires SortedRecs(recs) && !Find(recs, key).found && |recs| >= 2
    ensures !Find(ChosenHalf(recs, key).recs, key).found
  {
    var s := SplitIndex(|recs|);
    FindSorted(recs, key);
    assert SortedRecs(recs[..s]) && SortedRecs(recs[s..]);
    FindSorted(recs[..s], key);
    FindSorted(recs[s..], key);
  }

  // Telling a parent with room: the separator is new to it, and the tree is whole again.
  lemma {:induction false} ParentSettles(pages: Pages, lv: seq<seq<PSlot>>, root: nat, p: nat)
    requires Shape(pages, lv, root, 0, p) && 1 < |lv| && LeavesFit(pages, lv[0]) && NoEmptyLeaf(pages, lv[0])
    ensures lv[0][p].id in pages && lv[0][p].hi.Key? && ParentReady(pages, lv[0][p].id, lv[0][p].hi.key)
    ensures Shape(ParentInserted(pages, lv[0][p].id, lv[0][p].hi.key, lv[0][p + 1].id), lv, root, NONE, 0)
    ensures LeavesFit(ParentInserted(pages, lv[0][p].id, lv[0][p].hi.key, lv[0][p + 1].id), lv[0])
    ensures NoEmptyLeaf(ParentInserted(pages, lv[0][p].id, lv[0][p].hi.key, lv[0][p + 1].id), lv[0])
    ensures Records(ParentInserted(pages, lv[0][p].id, lv[0][p].hi.key, lv[0][p + 1].id), lv[0]) ==
      Records(pages, lv[0])
    ensures ParentInserted(pages, lv[0][p].id, lv[0][p].hi.key, lv[0][p + 1].id).Keys == pages.Keys
  {
    var left, key, right := lv[0][p].id, lv[0][p].hi.key, lv[0][p + 1].id;
    var q, i := FindParent(pages, lv, root, 0, p, p);
    SeparatorPlace(pages, lv, root, p, q, i);
    InTree(pages, lv, root, 0, p, 1, q);
    var x := lv[1][q].id;
    var n := pages[x];
    if i == 0 {
      assert n.leftmost == Children(n.leftmost, n.entries)[0] == left;
      assert pages[x := n.(leftmost := left)] == pages;
    }
    var pages' := ParentInserted(pages, left, key, right);
    assert pages' == ParentGrown(pages, x, i, key, right);
    ParentWasGrown(pages, lv, root, p, q, i);
    forall r | 0 <= r < |lv[0]|
      ensures lv[0][r].id in pages' && pages'[lv[0][r].id].LeafNode?
      && pages'[lv[0][r].id].page == pages[lv[0][r].id].page {
      InTree(pages, lv, root, 0, p, 0, r);
    }
    LeavesCarried(pages, pages', lv[0]);
  }

  // The root leaf was split: a new root over the halves.
  lemma {:induction false} RootSettled(pages: Pages, lv: seq<seq<PSlot>>, root: nat, p: nat, top: nat)
    returns (lv': seq<seq<PSlot>>)
    requires Shape(pages, lv, root, 0, p) && |lv| == 1 && LeavesFit(pages, lv[0]) && NoEmptyLeaf(pages, lv[0])
    requires top !in pages && 2 <= top < PAGE_LIMIT
    ensures p == 0 && |lv[0]| == 2 && lv[0][0].id == root && lv[0][0].hi.Key?
    ensures |lv'| == 2 && lv'[0] == lv[0]
    ensures Shape(RootAdded(pages, root, lv[0][0].hi.key, lv[0][1].id, top), lv', top, NONE, 0)
    ensures LeavesFit(RootAdded(pages, root, lv[0][0].hi.key, lv[0][1].id, top), lv'[0])
    ensures NoEmptyLeaf(RootAdded(pages, root, lv[0][0].hi.key, lv[0][1].id, top), lv'[0])
    ensures Records(RootAdded(pages, root, lv[0][0].hi.key, lv[0][1].id, top), lv'[0]) == Records(pages, lv[0])
    ensures RootAdded(pages, root, lv[0][0].hi.key, lv[0][1].id, top).Keys == pages.Keys + {top}
  {
    var f := Fold(lv[0], p);
    assert Seen(lv, 0, p, 0) == f;
    assert |f| == |lv[0]| - 1;
    RootWasAdded(pages, lv, root, top);
    lv' := lv + [[Slot(top, Bot, Top)]];
    var pages' := RootAdded(pages, root, lv[0][0].hi.key, lv[0][1].id, top);
    forall r | 0 <= r < |lv[0]|
      ensures lv[0][r].id in pages' && pages'[lv[0][r].id].LeafNode?
      && pages'[lv[0][r].id].page == pages[lv[0][r].id].page {
      InTree(pages, lv, root, 0, p, 0, r);
    }
    LeavesCarried(pages, pages', lv[0]);
  }

  // A leaf's parent field says whether it is the root.
  lemma {:induction false} LoneLeaf(pages: Pages, lv: seq<seq<PSlot>>, root: nat, p: nat)
    requires Shape(pages, lv, root, NONE, 0) && p < |lv[0]|
    ensures lv[0][p].id in pages && (pages[lv[0][p].id].parent == 0 <==> |lv| == 1)
    ensures |lv| == 1 ==> |lv[0]| == 1 && lv[0][0].id == root
    ensures |lv| > 1 ==> pages[lv[0][p].id].parent in pages && pages[pages[lv[0][p].id].parent].InnerNode?
  {
    AloneAtTop(pages, lv, root);
    if |lv| > 1 {
      var q, i := FindParent(pages, lv, root, NONE, 0, p);
      InTree(pages, lv, root, NONE, 0, 1, q);
    }
  }

  // The pending half of a split is nobody's child.
  lemma {:induction false} PendingNotKid(pages: Pages, lv: seq<seq<PSlot>>, root: nat, p: nat)
    requires Shape(pages, lv, root, 0, p)
    ensures NotKid(pages, lv[0][p + 1].id)
  {
    var m, y := Inodes(pages), lv[0][p + 1].id;
    forall id, i | id in pages && pages[id].InnerNode? && 0 <= i <= |pages[id].entries|
      ensures Children(pages[id].leftmost, pages[id].entries)[i] != y
    {
      assert Listed(lv, id);
      var e, q :| 0 <= e < |lv| && 0 <= q < |lv[e]| && lv[e][q].id == id;
      InTree(pages, lv, root, 0, p, e, q);
      PendingChild(pages, lv, root, p, e, q, i);
    }
  }

  lemma {:induction false} PendingChild(pages: Pages, lv: seq<seq<PSlot>>, root: nat, p: nat, e: nat, q: nat, i: nat)
    requires Shape(pages, lv, root, 0, p) && 1 <= e < |lv| && q < |lv[e]| && lv[e][q].id in pages
    requires pages[lv[e][q].id].InnerNode? && i <= |pages[lv[e][q].id].entries|
    ensures Children(pages[lv[e][q].id].leftmost, pages[lv[e][q].id].entries)[i] != lv[0][p + 1].id
  {
    assert Linked(Inodes(pages), lv, 0, p, e);
    if e == 1 {
      assert Seen(lv, 0, p, 0) == Fold(lv[0], p);
      NotInFold(pages, lv[1], lv[0], q, i, p);
    } else {
      ListedChild(pages, lv[e], lv[e - 1], q, i);
    }
  }

  lemma {:induction false} NotInFold(pages: Pages, up: seq<PSlot>, low: seq<PSlot>, q: nat, i: nat, p: nat)
    requires p + 1 < |low| && Covers(Inodes(pages), up) && Flat(Inodes(pages), up) == Fold(low, p)
    requires forall a, b :: 0 <= a < b < |low| ==> low[a].id != low[b].id
    requires q < |up| && up[q].id in pages && pages[up[q].id].InnerNode? && i <= |pages[up[q].id].entries|
    ensures Children(pages[up[q].id].leftmost, pages[up[q].id].entries)[i] != low[p + 1].id
  {
    ListedChild(pages, up, Fold(low, p), q, i);
    FoldSkips(low, p, Offset(Inodes(pages), up, q) + i);
  }

  lemma {:induction false} FoldSkips(low: seq<PSlot>, p: nat, t: nat)
    requires p + 1 < |low| && t < |Fold(low, p)|
    requires forall a, b :: 0 <= a < b < |low| ==> low[a].id != low[b].id
    ensures Fold(low, p)[t].id != low[p + 1].id
  {
    var u := if t <= p then t else t + 1;
    assert Fold(low, p)[t].id == low[u].id;
    if u < p + 1 {
      assert low[u].id != low[p + 1].id;
    }
  }

  // Only the pending half holds the separator.
  lemma {:induction false} SeparatorOnlyThere(pages: Pages, lv: seq<seq<PSlot>>, root: nat, p: nat, id: nat)
    requires Shape(pages, lv, root, 0, p) && id in pages && pages[id].LeafNode? && id != lv[0][p + 1].id
    requires Less(lv[0][p + 1].lo, lv[0][p + 1].hi)
    ensures !Find(pages[id].page.recs, lv[0][p].hi.key).found
  {
    var key := lv[0][p].hi.key;
    assert Listed(lv, id);
    var e, q :| 0 <= e < |lv| && 0 <= q < |lv[e]| && lv[e][q].id == id;
    InTree(pages, lv, root, 0, p, e, q);
    assert LeafOk(pages[id], lv[0][q]);
    var r := Find(pages[id].page.recs, key);
    if r.found {
      Irreflexive(key);
      SameLeaf(lv[0], p + 1, q, key);
    }
  }

  // When the parent overflows, the separator, stored until now, is no longer found.
  lemma {:induction false} OverflowLoses(pages: Pages, lv: seq<seq<PSlot>>, root: nat, p: nat, after: Pages, root': nat)
    requires Shape(pages, lv, root, 0, p) && LeavesFrom(pages, after) && NotKid(after, lv[0][p + 1].id)
    requires root' == root || root' !in pages || root' == INVALID_PAGE_ID
    ensures lv[0][p].hi.Key? && Lookup(after, root', lv[0][p].hi.key) == None
  {
    var y := lv[0][p + 1].id;
    InTree(pages, lv, root, 0, p, 0, p + 1);
    assert Strict(lv[0]);
    forall id | id in pages && id != y && pages[id].LeafNode?
      ensures !Find(pages[id].page.recs, lv[0][p].hi.key).found {
      SeparatorOnlyThere(pages, lv, root, p, id);
    }
    if root' == y {
      RootNotPending(pages, lv, root, p);
    }
    Unreachable(pages, after, root', y, lv[0][p].hi.key);
  }

  lemma {:induction false} RootNotPending(pages: Pages, lv: seq<seq<PSlot>>, root: nat, p: nat)
    requires Shape(pages, lv, root, 0, p)
    ensures root != lv[0][p + 1].id
  {
    var top := |lv| - 1;
    var s := Seen(lv, 0, p, top);
    assert s[0] == Slot(root, Bot, Top);
    if top == 0 {
      assert |s| == |lv[0]| - 1 && s[0].id == lv[0][if p == 0 then p else 0].id;
    }
  }

  // The separator of a split is a stored key, and not the one being inserted.
  lemma {:induction false} SeparatorStored(pages: Pages, lv: seq<seq<PSlot>>, root: nat, p: nat, key: Bytes)
    requires TreeOk(pages, root, lv) && root != 0 && p < |lv[0]| && lv[0][p].id in pages && pages[lv[0][p].id].LeafNode?
    requires |pages[lv[0][p].id].page.recs| >= 2 && !Find(pages[lv[0][p].id].page.recs, key).found
    ensures Lookup(pages, root, SeparatorOf(pages, lv[0][p].id)).Some? && SeparatorOf(pages, lv[0][p].id) != key
  {
    var recs := pages[lv[0][p].id].page.recs;
    var s := SplitIndex(|recs|);
    assert LeafOk(pages[lv[0][p].id], lv[0][p]);
    FindSorted(recs, recs[s].key);
    FindSorted(recs, key);
    LookupIn(pages, lv[0], p, recs[s].key);
    LookupStored(pages, root, lv, recs[s].key);
  }

  // A search never answers with an empty value.
  lemma {:induction false} EmptyValueLost(before: Pages, root: nat, after: Pages, root': nat, key: Bytes)
    ensures !Refines(before, root, after, root', key, [])
  {
    assert Lookup(after, root', key) != Some([]);
  }

  lemma {:induction false} SeparatorLost(before: Pages, root: nat, after: Pages, root': nat, key: Bytes, val: Bytes,
                                         sep: Bytes)
    requires Lookup(before, root, sep).Some? && sep != key && Lookup(after, root', sep) == None
    ensures !Refines(before, root, after, root', key, val)
  {
  }

  // A leaf split and an insertion into a half leave ranks as they are.
  lemma {:induction false} RanksCarried(before: Pages, rank: map<nat, nat>, top: nat, x: nat, y: nat, key: Bytes,
                                        val: Bytes)
    requires Ranked(before, rank, 0, top) && rank.Keys == before.Keys
    requires x in before && before[x].LeafNode? && |before[x].page.recs| >= 2 && y !in before
    ensures Ranked(HalfFilled(before, x, y, key, val), rank, 0, top)
    ensures HalfFilled(before, x, y, key, val).Keys == before.Keys + {y}
    ensures HalfFilled(before, x, y, key, val)[x].parent == before[x].parent
    ensures before[x].parent in before && before[before[x].parent].InnerNode? ==>
      HalfFilled(before, x, y, key, val)[before[x].parent] == before[before[x].parent]
  {
    HalfLinks(before, x, y, key, val);
    var pages := HalfFilled(before, x, y, key, val);
    RankFrame(before, pages, rank, top);
    assert SameLinks(before, pages, x);
  }

  lemma {:induction false} SplitLinks(before: Pages, x: nat, y: nat, s: nat)
    requires x in before && before[x].LeafNode? && s <= |before[x].page.recs| && y !in before
    ensures LeafSplit(before, x, y, s).Keys == before.Keys + {y}
    ensures forall id :: id in before ==> SameLinks(before, LeafSplit(before, x, y, s), id)
  {
  }

  lemma {:induction false} HalfLinks(before: Pages, x: nat, y: nat, key: Bytes, val: Bytes)
    requires x in before && before[x].LeafNode? && |before[x].page.recs| >= 2 && y !in before
    ensures HalfFilled(before, x, y, key, val).Keys == before.Keys + {y}
    ensures forall id :: id in before ==> SameLinks(before, HalfFilled(before, x, y, key, val), id)
  {
    SplitLinks(before, x, y, SplitIndex(|before[x].page.recs|));
  }

  ghost predicate SameLinks(a: Pages, b: Pages, id: nat) {
    id in a && id in b && b[id].parent == a[id].parent && (a[id].InnerNode? ==> b[id] == a[id])
      && (a[id].LeafNode? ==> b[id].LeafNode?)
  }

  lemma {:induction false} RankFrame(a: Pages, b: Pages, rank: map<nat, nat>, top: nat)
    requires Ranked(a, rank, 0, top) && forall id :: id in rank ==> SameLinks(a, b, id)
    ensures Ranked(b, rank, 0, top)
  {
    forall id | id in rank && rank[id] >= 0 ensures ParentAbove(b, rank, id) {
      assert SameLinks(a, b, id) && ParentAbove(a, rank, id);
    }
    forall id, i | id in rank && rank[id] > 0 && b[id].InnerNode? && 0 <= i <= |b[id].entries|
      ensures ChildBelow(rank, Children(b[id].leftmost, b[id].entries)[i], id)
    {
      assert SameLinks(a, b, id);
      assert ChildBelow(rank, Children(a[id].leftmost, a[id].entries)[i], id);
    }
  }

  // What any climb towards the root keeps: leaves and their records, and who is nobody's child.
  ghost predicate Climbed(before: Pages, root: nat, rank: map<nat, nat>, right: nat, after: Pages, root': nat,
                          used': set<nat>) {
    && IdsTaken(after, used') && LeavesFrom(before, after)
    && (root' == root || root' !in before || root' == INVALID_PAGE_ID)
    && forall z :: Outside(before, rank, z) && z != right && NotKid(before, z) ==> NotKid(after, z)
  }

  // insert_into_parent: exactly what it does at a root, in a parent with room, and what it never does in a full one.
  ghost predicate ParentTold(before: Pages, root: nat, used: set<nat>, left: nat, key: Bytes, right: nat,
                             rank: map<nat, nat>, after: Pages, root': nat, used': set<nat>)
    requires left in before
  {
    && Climbed(before, root, rank, right, after, root', used')
    && (before[left].parent == 0 ==>
      after == RootAdded(before, left, key, right, NextId(used)) && root' == NextId(used) && used' == Taken(used))
    && (HasRoom(before, left, key) ==>
      after == ParentInserted(before, left, key, right) && root' == root && used' == used)
    && (Overflows(before, left, key) ==> Climbed(before, root, rank, 0, after, root', used'))
  }

  lemma {:induction false} ClimbedOn(a: Pages, root: nat, rank: map<nat, nat>, b: Pages, y: nat, c: Pages, root': nat,
                                     used': set<nat>)
    requires LeavesFrom(a, b) && (forall z :: NotKid(a, z) ==> NotKid(b, z)) && a.Keys <= b.Keys
    requires Climbed(b, root, rank, y, c, root', used') && (y !in a || y >= MAX_CHILD_ID || y == 0)
    ensures Climbed(a, root, rank, 0, c, root', used')
  {
    forall z | Outside(a, rank, z) && NotKid(a, z) ensures NotKid(c, z) {
      assert Outside(b, rank, z);
    }
  }

  // Where an insertion with a split ends, from what telling the parent did.
  lemma {:induction false} SplitOutcome(before: Pages, lv: seq<seq<PSlot>>, root: nat, p: nat, y: nat, key: Bytes,
                                        val: Bytes,
                                        rank: map<nat, nat>, used: set<nat>, after: Pages, root': nat, used': set<nat>,
                                          leaked: set<nat>) returns (lv': seq<seq<PSlot>>)
    requires TreeOk(before, root, lv) && root != 0 && p < |lv[0]| && lv[0][p].id in before
      && before[lv[0][p].id].LeafNode?
    requires SplitsInTwo(before, lv[0][p].id) && y !in before && FIRST_FREE <= y < PAGE_IDS && rank.Keys == before.Keys
    requires AtLeast(key, lv[0][p].lo) && Before(key, lv[0][p].hi) && |key| > 0
      && !Find(before[lv[0][p].id].page.recs, key).found
    requires Takes(ChosenHalf(before[lv[0][p].id].page.recs, key), key, val)
    requires Conserved(HalfFilled(before, lv[0][p].id, y, key, val), used, leaked)
    requires ParentTold(HalfFilled(before, lv[0][p].id, y, key, val), root, used, lv[0][p].id,
      SeparatorOf(before, lv[0][p].id), y, rank, after, root', used')
    ensures ParentRoom(before, before[lv[0][p].id].parent, SeparatorOf(before, lv[0][p].id))
             && (before[lv[0][p].id].parent == 0 ==> NextId(used) != INVALID_PAGE_ID) ==>
      root' != 0 && TreeOk(after, root', lv') && |lv'| > 1
        && StoredMap(after, root', lv') == StoredMap(before, root, lv)[key := val] && Conserved(after, used', leaked)
    ensures !ParentRoom(before, before[lv[0][p].id].parent, SeparatorOf(before, lv[0][p].id)) ==>
      !Refines(before, root, after, root', key, val)
    ensures before[lv[0][p].id].parent == 0 && NextId(used) == INVALID_PAGE_ID ==> root' == INVALID_PAGE_ID
  {
    LoneLeaf(before, lv, root, p);
    SameParent(before, lv[0][p].id, y, key, val);
    if |lv| == 1 && NextId(used) == INVALID_PAGE_ID {
      lv' := lv;
    } else if |lv| == 1 {
      lv' := RootOutcome(before, lv, root, p, y, key, val, used, after, root', used', leaked);
    } else {
      lv' := lv;
      RoomIsRoom(before, lv, root, p, y, key, val);
      if ParentRoom(before, before[lv[0][p].id].parent, SeparatorOf(before, lv[0][p].id)) {
        lv' := RoomOutcome(before, lv, root, p, y, key, val, used, after, leaked);
      } else {
        SplitLoses(before, lv, root, p, y, key, val, rank, after, root', used');
      }
    }
  }

  lemma {:induction false} RootOutcome(before: Pages, lv: seq<seq<PSlot>>, root: nat, p: nat, y: nat, key: Bytes,
                                       val: Bytes,
                                       used: set<nat>, after: Pages, root': nat, used': set<nat>,
                                         leaked: set<nat>) returns (lv': seq<seq<PSlot>>)
    requires TreeOk(before, root, lv) && root != 0 && |lv| == 1 && p < |lv[0]| && lv[0][p].id in before
      && before[lv[0][p].id].LeafNode?
    requires SplitsInTwo(before, lv[0][p].id) && y !in before && FIRST_FREE <= y < PAGE_IDS
    requires AtLeast(key, lv[0][p].lo) && Before(key, lv[0][p].hi) && |key| > 0
      && !Find(before[lv[0][p].id].page.recs, key).found
    requires Takes(ChosenHalf(before[lv[0][p].id].page.recs, key), key, val)
    requires Conserved(HalfFilled(before, lv[0][p].id, y, key, val), used, leaked) && NextId(used) != INVALID_PAGE_ID
    requires after ==
      RootAdded(HalfFilled(before, lv[0][p].id, y, key, val), lv[0][p].id, SeparatorOf(before, lv[0][p].id), y,
      NextId(used))
    requires root' == NextId(used) && used' == Taken(used)
    ensures root' != 0 && TreeOk(after, root', lv') && |lv'| > 1
      && StoredMap(after, root', lv') == StoredMap(before, root, lv)[key := val] && Conserved(after, used', leaked)
  {
    var filled, lv1;
    lv1, filled := HalfTakes(before, lv, root, p, y, key, val);
    lv' := RootSettled(filled, lv1, root, p, NextId(used));
    FilledShort(before, lv[0][p].id, y, key, val);
    RootShort(filled, lv[0][p].id, SeparatorOf(before, lv[0][p].id), y, NextId(used));
  }

  lemma {:induction false} GrownShort(pages: Pages, left: nat, key: Bytes, right: nat)
    requires ShortSeparators(pages) && |key| <= MAX_SEPARATOR && left in pages && ParentReady(pages, left, key)
    ensures ShortSeparators(ParentInserted(pages, left, key, right))
  {
    var x := pages[left].parent;
    var es := pages[x].entries;
    var pages' := ParentInserted(pages, left, key, right);
    var i := Search(EntryKeys(es), key, 0, |es|).index;
    assert ShortNode(pages[x]);
    forall j | 0 <= j < |pages'[x].entries| ensures |pages'[x].entries[j].key| <= MAX_SEPARATOR {
      assert pages'[x].entries[j] == if j < i then es[j] else if j == i then Entry(key, right) else es[j - 1];
    }
    forall id | id in pages' ensures ShortNode(pages'[id]) {
      if id != x { assert ShortNode(pages[id]); }
    }
  }

  lemma {:induction false} FilledShort(before: Pages, x: nat, y: nat, key: Bytes, val: Bytes)
    requires ShortSeparators(before) && x in before && before[x].LeafNode? && |before[x].page.recs| >= 2 && y !in before
    ensures ShortSeparators(HalfFilled(before, x, y, key, val))
  {
    var pages := HalfFilled(before, x, y, key, val);
    forall id | id in pages ensures ShortNode(pages[id]) {
      if pages[id].InnerNode? { assert pages[id] == before[id] && ShortNode(before[id]); }
    }
  }

  lemma {:induction false} RootShort(pages: Pages, left: nat, key: Bytes, right: nat, top: nat)
    requires ShortSeparators(pages) && |key| <= MAX_SEPARATOR && top !in pages
    ensures ShortSeparators(RootAdded(pages, left, key, right, top))
  {
    var pages' := RootAdded(pages, left, key, right, top);
    forall id | id in pages' ensures ShortNode(pages'[id]) {
      if id != top { assert ShortNode(pages[id]); }
    }
  }

  // The parent is the same page before and after the split, and does not have the separator.
  lemma {:induction false} RoomIsRoom(before: Pages, lv: seq<seq<PSlot>>, root: nat, p: nat, y: nat, key: Bytes,
                                      val: Bytes)
    requires TreeOk(before, root, lv) && root != 0 && |lv| > 1 && p < |lv[0]| && lv[0][p].id in before
      && before[lv[0][p].id].LeafNode?
    requires SplitsInTwo(before, lv[0][p].id) && y !in before && FIRST_FREE <= y < PAGE_IDS
    requires AtLeast(key, lv[0][p].lo) && Before(key, lv[0][p].hi) && |key| > 0
      && !Find(before[lv[0][p].id].page.recs, key).found
    requires Takes(ChosenHalf(before[lv[0][p].id].page.recs, key), key, val)
    ensures ParentRoom(before, before[lv[0][p].id].parent, SeparatorOf(before, lv[0][p].id)) <==>
      HasRoom(HalfFilled(before, lv[0][p].id, y, key, val), lv[0][p].id, SeparatorOf(before, lv[0][p].id))
    ensures !ParentRoom(before, before[lv[0][p].id].parent, SeparatorOf(before, lv[0][p].id)) <==>
      Overflows(HalfFilled(before, lv[0][p].id, y, key, val), lv[0][p].id, SeparatorOf(before, lv[0][p].id))
  {
    LoneLeaf(before, lv, root, p);
    SameParentPage(before, lv[0][p].id, y, key, val);
    var lv1, filled := HalfTakes(before, lv, root, p, y, key, val);
    ParentSettles(filled, lv1, root, p);
    RoomEither(before, filled, lv[0][p].id, SeparatorOf(before, lv[0][p].id));
  }

  lemma {:induction false} RoomEither(before: Pages, filled: Pages, left: nat, sep: Bytes)
    requires left in before && left in filled && filled[left].parent == before[left].parent
    requires ParentReady(filled, left, sep) && |sep| <= MAX_SEPARATOR
    requires before[left].parent in before && filled[before[left].parent] == before[before[left].parent]
    ensures ParentRoom(before, before[left].parent, sep) <==> HasRoom(filled, left, sep)
    ensures !ParentRoom(before, before[left].parent, sep) <==> Overflows(filled, left, sep)
  {
  }

  lemma {:induction false} RoomOutcome(before: Pages, lv: seq<seq<PSlot>>, root: nat, p: nat, y: nat, key: Bytes,
                                       val: Bytes, used: set<nat>, after: Pages, leaked: set<nat>)
    returns (lv': seq<seq<PSlot>>)
    requires TreeOk(before, root, lv) && root != 0 && |lv| > 1 && p < |lv[0]| && lv[0][p].id in before
      && before[lv[0][p].id].LeafNode?
    requires SplitsInTwo(before, lv[0][p].id) && y !in before && FIRST_FREE <= y < PAGE_IDS
    requires AtLeast(key, lv[0][p].lo) && Before(key, lv[0][p].hi) && |key| > 0
      && !Find(before[lv[0][p].id].page.recs, key).found
    requires Takes(ChosenHalf(before[lv[0][p].id].page.recs, key), key, val)
    requires Conserved(HalfFilled(before, lv[0][p].id, y, key, val), used, leaked)
    requires HasRoom(HalfFilled(before, lv[0][p].id, y, key, val), lv[0][p].id, SeparatorOf(before, lv[0][p].id))
    requires after ==
      ParentInserted(HalfFilled(before, lv[0][p].id, y, key, val), lv[0][p].id, SeparatorOf(before, lv[0][p].id), y)
    ensures TreeOk(after, root, lv') && |lv'| > 1
      && StoredMap(after, root, lv') == StoredMap(before, root, lv)[key := val] && Conserved(after, used, leaked)
  {
    var filled;
    lv', filled := HalfTakes(before, lv, root, p, y, key, val);
    ParentSettles(filled, lv', root, p);
    FilledShort(before, lv[0][p].id, y, key, val);
    GrownShort(filled, lv[0][p].id, SeparatorOf(before, lv[0][p].id), y);
  }

  lemma {:induction false} SameParentPage(before: Pages, x: nat, y: nat, key: Bytes, val: Bytes)
    requires x in before && before[x].LeafNode? && |before[x].page.recs| >= 2 && y !in before
    requires before[x].parent in before && before[before[x].parent].InnerNode?
    ensures HalfFilled(before, x, y, key, val)[x].parent == before[x].parent
    ensures before[x].parent in HalfFilled(before, x, y, key, val)
    ensures HalfFilled(before, x, y, key, val)[before[x].parent] == before[before[x].parent]
  {
  }

  lemma {:induction false} SameParent(before: Pages, x: nat, y: nat, key: Bytes, val: Bytes)
    requires x in before && before[x].LeafNode? && |before[x].page.recs| >= 2 && y !in before
    ensures HalfFilled(before, x, y, key, val)[x].parent == before[x].parent
  {
  }

  lemma {:induction false} SplitLoses(before: Pages, lv: seq<seq<PSlot>>, root: nat, p: nat, y: nat, key: Bytes,
                                      val: Bytes,
                                      rank: map<nat, nat>, after: Pages, root': nat, used': set<nat>)
    requires TreeOk(before, root, lv) && root != 0 && |lv| > 1 && p < |lv[0]| && lv[0][p].id in before
      && before[lv[0][p].id].LeafNode?
    requires SplitsInTwo(before, lv[0][p].id) && y !in before && FIRST_FREE <= y < PAGE_IDS
    requires AtLeast(key, lv[0][p].lo) && Before(key, lv[0][p].hi) && |key| > 0
      && !Find(before[lv[0][p].id].page.recs, key).found
    requires Takes(ChosenHalf(before[lv[0][p].id].page.recs, key), key, val)
    requires rank.Keys == before.Keys
      && Climbed(HalfFilled(before, lv[0][p].id, y, key, val), root, rank, 0, after, root', used')
    ensures !Refines(before, root, after, root', key, val)
  {
    SeparatorStored(before, lv, root, p, key);
    var lv1, filled := HalfTakes(before, lv, root, p, y, key, val);
    PendingNotKid(filled, lv1, root, p);
    assert Outside(filled, rank, y);
    OverflowLoses(filled, lv1, root, p, after, root');
    SeparatorLost(before, root, after, root', key, val, SeparatorOf(before, lv[0][p].id));
  }

  // Which condition applies depends on the room test alone.
  lemma {:induction false} AcceptsAt(pages: Pages, root: nat, used: set<nat>, key: Bytes, val: Bytes, id: nat)
    requires root != 0 && FindLeaf(pages, root, key, 0) == Some(id)
    ensures CanInsert(pages[id].page.freeStart, |pages[id].page.recs|, RecordSize(|key|, |val|)) ==>
      (Accepts(pages, root, used, key, val) <==> Takes(pages[id].page, key, val))
    ensures !CanInsert(pages[id].page.freeStart, |pages[id].page.recs|, RecordSize(|key|, |val|)) ==>
      (Accepts(pages, root, used, key, val) <==> AcceptsSplit(pages, used, id, key, val))
  {
  }

  // An insertion that finds room in the leaf, or thinks it does.
  lemma {:induction false} NoSplitOutcome(pages: Pages, lv: seq<seq<PSlot>>, root: nat, p: nat, key: Bytes, val: Bytes)
    returns (pages': Pages)
    requires TreeOk(pages, root, lv) && root != 0 && |key| > 0 && p < |lv[0]| && AtLeast(key, lv[0][p].lo)
      && Before(key, lv[0][p].hi)
    requires lv[0][p].id in pages && pages[lv[0][p].id].LeafNode? && !Find(pages[lv[0][p].id].page.recs, key).found
    requires CanInsert(pages[lv[0][p].id].page.freeStart, |pages[lv[0][p].id].page.recs|, RecordSize(|key|, |val|))
    ensures pages' ==
      pages[lv[0][p].id := pages[lv[0][p].id].(page := PageInsert(pages[lv[0][p].id].page, key, val).page)]
    ensures Takes(pages[lv[0][p].id].page, key, val) ==>
      TreeOk(pages', root, lv) && StoredMap(pages', root, lv) == StoredMap(pages, root, lv)[key := val]
    ensures Takes(pages[lv[0][p].id].page, key, val) <==> Refines(pages, root, pages', root, key, val)
    ensures pages'.Keys == pages.Keys && RootOk(root, pages', root)
  {
    assert InRange(pages);
    var id: nat := lv[0][p].id;
    pages' := pages[id := pages[id].(page := PageInsert(pages[id].page, key, val).page)];
    if Takes(pages[id].page, key, val) {
      var _ := LeafTakes(pages, lv, root, NONE, 0, p, key, val);
      forall x | x in pages' ensures ShortNode(pages'[x]) {
        assert ShortNode(pages[x]);
      }
      RefinesMap(pages, root, lv, pages', root, lv, key, val);
    } else {
      NotTakenOutcome(pages, lv, root, p, key, val, pages');
    }
  }

  lemma {:induction false} NotTakenOutcome(pages: Pages, lv: seq<seq<PSlot>>, root: nat, p: nat, key: Bytes, val: Bytes,
                                           pages': Pages)
    requires TreeOk(pages, root, lv) && root != 0 && p < |lv[0]| && AtLeast(key, lv[0][p].lo)
      && Before(key, lv[0][p].hi)
    requires lv[0][p].id in pages && pages[lv[0][p].id].LeafNode? && !Find(pages[lv[0][p].id].page.recs, key).found
    requires CanInsert(pages[lv[0][p].id].page.freeStart, |pages[lv[0][p].id].page.recs|, RecordSize(|key|, |val|))
    requires pages' ==
      pages[lv[0][p].id := pages[lv[0][p].id].(page := PageInsert(pages[lv[0][p].id].page, key, val).page)]
    requires !Takes(pages[lv[0][p].id].page, key, val)
    ensures !Refines(pages, root, pages', root, key, val)
  {
    assert LeafOk(pages[lv[0][p].id], lv[0][p]);
    var q := RootFound(pages, lv, root, key);
    SameLeaf(lv[0], p, q, key);
    SameDescent(pages, pages', root, key, 0);
    NotTaken(pages[lv[0][p].id].page, key, val);
    assert Lookup(pages', root, key) != Some(val);
  }

  // What a split that came out well hands to the step that tells the parent.
  lemma {:induction false} SplitReady(pages: Pages, lv: seq<seq<PSlot>>, root: nat, used: set<nat>, p: nat, key: Bytes,
                                      val: Bytes, leaked: set<nat>)
    requires TreeOk(pages, root, lv) && root != 0 && Conserved(pages, used, leaked)
    requires p < |lv[0]| && lv[0][p].id in pages && pages[lv[0][p].id].LeafNode?
      && !Find(pages[lv[0][p].id].page.recs, key).found
    requires SplitsInTwo(pages, lv[0][p].id)
    ensures NextId(used) !in pages && FIRST_FREE <= NextId(used)
      && (NextId(used) != INVALID_PAGE_ID ==> NextId(used) < PAGE_IDS)
    ensures NextId(used) != INVALID_PAGE_ID ==>
      Conserved(HalfFilled(pages, lv[0][p].id, NextId(used), key, val), Taken(used), leaked)
    ensures IdsTaken(HalfFilled(pages, lv[0][p].id, NextId(used), key, val), Taken(used))
    ensures !Find(ChosenHalf(pages[lv[0][p].id].page.recs, key).recs, key).found
    ensures Takes(ChosenHalf(pages[lv[0][p].id].page.recs, key), key, val) <==>
      PageInsert(ChosenHalf(pages[lv[0][p].id].page.recs, key), key, val).ok && |val| > 0
  {
    var y := NextId(used);
    assert y !in pages by {
      assert InRange(pages);
    }
    HalfReady(pages, lv, root, p, key, val);
    var x: nat := lv[0][p].id;
    assert HalfFilled(pages, x, y, key, val).Keys == pages.Keys + {y};
  }

  // The ways insert_into_parent can go.
  lemma {:induction false} ToldAtRoot(pages: Pages, root: nat, used: set<nat>, left: nat, key: Bytes, right: nat,
                                      rank: map<nat, nat>)
    requires left in pages && IdsTaken(pages, used) && (forall u :: u in used ==> u < PAGE_IDS)
      && !ParentReady(pages, left, key) && left in rank
    ensures ParentTold(pages, root, used, left, key, right, rank, RootAdded(pages, left, key, right, NextId(used)),
      NextId(used), Taken(used))
  {
    NewIdFree(pages, used);
    RootAddedFrame(pages, left, key, right, NextId(used));
  }

  lemma {:induction false} ToldWithRoom(pages: Pages, root: nat, used: set<nat>, left: nat, key: Bytes, right: nat,
                                        rank: map<nat, nat>, top: nat)
    requires left in rank && Ranked(pages, rank, rank[left], top) && IdsTaken(pages, used) && HasRoom(pages, left, key)
    ensures ParentTold(pages, root, used, left, key, right, rank, ParentInserted(pages, left, key, right), root, used)
  {
    var x := pages[left].parent;
    assert ParentAbove(pages, rank, left);
    var i := Search(EntryKeys(pages[x].entries), key, 0, |pages[x].entries|).index;
    var marked := if i == 0 then pages[x := pages[x].(leftmost := left)] else pages;
    if i == 0 {
      LeftmostRanked(pages, rank, rank[left], top, x, left);
    }
    GrownFrame(marked, x, i, key, right);
  }

  // In a full parent: the leftmost child may be set, then only the split goes on upwards.
  lemma {:induction false} ToldOverflow(pages: Pages, root: nat, used: set<nat>, left: nat, key: Bytes, right: nat,
                                        rank: map<nat, nat>, top: nat,
                                        marked: Pages, after: Pages, root': nat, used': set<nat>)
    requires left in rank && Ranked(pages, rank, rank[left], top) && Overflows(pages, left, key)
    requires marked == pages || marked == pages[pages[left].parent := pages[pages[left].parent].(leftmost := left)]
    requires Climbed(marked, root, rank, 0, after, root', used')
    ensures ParentTold(pages, root, used, left, key, right, rank, after, root', used')
  {
    var x := pages[left].parent;
    assert ParentAbove(pages, rank, left);
    if marked != pages {
      LeftmostRanked(pages, rank, rank[left], top, x, left);
    }
    forall z | Outside(pages, rank, z) && NotKid(pages, z) ensures NotKid(after, z) {
      assert Outside(marked, rank, z);
    }
  }

  lemma {:induction false} NewConserved(n: Node)
    ensures Conserved(map[2 := n], {0, 1, 2}, {})
  {
  }

  lemma {:induction false} FirstConserved(n: Node, used: set<nat>, leaked: set<nat>)
    requires Conserved(map[], used, leaked) && NextId(used) != INVALID_PAGE_ID
    ensures Conserved(map[NextId(used) := n], Taken(used), leaked)
  {
  }

  // The first record of an empty tree.
  lemma {:induction false} FirstTaken(id: nat, key: Bytes, val: Bytes)
    requires |key| > 0 && 2 <= id < PAGE_LIMIT && Takes(Content([], HEADER_SIZE), key, val)
    ensures var pages := map[id := LeafNode(0, 0, 0, PageInsert(Content([], HEADER_SIZE), key, val).page)];
      TreeOk(pages, id, [[Slot(id, Bot, Top)]]) && StoredMap(pages, id, [[Slot(id, Bot, Top)]]) == map[key := val]
  {
    var empty: Pages := map[id := LeafNode(0, 0, 0, Content([], HEADER_SIZE))];
    var row: seq<PSlot> := [Slot(id, Bot, Top)];
    OneLeaf(empty, id);
    assert empty[id].page == Content([], HEADER_SIZE);
    var pages := LeafTakes(empty, [row], id, NONE, 0, 0, key, val);
    assert ToMap(Records(empty, row)) == map[];
    assert pages == map[id := LeafNode(0, 0, 0, PageInsert(Content([], HEADER_SIZE), key, val).page)];
  }

  lemma {:induction false} FirstNotTaken(id: nat, key: Bytes, val: Bytes)
    requires !Takes(Content([], HEADER_SIZE), key, val)
    ensures !Refines(map[], 0, map[id := LeafNode(0, 0, 0, PageInsert(Content([], HEADER_SIZE), key, val).page)], id,
      key, val)
  {
    var pages := map[id := LeafNode(0, 0, 0, PageInsert(Content([], HEADER_SIZE), key, val).page)];
    NotTaken(Content([], HEADER_SIZE), key, val);
    assert Lookup(pages, id, key) != Some(val);
  }

  lemma {:induction false} FirstOutcome(lv: seq<seq<PSlot>>, used: set<nat>, key: Bytes, val: Bytes, after: Pages,
                                        leaked: set<nat>)
    returns (lv': seq<seq<PSlot>>)
    requires TreeOk(map[], 0, lv) && Conserved(map[], used, leaked) && NextId(used) != INVALID_PAGE_ID && |key| > 0
    requires after == map[NextId(used) := LeafNode(0, 0, 0, PageInsert(Content([], HEADER_SIZE), key, val).page)]
    ensures Conserved(after, Taken(used), leaked)
    ensures Takes(Content([], HEADER_SIZE), key, val) <==> Refines(map[], 0, after, NextId(used), key, val)
    ensures Takes(Content([], HEADER_SIZE), key, val) ==>
      TreeOk(after, NextId(used), lv') && StoredMap(after, NextId(used), lv') == map[key := val]
  {
    lv' := [[Slot(NextId(used), Bot, Top)]];
    FirstConserved(after[NextId(used)], used, leaked);
    if Takes(Content([], HEADER_SIZE), key, val) {
      FirstTaken(NextId(used), key, val);
      RefinesMap(map[], 0, lv, after, NextId(used), lv', key, val);
    } else {
      FirstNotTaken(NextId(used), key, val);
    }
  }

  // A parent about to be split, and the climb from it.
  lemma {:induction false} SplitClimb(pages: Pages, used: set<nat>, rank: map<nat, nat>, d: nat, top: nat, x: nat)
    returns (split: Pages)
    requires x in rank && rank[x] > d && Ranked(pages, rank, d, top) && IdsTaken(pages, used)
      && (forall u :: u in used ==> u < PAGE_IDS)
    requires pages[x].InnerNode? && |pages[x].entries| >= 2
    ensures split == InnerSplit(pages, x, NextId(used))
    ensures Ranked(split, rank, rank[x], top) && IdsTaken(split, Taken(used)) && x in split
  {
    var y := NextId(used);
    NewIdFree(pages, used);
    split := InnerSplit(pages, x, y);
    SplitRanked(pages, rank, d, top, x, y);
    SetParentsFrame(pages, pages[x].entries[|pages[x].entries| / 2 + 1..], y);
  }

  lemma {:induction false} SplitClimbed(pages: Pages, root: nat, used: set<nat>, rank: map<nat, nat>, d: nat, top: nat,
                                        x: nat, key: Bytes,
                                        after: Pages, root': nat, used': set<nat>)
    requires x in rank && rank[x] > d && Ranked(pages, rank, d, top) && IdsTaken(pages, used)
      && (forall u :: u in used ==> u < PAGE_IDS)
    requires pages[x].InnerNode? && |pages[x].entries| >= 2 && x in InnerSplit(pages, x, NextId(used))
    requires ParentTold(InnerSplit(pages, x, NextId(used)), root, Taken(used), x, key, NextId(used), rank, after,
      root', used')
      || Spoilt(InnerSplit(pages, x, NextId(used)), after, root')
    ensures Climbed(pages, root, rank, 0, after, root', used') || Spoilt(pages, after, root')
  {
    var y := NextId(used);
    var split := InnerSplit(pages, x, y);
    NewIdFree(pages, used);
    InnerSplitFrame(pages, x, y);
    SetParentsFrame(pages, pages[x].entries[|pages[x].entries| / 2 + 1..], y);
    assert pages.Keys <= split.Keys;
    if Climbed(split, root, rank, y, after, root', used') {
      ClimbedOn(pages, root, rank, split, y, after, root', used');
    }
  }

  // A climb that does not spoil the root is one like any other.
  lemma {:induction false} ClimbsOn(before: Pages, root: nat, used: set<nat>, left: nat, key: Bytes, right: nat,
                                    rank: map<nat, nat>, after: Pages, root': nat, used': set<nat>)
    requires left in before
    requires ParentTold(before, root, used, left, key, right, rank, after, root', used') || Spoilt(before, after, root')
    ensures Climbed(before, root, rank, right, after, root', used') || Spoilt(before, after, root')
  {
  }

  // What telling the parent after a split relies on.
  ghost predicate SplitFacts(pages: Pages, used: set<nat>, id: nat, key: Bytes, val: Bytes, rank: map<nat, nat>,
                             top: nat)
    requires id in pages && pages[id].LeafNode? && SplitsInTwo(pages, id)
  {
    var y := NextId(used);
    && y !in pages && FIRST_FREE <= y && !Find(ChosenHalf(pages[id].page.recs, key).recs, key).found
    && id in rank && Ranked(HalfFilled(pages, id, y, key, val), rank, rank[id], top)
    && IdsTaken(HalfFilled(pages, id, y, key, val), Taken(used))
  }

  // A split whose chosen half took the record, and whose parent was told.
  ghost predicate SplitTold(pages: Pages, root: nat, used: set<nat>, id: nat, key: Bytes, val: Bytes,
                            rank: map<nat, nat>, after: Pages, root': nat, used': set<nat>)
    requires id in pages && pages[id].LeafNode?
  {
    && SplitsInTwo(pages, id) && PageInsert(ChosenHalf(pages[id].page.recs, key), key, val).ok
    && ParentTold(HalfFilled(pages, id, NextId(used), key, val), root, Taken(used), id, SeparatorOf(pages, id),
      NextId(used), rank, after, root', used')
  }

  lemma {:induction false} SplitPlan(pages: Pages, lv: seq<seq<PSlot>>, root: nat, used: set<nat>, p: nat, key: Bytes,
                                     val: Bytes, leaked: set<nat>) returns (rank: map<nat, nat>)
    requires TreeOk(pages, root, lv) && root != 0 && Conserved(pages, used, leaked)
    requires p < |lv[0]| && lv[0][p].id in pages && pages[lv[0][p].id].LeafNode?
      && !Find(pages[lv[0][p].id].page.recs, key).found
    ensures rank.Keys == pages.Keys
    ensures SplitsInTwo(pages, lv[0][p].id) ==> SplitFacts(pages, used, lv[0][p].id, key, val, rank, |lv| - 1)
  {
    var id: nat := lv[0][p].id;
    rank := TreeRanked(pages, lv, root);
    if SplitsInTwo(pages, id) {
      SplitReady(pages, lv, root, used, p, key, val, leaked);
      RanksCarried(pages, rank, |lv| - 1, id, NextId(used), key, val);
      assert InRange(pages);
    }
  }

  // The split path of btree_insert, from what it did to whether the tree now stores the record.
  lemma {:induction false} SplitFinish(pages: Pages, lv: seq<seq<PSlot>>, root: nat, used: set<nat>, p: nat, key: Bytes,
                                       val: Bytes, rank: map<nat, nat>,
                                       after: Pages, root': nat, used': set<nat>,
                                         leaked: set<nat>) returns (lv': seq<seq<PSlot>>)
    requires TreeOk(pages, root, lv) && root != 0 && Conserved(pages, used, leaked) && rank.Keys == pages.Keys
      && |key| > 0
    requires p < |lv[0]| && lv[0][p].id in pages && pages[lv[0][p].id].LeafNode?
      && !Find(pages[lv[0][p].id].page.recs, key).found
    requires AtLeast(key, lv[0][p].lo) && Before(key, lv[0][p].hi)
    requires SplitTold(pages, root, used, lv[0][p].id, key, val, rank, after, root', used')
    ensures AcceptsSplit(pages, used, lv[0][p].id, key, val) ==>
      root' != 0 && TreeOk(after, root', lv') && |lv'| > 1
        && StoredMap(after, root', lv') == StoredMap(pages, root, lv)[key := val] && Conserved(after, used', leaked)
    ensures !AcceptsSplit(pages, used, lv[0][p].id, key, val) ==>
      !(Refines(pages, root, after, root', key, val) && root' != INVALID_PAGE_ID)
  {
    SplitReady(pages, lv, root, used, p, key, val, leaked);
    if |val| == 0 {
      EmptyValueLost(pages, root, after, root', key);
      lv' := lv;
    } else if NextId(used) == INVALID_PAGE_ID {
      NoPageLoses(pages, lv, root, p, key, val, after, root');
      lv' := lv;
    } else {
      lv' := SplitOutcome(pages, lv, root, p, NextId(used), key, val, rank, Taken(used), after, root', used', leaked);
    }
  }

  // The split path of btree_insert when telling the parent may have spoilt the root.
  lemma {:induction false} SplitConcludes(pages: Pages, lv: seq<seq<PSlot>>, root: nat, used: set<nat>, p: nat,
                                          key: Bytes, val: Bytes, rank: map<nat, nat>,
                                          after: Pages, root': nat, used': set<nat>,
                                            leaked: set<nat>) returns (lv': seq<seq<PSlot>>)
    requires TreeOk(pages, root, lv) && root != 0 && Conserved(pages, used, leaked) && rank.Keys == pages.Keys
      && |key| > 0
    requires p < |lv[0]| && lv[0][p].id in pages && pages[lv[0][p].id].LeafNode?
      && !Find(pages[lv[0][p].id].page.recs, key).found
    requires AtLeast(key, lv[0][p].lo) && Before(key, lv[0][p].hi)
    requires SplitsInTwo(pages, lv[0][p].id)
    requires var id := lv[0][p].id;
      var told := SplitTold(pages, root, used, id, key, val, rank, after, root', used');
      && (told || Spoilt(pages, after, root'))
      && (HasRoom(HalfFilled(pages, id, NextId(used), key, val), id, SeparatorOf(pages, id)) ==> told)
      && (pages[id].parent == 0 && NextId(Taken(used)) != INVALID_PAGE_ID ==> told)
    ensures AcceptsSplit(pages, used, lv[0][p].id, key, val) ==>
      && Refines(pages, root, after, root', key, val) && RootOk(root, after, root')
    ensures AcceptsSplit(pages, used, lv[0][p].id, key, val) ==>
      && root' != 0 && TreeOk(after, root', lv') && |lv'| > 1 && root' in after && after[root'].InnerNode?
      && StoredMap(after, root', lv') == StoredMap(pages, root, lv)[key := val] && Conserved(after, used', leaked)
    ensures !AcceptsSplit(pages, used, lv[0][p].id, key, val) ==>
      !(Refines(pages, root, after, root', key, val) && RootOk(root, after, root'))
  {
    lv' := lv;
    if AcceptsSplit(pages, used, lv[0][p].id, key, val) {
      SplitAccepted(pages, lv, root, used, p, key, val, leaked);
    }
    if SplitTold(pages, root, used, lv[0][p].id, key, val, rank, after, root', used') {
      lv' := SplitFinish(pages, lv, root, used, p, key, val, rank, after, root', used', leaked);
      if AcceptsSplit(pages, used, lv[0][p].id, key, val) {
        AloneAtTop(after, lv', root');
        InTree(after, lv', root', NONE, 0, |lv'| - 1, 0);
        RefinesMap(pages, root, lv, after, root', lv', key, val);
      }
    }
  }

  // A split that is accepted can be carried out, and the parent told without a climb.
  lemma {:induction false} SplitAccepted(pages: Pages, lv: seq<seq<PSlot>>, root: nat, used: set<nat>, p: nat,
                                         key: Bytes, val: Bytes, leaked: set<nat>)
    requires TreeOk(pages, root, lv) && root != 0 && Conserved(pages, used, leaked)
    requires p < |lv[0]| && lv[0][p].id in pages && pages[lv[0][p].id].LeafNode?
      && !Find(pages[lv[0][p].id].page.recs, key).found
    requires AtLeast(key, lv[0][p].lo) && Before(key, lv[0][p].hi) && |key| > 0
    requires AcceptsSplit(pages, used, lv[0][p].id, key, val)
    ensures SplitsInTwo(pages, lv[0][p].id) && PageInsert(ChosenHalf(pages[lv[0][p].id].page.recs, key), key, val).ok
    ensures pages[lv[0][p].id].parent == 0
      || HasRoom(HalfFilled(pages, lv[0][p].id, NextId(used), key, val), lv[0][p].id, SeparatorOf(pages, lv[0][p].id))
  {
    HalfReady(pages, lv, root, p, key, val);
    SplitReady(pages, lv, root, used, p, key, val, leaked);
    LoneLeaf(pages, lv, root, p);
    if |lv| > 1 {
      RoomIsRoom(pages, lv, root, p, NextId(used), key, val);
    }
  }

  lemma {:induction false} LowerLacks(recs: seq<Rec>, key: Bytes, val: Bytes)
    requires SortedRecs(recs) && |recs| >= 2 && !Find(recs, key).found
    ensures !Find(recs[..SplitIndex(|recs|)], recs[SplitIndex(|recs|)].key).found
    ensures !Find(PageInsert(Compact(recs[..SplitIndex(|recs|)]), key, val).page.recs,
      recs[SplitIndex(|recs|)].key).found
  {
    var s := SplitIndex(|recs|);
    FindSorted(recs, key);
    Irreflexive(recs[s].key);
    var half := PageInsert(Compact(recs[..s]), key, val).page.recs;
    assert recs[s].key != key;
    var sep := recs[s].key;
    if Find(half, sep).found {
      var i := Find(half, sep).index;
      assert half[i].key == sep;
    }
  }

  // Once its leaf is split, the separator is in the upper half only.
  lemma {:induction false} SeparatorMoved(pages: Pages, lv: seq<seq<PSlot>>, root: nat, p: nat, y: nat, key: Bytes,
                                          val: Bytes, id: nat)
    requires TreeOk(pages, root, lv) && root != 0 && p < |lv[0]| && lv[0][p].id in pages && pages[lv[0][p].id].LeafNode?
    requires |pages[lv[0][p].id].page.recs| >= 2 && y !in pages && !Find(pages[lv[0][p].id].page.recs, key).found
    requires id != y && id in HalfFilled(pages, lv[0][p].id, y, key, val)
      && HalfFilled(pages, lv[0][p].id, y, key, val)[id].LeafNode?
    ensures !Find(HalfFilled(pages, lv[0][p].id, y, key, val)[id].page.recs, SeparatorOf(pages, lv[0][p].id)).found
  {
    var x: nat := lv[0][p].id;
    var recs := pages[x].page.recs;
    var s := SplitIndex(|recs|);
    var sep := recs[s].key;
    assert LeafOk(pages[x], lv[0][p]);
    Irreflexive(sep);
    if id == x {
      LowerLacks(recs, key, val);
    } else {
      assert pages[id].LeafNode? && HalfFilled(pages, x, y, key, val)[id].page == pages[id].page;
      assert Listed(lv, id);
      var e, q :| 0 <= e < |lv| && 0 <= q < |lv[e]| && lv[e][q].id == id;
      InTree(pages, lv, root, NONE, 0, e, q);
      assert LeafOk(pages[id], lv[0][q]);
      if Find(pages[id].page.recs, sep).found {
        SameLeaf(lv[0], p, q, sep);
      }
    }
  }

  // With no page for the upper half, nothing reaches it: descents stop at such ids.
  lemma {:induction false} NoPageLoses(pages: Pages, lv: seq<seq<PSlot>>, root: nat, p: nat, key: Bytes, val: Bytes,
                                       after: Pages, root': nat)
    requires TreeOk(pages, root, lv) && root != 0 && p < |lv[0]| && lv[0][p].id in pages && pages[lv[0][p].id].LeafNode?
    requires |pages[lv[0][p].id].page.recs| >= 2 && !Find(pages[lv[0][p].id].page.recs, key).found
      && INVALID_PAGE_ID !in pages
    requires LeavesFrom(HalfFilled(pages, lv[0][p].id, INVALID_PAGE_ID, key, val), after)
    ensures !(Refines(pages, root, after, root', key, val) && root' != INVALID_PAGE_ID)
  {
    var sep := SeparatorOf(pages, lv[0][p].id);
    SeparatorStored(pages, lv, root, p, key);
    if root' != INVALID_PAGE_ID && root' != 0 && FindLeaf(after, root', sep, 0).Some? {
      var id := FindLeaf(after, root', sep, 0).value;
      FoundIsKid(after, root', sep, 0);
      SeparatorMoved(pages, lv, root, p, INVALID_PAGE_ID, key, val, id);
    }
    assert root' != INVALID_PAGE_ID ==> Lookup(after, root', sep) == None;
  }

  // A descent that ends at a leaf ends there still, when leaves only changed what they hold and a page was added.
  lemma {:induction false} KeptDescent(pages: Pages, after: Pages, id: nat, key: Bytes, depth: nat)
    requires depth <= MAX_DEPTH && FindLeaf(pages, id, key, depth).Some?
    requires forall x :: x in pages ==>
      x in after && ((pages[x].LeafNode? && after[x].LeafNode?) || after[x] == pages[x])
    ensures FindLeaf(after, id, key, depth) == FindLeaf(pages, id, key, depth)
    decreases MAX_DEPTH - depth
  {
    if pages[id].InnerNode? {
      KeptDescent(pages, after, FindChild(pages[id], key), key, depth + 1);
    }
  }

  // What SplitAndTell leaves behind.
  ghost predicate SplitTried(before: Pages, root: nat, used: set<nat>, id: nat, key: Bytes, val: Bytes,
                             rank: map<nat, nat>,
                             after: Pages, root': nat, used': set<nat>, ok: bool)
    requires id in before && before[id].LeafNode?
  {
    && (ok <==> SplitsInTwo(before, id) && PageInsert(ChosenHalf(before[id].page.recs, key), key, val).ok)
    && (ok ==> SplitTold(before, root, used, id, key, val, rank, after, root', used') || Spoilt(before, after, root'))
    && (ok && HasRoom(HalfFilled(before, id, NextId(used), key, val), id, SeparatorOf(before, id)) ==>
      SplitTold(before, root, used, id, key, val, rank, after, root', used'))
    && (!ok ==> root' == root && used' == if before[id].page.recs == [] then used else Taken(used))
    && (!ok ==> after == if SplitsInTwo(before, id)
                then LeafSplit(before, id, NextId(used), SplitIndex(|before[id].page.recs|)) else before)
  }

  // What an insertion that has to split is for, and what is left if it fails.
  ghost predicate SplitResults(before: Pages, root: nat, used: set<nat>, id: nat, key: Bytes, val: Bytes, after: Pages,
                               root': nat, ok: bool)
    requires id in before && before[id].LeafNode?
  {
    && (ok <==> SplitsInTwo(before, id) && PageInsert(ChosenHalf(before[id].page.recs, key), key, val).ok)
    && (AcceptsSplit(before, used, id, key, val) <==>
      ok && Refines(before, root, after, root', key, val) && RootOk(root, after, root'))
    && (!ok ==> root' == root && forall k ::
      Lookup(after, root', k) == if InUpperHalf(before, id, k) then None else Lookup(before, root, k))
  }

  // A refused half is on a page that no descent comes to, and this one has taken its id for nothing.
  ghost predicate HalfRefused(after: Pages, root': nat, used': set<nat>, y: nat, leaked: set<nat>) {
    Conserved(after - {y}, used', leaked) && forall k :: FindLeaf(after, root', k, 0) != Some(y)
  }

  // A split whose parent is never told loses the upper half and nothing else.
  lemma {:induction false} UntoldSplit(pages: Pages, lv: seq<seq<PSlot>>, root: nat, p: nat, y: nat, k: Bytes)
    requires TreeOk(pages, root, lv) && root != 0 && p < |lv[0]| && lv[0][p].id in pages && pages[lv[0][p].id].LeafNode?
    requires SplitsInTwo(pages, lv[0][p].id) && y !in pages
    ensures Lookup(LeafSplit(pages, lv[0][p].id, y, SplitIndex(|pages[lv[0][p].id].page.recs|)), root, k) ==
      if InUpperHalf(pages, lv[0][p].id, k) then None else Lookup(pages, root, k)
    ensures FindLeaf(LeafSplit(pages, lv[0][p].id, y, SplitIndex(|pages[lv[0][p].id].page.recs|)), root, k, 0) !=
      Some(y)
  {
    var x: nat := lv[0][p].id;
    var recs := pages[x].page.recs;
    var s := SplitIndex(|recs|);
    var after := LeafSplit(pages, x, y, s);
    var q := RootFound(pages, lv, root, k);
    KeptDescent(pages, after, root, k, 0);
    assert LeafOk(pages[x], lv[0][p]);
    if InUpperHalf(pages, x, k) {
      var i :| s <= i < |recs| && recs[i].key == k;
      SameLeaf(lv[0], p, q, k);
    }
    if q == p {
      LowerFinds(recs, s, k);
    } else {
      assert lv[0][q].id != x;
      assert after[lv[0][q].id].page == pages[lv[0][q].id].page;
    }
  }

  lemma {:induction false} UntoldSplits(pages: Pages, lv: seq<seq<PSlot>>, root: nat, p: nat, y: nat, after: Pages)
    requires TreeOk(pages, root, lv) && root != 0 && p < |lv[0]| && lv[0][p].id in pages && pages[lv[0][p].id].LeafNode?
    requires SplitsInTwo(pages, lv[0][p].id) && y !in pages
    requires after == LeafSplit(pages, lv[0][p].id, y, SplitIndex(|pages[lv[0][p].id].page.recs|))
    ensures forall k :: Lookup(after, root, k) == if InUpperHalf(pages, lv[0][p].id, k)
                        then None else Lookup(pages, root, k)
    ensures forall k :: FindLeaf(after, root, k, 0) != Some(y)
  {
    forall k
      ensures Lookup(after, root, k) == if InUpperHalf(pages, lv[0][p].id, k) then None else Lookup(pages, root, k)
      ensures FindLeaf(after, root, k, 0) != Some(y)
    {
      UntoldSplit(pages, lv, root, p, y, k);
    }
  }

  // A half that refuses the record is none that an accepted split would have.
  lemma {:induction false} NotAccepted(pages: Pages, lv: seq<seq<PSlot>>, root: nat, used: set<nat>, p: nat, key: Bytes,
                                       val: Bytes, leaked: set<nat>)
    requires TreeOk(pages, root, lv) && root != 0 && Conserved(pages, used, leaked)
    requires p < |lv[0]| && lv[0][p].id in pages && pages[lv[0][p].id].LeafNode?
      && !Find(pages[lv[0][p].id].page.recs, key).found
    requires AtLeast(key, lv[0][p].lo) && Before(key, lv[0][p].hi) && |key| > 0
    requires SplitsInTwo(pages, lv[0][p].id) && !PageInsert(ChosenHalf(pages[lv[0][p].id].page.recs, key), key, val).ok
    ensures !AcceptsSplit(pages, used, lv[0][p].id, key, val)
  {
    if AcceptsSplit(pages, used, lv[0][p].id, key, val) {
      SplitAccepted(pages, lv, root, used, p, key, val, leaked);
    }
  }

  lemma {:induction false} LowerFinds(recs: seq<Rec>, s: nat, k: Bytes)
    requires SortedRecs(recs) && s <= |recs|
    ensures Find(recs[..s], k).found <==> Find(recs, k).found && Find(recs, k).index < s
    ensures Find(recs[..s], k).found ==> recs[..s][Find(recs[..s], k).index] == recs[Find(recs, k).index]
    ensures Find(recs, k).found && Find(recs, k).index >= s <==> exists i :: s <= i < |recs| && recs[i].key == k
  {
    FindSorted(recs, k);
    FindSorted(recs[..s], k);
    Irreflexive(k);
    if Find(recs[..s], k).found {
      var i := Find(recs[..s], k).index;
      assert recs[i].key == k;
    }
    if Find(recs, k).found && Find(recs, k).index < s {
      assert recs[..s][Find(recs, k).index].key == k;
    }
  }

  // The page of the upper half holds an id for nothing then.
  lemma {:induction false} RefusedConserved(pages: Pages, used: set<nat>, id: nat, after: Pages, leaked: set<nat>)
    requires Conserved(pages, used, leaked) && id in pages && pages[id].LeafNode? && SplitsInTwo(pages, id)
      && NextId(used) !in pages
    requires after == LeafSplit(pages, id, NextId(used), SplitIndex(|pages[id].page.recs|))
    ensures Conserved(after - {NextId(used)}, Taken(used), leaked + Wasted(pages, used, id))
  {
    assert (after - {NextId(used)}).Keys == pages.Keys;
    SameKeysConserved(pages, after - {NextId(used)}, used, leaked);
    WastedConserved(after - {NextId(used)}, used, id, leaked);
  }

  function Value(n: nat): (v: Bytes)
    ensures |v| == n
  {
    seq(n, _ => 0)
  }

  const TWO_RECORDS: seq<Rec> := [Rec([97], Value(95)), Rec([99], Value(1700))]

  lemma {:induction false} TwoRecords() returns (pages: Pages)
    ensures pages == map[2 := LeafNode(0, 0, 0, Content(TWO_RECORDS, HEADER_SIZE + 101 + 1706))]
    ensures TreeOk(pages, 2, [[Slot(2, Bot, Top)]])
  {
    var a: Bytes, c: Bytes := [97], [99];
    FirstTaken(2, a, Value(95));
    var page := Content([Rec(a, Value(95))], HEADER_SIZE + 101);
    var first: Pages := map[2 := LeafNode(0, 0, 0, page)];
    assert PageInsert(Content([], HEADER_SIZE), a, Value(95)).page == page;
    FindSorted(page.recs, c);
    assert Lt(a, c);
    pages := LeafTakes(first, [[Slot(2, Bot, Top)]], 2, NONE, 0, 0, c, Value(1700));
    assert pages[2].page == Content(TWO_RECORDS, HEADER_SIZE + 101 + 1706);
  }

  // A root leaf with two records, of 95 and of 1700 bytes: a third record of 1950 bytes between them, which
  // would fit a page of its own, is refused, and the second one is cut off.
  lemma {:induction false} RefusedLoses(used: set<nat>) returns (pages: Pages)
    ensures TreeOk(pages, 2, [[Slot(2, Bot, Top)]])
    ensures Lookup(pages, 2, [99]) == Some(Value(1700)) && Lookup(pages, 2, [98]) == None
    ensures Takes(Content([], HEADER_SIZE), [98], Value(1950))
    ensures !Attempts(pages, 2, used, [98], Value(1950)) && CutOff(pages, 2, [98], [99])
    ensures pages == map[2 := LeafNode(0, 0, 0, Content(TWO_RECORDS, HEADER_SIZE + 101 + 1706))]
  {
    var b: Bytes, c: Bytes := [98], [99];
    pages := TwoRecords();
    var recs := TWO_RECORDS;
    assert Lt([97], b) && Lt([97], c) && Lt(b, c);
    FindSorted(recs, b);
    FindSorted(recs, c);
    assert recs[1].key == c;
    assert recs[..1] == [recs[0]];
    assert TotalSize(recs[..1]) == 101 by {
      assert recs[..1][1..] == [];
    }
    assert ChosenHalf(recs, b) == Content(recs[..1], HEADER_SIZE + 101);
    FindSorted(recs[..1], b);
    assert InUpperHalf(pages, 2, c);
  }

  // And the id taken for its page is held for nothing.
  lemma {:induction false} RefusedWastes(pages: Pages, used: set<nat>)
    requires pages == map[2 := LeafNode(0, 0, 0, Content(TWO_RECORDS, HEADER_SIZE + 101 + 1706))]
      && Conserved(pages, used, {})
    ensures Conserved(LeafSplit(pages, 2, NextId(used), 1) - {NextId(used)}, Taken(used), Taken(used) - used)
  {
    RefusedConserved(pages, used, 2, LeafSplit(pages, 2, NextId(used), 1), {});
  }

  // From what the split path did to what it was for.
  lemma {:induction false} SplitTriedOut(before: Pages, lv: seq<seq<PSlot>>, root: nat, used: set<nat>, p: nat,
                                         key: Bytes, val: Bytes, rank: map<nat, nat>,
                                         after: Pages, root': nat, used': set<nat>, leaked: set<nat>,
                                           ok: bool) returns (lv': seq<seq<PSlot>>)
    requires TreeOk(before, root, lv) && root != 0 && Conserved(before, used, leaked) && rank.Keys == before.Keys
      && |key| > 0
    requires p < |lv[0]| && lv[0][p].id in before && before[lv[0][p].id].LeafNode?
      && !Find(before[lv[0][p].id].page.recs, key).found
    requires AtLeast(key, lv[0][p].lo) && Before(key, lv[0][p].hi)
    requires SplitTried(before, root, used, lv[0][p].id, key, val, rank, after, root', used', ok)
    requires ok && before[lv[0][p].id].parent == 0 && NextId(Taken(used)) != INVALID_PAGE_ID ==>
      SplitTold(before, root, used, lv[0][p].id, key, val, rank, after, root', used')
    ensures SplitResults(before, root, used, lv[0][p].id, key, val, after, root', ok)
    ensures AcceptsSplit(before, used, lv[0][p].id, key, val) ==>
      && root' != 0 && TreeOk(after, root', lv') && |lv'| > 1 && root' in after && after[root'].InnerNode?
      && StoredMap(after, root', lv') == StoredMap(before, root, lv)[key := val] && Conserved(after, used', leaked)
    ensures !ok ==> lv' == lv
    ensures !ok && !SplitsInTwo(before, lv[0][p].id) ==>
      after == before && Conserved(after, used', leaked + Wasted(before, used, lv[0][p].id))
    ensures !ok && SplitsInTwo(before, lv[0][p].id) ==>
      HalfRefused(after, root', used', NextId(used), leaked + Wasted(before, used, lv[0][p].id))
  {
    lv' := lv;
    if ok {
      lv' := SplitConcludes(before, lv, root, used, p, key, val, rank, after, root', used', leaked);
    } else if SplitsInTwo(before, lv[0][p].id) {
      SplitReady(before, lv, root, used, p, key, val, leaked);
      UntoldSplits(before, lv, root, p, NextId(used), after);
      NotAccepted(before, lv, root, used, p, key, val, leaked);
      RefusedConserved(before, used, lv[0][p].id, after, leaked);
    } else {
      WastedConserved(before, used, lv[0][p].id, leaked);
    }
  }

  const LOW: seq<Rec> := [Rec([97], Value(900))]
  const HIGH: seq<Rec> := [Rec([98], Value(900)), Rec([99], Value(900))]

  // Two leaves below a root whose entry area is used up, as it is after enough separators have come and gone.
  const FULL_PARENT: Pages := map[
    2 := LeafNode(4, 0, 3, Content(LOW, HEADER_SIZE + 906)),
    3 := LeafNode(4, 2, 0, Content(HIGH, HEADER_SIZE + 1812)),
    4 := InnerNode(0, 2040, 2, [Entry([98], 3)])]
  const FULL_LEVELS: seq<seq<PSlot>> :=
    [[Slot(2, Bot, Bound.Key([98])), Slot(3, Bound.Key([98]), Top)], [Slot(4, Bot, Top)]]

  lemma {:induction false} FullTower()
    ensures Tower(Inodes(FULL_PARENT), FULL_LEVELS, 4, NONE, 0)
  {
    var m, lv: seq<seq<PSlot>> := Inodes(FULL_PARENT), FULL_LEVELS;
    assert m[4].kids == [2, 3] && m[4].keys == [[98]];
    assert Covers(m, lv[1]) && Covers(m, lv[1][1..]);
    assert Flat(m, lv[1][1..]) == [];
    assert Expand(m[4], Bot, Top) == lv[0];
    assert Linked(m, lv, NONE, 0, 1);
  }

  lemma {:induction false} FullLeaves()
    ensures var slots := FULL_LEVELS[0];
      && LeavesOk(FULL_PARENT, slots) && Ordered(slots) && Chained(FULL_PARENT, slots) && Strict(slots)
      && LeavesFit(FULL_PARENT, slots) && NoEmptyLeaf(FULL_PARENT, slots)
  {
    var slots: seq<PSlot> := FULL_LEVELS[0];
    var a: Bytes, b: Bytes, c: Bytes := [97], [98], [99];
    assert Lt(a, b) && Lt(b, c) && !Lt(b, b) && !Lt(c, b);
    assert NextOk(FULL_PARENT, slots, 0) && NextOk(FULL_PARENT, slots, 1);
    assert LOW[1..] == [] && HIGH[1..] == [HIGH[1]] && HIGH[1..][1..] == [];
    assert TotalSize(LOW) == 906;
    assert TotalSize(HIGH) == 1812;
    assert LeafOk(FULL_PARENT[2], slots[0]);
    assert LeafOk(FULL_PARENT[3], slots[1]);
  }

  lemma {:induction false} FullIds()
    ensures Within(FULL_LEVELS, FULL_PARENT.Keys) && Inner(FULL_PARENT, FULL_LEVELS)
  {
    var lv: seq<seq<PSlot>> := FULL_LEVELS;
    assert lv[0][0].id == 2 && lv[0][1].id == 3 && lv[1][0].id == 4;
  }

  lemma {:induction false} FullDistinct()
    ensures Distinct(FULL_LEVELS)
  {
    var lv: seq<seq<PSlot>> := FULL_LEVELS;
    assert |lv| == 2 && |lv[0]| == 2 && |lv[1]| == 1;
    assert lv[0][0].id == 2 && lv[0][1].id == 3 && lv[1][0].id == 4;
  }

  lemma {:induction false} FullListed()
    ensures AllListed(FULL_PARENT, FULL_LEVELS) && InRange(FULL_PARENT)
  {
    var lv: seq<seq<PSlot>> := FULL_LEVELS;
    assert lv[0][0].id == 2 && lv[0][1].id == 3 && lv[1][0].id == 4;
    assert Listed(lv, 2) && Listed(lv, 3) && Listed(lv, 4);
  }

  lemma {:induction false} FullParents()
    ensures Parented(FULL_PARENT, FULL_LEVELS) && ShortSeparators(FULL_PARENT)
  {
    assert Children(2, FULL_PARENT[4].entries) == [2, 3];
    assert ParentOf(FULL_PARENT, 2, 4) && ParentOf(FULL_PARENT, 3, 4);
  }

  lemma {:induction false} FullTree()
    ensures TreeOk(FULL_PARENT, 4, FULL_LEVELS)
  {
    FullTower();
    FullLeaves();
    FullIds();
    FullDistinct();
    FullListed();
    FullParents();
  }

  // The upper leaf has no place for the third record, and its upper half has.
  lemma {:induction false} FullHalf()
    ensures Find(HIGH, [99]) == SearchResult(true, 1)
    ensures PageInsert(ChosenHalf(HIGH, [100]), [100], Value(900)).ok
  {
    var key: Bytes, sep: Bytes := [100], [99];
    assert Lt([98], sep) && Lt([98], key) && Lt(sep, key) && !Lt(key, sep);
    FindSorted(HIGH, sep);
    assert HIGH[1].key == sep && HIGH[1..] == [HIGH[1]];
    assert TotalSize(HIGH[1..]) == 906 by { assert HIGH[1..][1..] == []; }
    FindSorted(HIGH[1..], key);
  }

  // The leaf below the full parent is split for a third record, and its upper half takes it: the call answers true.
  // But the parent has no place for the separator, whose record was found until then.
  lemma {:induction false} FullParentOverflows(used: set<nat>)
    requires {2, 3, 4} <= used
    ensures TreeOk(FULL_PARENT, 4, FULL_LEVELS) && Lookup(FULL_PARENT, 4, [99]) == Some(Value(900))
    ensures Attempts(FULL_PARENT, 4, used, [100], Value(900)) && !Accepts(FULL_PARENT, 4, used, [100], Value(900))
    ensures SplitsInTwo(FULL_PARENT, 3) && SeparatorOf(FULL_PARENT, 3) == [99]
    ensures Overflows(HalfFilled(FULL_PARENT, 3, NextId(used), [100], Value(900)), 3, [99])
  {
    FullTree();
    FullRouting([100]);
    FullRouting([99]);
    FullHalf();
    FullAfter(NextId(used));
  }

  lemma {:induction false} FullRouting(key: Bytes)
    requires !Lt(key, [98])
    ensures FindLeaf(FULL_PARENT, 4, key, 0) == Some(3)
  {
    assert EntryKeys(FULL_PARENT[4].entries) == [[98]];
    assert ChildPos([[98]], key, 0, 0, 1) == 1;
    assert FindLeaf(FULL_PARENT, 3, key, 1) == Some(3);
  }

  lemma {:induction false} FullAfter(y: nat)
    requires y !in {2, 3, 4}
    ensures Overflows(HalfFilled(FULL_PARENT, 3, y, [100], Value(900)), 3, [99])
  {
    var after := HalfFilled(FULL_PARENT, 3, y, [100], Value(900));
    assert after[4] == FULL_PARENT[4] && after[3].parent == 4;
    var keys := EntryKeys(after[4].entries);
    assert keys == [[98]];
    var sep: Bytes := [99];
    assert Lt(keys[0], sep);
    SearchSorted(keys, sep, 0, 1);
  }
}
