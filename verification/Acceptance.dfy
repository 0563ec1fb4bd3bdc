// When the tree stores a record, in numbers its caller sees: the sizes of records, the fill of pages, and free ids.
module Acceptance {
  import opened Levels
  import opened Towers
  import opened Keys
  import opened PageView
  import opened PagedShape
  import opened PagedSteps
  import opened PagedOps
  import opened PagedInsert
  import opened PagedTree
  import opened Bitmap

  function Size(key: Bytes, val: Bytes): nat {
    5 + |key| + |val|
  }

  function SizeOf(recs: seq<Rec>): nat {
    if recs == [] then 0 else SizeOf(recs[..|recs| - 1]) + Size(recs[|recs| - 1].key, recs[|recs| - 1].val)
  }

  // A page of 2048 bytes filled up to `fill` has a place for one more record of that size, and for its slot; the
  // slots that are there count twice.
  predicate HasPlace(fill: nat, count: nat, size: nat) {
    fill + size + 4 * count + 2 <= 2048
  }

  ghost predicate IdFree(used: set<nat>) {
    exists id :: 3 <= id < 16064 && id !in used
  }

  ghost predicate TwoIdsFree(used: set<nat>) {
    exists id, id' :: 3 <= id < id' < 16064 && id !in used && id' !in used
  }

  // The records of the half that a key goes to, if the leaf is divided in the middle.
  function Half(recs: seq<Rec>, key: Bytes): seq<Rec>
    requires |recs| >= 2
  {
    if Lt(key, recs[|recs| / 2].key) then recs[..|recs| / 2] else recs[|recs| / 2..]
  }

  // The parent has a place for the separator, which takes 6 bytes more than its key.
  predicate ParentHasPlace(pages: Pages, parent: nat, separator: Bytes) {
    parent == 0
    || (parent in pages && pages[parent].InnerNode?
        && HasPlace(pages[parent].freeStart, |pages[parent].entries|, 6 + |separator|))
  }

  // The leaf can be divided: two records, and a separator of at most 256 bytes.
  predicate Divisible(recs: seq<Rec>) {
    |recs| >= 2 && |recs[|recs| / 2].key| <= 256
  }

  ghost predicate DividesFor(pages: Pages, used: set<nat>, id: nat, key: Bytes, size: nat)
    requires id in pages && pages[id].LeafNode?
  {
    var recs := pages[id].page.recs;
    && Divisible(recs) && HasPlace(40 + SizeOf(Half(recs, key)), |Half(recs, key)|, size)
    && (if pages[id].parent == 0 then TwoIdsFree(used) else IdFree(used))
    && ParentHasPlace(pages, pages[id].parent, recs[|recs| / 2].key)
  }

  ghost predicate Stores(pages: Pages, root: nat, used: set<nat>, key: Bytes, val: Bytes) {
    && |val| > 0 && Size(key, val) < 65536
    && if root == 0 then IdFree(used) && HasPlace(40, 0, Size(key, val))
       else match FindLeaf(pages, root, key, 0)
         case None => false
         case Some(id) =>
           || HasPlace(pages[id].page.freeStart, |pages[id].page.recs|, Size(key, val))
           || DividesFor(pages, used, id, key, Size(key, val))
  }

  lemma {:induction false} SizeSame(recs: seq<Rec>)
    ensures SizeOf(recs) == TotalSize(recs)
  {
    if recs != [] {
      var front := recs[..|recs| - 1];
      SizeSame(front);
      TotalNext(recs, |recs| - 1);
      assert recs[..|recs|] == recs;
    }
  }

  lemma {:induction false} IdsAre(used: set<nat>)
    ensures IdFree(used) <==> NextId(used) != INVALID_PAGE_ID
    ensures TwoIdsFree(used) <==> NextId(used) != INVALID_PAGE_ID && NextId(Taken(used)) != INVALID_PAGE_ID
  {
    var a := NextId(used);
    if a != INVALID_PAGE_ID {
      assert 3 <= a < 16064 && a !in used;
      var b := NextId(Taken(used));
      if b != INVALID_PAGE_ID {
        assert a < b && b !in used;
      }
    }
  }

  lemma {:induction false} HalfIs(recs: seq<Rec>, key: Bytes)
    requires |recs| >= 2
    ensures ChosenHalf(recs, key) == Content(Half(recs, key), 40 + SizeOf(Half(recs, key)))
    ensures SplitIndex(|recs|) == |recs| / 2
  {
    SizeSame(Half(recs, key));
  }

  lemma {:induction false} DividesIs(pages: Pages, used: set<nat>, id: nat, key: Bytes, val: Bytes)
    requires id in pages && pages[id].LeafNode? && |val| > 0 && Size(key, val) < 65536
    ensures DividesFor(pages, used, id, key, Size(key, val)) <==> AcceptsSplit(pages, used, id, key, val)
  {
    IdsAre(used);
    if |pages[id].page.recs| >= 2 {
      HalfIs(pages[id].page.recs, key);
    }
  }

  // The tree accepts a record exactly by these numbers.
  lemma {:induction false} AcceptsInNumbers(pages: Pages, root: nat, used: set<nat>, key: Bytes, val: Bytes)
    ensures Accepts(pages, root, used, key, val) <==> Stores(pages, root, used, key, val)
  {
    IdsAre(used);
    if root != 0 && FindLeaf(pages, root, key, 0).Some? && |val| > 0 && Size(key, val) < 65536 {
      DividesIs(pages, used, FindLeaf(pages, root, key, 0).value, key, val);
    }
  }

  // What it answers: sizes of 65536 bytes and more are cut to 16 bits in the room test, and the writing is not looked
  // at outside a split.
  ghost predicate AnswersTrue(pages: Pages, root: nat, used: set<nat>, key: Bytes, val: Bytes) {
    if root == 0 then IdFree(used)
    else match FindLeaf(pages, root, key, 0)
      case None => false
      case Some(id) =>
        var recs, size := pages[id].page.recs, Size(key, val) % 65536;
        || HasPlace(pages[id].page.freeStart, |recs|, size)
        || (Divisible(recs) && !Find(Half(recs, key), key).found
          && HasPlace(40 + SizeOf(Half(recs, key)), |Half(recs, key)|, size)
            && 40 + SizeOf(Half(recs, key)) + Size(key, val) + 2 * |Half(recs, key)| <= 2048)
  }

  lemma {:induction false} AttemptsInNumbers(pages: Pages, root: nat, used: set<nat>, key: Bytes, val: Bytes)
    ensures Attempts(pages, root, used, key, val) <==> AnswersTrue(pages, root, used, key, val)
  {
    IdsAre(used);
    if root != 0 && FindLeaf(pages, root, key, 0).Some? {
      var recs := pages[FindLeaf(pages, root, key, 0).value].page.recs;
      if |recs| >= 2 {
        HalfIs(recs, key);
      }
    }
  }

  // All records of the leaf, and the new one, have one size, and no key is longer than 256 bytes.
  predicate Uniform(recs: seq<Rec>, size: nat) {
    forall i :: 0 <= i < |recs| ==> Size(recs[i].key, recs[i].val) == size && |recs[i].key| <= 256
  }

  // Then, with ids and a place in the parent, a split is all it takes.
  lemma {:induction false} UniformSplits(c: Content, key: Bytes, val: Bytes, size: nat)
    requires Fits(c.recs, c.freeStart) && |c.recs| >= 2 && Uniform(c.recs, size)
    requires 7 <= size <= 500 && Size(key, val) == size && |val| > 0
    ensures HasPlace(40 + SizeOf(Half(c.recs, key)), |Half(c.recs, key)|, size)
  {
    SplitMakesRoom(c, key, val, size);
    HalfIs(c.recs, key);
  }

  // Where the leaf's fill is what its records take, one with fewer than two records has a place itself.
  lemma {:induction false} FewHavePlace(recs: seq<Rec>, size: nat)
    requires Uniform(recs, size) && |recs| < 2 && size <= 500
    ensures HasPlace(40 + SizeOf(recs), |recs|, size)
  {
    if |recs| == 1 {
      assert SizeOf(recs[..0]) == 0;
    }
  }

  // A leaf whose deleted records have used up the page has no place, and with fewer than two records no split.
  predicate Worn(c: Content, size: nat) {
    !HasPlace(c.freeStart, |c.recs|, size) && |c.recs| < 2
  }

  // The leaf where the key belongs, in a tree that has a root, with ids free and a place in the parent.
  ghost predicate Supplied(pages: Pages, used: set<nat>, id: nat) {
    id in pages && pages[id].LeafNode?
    && (if pages[id].parent == 0 then TwoIdsFree(used) else IdFree(used))
    && (|pages[id].page.recs| >= 2 ==>
        ParentHasPlace(pages, pages[id].parent, pages[id].page.recs[|pages[id].page.recs| / 2].key))
  }

  // Of records of one size a supplied leaf takes one more exactly unless it is worn.
  lemma {:induction false} UniformStores(pages: Pages, lv: seq<seq<PSlot>>, root: nat, used: set<nat>, id: nat,
                                         key: Bytes,
                                         val: Bytes, size: nat)
    requires TreeOk(pages, root, lv) && root != 0 && FindLeaf(pages, root, key, 0) == Some(id)
    requires Supplied(pages, used, id) && Uniform(pages[id].page.recs, size)
    requires 7 <= size <= 500 && Size(key, val) == size && |val| > 0
    ensures Stores(pages, root, used, key, val) <==> !Worn(pages[id].page, size)
    ensures pages[id].page.freeStart == 40 + SizeOf(pages[id].page.recs) ==> !Worn(pages[id].page, size)
  {
    var c := pages[id].page;
    var p := RootFound(pages, lv, root, key);
    assert Fits(c.recs, c.freeStart);
    if |c.recs| >= 2 {
      UniformSplits(c, key, val, size);
    } else {
      FewHavePlace(c.recs, size);
    }
  }

  // Otherwise it refuses, and a longer separator makes any leaf refuse that has no place.
  lemma {:induction false} Refuses(pages: Pages, root: nat, used: set<nat>, id: nat, key: Bytes, val: Bytes)
    requires root != 0 && FindLeaf(pages, root, key, 0) == Some(id)
    requires !HasPlace(pages[id].page.freeStart, |pages[id].page.recs|, Size(key, val) % 65536)
    requires |pages[id].page.recs| < 2 || |pages[id].page.recs[|pages[id].page.recs| / 2].key| > 256
    ensures !Attempts(pages, root, used, key, val) && !Accepts(pages, root, used, key, val)
  {
    AttemptsInNumbers(pages, root, used, key, val);
    AcceptsInNumbers(pages, root, used, key, val);
  }

  // Deleting gives no space back, so a leaf that was full stays full until it is divided.
  lemma {:induction false} DeletingWears(c: Content, key: Bytes)
    ensures PageDelete(c, key).page.freeStart == c.freeStart
  {
  }

  const LAST: seq<Rec> := [Rec([1, 1, 0, 0, 0], Value(195))]

  // Nine records of 205 bytes, of which eight were deleted: the root leaf refuses a record like them, although 1800
  // of its bytes hold nothing.
  lemma {:induction false} WornRefuses(used: set<nat>) returns (pages: Pages)
    ensures pages == map[2 := LeafNode(0, 0, 0, Content(LAST, 40 + 9 * 205))] && TreeOk(pages, 2, [[Slot(2, Bot, Top)]])
    ensures !Attempts(pages, 2, used, [1, 10, 0, 0, 0], Value(195))
    ensures !Accepts(pages, 2, used, [1, 10, 0, 0, 0], Value(195))
  {
    pages := map[2 := LeafNode(0, 0, 0, Content(LAST, 40 + 9 * 205))];
    var lv: seq<seq<PSlot>> := [[Slot(2, Bot, Top)]];
    assert NextOk(pages, lv[0], 0) && LeafOk(pages[2], lv[0][0]);
    assert TotalSize(LAST) == 205 by { assert LAST[1..] == []; }
    assert lv[0][0].id == 2 && Listed(lv, 2);
    Refuses(pages, 2, used, 2, [1, 10, 0, 0, 0], Value(195));
  }

  // A tree may have 101 levels, and its separators 256 bytes.
  lemma {:induction false} TallTrees(pages: Pages, root: nat, lv: seq<seq<PSlot>>)
    requires root != 0 && 1 <= |lv| <= 101 && Shape(pages, lv, root, NONE, 0)
    requires LeavesFit(pages, lv[0]) && NoEmptyLeaf(pages, lv[0])
    requires forall id, i :: id in pages && pages[id].InnerNode? && 0 <= i < |pages[id].entries| ==>
               |pages[id].entries[i].key| <= 256
    ensures TreeOk(pages, root, lv)
  {
    forall id | id in pages ensures ShortNode(pages[id]) {
    }
  }

  // A descent goes on below depth 100 to no child, nor to one whose id is 0 or 1000000 and more.
  lemma {:induction false} DescentStops(pages: Pages, id: nat, key: Bytes, depth: nat)
    requires depth <= 100 && id in pages && pages[id].InnerNode?
    ensures var next := FindChild(pages[id], key);
      FindLeaf(pages, id, key, depth) ==
        if next == 0 || next >= 1000000 || depth == 100 then None else FindLeaf(pages, next, key, depth + 1)
  {
  }

  // btree_insert of an absent key, in numbers.
  method Insert(t: TableHandle, key: Bytes, val: Bytes) returns (ok: bool)
    requires t.Valid() && |key| > 0 && key !in t.Model()
    modifies t, t.bm.bits, t.pool
    ensures ok <==> AnswersTrue(old(t.pages), old(t.rootPage), old(t.bm.Used()), key, val)
    ensures Stores(old(t.pages), old(t.rootPage), old(t.bm.Used()), key, val) ==>
      ok && t.Valid() && t.Model() == old(t.Model())[key := val]
    ensures Stores(old(t.pages), old(t.rootPage), old(t.bm.Used()), key, val) <==>
      && ok && Refines(old(t.pages), old(t.rootPage), t.pages, t.rootPage, key, val)
      && RootOk(old(t.rootPage), t.pages, t.rootPage)
  {
    AcceptsInNumbers(t.pages, t.rootPage, t.bm.Used(), key, val);
    AttemptsInNumbers(t.pages, t.rootPage, t.bm.Used(), key, val);
    ok := t.BtreeInsert(key, val);
  }

  // Of records of one size, from 7 to 500 bytes.
  method InsertUniform(t: TableHandle, key: Bytes, val: Bytes, ghost size: nat) returns (ok: bool)
    requires t.Valid() && |key| > 0 && |val| > 0 && key !in t.Model() && 7 <= size <= 500 && Size(key, val) == size
    requires t.rootPage == 0 ==> IdFree(t.bm.Used())
    requires t.rootPage != 0 && FindLeaf(t.pages, t.rootPage, key, 0).Some? ==>
      var id := FindLeaf(t.pages, t.rootPage, key, 0).value;
      Supplied(t.pages, t.bm.Used(), id) && Uniform(t.pages[id].page.recs, size) && !Worn(t.pages[id].page, size)
    modifies t, t.bm.bits, t.pool
    ensures ok && t.Valid() && t.Model() == old(t.Model())[key := val]
  {
    if t.rootPage != 0 {
      ghost var p := RootFound(t.pages, t.lv, t.rootPage, key);
      UniformStores(t.pages, t.lv, t.rootPage, t.bm.Used(), t.lv[0][p].id, key, val, size);
    }
    ok := Insert(t, key, val);
  }
}
