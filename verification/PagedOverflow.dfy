// What happens above the leaves when a parent has no room for a separator.
module PagedOverflow {
  import opened Levels
  import opened Towers
  import opened Keys
  import opened PageView
  import opened PagedShape
  import opened PagedSteps
  import opened PagedEdits
  import opened Bitmap

  // No internal node has y as a child.
  ghost predicate NotKid(pages: Pages, y: nat) {
    forall id, i :: id in pages && pages[id].InnerNode? && 0 <= i <= |pages[id].entries| ==>
      Children(pages[id].leftmost, pages[id].entries)[i] != y
  }

  // A descent ends at its start or at somebody's child.
  lemma {:induction false} FoundIsKid(pages: Pages, id: nat, key: Bytes, depth: nat)
    requires depth <= MAX_DEPTH && FindLeaf(pages, id, key, depth).Some?
    ensures FindLeaf(pages, id, key, depth).value == id ||
      (FindLeaf(pages, id, key, depth).value < MAX_CHILD_ID && !NotKid(pages, FindLeaf(pages, id, key, depth).value))
    decreases MAX_DEPTH - depth
  {
    if pages[id].InnerNode? {
      var n := pages[id];
      var next := FindChild(n, key);
      FoundIsKid(pages, next, key, depth + 1);
      var pos := ChildPos(EntryKeys(n.entries), key, 0, |n.entries| - 1, |n.entries|);
      var cs := Children(n.leftmost, n.entries);
      assert next == cs[pos] || next == cs[0] || next == cs[1];
    }
  }

  // The leaves of `after` are leaves of `before` with the records they had.
  ghost predicate LeavesFrom(before: Pages, after: Pages) {
    forall id :: id in after && after[id].LeafNode? ==>
      id in before && before[id].LeafNode? && before[id].page == after[id].page
  }

  // A leaf that nobody has as a child is lost to searches.
  lemma {:induction false} Unreachable(before: Pages, after: Pages, root: nat, y: nat, key: Bytes)
    requires NotKid(after, y) && root != y && y in before && LeavesFrom(before, after)
    requires forall id :: id in before && id != y && before[id].LeafNode? ==> !Find(before[id].page.recs, key).found
    ensures Lookup(after, root, key) == None
  {
    if root != 0 && FindLeaf(after, root, key, 0).Some? {
      FoundIsKid(after, root, key, 0);
    }
  }

  // split_internal_page, for a node with at least two entries.
  function SetParents(pages: Pages, kids: seq<Entry>, up: nat): Pages
    decreases |kids|
  {
    if kids == [] then pages else SetParents(SetParent(pages, kids[0].child, up), kids[1..], up)
  }

  function EntriesSize(es: seq<Entry>): nat {
    if es == [] then 0 else ENTRY_HEADER + |es[0].key| + EntriesSize(es[1..])
  }

  function LowerEntries(n: Node): Node
    requires n.InnerNode? && |n.entries| >= 2
  {
    n.(entries := n.entries[..|n.entries| / 2])
  }

  function UpperEntries(n: Node): Node
    requires n.InnerNode? && |n.entries| >= 2
  {
    var mid := |n.entries| / 2;
    InnerNode(n.parent, HEADER_SIZE + EntriesSize(n.entries[mid + 1..]), n.entries[mid].child, n.entries[mid + 1..])
  }

  function InnerSplit(pages: Pages, x: nat, y: nat): Pages
    requires x in pages && pages[x].InnerNode? && |pages[x].entries| >= 2
  {
    var n := pages[x];
    SetParents(pages, n.entries[|n.entries| / 2 + 1..], y)[x := LowerEntries(n)][y := UpperEntries(n)]
  }

  // Choosing a half by the promoted separator and then a child in it is choosing a child in the whole node,
  // and the two child lists are the old one cut in two.
  lemma {:induction false} SplitKeepsRouting(n: Node, key: Bytes)
    requires n.InnerNode? && |n.entries| >= 2 && SortedKeys(EntryKeys(n.entries)) && KidsInRange(n)
    ensures FindChild(if Lt(key, n.entries[|n.entries| / 2].key) then LowerEntries(n) else UpperEntries(n), key) ==
      FindChild(n, key)
    ensures Children(LowerEntries(n).leftmost, LowerEntries(n).entries) +
      Children(UpperEntries(n).leftmost, UpperEntries(n).entries)
      == Children(n.leftmost, n.entries)
  {
    var mid := |n.entries| / 2;
    assert Children(LowerEntries(n).leftmost, LowerEntries(n).entries) +
      Children(UpperEntries(n).leftmost, UpperEntries(n).entries)
      == Children(n.leftmost, n.entries) by { HalfChildren(n); }
    var i := ChildFound(n, key);
    if Lt(key, n.entries[mid].key) {
      LowerRouting(n, key, i);
    } else {
      UpperRouting(n, key, i);
    }
  }

  ghost predicate KidsInRange(n: Node)
    requires n.InnerNode?
  {
    forall j :: 0 <= j <= |n.entries| ==> 0 < Children(n.leftmost, n.entries)[j] < MAX_CHILD_ID
  }

  // i is where the key falls among the separators of n.
  predicate Place(n: Node, key: Bytes, i: nat)
    requires n.InnerNode?
  {
    i <= |n.entries| && (i > 0 ==> !Lt(key, n.entries[i - 1].key)) && (i < |n.entries| ==> Lt(key, n.entries[i].key))
  }

  lemma {:induction false} HalvesReady(n: Node)
    requires n.InnerNode? && |n.entries| >= 2 && SortedKeys(EntryKeys(n.entries)) && KidsInRange(n)
    ensures SortedKeys(EntryKeys(LowerEntries(n).entries)) && KidsInRange(LowerEntries(n))
    ensures SortedKeys(EntryKeys(UpperEntries(n).entries)) && KidsInRange(UpperEntries(n))
  {
    var ks, mid := EntryKeys(n.entries), |n.entries| / 2;
    SortedParts(ks, mid);
    assert EntryKeys(LowerEntries(n).entries) == ks[..mid];
    assert EntryKeys(UpperEntries(n).entries) == ks[mid + 1..];
    HalfChildren(n);
  }

  lemma {:induction false} LowerChild(n: Node, i: nat)
    requires n.InnerNode? && |n.entries| >= 2 && i <= |LowerEntries(n).entries|
    ensures Children(LowerEntries(n).leftmost, LowerEntries(n).entries)[i] == Children(n.leftmost, n.entries)[i]
  {
    HalfChildren(n);
  }

  lemma {:induction false} LowerPlace(n: Node, key: Bytes, j: nat)
    requires n.InnerNode? && |n.entries| >= 2 && Place(LowerEntries(n), key, j)
      && Lt(key, n.entries[|n.entries| / 2].key)
    ensures Place(n, key, j)
  {
  }

  lemma {:induction false} LowerFound(n: Node, key: Bytes) returns (j: nat)
    requires n.InnerNode? && |n.entries| >= 2 && SortedKeys(EntryKeys(n.entries)) && KidsInRange(n)
    requires Lt(key, n.entries[|n.entries| / 2].key)
    ensures Place(n, key, j) && FindChild(LowerEntries(n), key) == Children(n.leftmost, n.entries)[j]
  {
    HalvesReady(n);
    j := ChildPlace(LowerEntries(n), key);
    LowerPlace(n, key, j);
    LowerChild(n, j);
  }

  lemma {:induction false} LowerRouting(n: Node, key: Bytes, i: nat)
    requires n.InnerNode? && |n.entries| >= 2 && SortedKeys(EntryKeys(n.entries)) && KidsInRange(n)
    requires Place(n, key, i) && Lt(key, n.entries[|n.entries| / 2].key)
    ensures FindChild(LowerEntries(n), key) == Children(n.leftmost, n.entries)[i]
  {
    var j := LowerFound(n, key);
    SameChildOf(n, key, i, j);
  }

  lemma {:induction false} UpperChild(n: Node, j: nat) returns (t: nat)
    requires n.InnerNode? && |n.entries| >= 2 && j <= |UpperEntries(n).entries|
    ensures t == |n.entries| / 2 + 1 + j <= |n.entries|
    ensures Children(UpperEntries(n).leftmost, UpperEntries(n).entries)[j] == Children(n.leftmost, n.entries)[t]
  {
    t := |n.entries| / 2 + 1 + j;
    HalfChildren(n);
  }

  lemma {:induction false} UpperFound(n: Node, key: Bytes) returns (t: nat)
    requires n.InnerNode? && |n.entries| >= 2 && SortedKeys(EntryKeys(n.entries)) && KidsInRange(n)
    requires !Lt(key, n.entries[|n.entries| / 2].key)
    ensures t <= |n.entries| && Place(n, key, t)
      && FindChild(UpperEntries(n), key) == Children(n.leftmost, n.entries)[t]
  {
    HalvesReady(n);
    var j := ChildPlace(UpperEntries(n), key);
    t := UpperChild(n, j);
    UpperPlace(n, key, j, t);
  }

  lemma {:induction false} SameChildOf(n: Node, key: Bytes, i: nat, j: nat)
    requires n.InnerNode? && SortedKeys(EntryKeys(n.entries)) && Place(n, key, i) && Place(n, key, j)
    ensures i == j
  {
    SameChild(EntryKeys(n.entries), key, i, j);
  }

  lemma {:induction false} UpperRouting(n: Node, key: Bytes, i: nat)
    requires n.InnerNode? && |n.entries| >= 2 && SortedKeys(EntryKeys(n.entries)) && KidsInRange(n)
    requires Place(n, key, i) && !Lt(key, n.entries[|n.entries| / 2].key)
    ensures FindChild(UpperEntries(n), key) == Children(n.leftmost, n.entries)[i]
  {
    var t := UpperFound(n, key);
    SameChildOf(n, key, i, t);
  }

  lemma {:induction false} UpperPlace(n: Node, key: Bytes, j: nat, t: nat)
    requires n.InnerNode? && |n.entries| >= 2 && Place(UpperEntries(n), key, j)
      && !Lt(key, n.entries[|n.entries| / 2].key)
    requires t == |n.entries| / 2 + 1 + j
    ensures Place(n, key, t)
  {
  }

  lemma {:induction false} ChildPlace(n: Node, key: Bytes) returns (j: nat)
    requires n.InnerNode? && SortedKeys(EntryKeys(n.entries)) && KidsInRange(n)
    ensures Place(n, key, j) && FindChild(n, key) == Children(n.leftmost, n.entries)[j]
  {
    j := ChildFound(n, key);
  }

  lemma {:induction false} HalfChildren(n: Node)
    requires n.InnerNode? && |n.entries| >= 2
    ensures Children(LowerEntries(n).leftmost, LowerEntries(n).entries) ==
      Children(n.leftmost, n.entries)[..|n.entries| / 2 + 1]
    ensures Children(UpperEntries(n).leftmost, UpperEntries(n).entries) ==
      Children(n.leftmost, n.entries)[|n.entries| / 2 + 1..]
  {
    var cs := Children(n.leftmost, n.entries);
    var mid := |n.entries| / 2;
    var a, b :=
      Children(LowerEntries(n).leftmost, LowerEntries(n).entries),
      Children(UpperEntries(n).leftmost, UpperEntries(n).entries);
    forall j | 0 <= j < |a| ensures a[j] == cs[j] {
      if j > 0 { assert a[j] == n.entries[j - 1].child; }
    }
    forall j | 0 <= j < |b| ensures b[j] == cs[mid + 1 + j] {
      if j > 0 { assert b[j] == n.entries[mid + j].child; }
    }
  }

  lemma {:induction false} SortedParts(ks: seq<Bytes>, mid: nat)
    requires SortedKeys(ks) && mid < |ks|
    ensures SortedKeys(ks[..mid]) && SortedKeys(ks[mid + 1..])
  {
  }

  // There is one place among ascending separators for a key.
  lemma {:induction false} SameChild(ks: seq<Bytes>, key: Bytes, i: nat, j: nat)
    requires SortedKeys(ks) && i <= |ks| && j <= |ks|
    requires (i > 0 ==> !Lt(key, ks[i - 1])) && (i < |ks| ==> Lt(key, ks[i]))
    requires (j > 0 ==> !Lt(key, ks[j - 1])) && (j < |ks| ==> Lt(key, ks[j]))
    ensures i == j
  {
    if i < j {
      if i < j - 1 { Transitive(key, ks[i], ks[j - 1]); }
    } else if j < i {
      if j < i - 1 { Transitive(key, ks[j], ks[i - 1]); }
    }
  }

  // Setting parent fields changes nothing else.
  ghost predicate SameButParent(a: Pages, b: Pages) {
    a.Keys == b.Keys && forall id :: id in a ==> b[id] == a[id].(parent := b[id].parent)
  }

  lemma {:induction false} SetParentsFrame(pages: Pages, kids: seq<Entry>, up: nat)
    ensures SameButParent(pages, SetParents(pages, kids, up))
    ensures forall id :: id in pages && (forall i :: 0 <= i < |kids| ==> kids[i].child != id) ==>
      SetParents(pages, kids, up)[id] == pages[id]
    decreases |kids|
  {
    if kids != [] {
      var next := SetParent(pages, kids[0].child, up);
      SetParentsFrame(next, kids[1..], up);
      assert SameButParent(pages, next);
    }
  }

  lemma {:induction false} InnerSplitKid(pages: Pages, x: nat, y: nat, id: nat, i: nat, z: nat)
    requires x in pages && pages[x].InnerNode? && |pages[x].entries| >= 2 && NotKid(pages, z)
    requires id in InnerSplit(pages, x, y) && InnerSplit(pages, x, y)[id].InnerNode?
      && i <= |InnerSplit(pages, x, y)[id].entries|
    requires SameButParent(pages, SetParents(pages, pages[x].entries[|pages[x].entries| / 2 + 1..], y))
    ensures Children(InnerSplit(pages, x, y)[id].leftmost, InnerSplit(pages, x, y)[id].entries)[i] != z
  {
    var n, pages' := pages[x], InnerSplit(pages, x, y);
    var mid := |n.entries| / 2;
    HalfChildren(n);
    if id == y {
      assert Children(pages'[id].leftmost, pages'[id].entries)[i] == Children(n.leftmost, n.entries)[mid + 1 + i];
    } else if id == x {
      assert Children(pages'[id].leftmost, pages'[id].entries)[i] == Children(n.leftmost, n.entries)[i];
    } else {
      assert pages'[id].entries == pages[id].entries && pages'[id].leftmost == pages[id].leftmost;
    }
  }

  lemma {:induction false} InnerSplitFrame(pages: Pages, x: nat, y: nat)
    requires x in pages && pages[x].InnerNode? && |pages[x].entries| >= 2
    ensures LeavesFrom(pages, InnerSplit(pages, x, y))
    ensures forall z :: NotKid(pages, z) ==> NotKid(InnerSplit(pages, x, y), z)
  {
    var n := pages[x];
    var mid := |n.entries| / 2;
    var pages' := InnerSplit(pages, x, y);
    SetParentsFrame(pages, n.entries[mid + 1..], y);
    forall z | NotKid(pages, z) ensures NotKid(pages', z) {
      forall id, i | id in pages' && pages'[id].InnerNode? && 0 <= i <= |pages'[id].entries|
        ensures Children(pages'[id].leftmost, pages'[id].entries)[i] != z
      {
        InnerSplitKid(pages, x, y, id, i, z);
      }
    }
  }

  // Levels of the nodes of a tree, as far up as an insertion may have to climb: parents lie higher, children lower.
  ghost predicate Ranked(pages: Pages, rank: map<nat, nat>, d: nat, top: nat) {
    && (forall id :: id in rank ==> id in pages && id < MAX_CHILD_ID && rank[id] <= top)
    && (forall id :: id in rank && rank[id] >= d ==> ParentAbove(pages, rank, id))
    && (forall id, i :: id in rank && rank[id] > d && pages[id].InnerNode? && 0 <= i <= |pages[id].entries| ==>
      ChildBelow(rank, Children(pages[id].leftmost, pages[id].entries)[i], id))
  }

  ghost predicate ParentAbove(pages: Pages, rank: map<nat, nat>, id: nat)
    requires id in rank && id in pages
  {
    pages[id].parent == 0 || (pages[id].parent in rank && rank[pages[id].parent] > rank[id])
  }

  ghost predicate ChildBelow(rank: map<nat, nat>, kid: nat, id: nat)
    requires id in rank
  {
    kid in rank ==> rank[kid] < rank[id]
  }

  // Once node x has been split, the nodes from its level up are still ranked.
  lemma {:induction false} SplitRanked(pages: Pages, rank: map<nat, nat>, d: nat, top: nat, x: nat, y: nat)
    requires Ranked(pages, rank, d, top) && x in rank && rank[x] > d && y !in rank
    requires pages[x].InnerNode? && |pages[x].entries| >= 2
    ensures Ranked(InnerSplit(pages, x, y), rank, rank[x], top)
    ensures InnerSplit(pages, x, y)[x].parent == pages[x].parent
  {
    var n := pages[x];
    var mid := |n.entries| / 2;
    var moved := n.entries[mid + 1..];
    var pages' := InnerSplit(pages, x, y);
    SetParentsFrame(pages, moved, y);
    forall id | id in rank && rank[id] >= rank[x] ensures ParentAbove(pages', rank, id) {
      forall i | 0 <= i < |moved| ensures moved[i].child != id {
        assert ChildBelow(rank, Children(n.leftmost, n.entries)[mid + 1 + i + 1], x);
      }
      assert ParentAbove(pages, rank, id);
    }
    forall id, i | id in rank && rank[id] > rank[x] && pages'[id].InnerNode? && 0 <= i <= |pages'[id].entries|
      ensures ChildBelow(rank, Children(pages'[id].leftmost, pages'[id].entries)[i], id)
    {
      assert pages'[id].entries == pages[id].entries && pages'[id].leftmost == pages[id].leftmost;
      assert ChildBelow(rank, Children(pages[id].leftmost, pages[id].entries)[i], id);
    }
  }

  // Making `left` the leftmost child, as the code does when the separator goes first.
  lemma {:induction false} LeftmostRanked(pages: Pages, rank: map<nat, nat>, d: nat, top: nat, x: nat, left: nat)
    requires Ranked(pages, rank, d, top) && x in rank && left in rank && rank[left] == d < rank[x]
      && pages[x].InnerNode?
    ensures Ranked(pages[x := pages[x].(leftmost := left)], rank, d, top)
    ensures LeavesFrom(pages, pages[x := pages[x].(leftmost := left)])
    ensures forall z :: NotKid(pages, z) && z != left ==> NotKid(pages[x := pages[x].(leftmost := left)], z)
  {
    var pages' := pages[x := pages[x].(leftmost := left)];
    forall id | id in rank && rank[id] >= d ensures ParentAbove(pages', rank, id) {
      assert ParentAbove(pages, rank, id);
    }
    forall id, i | id in rank && rank[id] > d && pages'[id].InnerNode? && 0 <= i <= |pages'[id].entries|
      ensures ChildBelow(rank, Children(pages'[id].leftmost, pages'[id].entries)[i], id)
    {
      assert ChildBelow(rank, Children(pages[id].leftmost, pages[id].entries)[i], id);
      LeftmostChild(pages[id], left, i);
    }
    forall z | NotKid(pages, z) && z != left ensures NotKid(pages', z) {
      forall id, i | id in pages' && pages'[id].InnerNode? && 0 <= i <= |pages'[id].entries|
        ensures Children(pages'[id].leftmost, pages'[id].entries)[i] != z
      {
        assert Children(pages[id].leftmost, pages[id].entries)[i] != z;
        LeftmostChild(pages[id], left, i);
      }
    }
  }

  lemma {:induction false} LeftmostChild(n: Node, left: nat, i: nat)
    requires n.InnerNode? && i <= |n.entries|
    ensures Children(left, n.entries)[i] == if i == 0 then left else Children(n.leftmost, n.entries)[i]
  {
    if i > 0 { assert Children(left, n.entries)[i] == n.entries[i - 1].child; }
  }

  lemma {:induction false} RootAddedFrame(pages: Pages, left: nat, key: Bytes, right: nat, top: nat)
    ensures LeavesFrom(pages, RootAdded(pages, left, key, right, top))
    ensures top in RootAdded(pages, left, key, right, top) && RootAdded(pages, left, key, right, top)[top].InnerNode?
    ensures forall z :: NotKid(pages, z) && z != left && z != right ==>
      NotKid(RootAdded(pages, left, key, right, top), z)
  {
    var pages' := RootAdded(pages, left, key, right, top);
    forall z | NotKid(pages, z) && z != left && z != right ensures NotKid(pages', z) {
      forall id, i | id in pages' && pages'[id].InnerNode? && 0 <= i <= |pages'[id].entries|
        ensures Children(pages'[id].leftmost, pages'[id].entries)[i] != z
      {
        if id == top {
          assert pages'[id].entries == [Entry(key, right)] && pages'[id].leftmost == left;
        } else {
          assert pages'[id].entries == pages[id].entries && pages'[id].leftmost == pages[id].leftmost;
          assert Children(pages[id].leftmost, pages[id].entries)[i] != z;
        }
      }
    }
  }

  lemma {:induction false} GrownFrame(pages: Pages, x: nat, i: nat, key: Bytes, right: nat)
    requires x in pages && pages[x].InnerNode? && i <= |pages[x].entries|
    ensures LeavesFrom(pages, ParentGrown(pages, x, i, key, right))
    ensures forall z :: NotKid(pages, z) && z != right ==> NotKid(ParentGrown(pages, x, i, key, right), z)
  {
    var pages' := ParentGrown(pages, x, i, key, right);
    forall z | NotKid(pages, z) && z != right ensures NotKid(pages', z) {
      forall id, j | id in pages' && pages'[id].InnerNode? && 0 <= j <= |pages'[id].entries|
        ensures Children(pages'[id].leftmost, pages'[id].entries)[j] != z
      {
        GrownChildren(pages[x].leftmost, pages[x].entries, i, key, right);
        assert id != x ==> pages'[id] == pages[id];
        var j' := if id == x && j > i then j - 1 else j;
        assert Children(pages[id].leftmost, pages[id].entries)[j'] != z;
      }
    }
  }

  // The level of every page of a well-formed tree.
  ghost function LevelOf(lv: seq<seq<PSlot>>, id: nat): (e: nat)
    requires Listed(lv, id)
    ensures e < |lv| && exists q :: 0 <= q < |lv[e]| && lv[e][q].id == id
  {
    var e, q :| 0 <= e < |lv| && 0 <= q < |lv[e]| && lv[e][q].id == id;
    e
  }

  lemma {:induction false} ListedRanks(pages: Pages, lv: seq<seq<PSlot>>, root: nat, rank: map<nat, nat>, id: nat)
    requires Shape(pages, lv, root, NONE, 0) && id in pages && id in rank && Listed(lv, id)
    requires forall f, r :: 0 <= f < |lv| && 0 <= r < |lv[f]| ==> lv[f][r].id in rank && rank[lv[f][r].id] == f
    ensures ParentAbove(pages, rank, id)
    ensures rank[id] > 0 && pages[id].InnerNode? ==> forall i :: 0 <= i <= |pages[id].entries| ==>
      ChildBelow(rank, Children(pages[id].leftmost, pages[id].entries)[i], id)
  {
    var e, q :| 0 <= e < |lv| && 0 <= q < |lv[e]| && lv[e][q].id == id;
    RankOfParent(pages, lv, root, e, q, rank);
    if e > 0 && pages[id].InnerNode? {
      forall i | 0 <= i <= |pages[id].entries|
        ensures ChildBelow(rank, Children(pages[id].leftmost, pages[id].entries)[i], id) {
        RankOfChild(pages, lv, root, e, q, i, rank);
      }
    }
  }

  lemma {:induction false} TreeRanked(pages: Pages, lv: seq<seq<PSlot>>, root: nat) returns (rank: map<nat, nat>)
    requires Shape(pages, lv, root, NONE, 0)
    ensures rank.Keys == pages.Keys && Ranked(pages, rank, 0, |lv| - 1)
    ensures forall q :: 0 <= q < |lv[0]| ==> lv[0][q].id in rank && rank[lv[0][q].id] == 0
  {
    assert forall id :: id in pages ==> Listed(lv, id);
    rank := map id | id in pages :: LevelOf(lv, id);
    forall e, q | 0 <= e < |lv| && 0 <= q < |lv[e]| ensures lv[e][q].id in rank && rank[lv[e][q].id] == e {
    }
    forall id | id in rank
      ensures ParentAbove(pages, rank, id)
      ensures rank[id] > 0 && pages[id].InnerNode? ==> forall i :: 0 <= i <= |pages[id].entries| ==>
        ChildBelow(rank, Children(pages[id].leftmost, pages[id].entries)[i], id)
    {
      ListedRanks(pages, lv, root, rank, id);
    }
  }

  lemma {:induction false} RankOfChild(pages: Pages, lv: seq<seq<PSlot>>, root: nat, e: nat, q: nat, i: nat,
                                       rank: map<nat, nat>)
    requires Shape(pages, lv, root, NONE, 0) && 1 <= e < |lv| && q < |lv[e]| && lv[e][q].id in pages
    requires pages[lv[e][q].id].InnerNode? && i <= |pages[lv[e][q].id].entries|
    requires forall f, r :: 0 <= f < |lv| && 0 <= r < |lv[f]| ==> lv[f][r].id in rank && rank[lv[f][r].id] == f
    ensures ChildBelow(rank, Children(pages[lv[e][q].id].leftmost, pages[lv[e][q].id].entries)[i], lv[e][q].id)
  {
    ChildIs(pages, lv, root, e, q, i);
  }

  lemma {:induction false} RankOfParent(pages: Pages, lv: seq<seq<PSlot>>, root: nat, e: nat, q: nat,
                                        rank: map<nat, nat>)
    requires Shape(pages, lv, root, NONE, 0) && e < |lv| && q < |lv[e]| && lv[e][q].id in pages
    requires forall f, r :: 0 <= f < |lv| && 0 <= r < |lv[f]| ==> lv[f][r].id in rank && rank[lv[f][r].id] == f
    ensures ParentAbove(pages, rank, lv[e][q].id)
  {
    if e + 1 == |lv| {
      AloneAtTop(pages, lv, root);
    } else {
      var m := Inodes(pages);
      assert Linked(m, lv, NONE, 0, e + 1);
      var r, i := Locate(m, lv[e + 1], q);
      var n := pages[lv[e + 1][r].id];
      assert ParentOf(pages, Children(n.leftmost, n.entries)[i], lv[e + 1][r].id);
    }
  }
}
