// What each step of an insertion into the in-memory tree does to its shape.
module MemSteps {
  import opened Levels
  import opened Towers
  import opened MemShape

  // A slot's node is where the invariants look for it.
  lemma {:induction false} InTree(S: Heap, lv: seq<seq<MSlot>>, root: BPlusNode, d: int, p: nat, e: nat, q: nat)
    requires Shape(S, lv, root, d, p) && e < |lv| && q < |lv[e]|
    ensures lv[e][q].id in S
    ensures S[lv[e][q].id].isLeaf <==> e == 0
    ensures e >= 1 ==> Wide(Inodes(S)[lv[e][q].id])
    ensures e >= 1 ==> Covers(Inodes(S), lv[e])
  {
    if e >= 1 {
      assert Linked(Inodes(S), lv, d, p, e);
    } else {
      assert LeafOk(S[lv[0][q].id], lv[0][q], q == 0);
    }
  }

  // One step of a descent: the child's interval holds the key because the node's does.
  lemma {:induction false} Descend(S: Heap, lv: seq<seq<MSlot>>, root: BPlusNode, e: nat, p: nat, i: nat, key: int)
    returns (r: nat)
    requires Shape(S, lv, root, NONE, 0) && 1 <= e < |lv| && p < |lv[e]| && lv[e][p].id in S
    requires AtLeast(key, lv[e][p].lo) && Before(key, lv[e][p].hi)
    requires i <= |S[lv[e][p].id].keys|
    requires i > 0 ==> key >= S[lv[e][p].id].keys[i - 1]
    requires i < |S[lv[e][p].id].keys| ==> key < S[lv[e][p].id].keys[i]
    ensures i < |S[lv[e][p].id].children|
    ensures r < |lv[e - 1]| && lv[e - 1][r].id == S[lv[e][p].id].children[i]
    ensures AtLeast(key, lv[e - 1][r].lo) && Before(key, lv[e - 1][r].hi)
  {
    assert Linked(Inodes(S), lv, NONE, 0, e);
    ChildSlot(Inodes(S), lv[e], p, i);
    r := Offset(Inodes(S), lv[e], p) + i;
  }

  lemma {:induction false} LeafOkIn(S: Heap, lv: seq<seq<MSlot>>, root: BPlusNode, p: nat)
    requires Shape(S, lv, root, NONE, 0) && p < |lv[0]|
    ensures lv[0][p].id in S && LeafOk(S[lv[0][p].id], lv[0][p], p == 0)
  {
  }

  ghost predicate OnlyAt(s: seq<BPlusNode>, x: BPlusNode, i: nat) {
    forall j :: 0 <= j < |s| && s[j] == x ==> j == i
  }

  // The parent pointer of a node names the node one level up that has it as a child, and only that one.
  lemma {:induction false} FindParent(S: Heap, lv: seq<seq<MSlot>>, root: BPlusNode, d: int, p: nat, e: nat, r: nat)
    returns (q: nat, i: nat)
    requires Shape(S, lv, root, d, p) && e + 1 < |lv| && d == e && r == p
    ensures q < |lv[e + 1]| && Covers(Inodes(S), lv[e + 1])
    ensures lv[e][r].id in S && S[lv[e][r].id].parent == lv[e + 1][q].id
    ensures lv[e + 1][q].id in S && i < |S[lv[e + 1][q].id].children| && S[lv[e + 1][q].id].children[i] == lv[e][r].id
    ensures Offset(Inodes(S), lv[e + 1], q) + i == r
    ensures OnlyAt(S[lv[e + 1][q].id].children, lv[e][r].id, i)
  {
    var m := Inodes(S);
    assert Linked(m, lv, d, p, e + 1);
    var f := Fold(lv[e], p);
    assert f[p].id == lv[e][p].id;
    q, i := Locate(m, lv[e + 1], p);
    var x := lv[e + 1][q].id;
    assert ParentOf(S, S[x].children[i], x);
    forall t | 0 <= t < |f| ensures f[t].id == (if t <= p then lv[e][t].id else lv[e][t + 1].id) {
    }
    forall j | 0 <= j < |S[x].children| && S[x].children[j] == lv[e][r].id ensures j == i {
      ChildSlot(m, lv[e + 1], q, j);
      assert f[Offset(m, lv[e + 1], q) + j].id == lv[e][r].id;
    }
  }

  lemma {:induction false} KeepsAll(S: Heap, S': Heap, lv: seq<seq<MSlot>>, d: int, q: int)
    requires forall e, p :: 1 <= e < |lv| && 0 <= p < |lv[e]| ==> lv[e][p].id in S && lv[e][p].id in S'
    requires forall e, p :: 1 <= e < |lv| && 0 <= p < |lv[e]| && !(e == d && p == q) ==>
      S'[lv[e][p].id].keys == S[lv[e][p].id].keys && S'[lv[e][p].id].children == S[lv[e][p].id].children
    ensures KeepsBut(Inodes(S), Inodes(S'), lv, d, q)
  {
  }

  lemma {:induction false} LeavesKept(S: Heap, S': Heap, slots: seq<MSlot>)
    requires LeavesOk(S, slots) && Chained(S, slots)
    requires forall q :: 0 <= q < |slots| ==> (
        slots[q].id in S' && S'[slots[q].id].isLeaf
        && S'[slots[q].id].keys == S[slots[q].id].keys && S'[slots[q].id].next == S[slots[q].id].next)
    ensures LeavesOk(S', slots) && Chained(S', slots)
  {
    forall q | 0 <= q < |slots| ensures LeafOk(S'[slots[q].id], slots[q], q == 0) && NextOk(S', slots, q) {
      assert LeafOk(S[slots[q].id], slots[q], q == 0) && NextOk(S, slots, q);
    }
  }

  // A key put into a leaf.
  lemma {:induction false} LeafInserted(S: Heap, S': Heap, lv: seq<seq<MSlot>>, root: BPlusNode, p: nat, ks: seq<int>)
    requires Shape(S, lv, root, NONE, 0) && p < |lv[0]| && lv[0][p].id in S
    requires S' == S[lv[0][p].id := S[lv[0][p].id].(keys := ks)]
    requires LeafOk(S'[lv[0][p].id], lv[0][p], p == 0)
    ensures Shape(S', lv, root, NONE, 0)
  {
    KeepsAll(S, S', lv, NONE, NONE);
    TowerFrame(Inodes(S), Inodes(S'), lv, root, NONE, 0);
    assert Chained(S', lv[0]) by {
      forall r | 0 <= r < |lv[0]| ensures NextOk(S', lv[0], r) { assert NextOk(S, lv[0], r); }
    }
    assert LeavesOk(S', lv[0]) by {
      forall q | 0 <= q < |lv[0]| ensures LeafOk(S'[lv[0][q].id], lv[0][q], q == 0) {
        assert LeafOk(S[lv[0][q].id], lv[0][q], q == 0);
      }
    }
  }

  // A leaf split in two.
  ghost function LeafSplit(S: Heap, x: BPlusNode, fresh': BPlusNode, mid: nat): Heap
    requires x in S && mid <= |S[x].keys|
  {
    var n := S[x];
    S[x := n.(keys := n.keys[..mid], next := fresh')]
     [fresh' := NodeState(true, n.keys[mid..], [], n.next, n.parent)]
  }

  lemma {:induction false} LeafWasSplit(S: Heap, lv: seq<seq<MSlot>>, root: BPlusNode, p: nat, y: BPlusNode, mid: nat)
    requires Shape(S, lv, root, NONE, 0) && p < |lv[0]| && lv[0][p].id in S && y !in S
    requires 0 < mid < |S[lv[0][p].id].keys|
    ensures Shape(LeafSplit(S, lv[0][p].id, y, mid), lv[0 := Cut(lv[0], p, S[lv[0][p].id].keys[mid], y)], root, 0, p)
  {
    var x := lv[0][p].id;
    var key := S[x].keys[mid];
    var S' := LeafSplit(S, x, y, mid);
    var c := Cut(lv[0], p, key, y);
    var lv': seq<seq<MSlot>> := lv[0 := c];
    KeepsAll(S, S', lv, NONE, NONE);
    LeafPends(Inodes(S), Inodes(S'), lv, root, p, key, y);
    DistinctCut(lv, 0, p, key, y);
    assert LeafOk(S[x], lv[0][p], p == 0);
    CutOrdered(lv[0], p, key, y);
    CutLeaves(S, S', lv[0], p, mid, y);
    CutChained(S, S', lv[0], p, mid, y);
    assert Within(lv', S'.Keys) by {
      forall e, q | 0 <= e < |lv'| && 0 <= q < |lv'[e]| ensures lv'[e][q].id in S' {
        if e == 0 && q > p + 1 { assert c[q] == lv[0][q - 1]; }
      }
    }
  }

  lemma {:induction false} CutOrdered(slots: seq<MSlot>, p: nat, key: int, y: BPlusNode)
    requires Ordered(slots) && p < |slots| && AtLeast(key, slots[p].lo) && AtMost(key, slots[p].hi)
    ensures Ordered(Cut(slots, p, key, y))
  {
    var c := Cut(slots, p, key, y);
    forall i, j | 0 <= i < j < |c| ensures Leq(c[i].hi, c[j].lo) {
      var i', j' := if i <= p then i else i - 1, if j <= p then j else j - 1;
      if i' < j' { assert Leq(slots[i'].hi, slots[j'].lo); }
    }
  }

  lemma {:induction false} CutLeaves(S: Heap, S': Heap, slots: seq<MSlot>, p: nat, mid: nat, y: BPlusNode)
    requires LeavesOk(S, slots) && p < |slots| && y !in S && 0 < mid < |S[slots[p].id].keys|
    requires forall i, j :: 0 <= i < j < |slots| ==> slots[i].id != slots[j].id
    requires S' == LeafSplit(S, slots[p].id, y, mid)
    ensures LeavesOk(S', Cut(slots, p, S[slots[p].id].keys[mid], y))
  {
    var x := slots[p].id;
    var c := Cut(slots, p, S[x].keys[mid], y);
    assert LeafOk(S[x], slots[p], p == 0);
    forall q | 0 <= q < |c| ensures c[q].id in S' && LeafOk(S'[c[q].id], c[q], q == 0) {
      if q < p {
        assert LeafOk(S[slots[q].id], slots[q], q == 0);
      } else if q > p + 1 {
        assert c[q] == slots[q - 1];
        assert LeafOk(S[slots[q - 1].id], slots[q - 1], false);
      }
    }
  }

  lemma {:induction false} CutChained(S: Heap, S': Heap, slots: seq<MSlot>, p: nat, mid: nat, y: BPlusNode)
    requires Chained(S, slots) && p < |slots| && slots[p].id in S && y !in S && 0 < mid < |S[slots[p].id].keys|
    requires forall i, j :: 0 <= i < j < |slots| ==> slots[i].id != slots[j].id
    requires S' == LeafSplit(S, slots[p].id, y, mid)
    ensures Chained(S', Cut(slots, p, S[slots[p].id].keys[mid], y))
  {
    var c := Cut(slots, p, S[slots[p].id].keys[mid], y);
    forall q | 0 <= q < |c| ensures NextOk(S', c, q) {
      var o := if q <= p then q else q - 1;
      assert NextOk(S, slots, o) && NextOk(S, slots, p);
      if q > p + 1 {
        assert c[q] == slots[q - 1];
      }
      if q > p && q + 1 < |c| {
        assert c[q + 1] == slots[q];
      }
    }
  }

  // The parent given a separator and a child.
  ghost function ParentGrown(S: Heap, x: BPlusNode, i: nat, key: int, right: BPlusNode): Heap
    requires x in S && right in S && i < |S[x].children| && i <= |S[x].keys|
  {
    var n := S[x];
    S[x := n.(keys := n.keys[..i] + [key] + n.keys[i..], children :=
      n.children[..i + 1] + [right] + n.children[i + 1..])]
     [right := S[right].(parent := x)]
  }

  lemma {:induction false} ParentWasGrown(S: Heap, lv: seq<seq<MSlot>>, root: BPlusNode, d: nat, p: nat, q: nat, i: nat)
    requires Shape(S, lv, root, d, p) && d + 1 < |lv| && q < |lv[d + 1]| && lv[d + 1][q].id in S
    requires Covers(Inodes(S), lv[d + 1])
    requires i < |S[lv[d + 1][q].id].children| && Offset(Inodes(S), lv[d + 1], q) + i == p
    ensures Shape(ParentGrown(S, lv[d + 1][q].id, i, lv[d][p].hi.key, lv[d][p + 1].id), lv, root, NONE, 0)
  {
    var x, right := lv[d + 1][q].id, lv[d][p + 1].id;
    var m := Inodes(S);
    assert Wide(m[x]);
    assert right != x;
    var S' := ParentGrown(S, x, i, lv[d][p].hi.key, right);
    KeepsAll(S, S', lv, d + 1, q);
    assert Linked(m, lv, d, p, d + 1);
    GrowSettles(m, Inodes(S'), lv, root, d, p, q, i);
    assert right != root by {
      var top := |lv| - 1;
      assert Seen(lv, d, p, top)[0] == Slot(root, Bot, Top);
    }
    LeavesKept(S, S', lv[0]);
    GrownParented(S, lv, root, d, p, q, i);
  }

  lemma {:induction false} GrownParented(S: Heap, lv: seq<seq<MSlot>>, root: BPlusNode, d: nat, p: nat, q: nat, i: nat)
    requires Shape(S, lv, root, d, p) && d + 1 < |lv| && q < |lv[d + 1]| && lv[d + 1][q].id in S
    requires Covers(Inodes(S), lv[d + 1])
    requires i < |S[lv[d + 1][q].id].children| && Offset(Inodes(S), lv[d + 1], q) + i == p
    ensures Wide(Inodes(S)[lv[d + 1][q].id])
    ensures Parented(ParentGrown(S, lv[d + 1][q].id, i, lv[d][p].hi.key, lv[d][p + 1].id), lv)
  {
    var x, right := lv[d + 1][q].id, lv[d][p + 1].id;
    assert Wide(Inodes(S)[x]);
    var S' := ParentGrown(S, x, i, lv[d][p].hi.key, right);
    forall e, r, j | 1 <= e < |lv| && 0 <= r < |lv[e]| && lv[e][r].id in S' && 0 <= j < |S'[lv[e][r].id].children|
      ensures ParentOf(S', S'[lv[e][r].id].children[j], lv[e][r].id)
    {
      var z := lv[e][r].id;
      var j' := if z == x && j > i then j - 1 else j;
      if !(z == x && j == i + 1) {
        assert S'[z].children[j] == S[z].children[j'];
        assert ParentOf(S, S[z].children[j'], z);
        NotAChild(S, lv, root, d, p, e, r, j');
      }
    }
  }

  // The pending new node is nobody's child yet.
  lemma {:induction false} NotAChild(S: Heap, lv: seq<seq<MSlot>>, root: BPlusNode, d: nat, p: nat, e: nat, r: nat,
                                     j: nat)
    requires Shape(S, lv, root, d, p) && 1 <= e < |lv| && r < |lv[e]| && lv[e][r].id in S
      && j < |S[lv[e][r].id].children|
    ensures S[lv[e][r].id].children[j] != lv[d][p + 1].id
  {
    var m := Inodes(S);
    assert Linked(m, lv, d, p, e);
    ChildSlot(m, lv[e], r, j);
    var t := Offset(m, lv[e], r) + j;
    var low := Seen(lv, d, p, e - 1);
    assert low[t].id == S[lv[e][r].id].children[j];
    if e - 1 == d {
      assert low[t].id == (if t <= p then lv[d][t].id else lv[d][t + 1].id);
    }
  }

  // An internal node split around its separator mid; the moved children learn their new parent.
  ghost function InnerSplit(S: Heap, x: BPlusNode, y: BPlusNode, mid: nat): Heap
    requires x in S && mid < |S[x].keys| && mid < |S[x].children|
  {
    var n := S[x];
    map z | z in S.Keys + {y} ::
      if z == y then NodeState(false, n.keys[mid + 1..], n.children[mid + 1..], null, n.parent)
      else if z == x then n.(keys := n.keys[..mid], children := n.children[..mid + 1])
      else if z in n.children[mid + 1..] then S[z].(parent := y)
      else S[z]
  }

  lemma {:induction false} InnerSplitIs(S: Heap, S': Heap, x: BPlusNode, y: BPlusNode, mid: nat, moved: seq<BPlusNode>)
    requires x in S && mid < |S[x].keys| && mid < |S[x].children| && y !in S
    requires S'.Keys == S.Keys + {y} && moved == S[x].children[mid + 1..]
    requires S'[y] == NodeState(false, S[x].keys[mid + 1..], moved, null, S[x].parent)
    requires S'[x] == S[x].(keys := S[x].keys[..mid], children := S[x].children[..mid + 1])
    requires forall z :: z in S && z != x ==> S'[z] == if z in moved then S[z].(parent := y) else S[z]
    ensures S' == InnerSplit(S, x, y, mid)
  {
  }

  lemma {:induction false} InnerWasSplit(S: Heap, lv: seq<seq<MSlot>>, root: BPlusNode, d: nat, q: nat, y: BPlusNode,
                                         mid: nat)
    requires Shape(S, lv, root, NONE, 0) && 1 <= d < |lv| && q < |lv[d]| && lv[d][q].id in S && y !in S
    requires mid < |S[lv[d][q].id].keys| && Wide(Inodes(S)[lv[d][q].id])
    ensures Shape(InnerSplit(S, lv[d][q].id, y, mid), lv[d := Cut(lv[d], q, S[lv[d][q].id].keys[mid], y)], root, d, q)
  {
    var x := lv[d][q].id;
    var key := S[x].keys[mid];
    var S' := InnerSplit(S, x, y, mid);
    var c := Cut(lv[d], q, key, y);
    var lv': seq<seq<MSlot>> := lv[d := c];
    var m := Inodes(S);
    SplitKids(S, lv, root, d, q);
    KeepsAll(S, S', lv, d, q);
    assert Inodes(S')[x] == LowerHalf(m[x], mid);
    assert Inodes(S')[y] == UpperHalf(m[x], mid);
    SplitPends(m, Inodes(S'), lv, root, d, q, mid, y);
    DistinctCut(lv, d, q, key, y);
    forall r | 0 <= r < |c|
      ensures c[r].id == (if r <= q then lv[d][r].id else if r == q + 1 then y else lv[d][r - 1].id) {
    }
    assert Inner(S', lv');
    LeavesKept(S, S', lv[0]);
    SplitParented(S, lv, root, d, q, y, mid);
  }

  // The children of a node are other nodes than it and than the root, and its own parent is not among them.
  lemma {:induction false} SplitKids(S: Heap, lv: seq<seq<MSlot>>, root: BPlusNode, d: nat, q: nat)
    requires Shape(S, lv, root, NONE, 0) && 1 <= d < |lv| && q < |lv[d]| && lv[d][q].id in S
    ensures forall j :: 0 <= j < |S[lv[d][q].id].children| ==> S[lv[d][q].id].children[j] != root
    ensures forall j :: 0 <= j < |S[lv[d][q].id].children| ==> S[lv[d][q].id].children[j] != lv[d][q].id
    ensures forall j :: 0 <= j < |S[lv[d][q].id].children| ==> S[lv[d][q].id].children[j] in S
    ensures Wide(Inodes(S)[lv[d][q].id]) && !S[lv[d][q].id].isLeaf
  {
    InTree(S, lv, root, NONE, 0, d, q);
    var m := Inodes(S);
    var top := |lv| - 1;
    assert Seen(lv, NONE, 0, top)[0] == Slot(root, Bot, Top);
    forall j | 0 <= j < |S[lv[d][q].id].children|
      ensures S[lv[d][q].id].children[j] != root && S[lv[d][q].id].children[j] != lv[d][q].id
        && S[lv[d][q].id].children[j] in S
    {
      assert Linked(m, lv, NONE, 0, d);
      ChildSlot(m, lv[d], q, j);
      assert lv[d - 1][Offset(m, lv[d], q) + j].id == S[lv[d][q].id].children[j];
    }
  }

  lemma {:induction false} SplitParented(S: Heap, lv: seq<seq<MSlot>>, root: BPlusNode, d: nat, q: nat, y: BPlusNode,
                                         mid: nat)
    requires Shape(S, lv, root, NONE, 0) && 1 <= d < |lv| && q < |lv[d]| && lv[d][q].id in S && y !in S
    requires mid < |S[lv[d][q].id].keys| && Wide(Inodes(S)[lv[d][q].id])
    ensures Parented(InnerSplit(S, lv[d][q].id, y, mid), lv[d := Cut(lv[d], q, S[lv[d][q].id].keys[mid], y)])
  {
    var x := lv[d][q].id;
    var S' := InnerSplit(S, x, y, mid);
    var c := Cut(lv[d], q, S[x].keys[mid], y);
    var lv': seq<seq<MSlot>> := lv[d := c];
    forall e, r, j | 1 <= e < |lv'| && 0 <= r < |lv'[e]| && lv'[e][r].id in S' && 0 <= j < |S'[lv'[e][r].id].children|
      ensures ParentOf(S', S'[lv'[e][r].id].children[j], lv'[e][r].id)
    {
      var z := lv'[e][r].id;
      var r' := if e == d && r > q then r - 1 else r;
      var j' := if z == y then j + mid + 1 else j;
      var z' := lv[e][r'].id;
      assert e == d && r > q + 1 ==> c[r] == lv[d][r - 1];
      assert z == y <==> e == d && r == q + 1;
      assert z' == if z == y then x else z;
      assert S'[z].children[j] == S[z'].children[j'];
      assert ParentOf(S, S[z'].children[j'], z');
      SplitKids(S, lv, root, e, r');
      SameChild(S, lv, root, e, r', j', d, q);
    }
  }

  // A node is the child of one node only, in one place only.
  lemma {:induction false} SameChild(S: Heap, lv: seq<seq<MSlot>>, root: BPlusNode, e: nat, r: nat, j: nat, d: nat,
                                     q: nat)
    requires Shape(S, lv, root, NONE, 0) && 1 <= e < |lv| && r < |lv[e]| && 1 <= d < |lv| && q < |lv[d]|
    requires lv[e][r].id in S && j < |S[lv[e][r].id].children| && lv[d][q].id in S
    ensures forall i :: (0 <= i < |S[lv[d][q].id].children| && S[lv[d][q].id].children[i] == S[lv[e][r].id].children[j]
                         ==> e == d && r == q && i == j)
  {
    var m := Inodes(S);
    assert Linked(m, lv, NONE, 0, d) && Linked(m, lv, NONE, 0, e);
    ChildSlot(m, lv[e], r, j);
    forall i | 0 <= i < |S[lv[d][q].id].children| && S[lv[d][q].id].children[i] == S[lv[e][r].id].children[j]
      ensures e == d && r == q && i == j
    {
      ChildSlot(m, lv[d], q, i);
      assert ParentOf(S, S[lv[d][q].id].children[i], lv[d][q].id);
      assert ParentOf(S, S[lv[e][r].id].children[j], lv[e][r].id);
      assert lv[d - 1][Offset(m, lv[d], q) + i].id == lv[e - 1][Offset(m, lv[e], r) + j].id;
    }
  }

  // A new root over the two halves of the old one.
  ghost function RootAdded(S: Heap, left: BPlusNode, key: int, right: BPlusNode, top: BPlusNode): Heap
    requires left in S && right in S
  {
    S[left := S[left].(parent := top)][right := S[right].(parent := top)][top :=
      NodeState(false, [key], [left, right], null, null)]
  }

  lemma {:induction false} RootWasAdded(S: Heap, lv: seq<seq<MSlot>>, root: BPlusNode, d: nat, root': BPlusNode)
    requires Shape(S, lv, root, d, 0) && d == |lv| - 1 && root' !in S
    ensures |lv[d]| == 2 && lv[d][0].id == root && lv[d][1].id in S && lv[d][0].hi.Key?
    ensures Shape(RootAdded(S, root, lv[d][0].hi.key, lv[d][1].id, root'), lv + [[Slot(root', Bot, Top)]], root', NONE,
      0)
  {
    var f := Fold(lv[d], 0);
    assert Seen(lv, d, 0, d) == f;
    assert f[0].id == lv[d][0].id && |f| == |lv[d]| - 1;
    var right := lv[d][1].id;
    var S' := RootAdded(S, root, lv[d][0].hi.key, right, root');
    var lv': seq<seq<MSlot>> := lv + [[Slot(root', Bot, Top)]];
    KeepsAll(S, S', lv, NONE, NONE);
    RootSettles(Inodes(S), Inodes(S'), lv, root, root');
    DistinctRoot(lv, root');
    LeavesKept(S, S', lv[0]);
    assert Inner(S', lv');
    forall e, r, j | 1 <= e < |lv'| && 0 <= r < |lv'[e]| && lv'[e][r].id in S' && 0 <= j < |S'[lv'[e][r].id].children|
      ensures ParentOf(S', S'[lv'[e][r].id].children[j], lv'[e][r].id)
    {
      if e < |lv| {
        var z := lv[e][r].id;
        assert ParentOf(S, S[z].children[j], z);
        NotAChild(S, lv, root, d, 0, e, r, j);
        assert S[root].parent == null;
      }
    }
  }

  // Only the root has no parent.
  lemma {:induction false} AtTop(S: Heap, lv: seq<seq<MSlot>>, root: BPlusNode, d: nat, p: nat)
    requires Shape(S, lv, root, d, p) && d == |lv| - 1
    ensures p == 0 && |lv[d]| == 2 && lv[d][0].id == root && S[root].parent == null
  {
    var f := Fold(lv[d], p);
    assert Seen(lv, d, p, d) == f;
    assert |f| == |lv[d]| - 1;
    assert f[0].id == lv[d][0].id;
  }

  lemma {:induction false} LeafTakesKey(n: NodeState, s: MSlot, first: bool, key: int, ks: seq<int>)
    requires LeafOk(n, s, first) && AtLeast(key, s.lo) && Before(key, s.hi)
    requires Sorted(ks) && multiset(ks) == multiset(n.keys) + multiset{key}
    ensures LeafOk(n.(keys := ks), s, first) && |ks| == |n.keys| + 1
  {
    forall i | 0 <= i < |ks| ensures AtLeast(ks[i], s.lo) && AtMost(ks[i], s.hi) {
      assert ks[i] in multiset(ks);
      assert ks[i] == key || ks[i] in n.keys;
    }
    assert |multiset(ks)| == |ks|;
    if !first {
      assert n.keys[0] in multiset(ks);
      var j :| 0 <= j < |ks| && ks[j] == n.keys[0];
      assert AtLeast(ks[0], s.lo);
      assert j > 0 ==> ks[0] <= ks[j];
    }
  }

  lemma {:induction false} ContentsTakesKey(S: Heap, S': Heap, slots: seq<MSlot>, p: nat, key: int)
    requires forall q :: 0 <= q < |slots| ==> slots[q].id in S && slots[q].id in S'
    requires p < |slots| && multiset(S'[slots[p].id].keys) == multiset(S[slots[p].id].keys) + multiset{key}
    requires forall q :: 0 <= q < |slots| && q != p ==> S'[slots[q].id].keys == S[slots[q].id].keys
    ensures multiset(Contents(S', slots)) == multiset(Contents(S, slots)) + multiset{key}
  {
    ContentsAt(S, slots, p);
    ContentsAt(S', slots, p);
    ContentsFrame(S, S', slots[..p]);
    ContentsFrame(S, S', slots[p + 1..]);
  }

  lemma {:induction false} ContentsKept(S: Heap, S': Heap, slots: seq<MSlot>)
    requires forall q :: 0 <= q < |slots| ==> slots[q].id in S
    requires forall n :: n in S && S[n].isLeaf ==> n in S' && S'[n].keys == S[n].keys
    requires forall q :: 0 <= q < |slots| ==> S[slots[q].id].isLeaf
    ensures Contents(S', slots) == Contents(S, slots)
  {
    ContentsFrame(S, S', slots);
  }

  // A leaf split moves no key.
  lemma {:induction false} ContentsCut(S: Heap, slots: seq<MSlot>, p: nat, y: BPlusNode, mid: nat)
    requires forall q :: 0 <= q < |slots| ==> slots[q].id in S
    requires forall i, j :: 0 <= i < j < |slots| ==> slots[i].id != slots[j].id
    requires p < |slots| && y !in S && mid < |S[slots[p].id].keys|
    ensures forall q :: 0 <= q < |slots| + 1 ==>
      Cut(slots, p, S[slots[p].id].keys[mid], y)[q].id in LeafSplit(S, slots[p].id, y, mid)
    ensures Contents(LeafSplit(S, slots[p].id, y, mid), Cut(slots, p, S[slots[p].id].keys[mid], y)) ==
      Contents(S, slots)
  {
    var ks := S[slots[p].id].keys;
    var S' := LeafSplit(S, slots[p].id, y, mid);
    var a, b := slots[..p], slots[p + 1..];
    var two := [Slot(slots[p].id, slots[p].lo, Bound.Key(ks[mid])), Slot(y, Bound.Key(ks[mid]), slots[p].hi)];
    assert Contents(S', two) == ks by {
      assert two[1..][1..] == [];
      assert Contents(S', two[1..]) == ks[mid..];
      assert ks == ks[..mid] + ks[mid..];
    }
    ContentsAt(S, slots, p);
    assert Contents(S', a) == Contents(S, a) by { ContentsFrame(S, S', a); }
    assert Contents(S', b) == Contents(S, b) by { ContentsFrame(S, S', b); }
    assert Cut(slots, p, ks[mid], y) == a + two + b;
    ContentsConcat(S', a, two);
    ContentsConcat(S', a + two, b);
  }

  // A key added to the leaf that owns it.
  lemma {:induction false} LeafInsertStep(S: Heap, S': Heap, lv: seq<seq<MSlot>>, root: BPlusNode, p: nat, key: int,
                                          ks: seq<int>)
    requires Shape(S, lv, root, NONE, 0) && Bounded(S, lv, NONE, null) && p < |lv[0]| && lv[0][p].id in S
    requires AtLeast(key, lv[0][p].lo) && Before(key, lv[0][p].hi)
    requires Sorted(ks) && multiset(ks) == multiset(S[lv[0][p].id].keys) + multiset{key}
    requires S' == S[lv[0][p].id := S[lv[0][p].id].(keys := ks)]
    ensures Shape(S', lv, root, NONE, 0)
    ensures |ks| == |S[lv[0][p].id].keys| + 1 <= NODE_SIZE + 1
    ensures Bounded(S', lv, NONE, if |ks| > NODE_SIZE then lv[0][p].id else null)
    ensures multiset(Contents(S', lv[0])) == multiset(Contents(S, lv[0])) + multiset{key}
  {
    var x := lv[0][p].id;
    LeafOkIn(S, lv, root, p);
    LeafTakesKey(S[x], lv[0][p], p == 0, key, ks);
    LeafInserted(S, S', lv, root, p, ks);
    ContentsTakesKey(S, S', lv[0], p, key);
  }

  // Where a pending split finds its parent: nowhere at the top, one level up otherwise.
  lemma {:induction false} PendingParent(S: Heap, lv: seq<seq<MSlot>>, root: BPlusNode, d: nat, p: nat)
    requires Shape(S, lv, root, d, p) && d < |lv|
    ensures lv[d][p].id in S && lv[d][p + 1].id in S && lv[d][p].id != lv[d][p + 1].id
    ensures S[lv[d][p].id].parent == null <==> d == |lv| - 1
    ensures d == |lv| - 1 ==> p == 0 && lv[d][0].id == root
    ensures S[lv[d][p].id].parent != null ==> S[lv[d][p].id].parent in S && S[lv[d][p].id].parent != lv[d][p + 1].id
  {
    if d == |lv| - 1 {
      AtTop(S, lv, root, d, p);
    } else {
      var q, i := FindParent(S, lv, root, d, p, d, p);
    }
  }

  lemma {:induction false} RootStep(S: Heap, S': Heap, lv: seq<seq<MSlot>>, root: BPlusNode, d: nat, root': BPlusNode)
    returns (lv': seq<seq<MSlot>>)
    requires Shape(S, lv, root, d, 0) && Bounded(S, lv, d, null) && d == |lv| - 1 && root' !in S
    requires S' == RootAdded(S, root, lv[d][0].hi.key, lv[d][1].id, root')
    ensures lv'[..] == lv + [[Slot(root', Bot, Top)]] && lv'[0] == lv[0]
    ensures |lv[d]| == 2 && lv[d][0].id == root && lv[d][1].id in S && lv[d][0].hi.Key?
    ensures Shape(S', lv', root', NONE, 0)
    ensures Bounded(S', lv', NONE, null)
    ensures Contents(S', lv'[0]) == Contents(S, lv[0])
  {
    lv' := lv + [[Slot(root', Bot, Top)]];
    RootWasAdded(S, lv, root, d, root');
    ContentsKept(S, S', lv[0]);
  }

  lemma {:induction false} ParentStep(S: Heap, S': Heap, lv: seq<seq<MSlot>>, root: BPlusNode, d: nat, p: nat, q: nat,
                                      i: nat)
    requires Shape(S, lv, root, d, p) && Bounded(S, lv, d, null) && d + 1 < |lv| && q < |lv[d + 1]|
      && lv[d + 1][q].id in S
    requires Covers(Inodes(S), lv[d + 1]) && Wide(Inodes(S)[lv[d + 1][q].id])
    requires i < |S[lv[d + 1][q].id].children| && Offset(Inodes(S), lv[d + 1], q) + i == p
    requires S' == ParentGrown(S, lv[d + 1][q].id, i, lv[d][p].hi.key, lv[d][p + 1].id)
    ensures Shape(S', lv, root, NONE, 0)
    ensures |S[lv[d + 1][q].id].keys| <= NODE_SIZE
    ensures Bounded(S', lv, NONE,
                    if |S[lv[d + 1][q].id].keys| == NODE_SIZE then lv[d + 1][q].id else null)
    ensures Contents(S', lv[0]) == Contents(S, lv[0])
  {
    ParentWasGrown(S, lv, root, d, p, q, i);
    ContentsKept(S, S', lv[0]);
    forall e, r | 0 <= e < |lv| && 0 <= r < |lv[e]|
      && !(lv[e][r].id == lv[d + 1][q].id && |S[lv[d + 1][q].id].keys| == NODE_SIZE)
      ensures lv[e][r].id in S' && KeyCountOk(|S'[lv[e][r].id].keys|, e > 0, e == |lv| - 1)
    {
      if d == |lv| - 1 { AtTop(S, lv, root, d, p); }
      assert KeyCountOk(|S[lv[e][r].id].keys|, e > 0, e == |lv| - 1 && d != e);
    }
  }

  // A whole leaf split, seen from the tree: the level list it leaves behind.
  lemma {:induction false} LeafSplitStep(S: Heap, S': Heap, lv: seq<seq<MSlot>>, root: BPlusNode, p: nat, y: BPlusNode)
    returns (lv': seq<seq<MSlot>>)
    requires Shape(S, lv, root, NONE, 0) && p < |lv[0]| && lv[0][p].id in S && y !in S
    requires Bounded(S, lv, NONE, lv[0][p].id) && |S[lv[0][p].id].keys| == NODE_SIZE + 1
    requires S' == LeafSplit(S, lv[0][p].id, y, 3)
    ensures |lv'| == |lv| && p + 1 < |lv'[0]| && lv'[0][p].id == lv[0][p].id && lv'[0][p + 1].id == y
    ensures lv'[0][p].hi == Bound.Key(S[lv[0][p].id].keys[3])
    ensures Shape(S', lv', root, 0, p)
    ensures Bounded(S', lv', 0, null)
    ensures Contents(S', lv'[0]) == Contents(S, lv[0])
  {
    var x := lv[0][p].id;
    var key := S[x].keys[3];
    lv' := lv[0 := Cut(lv[0], p, key, y)];
    LeafWasSplit(S, lv, root, p, y, 3);
    ContentsCut(S, lv[0], p, y, 3);
    BoundedCut(S, S', lv, root, 0, p, key, y);
  }

  lemma {:induction false} InnerSplitStep(S: Heap, S': Heap, lv: seq<seq<MSlot>>, root: BPlusNode, d: nat, q: nat,
                                          y: BPlusNode) returns (lv': seq<seq<MSlot>>)
    requires Shape(S, lv, root, NONE, 0) && 1 <= d < |lv| && q < |lv[d]| && lv[d][q].id in S && y !in S
    requires Bounded(S, lv, NONE, lv[d][q].id) && |S[lv[d][q].id].keys| == NODE_SIZE + 1
    requires Wide(Inodes(S)[lv[d][q].id])
    requires S' == InnerSplit(S, lv[d][q].id, y, 2)
    ensures |lv'| == |lv| && lv'[0] == lv[0] && q + 1 < |lv'[d]| && lv'[d][q].id == lv[d][q].id && lv'[d][q + 1].id == y
    ensures lv'[d][q].hi == Bound.Key(S[lv[d][q].id].keys[2])
    ensures Shape(S', lv', root, d, q)
    ensures Bounded(S', lv', d, null)
    ensures Contents(S', lv'[0]) == Contents(S, lv[0])
  {
    var x := lv[d][q].id;
    var key := S[x].keys[2];
    lv' := lv[d := Cut(lv[d], q, key, y)];
    InnerWasSplit(S, lv, root, d, q, y, 2);
    BoundedCut(S, S', lv, root, d, q, key, y);
    ContentsKept(S, S', lv[0]);
  }

  lemma {:induction false} BoundedCut(S: Heap, S': Heap, lv: seq<seq<MSlot>>, root: BPlusNode, d: nat, q: nat, key: int,
                                      y: BPlusNode)
    requires Shape(S, lv, root, NONE, 0) && d < |lv| && q < |lv[d]|
    requires Bounded(S, lv, NONE, lv[d][q].id) && y !in S && y in S'
    requires forall n :: n in S ==> n in S' && (n == lv[d][q].id || S'[n].keys == S[n].keys)
    requires MIN_KEYS <= |S'[lv[d][q].id].keys| <= NODE_SIZE && MIN_KEYS <= |S'[y].keys| <= NODE_SIZE
    ensures Bounded(S', lv[d := Cut(lv[d], q, key, y)], d, null)
  {
    var c := Cut(lv[d], q, key, y);
    var lv': seq<seq<MSlot>> := lv[d := c];
    AloneAtTop(S, lv, root);
    forall e, r | 0 <= e < |lv'| && 0 <= r < |lv'[e]|
      ensures lv'[e][r].id in S' && KeyCountOk(|S'[lv'[e][r].id].keys|, e > 0, e == |lv'| - 1 && d != e)
    {
      if e == d && r > q + 1 {
        assert c[r] == lv[d][r - 1];
      }
    }
  }

  lemma {:induction false} AloneAtTop(S: Heap, lv: seq<seq<MSlot>>, root: BPlusNode)
    requires Shape(S, lv, root, NONE, 0)
    ensures lv[|lv| - 1] == [Slot(root, Bot, Top)]
  {
    assert Seen(lv, NONE, 0, |lv| - 1) == [Slot(root, Bot, Top)];
  }
}
