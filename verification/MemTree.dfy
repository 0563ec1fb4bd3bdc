// The B+ tree with iterator: insertion with splits that cascade to any height,
// point search, lower bound, and cursors over the leaf list.
module MemTree {
  import opened Levels
  import opened Towers
  import opened MemShape
  import opened MemSteps
  import opened MemCursor

  // What appending a key to a list and sorting the list leaves in it.
  method AppendAndSort(s: seq<int>, key: int) returns (r: seq<int>)
    requires Sorted(s)
    ensures Sorted(r) && multiset(r) == multiset(s) + multiset{key}
  {
    var i := |s|;
    while i > 0 && s[i - 1] > key
      invariant 0 <= i <= |s|
      invariant forall j :: i <= j < |s| ==> s[j] > key
    {
      i := i - 1;
    }
    r := s[..i] + [key] + s[i..];
    InsertedAt(s, key, i);
  }

  lemma {:induction false} InsertedSorted(a: seq<int>, key: int, b: seq<int>)
    requires Sorted(a) && Sorted(b)
    requires |a| > 0 ==> a[|a| - 1] <= key
    requires |b| > 0 ==> key < b[0]
    ensures Sorted(a + [key] + b)
  {
    SortedAppend(a, [key]);
    SortedAppend(a + [key], b);
  }

  lemma {:induction false} InsertedBag(a: seq<int>, key: int, b: seq<int>)
    ensures multiset(a + [key] + b) == multiset(a + b) + multiset{key}
  {
  }

  lemma {:induction false} InsertedAt(s: seq<int>, key: int, i: nat)
    requires Sorted(s) && i <= |s|
    requires i > 0 ==> s[i - 1] <= key
    requires forall j :: i <= j < |s| ==> s[j] > key
    ensures Sorted(s[..i] + [key] + s[i..])
    ensures multiset(s[..i] + [key] + s[i..]) == multiset(s) + multiset{key}
  {
    InsertedSorted(s[..i], key, s[i..]);
    InsertedBag(s[..i], key, s[i..]);
    assert s == s[..i] + s[i..];
  }

  lemma {:induction false} SortedAppend(a: seq<int>, b: seq<int>)
    requires Sorted(a) && Sorted(b)
    requires |a| > 0 && |b| > 0 ==> a[|a| - 1] <= b[0]
    ensures Sorted(a + b)
  {
    var r := a + b;
    forall x, y | 0 <= x < y < |r| ensures r[x] <= r[y] {
      if x < |a| <= y {
        assert r[x] <= a[|a| - 1] && b[0] <= r[y];
      }
    }
  }

  // The child to descend into: past every separator that is at most the key.
  method ChildIndex(keys: seq<int>, key: int) returns (i: nat)
    ensures i <= |keys|
    ensures i > 0 ==> key >= keys[i - 1]
    ensures i < |keys| ==> key < keys[i]
  {
    i := 0;
    while i < |keys| && key >= keys[i]
      invariant 0 <= i <= |keys|
      invariant i > 0 ==> key >= keys[i - 1]
    {
      i := i + 1;
    }
  }

  // The first position of a leaf whose key is not below the one asked for.
  method FirstAtLeast(keys: seq<int>, key: int) returns (i: nat)
    ensures i <= |keys|
    ensures forall j :: 0 <= j < i ==> keys[j] < key
    ensures i < |keys| ==> keys[i] >= key
  {
    i := 0;
    while i < |keys| && keys[i] < key
      invariant 0 <= i <= |keys|
      invariant forall j :: 0 <= j < i ==> keys[j] < key
    {
      i := i + 1;
    }
  }

  // The children of a new internal node learn who their parent is.
  method Reparent(cs: seq<BPlusNode>, up: BPlusNode)
    modifies cs`parent
    ensures forall c :: c in cs ==> c.State() == old(c.State()).(parent := up)
  {
    var k := 0;
    while k < |cs|
      invariant 0 <= k <= |cs|
      invariant forall j :: 0 <= j < k ==> cs[j].parent == up
    {
      cs[k].parent := up;
      k := k + 1;
    }
  }

  class BPlusTree {
    var root: BPlusNode
    ghost var nodes: set<BPlusNode>
    ghost var lv: seq<seq<MSlot>>

    ghost function Snap(): Heap
      reads `nodes, nodes
    {
      map n | n in nodes :: n.State()
    }

    ghost predicate Valid()
      reads this, nodes
    {
      Shape(Snap(), lv, root, NONE, 0) && Bounded(Snap(), lv, NONE, null)
    }

    // Every stored key, in the order of the leaf list.
    ghost function Keys(): seq<int>
      reads this, nodes
      requires Valid()
    {
      assert LeavesOk(Snap(), lv[0]);
      Contents(Snap(), lv[0])
    }

    constructor ()
      ensures Valid() && fresh(nodes) && Keys() == []
    {
      var leaf := new BPlusNode(true);
      root := leaf;
      nodes := {leaf};
      lv := [[Slot(leaf, Bot, Top)]];
      new;
      assert LeafOk(Snap()[root], lv[0][0], true);
      assert Contents(Snap(), lv[0][1..]) == [];
    }

    // The leaf whose interval the key falls into.
    method FindLeaf(key: int) returns (node: BPlusNode, ghost p: nat)
      requires Valid()
      ensures p < |lv[0]| && node == lv[0][p].id && node in nodes && node.isLeaf
      ensures AtLeast(key, lv[0][p].lo) && Before(key, lv[0][p].hi)
    {
      node := root;
      ghost var S, e := Snap(), |lv| - 1;
      p := 0;
      assert Seen(lv, NONE, 0, e)[0] == Slot(root, Bot, Top);
      InTree(S, lv, root, NONE, 0, e, p);
      while !node.isLeaf
        invariant 0 <= e < |lv| && p < |lv[e]| && node == lv[e][p].id && node in nodes
        invariant node.isLeaf <==> e == 0
        invariant AtLeast(key, lv[e][p].lo) && Before(key, lv[e][p].hi)
        decreases e
      {
        InTree(S, lv, root, NONE, 0, e, p);
        var i := ChildIndex(node.keys, key);
        p := Descend(S, lv, root, e, p, i, key);
        node := node.children[i];
        e := e - 1;
        InTree(S, lv, root, NONE, 0, e, p);
      }
    }

    method Insert(key: int)
      requires Valid()
      modifies this, nodes
      ensures Valid() && fresh(nodes - old(nodes))
      ensures multiset(Keys()) == multiset(old(Keys())) + multiset{key}
    {
      ghost var S := Snap();
      var leaf, p := FindLeaf(key);
      LeafOkIn(S, lv, root, p);
      InsertIntoLeaf(leaf, key);
      LeafInsertStep(S, Snap(), lv, root, p, key, leaf.keys);
      if |leaf.keys| > NODE_SIZE {
        SplitLeaf(leaf, p);
      }
    }

    method InsertIntoLeaf(leaf: BPlusNode, key: int)
      requires leaf in nodes && Sorted(leaf.keys)
      modifies leaf`keys
      ensures Sorted(leaf.keys) && multiset(leaf.keys) == multiset(old(leaf.keys)) + multiset{key}
      ensures Snap() == old(Snap())[leaf := old(Snap())[leaf].(keys := leaf.keys)]
    {
      leaf.keys := AppendAndSort(leaf.keys, key);
    }

    lemma KeysSorted()
      requires Valid()
      ensures Sorted(Keys())
    {
      ContentsSorted(Snap(), lv[0]);
    }

    method SplitLeaf(leaf: BPlusNode, ghost p: nat)
      requires Shape(Snap(), lv, root, NONE, 0) && Bounded(Snap(), lv, NONE, leaf)
      requires p < |lv[0]| && leaf == lv[0][p].id && leaf in nodes && |leaf.keys| == NODE_SIZE + 1
      modifies this, nodes
      ensures Valid() && fresh(nodes - old(nodes))
      ensures Keys() == old(Contents(Snap(), lv[0]))
    {
      ghost var first := nodes;
      var newLeaf, promoted := HalveLeaf(leaf, p);
      ghost var halved := nodes;
      InsertIntoParent(leaf, promoted, newLeaf, 0, p);
      assert nodes - first <= {newLeaf} + (nodes - halved);
    }

    // A leaf split up to the point where the parent has to be told.
    method HalveLeaf(leaf: BPlusNode, ghost p: nat) returns (newLeaf: BPlusNode, promoted: int)
      requires Shape(Snap(), lv, root, NONE, 0) && Bounded(Snap(), lv, NONE, leaf)
      requires p < |lv[0]| && leaf == lv[0][p].id && leaf in nodes && |leaf.keys| == NODE_SIZE + 1
      modifies `nodes, `lv, leaf
      ensures nodes == old(nodes) + {newLeaf} && fresh(newLeaf)
      ensures Shape(Snap(), lv, root, 0, p) && Bounded(Snap(), lv, 0, null)
      ensures leaf == lv[0][p].id && newLeaf == lv[0][p + 1].id && lv[0][p].hi == Bound.Key(promoted)
      ensures Contents(Snap(), lv[0]) == old(Contents(Snap(), lv[0]))
    {
      ghost var S := Snap();
      LeafOkIn(S, lv, root, p);
      newLeaf, promoted := CutLeaf(leaf);
      ghost var now := Snap();
      ghost var lv' := LeafSplitStep(S, now, lv, root, p, newLeaf);
      lv := lv';
      assert Snap() == now;
    }

    // The part of a leaf split that touches the two leaves.
    method CutLeaf(leaf: BPlusNode) returns (newLeaf: BPlusNode, promoted: int)
      requires leaf in nodes && leaf.isLeaf && |leaf.keys| == NODE_SIZE + 1
      modifies `nodes, leaf
      ensures fresh(newLeaf) && newLeaf !in old(nodes) && nodes == old(nodes) + {newLeaf}
      ensures Snap() == LeafSplit(old(Snap()), leaf, newLeaf, NODE_SIZE / 2 + 1)
      ensures leaf.keys == old(leaf.keys)[..3] && newLeaf.keys == old(leaf.keys)[3..]
      ensures promoted == old(leaf.keys)[NODE_SIZE / 2 + 1]
    {
      newLeaf := new BPlusNode(true);
      var mid := (|leaf.keys| + 1) / 2;
      newLeaf.keys := leaf.keys[mid..];
      leaf.keys := leaf.keys[..mid];
      newLeaf.next := leaf.next;
      leaf.next := newLeaf;
      newLeaf.parent := leaf.parent;
      promoted := newLeaf.keys[0];
      nodes := nodes + {newLeaf};
    }

    method SplitInternal(node: BPlusNode, ghost d: nat, ghost q: nat)
      requires Shape(Snap(), lv, root, NONE, 0) && Bounded(Snap(), lv, NONE, node)
      requires 1 <= d < |lv| && q < |lv[d]| && node == lv[d][q].id && node in nodes && |node.keys| == NODE_SIZE + 1
      modifies this, nodes
      ensures Valid() && fresh(nodes - old(nodes))
      ensures Keys() == old(Contents(Snap(), lv[0]))
      decreases |lv| - d, 1
    {
      var newInternal, promoted := HalveInternal(node, d, q);
      InsertIntoParent(node, promoted, newInternal, d, q);
    }

    // An internal split up to the point where the parent has to be told.
    method HalveInternal(node: BPlusNode, ghost d: nat, ghost q: nat) returns (newInternal: BPlusNode, promoted: int)
      requires Shape(Snap(), lv, root, NONE, 0) && Bounded(Snap(), lv, NONE, node)
      requires 1 <= d < |lv| && q < |lv[d]| && node == lv[d][q].id && node in nodes && |node.keys| == NODE_SIZE + 1
      modifies `nodes, `lv, nodes
      ensures nodes == old(nodes) + {newInternal} && fresh(newInternal) && |lv| == |old(lv)|
      ensures Shape(Snap(), lv, root, d, q) && Bounded(Snap(), lv, d, null)
      ensures node == lv[d][q].id && newInternal == lv[d][q + 1].id && lv[d][q].hi == Bound.Key(promoted)
      ensures Contents(Snap(), lv[0]) == old(Contents(Snap(), lv[0]))
    {
      ghost var S := Snap();
      SplitKids(S, lv, root, d, q);
      newInternal, promoted := CutInternal(node);
      ghost var now := Snap();
      ghost var lv' := InnerSplitStep(S, now, lv, root, d, q, newInternal);
      lv := lv';
      assert Snap() == now;
    }

    method CutAndMove(node: BPlusNode, mid: nat) returns (newInternal: BPlusNode)
      requires node in nodes && mid < |node.keys| && mid < |node.children| && node !in node.children[mid + 1..]
      requires forall j :: 0 <= j < |node.children| ==> node.children[j] in nodes
      modifies node, node.children[mid + 1..]
      ensures fresh(newInternal)
      ensures newInternal.State() ==
        NodeState(false, old(node.keys)[mid + 1..], old(node.children)[mid + 1..], null, old(node.parent))
      ensures node.State() ==
        old(node.State()).(keys := old(node.keys)[..mid], children := old(node.children)[..mid + 1])
      ensures forall z :: z in nodes && z != node ==>
        z.State() == if z in old(node.children)[mid + 1..]
          then old(z.State()).(parent := newInternal) else old(z.State())
    {
      newInternal := MoveUpper(node, mid);
      Truncate(node, mid);
    }

    // The part of an internal split that touches the two halves and the moved children.
    method CutInternal(node: BPlusNode) returns (newInternal: BPlusNode, promoted: int)
      requires node in nodes && !node.isLeaf && |node.keys| == NODE_SIZE + 1 && |node.children| == NODE_SIZE + 2
      requires forall j :: 0 <= j < |node.children| ==> node.children[j] in nodes && node.children[j] != node
      modifies `nodes, nodes
      ensures fresh(newInternal) && newInternal !in old(nodes) && nodes == old(nodes) + {newInternal}
      ensures Snap() == InnerSplit(old(Snap()), node, newInternal, NODE_SIZE / 2)
      ensures node.keys == old(node.keys)[..2] && newInternal.keys == old(node.keys)[3..]
      ensures promoted == old(node.keys)[NODE_SIZE / 2]
    {
      var mid := |node.keys| / 2;
      promoted := node.keys[mid];
      ghost var S, moved := Snap(), node.children[mid + 1..];
      newInternal := CutAndMove(node, mid);
      nodes := nodes + {newInternal};
      InnerSplitIs(S, Snap(), node, newInternal, mid, moved);
    }

    // The upper half with the children that move to it.
    method MoveUpper(node: BPlusNode, mid: nat) returns (newInternal: BPlusNode)
      requires mid < |node.keys| && mid < |node.children| && node !in node.children[mid + 1..]
      modifies node.children[mid + 1..]
      ensures fresh(newInternal) && node.State() == old(node.State())
      ensures newInternal.State() == NodeState(false, node.keys[mid + 1..], node.children[mid + 1..], null, node.parent)
      ensures forall c :: c in node.children[mid + 1..] ==> c.State() == old(c.State()).(parent := newInternal)
    {
      newInternal := UpperNode(node, mid);
      Reparent(newInternal.children, newInternal);
    }

    method UpperNode(node: BPlusNode, mid: nat) returns (newInternal: BPlusNode)
      requires mid < |node.keys| && mid < |node.children|
      ensures fresh(newInternal)
      ensures newInternal.State() == NodeState(false, node.keys[mid + 1..], node.children[mid + 1..], null, node.parent)
    {
      newInternal := new BPlusNode(false);
      newInternal.keys := node.keys[mid + 1..];
      newInternal.children := node.children[mid + 1..];
      newInternal.parent := node.parent;
    }

    method Truncate(node: BPlusNode, mid: nat)
      requires mid <= |node.keys| && mid + 1 <= |node.children|
      modifies node`keys, node`children
      ensures node.State() ==
        old(node.State()).(keys := old(node.keys)[..mid], children := old(node.children)[..mid + 1])
    {
      node.keys := node.keys[..mid];
      node.children := node.children[..mid + 1];
    }

    method InsertIntoParent(left: BPlusNode, key: int, right: BPlusNode, ghost d: nat, ghost p: nat)
      requires d < |lv| && p + 1 < |lv[d]|
      requires Shape(Snap(), lv, root, d, p) && Bounded(Snap(), lv, d, null)
      requires left == lv[d][p].id && right == lv[d][p + 1].id && lv[d][p].hi == Bound.Key(key)
      modifies this, nodes
      ensures Valid() && fresh(nodes - old(nodes))
      ensures Keys() == old(Contents(Snap(), lv[0]))
      decreases |lv| - d, 0
    {
      PendingParent(Snap(), lv, root, d, p);
      if left.parent == null {
        GrowRoot(left, key, right, d);
      } else {
        var parent := left.parent;
        ghost var q := InsertIntoNode(left, key, right, d, p);
        if |parent.keys| > NODE_SIZE {
          SplitInternal(parent, d + 1, q);
        }
      }
    }

    // The old root was split: the tree gets one level higher.
    method GrowRoot(left: BPlusNode, key: int, right: BPlusNode, ghost d: nat)
      requires d == |lv| - 1 && 1 < |lv[d]|
      requires Shape(Snap(), lv, root, d, 0) && Bounded(Snap(), lv, d, null)
      requires left == lv[d][0].id == root && right == lv[d][1].id && lv[d][0].hi == Bound.Key(key)
      modifies this, left`parent, right`parent
      ensures Valid() && fresh(nodes - old(nodes))
      ensures Keys() == old(Contents(Snap(), lv[0]))
    {
      ghost var S := Snap();
      PendingParent(S, lv, root, d, 0);
      var newRoot := AddRoot(left, key, right);
      ghost var now := Snap();
      ghost var lv' := RootStep(S, now, lv, left, d, newRoot);
      lv := lv';
      assert Snap() == now;
    }

    // The parent told of its new child; it may now hold one key too many.
    method InsertIntoNode(left: BPlusNode, key: int, right: BPlusNode, ghost d: nat, ghost p: nat)
      returns (ghost q: nat)
      requires d + 1 < |lv| && p + 1 < |lv[d]|
      requires Shape(Snap(), lv, root, d, p) && Bounded(Snap(), lv, d, null)
      requires left == lv[d][p].id && right == lv[d][p + 1].id && lv[d][p].hi == Bound.Key(key)
      requires left in nodes && left.parent != null
      modifies left.parent, right`parent
      ensures q < |lv[d + 1]| && old(left.parent) == lv[d + 1][q].id && old(left.parent) in nodes
      ensures Shape(Snap(), lv, root, NONE, 0)
      ensures |old(left.parent).keys| <= NODE_SIZE + 1
      ensures Bounded(Snap(), lv, NONE, if |old(left.parent).keys| > NODE_SIZE then old(left.parent) else null)
      ensures Contents(Snap(), lv[0]) == old(Contents(Snap(), lv[0]))
    {
      ghost var S, i := Snap(), 0;
      PendingParent(S, lv, root, d, p);
      q, i := FindParent(S, lv, root, d, p, d, p);
      InTree(S, lv, root, d, p, d + 1, q);
      AddToParent(left, key, right, i);
      ParentStep(S, Snap(), lv, root, d, p, q, i);
    }

    method AddRoot(left: BPlusNode, key: int, right: BPlusNode) returns (newRoot: BPlusNode)
      requires left in nodes && right in nodes
      modifies `root, `nodes, left`parent, right`parent
      ensures fresh(newRoot) && newRoot !in old(nodes) && nodes == old(nodes) + {newRoot} && root == newRoot
      ensures Snap() == RootAdded(old(Snap()), left, key, right, newRoot)
    {
      newRoot := new BPlusNode(false);
      newRoot.keys := [key];
      newRoot.children := [left, right];
      left.parent := newRoot;
      right.parent := newRoot;
      root := newRoot;
      nodes := nodes + {newRoot};
    }

    method AddToParent(left: BPlusNode, key: int, right: BPlusNode, ghost i: nat)
      requires left in nodes && right in nodes && left.parent != null && left.parent in nodes && right != left.parent
        && right != left
      requires |left.parent.children| == |left.parent.keys| + 1
      requires i < |left.parent.children| && left.parent.children[i] == left && OnlyAt(left.parent.children, left, i)
      modifies left.parent, right`parent
      ensures Snap() == ParentGrown(old(Snap()), old(left.parent), i, key, right)
    {
      var parent := left.parent;
      var idx := 0;
      while parent.children[idx] != left
        invariant 0 <= idx <= i
        decreases i - idx
      {
        idx := idx + 1;
      }
      parent.keys := parent.keys[..idx] + [key] + parent.keys[idx..];
      parent.children := parent.children[..idx + 1] + [right] + parent.children[idx + 1..];
      right.parent := parent;
    }

    // The cursor stands at position x of the stored keys, in leaf q; past the last key it has no leaf.
    ghost predicate Standing(c: IndexCursor, q: nat, x: nat)
      reads this, nodes, c
      requires Valid()
    {
      StandsAt(Snap(), lv[0], c.leaf, c.index, q, x)
    }

    // A cursor to the key, exactly when it is stored.
    method Search(key: int) returns (c: IndexCursor?, ghost q: nat, ghost x: nat)
      requires Valid()
      ensures c != null <==> key in Keys()
      ensures c != null ==> fresh(c) && Standing(c, q, x) && x < |Keys()| && Keys()[x] == key
    {
      var leaf, index;
      leaf, index, q, x := SearchSpot(key);
      if leaf == null {
        c := null;
      } else {
        c := new IndexCursor(leaf, index);
      }
    }

    method SearchSpot(key: int) returns (leaf: BPlusNode?, index: nat, ghost q: nat, ghost x: nat)
      requires Valid()
      ensures leaf != null <==> key in Keys()
      ensures leaf != null ==> StandsAt(Snap(), lv[0], leaf, index, q, x) && x < |Keys()| && Keys()[x] == key
    {
      var node;
      node, q := FindLeaf(key);
      index := 0;
      LeafOkIn(Snap(), lv, root, q);
      Routed(Snap(), lv[0], q, key);
      x := |Contents(Snap(), lv[0][..q])|;
      ContentsAt(Snap(), lv[0], q);
      while index < |node.keys|
        invariant 0 <= index <= |node.keys|
        invariant key !in node.keys[..index]
      {
        if node.keys[index] == key {
          leaf, x := node, x + index;
          return;
        }
        index := index + 1;
      }
      assert node.keys[..index] == node.keys;
      leaf := null;
    }

    // Two neighbouring leaves part copies of the key.
    ghost predicate Parted(key: int)
      reads this, nodes
      requires Valid()
    {
      CopiesParted(Snap(), lv[0], key)
    }

    // A cursor from which every key still to come is at least `key`, and everything before is at most `key`.
    // Copies of the key are among those before exactly when two leaves part them; so a key stored at most
    // once never is, and one stored more often than fits a leaf always is.
    method LowerBound(key: int) returns (c: IndexCursor?, ghost q: nat, ghost x: nat)
      requires Valid()
      ensures Valid() && x <= |Keys()|
      ensures c == null ==> x == |Keys()|
      ensures c != null ==> fresh(c) && Standing(c, q, x)
      ensures Straddles(Keys(), x, key)
      ensures multiset(Keys())[key] <= 1 ==> key !in Keys()[..x]
      ensures multiset(Keys())[key] > NODE_SIZE ==> key in Keys()[..x]
      ensures key in Keys()[..x] <==> Parted(key)
    {
      var leaf, index;
      leaf, index, q, x := LowerBoundSpot(key);
      ghost var S := Snap();
      if leaf == null {
        c := null;
      } else {
        c := new IndexCursor(leaf, index);
      }
      assert Snap() == S;
    }

    method LowerBoundSpot(key: int) returns (leaf: BPlusNode?, index: nat, ghost q: nat, ghost x: nat)
      requires Valid()
      ensures StandsAt(Snap(), lv[0], leaf, index, q, x)
      ensures leaf == null ==> x == |Keys()|
      ensures Straddles(Keys(), x, key)
      ensures multiset(Keys())[key] <= 1 ==> key !in Keys()[..x]
      ensures multiset(Keys())[key] > NODE_SIZE ==> key in Keys()[..x]
      ensures key in Keys()[..x] <==> Parted(key)
    {
      ghost var p;
      var node;
      node, p := FindLeaf(key);
      LeafOkIn(Snap(), lv, root, p);
      index := FirstAtLeast(node.keys, key);
      q, x := LowerBoundFound(Snap(), lv, root, p, key, index);
      if index < |node.keys| {
        leaf := node;
      } else {
        leaf, index := node.next, 0;
      }
    }

    // What LowerBound says of the position it comes to, and the keys from there on.
    method ReadFrom(key: int) returns (out: seq<int>, ghost x: nat)
      requires Valid()
      ensures x <= |Keys()| && out == Keys()[x..] && Straddles(Keys(), x, key)
      ensures multiset(Keys())[key] <= 1 ==> key !in Keys()[..x]
      ensures multiset(Keys())[key] > NODE_SIZE ==> key in Keys()[..x]
      ensures key in Keys()[..x] <==> Parted(key)
    {
      var c;
      ghost var q;
      c, q, x := LowerBound(key);
      if c == null {
        return [], x;
      }
      ghost var S := Snap();
      out := Drain(c, q, x);
      assert Snap() == S;
    }

    // Reading on from a lower bound until the cursor runs out.
    method RangeFrom(key: int) returns (out: seq<int>)
      requires Valid()
      ensures multiset(Keys())[key] <= 1 ==> out == Filtered(Keys(), key)
      ensures multiset(Keys())[key] > NODE_SIZE ==> |out| < |Filtered(Keys(), key)|
      ensures out == Filtered(Keys(), key) <==> !Parted(key)
      ensures Parted(key) ==> |out| < |Filtered(Keys(), key)|
    {
      ghost var x;
      out, x := ReadFrom(key);
      SuffixFiltered(Keys(), x, key);
    }

    // Where copies are parted, at least one is missed.
    method RangeMissing(key: int) returns (out: seq<int>)
      requires Valid() && Parted(key)
      ensures |out| < |Filtered(Keys(), key)|
    {
      ghost var S := Snap();
      out := RangeFrom(key);
      assert Snap() == S;
    }

    method Drain(c: IndexCursor, ghost q0: nat, ghost x0: nat) returns (out: seq<int>)
      requires Valid() && Standing(c, q0, x0)
      modifies c
      ensures x0 <= |Keys()| && out == Keys()[x0..]
    {
      out := DrainLeaves(c, Snap(), lv[0], q0, x0);
    }

    // A standing cursor is valid exactly while keys remain, and shows the key it stands at.
    lemma CursorLive(c: IndexCursor, q: nat, x: nat)
      requires Valid() && Standing(c, q, x)
      ensures x <= |Keys()|
      ensures c.IsValid() <==> x < |Keys()|
      ensures c.IsValid() ==> c.leaf in nodes && c.leaf.keys[c.index] == Keys()[x]
    {
      StandsLive(c, Snap(), lv[0], q, x);
    }
  }

  // The nodes are as in S.
  ghost predicate Mirrors(S: Heap)
    reads S.Keys
  {
    forall n :: n in S ==> n.State() == S[n]
  }

  lemma {:induction false} StandsLive(c: IndexCursor, S: Heap, slots: seq<MSlot>, q: nat, x: nat)
    requires Mirrors(S) && LeavesOk(S, slots) && StandsAt(S, slots, c.leaf, c.index, q, x)
    ensures x <= |Contents(S, slots)|
    ensures c.IsValid() <==> x < |Contents(S, slots)|
    ensures c.IsValid() ==> c.leaf in S && c.leaf.keys[c.index] == Contents(S, slots)[x]
  {
    if q < |slots| {
      ContentsAt(S, slots, q);
      assert c.leaf.State() == S[slots[q].id];
    }
  }

  // The loop of the demo at the end of the program.
  method DrainLeaves(c: IndexCursor, ghost S: Heap, ghost slots: seq<MSlot>, ghost q0: nat, ghost x0: nat)
    returns (out: seq<int>)
    requires Mirrors(S) && LeavesOk(S, slots) && Chained(S, slots) && StandsAt(S, slots, c.leaf, c.index, q0, x0)
    modifies c
    ensures x0 <= |Contents(S, slots)| && out == Contents(S, slots)[x0..]
  {
    ghost var q, x, K := q0, x0, Contents(S, slots);
    out := [];
    StandsLive(c, S, slots, q, x);
    while c.IsValid()
      invariant Mirrors(S) && StandsAt(S, slots, c.leaf, c.index, q, x)
      invariant x0 <= x <= |K| && out + K[x..] == K[x0..] && (c.IsValid() <==> x < |K|)
      decreases |K| - x
    {
      StandsLive(c, S, slots, q, x);
      OneTaken(out, K, x0, x, c.Value());
      out := out + [c.Value()];
      q, x := c.NextTuple(S, slots, q, x);
      StandsLive(c, S, slots, q, x);
    }
  }

  class IndexCursor {
    var leaf: BPlusNode?
    var index: nat

    constructor (leaf: BPlusNode?, index: nat)
      ensures this.leaf == leaf && this.index == index
    {
      this.leaf, this.index := leaf, index;
    }

    predicate IsValid()
      reads this, leaf
    {
      leaf != null && index < |leaf.keys|
    }

    function Value(): int
      reads this, leaf
      requires IsValid()
    {
      leaf.keys[index]
    }

    method NextTuple(ghost S: Heap, ghost slots: seq<MSlot>, ghost q: nat, ghost x: nat)
      returns (ghost q': nat, ghost x': nat)
      requires Mirrors(S) && LeavesOk(S, slots) && Chained(S, slots) && StandsAt(S, slots, leaf, index, q, x)
        && IsValid()
      modifies this
      ensures Mirrors(S) && x' == x + 1 && StandsAt(S, slots, leaf, index, q', x')
    {
      q', x' := q, x + 1;
      assert leaf.State() == S[leaf];
      if index + 1 < |leaf.keys| {
        index := index + 1;
      } else {
        NextStands(S, slots, leaf, index, q, x);
        q' := q + 1;
        leaf := leaf.next;
        index := 0;
      }
    }
  }

  lemma {:induction false} OneTaken(out: seq<int>, K: seq<int>, x0: nat, x: nat, value: int)
    requires x0 <= x < |K| && out + K[x..] == K[x0..] && value == K[x]
    ensures out + [value] + K[x + 1..] == K[x0..]
  {
    assert K[x..] == [value] + K[x + 1..];
  }

  lemma {:induction false} OneMore(xs: seq<int>, i: nat)
    requires i < |xs|
    ensures multiset(xs[..i + 1]) == multiset(xs[..i]) + multiset{xs[i]}
  {
    assert xs[..i + 1] == xs[..i] + [xs[i]];
  }

  // A tree built by inserting, in any order, holds exactly what was inserted, in order.
  method Build(xs: seq<int>) returns (t: BPlusTree)
    ensures t.Valid() && fresh(t) && fresh(t.nodes)
    ensures multiset(t.Keys()) == multiset(xs) && Sorted(t.Keys())
  {
    t := new BPlusTree();
    InsertAll(t, xs);
    t.KeysSorted();
  }

  method InsertAll(t: BPlusTree, xs: seq<int>)
    requires t.Valid() && t.Keys() == []
    modifies t, t.nodes
    ensures t.Valid() && fresh(t.nodes - old(t.nodes))
    ensures multiset(t.Keys()) == multiset(xs)
  {
    var i := 0;
    while i < |xs|
      invariant i <= |xs| && t.Valid() && fresh(t.nodes - old(t.nodes))
      invariant multiset(t.Keys()) == multiset(xs[..i])
    {
      ghost var keys := t.Keys();
      t.Insert(xs[i]);
      assert multiset(t.Keys()) == multiset(keys) + multiset{xs[i]};
      OneMore(xs, i);
      i := i + 1;
    }
    assert xs[..i] == xs;
  }

  method BuildSorted(xs: seq<int>) returns (t: BPlusTree)
    requires Sorted(xs)
    ensures t.Valid() && fresh(t) && t.Keys() == xs
  {
    t := Build(xs);
    SameSorted(t.Keys(), xs);
  }

  // Three copies of a key that the cursor does not all find.
  method MissedCopies(a: int, key: int, b: int) returns (out: seq<int>)
    requires a < key < b
    ensures |out| < |Filtered([a, key, key, key, b], key)|
  {
    var t := BuildSorted([a, key, key, key, b]);
    ThreeParted(t.Snap(), t.lv, t.root, a, key, b);
    out := t.RangeMissing(key);
  }

  lemma {:induction false} SameHead(a: seq<int>, b: seq<int>)
    requires Sorted(a) && a != [] && b != [] && multiset(a) == multiset(b)
    ensures a[0] <= b[0]
  {
    assert b[0] in multiset(b);
    assert b[0] in a;
  }

  lemma {:induction false} SameSorted(a: seq<int>, b: seq<int>)
    requires Sorted(a) && Sorted(b) && multiset(a) == multiset(b)
    ensures a == b
  {
    assert |a| == |multiset(a)| && |b| == |multiset(b)|;
    if a != [] {
      SameHead(a, b);
      SameHead(b, a);
      assert a == [a[0]] + a[1..] && b == [b[0]] + b[1..];
      assert multiset(a[1..]) == multiset(a) - multiset{a[0]} && multiset(b[1..]) == multiset(b) - multiset{b[0]};
      SameSorted(a[1..], b[1..]);
    }
  }
}
