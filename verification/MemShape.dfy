// The in-memory B+ tree as a value: what every node holds, and what makes those
// nodes a search tree.  The lemmas say what each step of an insertion keeps.
module MemShape {
  import opened Levels
  import opened Towers

  const NODE_SIZE := 4
  const MIN_KEYS := 2

  class BPlusNode {
    var isLeaf: bool
    var keys: seq<int>
    var children: seq<BPlusNode>
    var next: BPlusNode?
    var parent: BPlusNode?

    constructor (isLeaf: bool)
      ensures this.isLeaf == isLeaf && keys == [] && children == [] && next == null && parent == null
    {
      this.isLeaf, keys, children, next, parent := isLeaf, [], [], null, null;
    }

    ghost function State(): NodeState
      reads this
    {
      NodeState(isLeaf, keys, children, next, parent)
    }
  }

  datatype NodeState = NodeState(isLeaf: bool, keys: seq<int>, children: seq<BPlusNode>, next: BPlusNode?,
    parent: BPlusNode?)

  type Heap = map<BPlusNode, NodeState>
  type MSlot = Slot<BPlusNode, int>

  ghost function Inodes(S: Heap): map<BPlusNode, Inode<BPlusNode, int>> {
    map n | n in S :: Inode(S[n].keys, S[n].children)
  }

  // Bounds in the order of the keys.  An upper bound may be met: a leaf that was split
  // between two equal keys keeps one of them.
  ghost predicate AtLeast(k: int, lo: Bound<int>) {
    lo.Bot? || (lo.Key? && lo.key <= k)
  }

  ghost predicate AtMost(k: int, hi: Bound<int>) {
    hi.Top? || (hi.Key? && k <= hi.key)
  }

  ghost predicate Before(k: int, hi: Bound<int>) {
    hi.Top? || (hi.Key? && k < hi.key)
  }

  ghost predicate Leq(a: Bound<int>, b: Bound<int>) {
    a.Bot? || b.Top? || (a.Key? && b.Key? && a.key <= b.key)
  }

  ghost predicate Sorted(s: seq<int>) {
    forall i, j :: 0 <= i < j < |s| ==> s[i] <= s[j]
  }

  ghost predicate Ordered(slots: seq<MSlot>) {
    forall i, j :: 0 <= i < j < |slots| ==> Leq(slots[i].hi, slots[j].lo)
  }

  // A leaf is sorted, keeps to its interval, and, unless it is the first one,
  // still holds the separator it was split off with.
  ghost predicate LeafOk(n: NodeState, s: MSlot, first: bool) {
    && n.isLeaf
    && Sorted(n.keys)
    && (forall i :: 0 <= i < |n.keys| ==> AtLeast(n.keys[i], s.lo) && AtMost(n.keys[i], s.hi))
    && (!first ==> |n.keys| > 0 && s.lo == Bound.Key(n.keys[0]))
  }

  ghost predicate LeavesOk(S: Heap, slots: seq<MSlot>) {
    forall q :: 0 <= q < |slots| ==> slots[q].id in S && LeafOk(S[slots[q].id], slots[q], q == 0)
  }

  // The leaf list: each leaf points at the one to its right, the last at nothing.
  ghost predicate Chained(S: Heap, slots: seq<MSlot>) {
    forall q :: 0 <= q < |slots| ==> NextOk(S, slots, q)
  }

  ghost predicate NextOk(S: Heap, slots: seq<MSlot>, q: nat)
    requires q < |slots|
  {
    slots[q].id in S && S[slots[q].id].next == (if q + 1 < |slots| then slots[q + 1].id else null)
  }

  ghost predicate ParentOf(S: Heap, n: BPlusNode, up: BPlusNode) {
    n in S && S[n].parent == up
  }

  ghost predicate Parented(S: Heap, lv: seq<seq<MSlot>>) {
    forall e, q, i :: 1 <= e < |lv| && 0 <= q < |lv[e]| && lv[e][q].id in S && 0 <= i < |S[lv[e][q].id].children| ==>
      ParentOf(S, S[lv[e][q].id].children[i], lv[e][q].id)
  }

  ghost predicate Inner(S: Heap, lv: seq<seq<MSlot>>) {
    forall e, q :: 1 <= e < |lv| && 0 <= q < |lv[e]| ==> lv[e][q].id in S && !S[lv[e][q].id].isLeaf
  }

  // Node counts: at most NODE_SIZE keys everywhere, at least MIN_KEYS below the root,
  // except in the one node `over` that is about to be split.
  ghost predicate Bounded(S: Heap, lv: seq<seq<MSlot>>, d: int, over: BPlusNode?) {
    forall e, q :: 0 <= e < |lv| && 0 <= q < |lv[e]| && lv[e][q].id != over ==>
      lv[e][q].id in S && KeyCountOk(|S[lv[e][q].id].keys|, e > 0, e == |lv| - 1 && d != e)
  }

  predicate KeyCountOk(n: nat, inner: bool, atRoot: bool) {
    n <= NODE_SIZE && (if atRoot then (inner ==> n >= 1) else n >= MIN_KEYS)
  }

  // A search tree whose level d may hold one split (of slot p) not yet known to the level above.
  ghost predicate Shape(S: Heap, lv: seq<seq<MSlot>>, root: BPlusNode, d: int, p: nat) {
    && Within(lv, S.Keys)
    && Distinct(lv)
    && Tower(Inodes(S), lv, root, d, p)
    && root in S && S[root].parent == null
    && Inner(S, lv)
    && Parented(S, lv)
    && LeavesOk(S, lv[0]) && Ordered(lv[0]) && Chained(S, lv[0])
    && (d != NONE ==> lv[d][p].id in S && lv[d][p + 1].id in S && S[lv[d][p + 1].id].parent == S[lv[d][p].id].parent)
  }

  // The stored keys, in leaf order.
  ghost function Contents(S: Heap, slots: seq<MSlot>): seq<int>
    requires forall q :: 0 <= q < |slots| ==> slots[q].id in S
  {
    if slots == [] then [] else S[slots[0].id].keys + Contents(S, slots[1..])
  }

  lemma {:induction false} ContentsConcat(S: Heap, a: seq<MSlot>, b: seq<MSlot>)
    requires forall q :: 0 <= q < |a| ==> a[q].id in S
    requires forall q :: 0 <= q < |b| ==> b[q].id in S
    ensures forall q :: 0 <= q < |a + b| ==> (a + b)[q].id in S
    ensures Contents(S, a + b) == Contents(S, a) + Contents(S, b)
  {
    if a == [] {
      assert a + b == b;
    } else {
      ContentsConcat(S, a[1..], b);
      assert (a + b)[1..] == a[1..] + b;
    }
  }

  lemma {:induction false} ContentsAt(S: Heap, slots: seq<MSlot>, p: nat)
    requires p < |slots| && forall q :: 0 <= q < |slots| ==> slots[q].id in S
    ensures Contents(S, slots) == Contents(S, slots[..p]) + S[slots[p].id].keys + Contents(S, slots[p + 1..])
  {
    assert slots == slots[..p] + slots[p..];
    ContentsConcat(S, slots[..p], slots[p..]);
    assert slots[p..][1..] == slots[p + 1..];
  }

  lemma {:induction false} ContentsFrame(S: Heap, S': Heap, slots: seq<MSlot>)
    requires forall q :: 0 <= q < |slots| ==>
      slots[q].id in S && slots[q].id in S' && S'[slots[q].id].keys == S[slots[q].id].keys
    ensures Contents(S', slots) == Contents(S, slots)
  {
    if slots != [] {
      ContentsFrame(S, S', slots[1..]);
    }
  }

  // Every stored key lies in some leaf.
  lemma {:induction false} ContentsLocate(S: Heap, slots: seq<MSlot>, x: nat) returns (q: nat, i: nat)
    requires forall q :: 0 <= q < |slots| ==> slots[q].id in S
    requires x < |Contents(S, slots)|
    ensures q < |slots| && i < |S[slots[q].id].keys| && Contents(S, slots)[x] == S[slots[q].id].keys[i]
    ensures x == |Contents(S, slots[..q])| + i
  {
    var n := |S[slots[0].id].keys|;
    if x < n {
      q, i := 0, x;
    } else {
      q, i := ContentsLocate(S, slots[1..], x - n);
      assert slots[..q + 1][1..] == slots[1..][..q];
      q := q + 1;
    }
  }

  lemma {:induction false} PrefixMonotone(S: Heap, slots: seq<MSlot>, q: nat, r: nat)
    requires q <= r <= |slots| && forall q :: 0 <= q < |slots| ==> slots[q].id in S
    ensures |Contents(S, slots[..q])| <= |Contents(S, slots[..r])|
  {
    assert slots[..r] == slots[..q] + slots[q..r];
    ContentsConcat(S, slots[..q], slots[q..r]);
  }

  lemma {:induction false} PrefixStep(S: Heap, slots: seq<MSlot>, q: nat)
    requires q < |slots| && forall q :: 0 <= q < |slots| ==> slots[q].id in S
    ensures Contents(S, slots[..q + 1]) == Contents(S, slots[..q]) + S[slots[q].id].keys
  {
    assert slots[..q + 1] == slots[..q] + [slots[q]];
    ContentsConcat(S, slots[..q], [slots[q]]);
    assert Contents(S, [slots[q]][1..]) == [];
    assert Contents(S, [slots[q]]) == S[slots[q].id].keys;
  }

  // In-order traversal of the leaves is sorted.
  lemma {:induction false} ContentsSorted(S: Heap, slots: seq<MSlot>)
    requires LeavesOk(S, slots) && Ordered(slots)
    ensures Sorted(Contents(S, slots))
  {
    var c := Contents(S, slots);
    forall x, y | 0 <= x < y < |c| ensures c[x] <= c[y] {
      var q, i := ContentsLocate(S, slots, x);
      var r, j := ContentsLocate(S, slots, y);
      assert LeafOk(S[slots[q].id], slots[q], q == 0) && LeafOk(S[slots[r].id], slots[r], r == 0);
      PrefixStep(S, slots, r);
      if r < q {
        PrefixMonotone(S, slots, r + 1, q);
        assert false;
      } else if q < r {
        assert Leq(slots[q].hi, slots[r].lo);
      }
    }
  }
}
