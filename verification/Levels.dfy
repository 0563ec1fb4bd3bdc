// A search tree seen one level at a time.
//
// A level is the left-to-right list of its nodes, each with the key interval it
// is responsible for.  Flattening the children of one level gives the level
// below.  In this view a split, a new root and a merge are edits of flat lists:
// no induction over the height of the tree is needed for any of them.
module Levels {
  import opened Seqs

  datatype Bound<K> = Bot | Key(key: K) | Top

  // The keys and children of an internal node.
  datatype Inode<Id, K> = Inode(keys: seq<K>, kids: seq<Id>)

  // A node's place in its level: it owns the keys from lo up to hi.
  datatype Slot<Id, K> = Slot(id: Id, lo: Bound<K>, hi: Bound<K>)

  ghost predicate Wide<Id, K>(n: Inode<Id, K>) {
    |n.kids| == |n.keys| + 1
  }

  // The slots that node n gives its children.
  ghost function Expand<Id, K>(n: Inode<Id, K>, lo: Bound<K>, hi: Bound<K>): (r: seq<Slot<Id, K>>)
    requires Wide(n)
    ensures |r| == |n.kids|
  {
    seq(|n.kids|, i requires 0 <= i < |n.kids| =>
      Slot(n.kids[i],
           if i == 0 then lo else Key(n.keys[i - 1]),
           if i == |n.keys| then hi else Key(n.keys[i])))
  }

  ghost predicate Covers<Id, K>(m: map<Id, Inode<Id, K>>, slots: seq<Slot<Id, K>>) {
    forall p :: 0 <= p < |slots| ==> slots[p].id in m && Wide(m[slots[p].id])
  }

  // The level below.
  ghost function Flat<Id, K>(m: map<Id, Inode<Id, K>>, slots: seq<Slot<Id, K>>): seq<Slot<Id, K>>
    requires Covers(m, slots)
  {
    if slots == [] then []
    else
      assert Covers(m, slots[1..]);
      Expand(m[slots[0].id], slots[0].lo, slots[0].hi) + Flat(m, slots[1..])
  }

  // How many slots of the level below precede the children of node q.
  ghost function Offset<Id, K>(m: map<Id, Inode<Id, K>>, slots: seq<Slot<Id, K>>, q: nat): nat
    requires Covers(m, slots) && q <= |slots|
  {
    |Flat(m, slots[..q])|
  }

  lemma {:induction false} FlatConcat<Id, K>(m: map<Id, Inode<Id, K>>, a: seq<Slot<Id, K>>, b: seq<Slot<Id, K>>)
    requires Covers(m, a) && Covers(m, b)
    ensures Covers(m, a + b)
    ensures Flat(m, a + b) == Flat(m, a) + Flat(m, b)
  {
    assert Covers(m, a + b) by {
      forall p | 0 <= p < |a + b| ensures (a + b)[p].id in m && Wide(m[(a + b)[p].id]) {
        if p < |a| { assert (a + b)[p] == a[p]; } else { assert (a + b)[p] == b[p - |a|]; }
      }
    }
    if a == [] {
      assert a + b == b;
    } else {
      FlatConcat(m, a[1..], b);
      assert (a + b)[1..] == a[1..] + b;
      assert (a + b)[0] == a[0];
    }
  }

  // The level below, cut around the children of node q.
  lemma {:induction false} FlatAt<Id, K>(m: map<Id, Inode<Id, K>>, slots: seq<Slot<Id, K>>, q: nat)
    requires Covers(m, slots) && q < |slots|
    ensures Covers(m, slots[..q]) && Covers(m, slots[q + 1..])
    ensures Flat(m, slots) == Flat(m, slots[..q]) + Expand(m[slots[q].id], slots[q].lo, slots[q].hi) +
      Flat(m, slots[q + 1..])
  {
    var s := slots[q];
    assert Flat(m, [s]) == Expand(m[s.id], s.lo, s.hi) + Flat(m, []);
    assert Flat(m, [s]) == Expand(m[s.id], s.lo, s.hi);
    FlatConcat(m, slots[..q], [s]);
    FlatConcat(m, slots[..q] + [s], slots[q + 1..]);
    assert slots == slots[..q] + [s] + slots[q + 1..];
  }

  // Child i of node q sits at Offset(q) + i in the level below.
  lemma {:induction false} ChildSlot<Id, K>(m: map<Id, Inode<Id, K>>, slots: seq<Slot<Id, K>>, q: nat, i: nat)
    requires Covers(m, slots) && q < |slots| && i < |m[slots[q].id].kids|
    ensures Offset(m, slots, q) + i < |Flat(m, slots)|
    ensures Flat(m, slots)[Offset(m, slots, q) + i] == Expand(m[slots[q].id], slots[q].lo, slots[q].hi)[i]
  {
    FlatAt(m, slots, q);
  }

  // Every slot of the level below is some child of some node.
  lemma {:induction false} Locate<Id, K>(m: map<Id, Inode<Id, K>>, slots: seq<Slot<Id, K>>, p: nat)
    returns (q: nat, i: nat)
    requires Covers(m, slots) && p < |Flat(m, slots)|
    ensures q < |slots| && i < |m[slots[q].id].kids| && p == Offset(m, slots, q) + i
    ensures Flat(m, slots)[p] == Expand(m[slots[q].id], slots[q].lo, slots[q].hi)[i]
  {
    var n := |slots| - 1;
    assert slots == slots[..n] + [slots[n]];
    assert slots[..n + 1] == slots;
    FlatAt(m, slots, n);
    assert Flat(m, slots[n + 1..]) == [];
    if p < Offset(m, slots, n) {
      q, i := Locate(m, slots[..n], p);
      assert slots[..n][..q] == slots[..q];
      ChildSlot(m, slots, q, i);
    } else {
      q, i := n, p - Offset(m, slots, n);
    }
  }

  // Only the nodes of the level matter.
  lemma {:induction false} FlatFrame<Id, K>(m: map<Id, Inode<Id, K>>, m': map<Id, Inode<Id, K>>,
                                            slots: seq<Slot<Id, K>>)
    requires Covers(m, slots)
    requires forall p :: 0 <= p < |slots| ==> slots[p].id in m' && m'[slots[p].id] == m[slots[p].id]
    ensures Covers(m', slots) && Flat(m', slots) == Flat(m, slots)
  {
    if slots != [] {
      assert Covers(m, slots[1..]);
      FlatFrame(m, m', slots[1..]);
    }
  }

  // Two slots that a split has made out of one, folded back together.
  ghost function Fold<Id, K>(slots: seq<Slot<Id, K>>, p: nat): seq<Slot<Id, K>>
    requires p + 1 < |slots|
  {
    slots[..p] + [Slot(slots[p].id, slots[p].lo, slots[p + 1].hi)] + slots[p + 2..]
  }

  // The reverse: slot p split at key, the new node taking the upper part.
  ghost function Cut<Id, K>(slots: seq<Slot<Id, K>>, p: nat, key: K, right: Id): seq<Slot<Id, K>>
    requires p < |slots|
  {
    slots[..p] + [Slot(slots[p].id, slots[p].lo, Key(key)), Slot(right, Key(key), slots[p].hi)] + slots[p + 1..]
  }

  lemma {:induction false} FoldCut<Id, K>(slots: seq<Slot<Id, K>>, p: nat, key: K, right: Id)
    requires p < |slots|
    ensures Fold(Cut(slots, p, key, right), p) == slots
  {
    var c := Cut(slots, p, key, right);
    assert c[p + 2..] == slots[p + 1..];
    assert Fold(c, p) == slots;
  }

  // Node n with one more separator and child after child i.
  ghost function Grow<Id, K>(n: Inode<Id, K>, i: nat, key: K, right: Id): Inode<Id, K>
    requires Wide(n) && i < |n.kids|
  {
    Inode(n.keys[..i] + [key] + n.keys[i..], n.kids[..i + 1] + [right] + n.kids[i + 1..])
  }

  // Node n without separator i and the child that follows it.
  ghost function Shrink<Id, K>(n: Inode<Id, K>, i: nat): Inode<Id, K>
    requires Wide(n) && i < |n.keys|
  {
    Inode(n.keys[..i] + n.keys[i + 1..], n.kids[..i + 1] + n.kids[i + 2..])
  }

  lemma {:induction false} CutWithin<Id, K>(a: seq<Slot<Id, K>>, e: seq<Slot<Id, K>>, b: seq<Slot<Id, K>>, i: nat,
                                            key: K, right: Id)
    requires i < |e|
    ensures Cut(a + e + b, |a| + i, key, right) == a + Cut(e, i, key, right) + b
  {
    var f := a + e + b;
    assert f[|a| + i] == e[i];
    assert f[..|a| + i] == a + e[..i];
    assert f[|a| + i + 1..] == e[i + 1..] + b;
  }

  lemma {:induction false} FoldWithin<Id, K>(a: seq<Slot<Id, K>>, e: seq<Slot<Id, K>>, b: seq<Slot<Id, K>>, i: nat)
    requires i + 1 < |e|
    ensures Fold(a + e + b, |a| + i) == a + Fold(e, i) + b
  {
    var f := a + e + b;
    assert f[|a| + i] == e[i] && f[|a| + i + 1] == e[i + 1];
    assert f[..|a| + i] == a + e[..i];
    assert f[|a| + i + 2..] == e[i + 2..] + b;
  }

  // The level below with node q replaced and every other node kept.
  lemma {:induction false} FlatReplace<Id, K>(m: map<Id, Inode<Id, K>>, m': map<Id, Inode<Id, K>>,
                                              slots: seq<Slot<Id, K>>, q: nat)
    requires Covers(m, slots) && q < |slots|
    requires forall p :: 0 <= p < |slots| && p != q ==> slots[p].id in m' && m'[slots[p].id] == m[slots[p].id]
    requires slots[q].id in m' && Wide(m'[slots[q].id])
    ensures Covers(m', slots) && Covers(m, slots[..q]) && Covers(m, slots[q + 1..])
    ensures Flat(m', slots) == Flat(m, slots[..q]) + Expand(m'[slots[q].id], slots[q].lo, slots[q].hi) +
      Flat(m, slots[q + 1..])
  {
    assert Covers(m', slots);
    FlatAt(m', slots, q);
    FlatFrame(m, m', slots[..q]);
    FlatFrame(m, m', slots[q + 1..]);
  }

  // Giving node q a child after its child i cuts that child's slot in the level below.
  lemma {:induction false} FlatGrow<Id, K>(m: map<Id, Inode<Id, K>>, m': map<Id, Inode<Id, K>>, slots: seq<Slot<Id, K>>,
                                           q: nat, i: nat, key: K, right: Id)
    requires Covers(m, slots) && q < |slots| && i < |m[slots[q].id].kids|
    requires forall p :: 0 <= p < |slots| && p != q ==> slots[p].id in m' && m'[slots[p].id] == m[slots[p].id]
    requires slots[q].id in m' && m'[slots[q].id] == Grow(m[slots[q].id], i, key, right)
    ensures Covers(m', slots)
    ensures Offset(m, slots, q) + i < |Flat(m, slots)|
    ensures Flat(m', slots) == Cut(Flat(m, slots), Offset(m, slots, q) + i, key, right)
  {
    var s := slots[q];
    FlatAt(m, slots, q);
    FlatReplace(m, m', slots, q);
    var e := Expand(m[s.id], s.lo, s.hi);
    CutWithin(Flat(m, slots[..q]), e, Flat(m, slots[q + 1..]), i, key, right);
    ExpandGrow(m[s.id], s.lo, s.hi, i, key, right);
  }

  lemma {:induction false} CutAt<Id, K>(slots: seq<Slot<Id, K>>, p: nat, key: K, right: Id, j: nat)
    requires p < |slots| && j <= |slots|
    ensures |Cut(slots, p, key, right)| == |slots| + 1
    ensures Cut(slots, p, key, right)[j] ==
      if j < p then slots[j]
      else if j == p then Slot(slots[p].id, slots[p].lo, Key(key))
      else if j == p + 1 then Slot(right, Key(key), slots[p].hi)
      else slots[j - 1]
  {
  }

  lemma {:induction false} FoldAt<Id, K>(slots: seq<Slot<Id, K>>, p: nat, j: nat)
    requires p + 1 < |slots| && j < |slots| - 1
    ensures |Fold(slots, p)| == |slots| - 1
    ensures Fold(slots, p)[j] ==
      if j < p then slots[j] else if j == p then Slot(slots[p].id, slots[p].lo, slots[p + 1].hi) else slots[j + 1]
  {
  }

  lemma {:induction false} GrowAt<Id, K>(n: Inode<Id, K>, i: nat, key: K, right: Id, j: nat)
    requires Wide(n) && i < |n.kids| && j <= |n.kids|
    ensures Wide(Grow(n, i, key, right)) && |Grow(n, i, key, right).kids| == |n.kids| + 1
    ensures Grow(n, i, key, right).kids[j] == if j <= i then n.kids[j] else if j == i + 1 then right else n.kids[j - 1]
    ensures j <= |n.keys| ==> Grow(n, i, key, right).keys[j] == if j < i
                              then n.keys[j] else if j == i then key else n.keys[j - 1]
  {
    SpliceAt(n.kids, i + 1, right, j);
    if j <= |n.keys| {
      SpliceAt(n.keys, i, key, j);
    }
  }

  lemma {:induction false} ShrinkAt<Id, K>(n: Inode<Id, K>, i: nat, j: nat)
    requires Wide(n) && i < |n.keys| && j < |n.kids| - 1
    ensures Wide(Shrink(n, i)) && |Shrink(n, i).kids| == |n.kids| - 1
    ensures Shrink(n, i).kids[j] == if j <= i then n.kids[j] else n.kids[j + 1]
    ensures j < |n.keys| - 1 ==> Shrink(n, i).keys[j] == if j < i then n.keys[j] else n.keys[j + 1]
  {
    DropAt(n.kids, i + 1, j);
    if j < |n.keys| - 1 {
      DropAt(n.keys, i, j);
    }
  }

  lemma {:induction false} ExpandGrow<Id, K>(n: Inode<Id, K>, lo: Bound<K>, hi: Bound<K>, i: nat, key: K, right: Id)
    requires Wide(n) && i < |n.kids|
    ensures Expand(Grow(n, i, key, right), lo, hi) == Cut(Expand(n, lo, hi), i, key, right)
  {
    var a, b := Expand(Grow(n, i, key, right), lo, hi), Cut(Expand(n, lo, hi), i, key, right);
    GrowAt(n, i, key, right, 0);
    CutAt(Expand(n, lo, hi), i, key, right, 0);
    forall j | 0 <= j < |a| ensures a[j] == b[j] {
      GrowAt(n, i, key, right, j);
      CutAt(Expand(n, lo, hi), i, key, right, j);
      if j > 0 {
        GrowAt(n, i, key, right, j - 1);
      }
    }
  }

  // Taking away separator i and its right child folds the two slots together.
  lemma {:induction false} FlatShrink<Id, K>(m: map<Id, Inode<Id, K>>, m': map<Id, Inode<Id, K>>,
                                             slots: seq<Slot<Id, K>>, q: nat, i: nat)
    requires Covers(m, slots) && q < |slots| && i < |m[slots[q].id].keys|
    requires forall p :: 0 <= p < |slots| && p != q ==> slots[p].id in m' && m'[slots[p].id] == m[slots[p].id]
    requires slots[q].id in m' && m'[slots[q].id] == Shrink(m[slots[q].id], i)
    ensures Covers(m', slots)
    ensures Offset(m, slots, q) + i + 1 < |Flat(m, slots)|
    ensures Flat(m', slots) == Fold(Flat(m, slots), Offset(m, slots, q) + i)
  {
    var s := slots[q];
    FlatAt(m, slots, q);
    FlatReplace(m, m', slots, q);
    FoldWithin(Flat(m, slots[..q]), Expand(m[s.id], s.lo, s.hi), Flat(m, slots[q + 1..]), i);
    ExpandShrink(m[s.id], s.lo, s.hi, i);
  }

  lemma {:induction false} ExpandShrink<Id, K>(n: Inode<Id, K>, lo: Bound<K>, hi: Bound<K>, i: nat)
    requires Wide(n) && i < |n.keys|
    ensures Expand(Shrink(n, i), lo, hi) == Fold(Expand(n, lo, hi), i)
  {
    var a, b := Expand(Shrink(n, i), lo, hi), Fold(Expand(n, lo, hi), i);
    ShrinkAt(n, i, 0);
    FoldAt(Expand(n, lo, hi), i, 0);
    forall j | 0 <= j < |a| ensures a[j] == b[j] {
      ShrinkAt(n, i, j);
      FoldAt(Expand(n, lo, hi), i, j);
      if j > 0 {
        ShrinkAt(n, i, j - 1);
      }
    }
  }

  // The halves of node n around separator mid.
  ghost function LowerHalf<Id, K>(n: Inode<Id, K>, mid: nat): Inode<Id, K>
    requires Wide(n) && mid < |n.keys|
  {
    Inode(n.keys[..mid], n.kids[..mid + 1])
  }

  ghost function UpperHalf<Id, K>(n: Inode<Id, K>, mid: nat): Inode<Id, K>
    requires Wide(n) && mid < |n.keys|
  {
    Inode(n.keys[mid + 1..], n.kids[mid + 1..])
  }

  // Splitting node q around its separator mid does not show in the level below:
  // no child is lost, repeated, moved, or given another key interval.
  lemma {:induction false} FlatSplit<Id, K>(m: map<Id, Inode<Id, K>>, m': map<Id, Inode<Id, K>>,
                                            slots: seq<Slot<Id, K>>,
                                            q: nat, mid: nat, right: Id)
    requires Covers(m, slots) && q < |slots| && mid < |m[slots[q].id].keys|
    requires forall p :: 0 <= p < |slots| && p != q ==> slots[p].id in m' && m'[slots[p].id] == m[slots[p].id]
    requires slots[q].id in m' && m'[slots[q].id] == LowerHalf(m[slots[q].id], mid)
    requires right in m' && m'[right] == UpperHalf(m[slots[q].id], mid)
    ensures Covers(m', Cut(slots, q, m[slots[q].id].keys[mid], right))
    ensures Flat(m', Cut(slots, q, m[slots[q].id].keys[mid], right)) == Flat(m, slots)
  {
    var s := slots[q];
    var n := m[s.id];
    var c := Cut(slots, q, n.keys[mid], right);
    FlatAt(m, slots, q);
    FlatFrame(m, m', slots[..q]);
    FlatFrame(m, m', slots[q + 1..]);
    var k := Bound.Key(n.keys[mid]);
    var two := [Slot(s.id, s.lo, k), Slot(right, k, s.hi)];
    assert Covers(m', two);
    var lo, hi := Expand(m'[s.id], s.lo, k), Expand(m'[right], k, s.hi);
    assert Flat(m', two[1..]) == hi + Flat(m', []);
    assert Flat(m', two) == lo + hi;
    assert lo + hi == Expand(n, s.lo, s.hi);
    FlatConcat(m', slots[..q], two);
    FlatConcat(m', slots[..q] + two, slots[q + 1..]);
    assert c == slots[..q] + two + slots[q + 1..];
  }
}
