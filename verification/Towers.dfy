// A whole tree as a tower of levels, leaves at the bottom, the root alone on top,
// each level the flattening of the one above it.  While an insertion works its way
// up there is one level whose split the level above has not been told of yet.
module Towers {
  import opened Levels

  const NONE := -1

  // Level e as the level above knows it: with the pending split of slot p of level d undone.
  ghost function Seen<Id, K>(lv: seq<seq<Slot<Id, K>>>, d: int, p: nat, e: nat): seq<Slot<Id, K>>
    requires e < |lv|
    requires d == e ==> p + 1 < |lv[e]|
  {
    if e == d then Fold(lv[e], p) else lv[e]
  }

  ghost predicate Pending<Id, K>(lv: seq<seq<Slot<Id, K>>>, d: int, p: nat) {
    d == NONE || (0 <= d < |lv| && p + 1 < |lv[d]| && lv[d][p].hi.Key? && lv[d][p + 1].lo == lv[d][p].hi)
  }

  ghost predicate Linked<Id, K>(m: map<Id, Inode<Id, K>>, lv: seq<seq<Slot<Id, K>>>, d: int, p: nat, e: nat)
    requires 1 <= e < |lv| && Pending(lv, d, p)
  {
    Covers(m, lv[e]) && Flat(m, lv[e]) == Seen(lv, d, p, e - 1)
  }

  // Every level is what the level above spells out, up to the pending split at level d.
  ghost predicate Tower<Id, K>(m: map<Id, Inode<Id, K>>, lv: seq<seq<Slot<Id, K>>>, root: Id, d: int, p: nat) {
    && |lv| >= 1
    && Pending(lv, d, p)
    && Seen(lv, d, p, |lv| - 1) == [Slot(root, Bot, Top)]
    && forall e :: 1 <= e < |lv| ==> Linked(m, lv, d, p, e)
  }

  // No node stands twice in the tower.
  ghost predicate Distinct<Id, K>(lv: seq<seq<Slot<Id, K>>>) {
    forall d, p, e, q :: 0 <= d < |lv| && 0 <= p < |lv[d]| && 0 <= e < |lv| && 0 <= q < |lv[e]|
                         && lv[d][p].id == lv[e][q].id
      ==> d == e && p == q
  }

  ghost predicate Within<Id, K>(lv: seq<seq<Slot<Id, K>>>, ids: set<Id>) {
    forall d, p :: 0 <= d < |lv| && 0 <= p < |lv[d]| ==> lv[d][p].id in ids
  }

  // m' keeps every node of the levels above the leaves, except that at (d, q).
  ghost predicate KeepsBut<Id, K>(m: map<Id, Inode<Id, K>>, m': map<Id, Inode<Id, K>>, lv: seq<seq<Slot<Id, K>>>,
                                  d: int, q: int) {
    forall e, p :: 1 <= e < |lv| && 0 <= p < |lv[e]| && !(e == d && p == q) ==>
      lv[e][p].id in m && lv[e][p].id in m' && m'[lv[e][p].id] == m[lv[e][p].id]
  }

  lemma {:induction false} CutFold<Id, K>(slots: seq<Slot<Id, K>>, p: nat)
    requires p + 1 < |slots| && slots[p].hi.Key? && slots[p + 1].lo == slots[p].hi
    ensures Cut(Fold(slots, p), p, slots[p].hi.key, slots[p + 1].id) == slots
  {
    var f := Fold(slots, p);
    assert f[p + 1..] == slots[p + 2..];
    assert f[..p] == slots[..p];
    assert slots == slots[..p] + [slots[p], slots[p + 1]] + slots[p + 2..];
  }

  lemma {:induction false} GrownAt<Id, K>(m: map<Id, Inode<Id, K>>, m': map<Id, Inode<Id, K>>, up: seq<Slot<Id, K>>,
                                          p: nat, q: nat, i: nat, key: K, right: Id)
    requires Covers(m, up) && q < |up| && i < |m[up[q].id].kids| && Offset(m, up, q) + i == p
    requires forall r :: 0 <= r < |up| && r != q ==> up[r].id in m' && m'[up[r].id] == m[up[r].id]
    requires up[q].id in m' && m'[up[q].id] == Grow(m[up[q].id], i, key, right)
    ensures Covers(m', up) && p < |Flat(m, up)| && Flat(m', up) == Cut(Flat(m, up), p, key, right)
  {
    FlatGrow(m, m', up, q, i, key, right);
  }

  // The grown level lists the one below.
  lemma {:induction false} GrownLinked<Id, K>(m: map<Id, Inode<Id, K>>, m': map<Id, Inode<Id, K>>,
                                              low: seq<Slot<Id, K>>, up: seq<Slot<Id, K>>,
                                              p: nat, q: nat, i: nat)
    requires p + 1 < |low| && low[p].hi.Key? && low[p + 1].lo == low[p].hi
    requires Covers(m, up) && Flat(m, up) == Fold(low, p)
    requires q < |up| && i < |m[up[q].id].kids| && Offset(m, up, q) + i == p
    requires forall r :: 0 <= r < |up| && r != q ==> up[r].id in m' && m'[up[r].id] == m[up[r].id]
    requires up[q].id in m' && m'[up[q].id] == Grow(m[up[q].id], i, low[p].hi.key, low[p + 1].id)
    ensures Covers(m', up) && Flat(m', up) == low
  {
    GrownAt(m, m', up, p, q, i, low[p].hi.key, low[p + 1].id);
    CutFold(low, p);
  }

  lemma {:induction false} LinkedStill<Id, K>(m: map<Id, Inode<Id, K>>, m': map<Id, Inode<Id, K>>, up: seq<Slot<Id, K>>)
    requires Covers(m, up) && forall r :: 0 <= r < |up| ==> up[r].id in m' && m'[up[r].id] == m[up[r].id]
    ensures Covers(m', up) && Flat(m', up) == Flat(m, up)
  {
    FlatFrame(m, m', up);
  }

  // So do the other levels.
  lemma {:induction false} OtherLinked<Id, K>(m: map<Id, Inode<Id, K>>, m': map<Id, Inode<Id, K>>,
                                              lv: seq<seq<Slot<Id, K>>>, root: Id,
                                              d: nat, p: nat, q: nat, e: nat)
    requires Tower(m, lv, root, d, p) && 1 <= e < |lv| && e != d + 1 && KeepsBut(m, m', lv, d + 1, q)
    ensures Linked(m', lv, NONE, 0, e)
  {
    assert Linked(m, lv, d, p, e);
    LinkedStill(m, m', lv[e]);
  }

  // The parent has been given the new node: nothing is pending any more.
  lemma {:induction false} GrowSettles<Id, K>(m: map<Id, Inode<Id, K>>, m': map<Id, Inode<Id, K>>,
                                              lv: seq<seq<Slot<Id, K>>>, root: Id,
                                              d: nat, p: nat, q: nat, i: nat)
    requires Tower(m, lv, root, d, p) && d + 1 < |lv| && q < |lv[d + 1]| && Linked(m, lv, d, p, d + 1)
    requires i < |m[lv[d + 1][q].id].kids| && Offset(m, lv[d + 1], q) + i == p
    requires KeepsBut(m, m', lv, d + 1, q)
    requires lv[d + 1][q].id in m'
    requires m'[lv[d + 1][q].id] == Grow(m[lv[d + 1][q].id], i, lv[d][p].hi.key, lv[d][p + 1].id)
    ensures Tower(m', lv, root, NONE, 0)
  {
    var up, low := lv[d + 1], lv[d];
    forall r | 0 <= r < |up| && r != q ensures up[r].id in m' && m'[up[r].id] == m[up[r].id] {
      assert lv[d + 1][r].id in m;
    }
    GrownLinked(m, m', low, up, p, q, i);
    forall e | 1 <= e < |lv| ensures Linked(m', lv, NONE, 0, e) {
      if e != d + 1 {
        OtherLinked(m, m', lv, root, d, p, q, e);
      }
    }
  }

  // A node has been split: its level is the pending one, the levels below are untouched.
  lemma {:induction false} SplitPends<Id, K>(m: map<Id, Inode<Id, K>>, m': map<Id, Inode<Id, K>>,
                                             lv: seq<seq<Slot<Id, K>>>, root: Id,
                                             d: nat, q: nat, mid: nat, right: Id)
    requires Tower(m, lv, root, NONE, 0) && 1 <= d < |lv| && q < |lv[d]|
    requires lv[d][q].id in m && Wide(m[lv[d][q].id]) && mid < |m[lv[d][q].id].keys|
    requires KeepsBut(m, m', lv, d, q)
    requires lv[d][q].id in m' && m'[lv[d][q].id] == LowerHalf(m[lv[d][q].id], mid)
    requires right in m' && m'[right] == UpperHalf(m[lv[d][q].id], mid)
    ensures Tower(m', lv[d := Cut(lv[d], q, m[lv[d][q].id].keys[mid], right)], root, d, q)
  {
    var key := m[lv[d][q].id].keys[mid];
    var lv' := lv[d := Cut(lv[d], q, key, right)];
    FoldCut(lv[d], q, key, right);
    assert Linked(m, lv, NONE, 0, d);
    FlatSplit(m, m', lv[d], q, mid, right);
    forall e | 1 <= e < |lv'| ensures Linked(m', lv', d, q, e) {
      assert Linked(m, lv, NONE, 0, e);
      if e != d {
        FlatFrame(m, m', lv[e]);
      }
    }
  }

  // A leaf has been split: the map of internal nodes does not change.
  lemma {:induction false} LeafPends<Id, K>(m: map<Id, Inode<Id, K>>, m': map<Id, Inode<Id, K>>,
                                            lv: seq<seq<Slot<Id, K>>>, root: Id,
                                            p: nat, key: K, right: Id)
    requires Tower(m, lv, root, NONE, 0) && p < |lv[0]| && KeepsBut(m, m', lv, NONE, NONE)
    ensures Tower(m', lv[0 := Cut(lv[0], p, key, right)], root, 0, p)
  {
    var lv' := lv[0 := Cut(lv[0], p, key, right)];
    FoldCut(lv[0], p, key, right);
    forall e | 1 <= e < |lv'| ensures Linked(m', lv', 0, p, e) {
      assert Linked(m, lv, NONE, 0, e);
      FlatFrame(m, m', lv[e]);
    }
  }

  // The root was the pending node: a new root over the two halves settles it.
  lemma {:induction false} RootSettles<Id, K>(m: map<Id, Inode<Id, K>>, m': map<Id, Inode<Id, K>>,
                                              lv: seq<seq<Slot<Id, K>>>, root: Id, root': Id)
    requires Tower(m, lv, root, |lv| - 1, 0)
    requires KeepsBut(m, m', lv, NONE, NONE)
    requires root' in m' && m'[root'] == Inode([lv[|lv| - 1][0].hi.key], [root, lv[|lv| - 1][1].id])
    ensures Tower(m', lv + [[Slot(root', Bot, Top)]], root', NONE, 0)
  {
    var top := |lv| - 1;
    var lv' := lv + [[Slot(root', Bot, Top)]];
    var f := Fold(lv[top], 0);
    assert f[0] == Slot(lv[top][0].id, lv[top][0].lo, lv[top][1].hi);
    assert |lv[top]| == 2;
    forall e | 1 <= e < |lv'| ensures Linked(m', lv', NONE, 0, e) {
      if e <= top {
        assert Linked(m, lv, top, 0, e);
        FlatFrame(m, m', lv[e]);
      } else {
        assert Flat(m', lv'[e][1..]) == [];
        assert Flat(m', lv'[e]) == Expand(m'[root'], Bot, Top);
        assert Expand(m'[root'], Bot, Top) == lv[top];
      }
    }
  }

  // Two leaves under one parent have been merged and the parent told.
  lemma {:induction false} ShrinkSettles<Id, K>(m: map<Id, Inode<Id, K>>, m': map<Id, Inode<Id, K>>,
                                                lv: seq<seq<Slot<Id, K>>>, root: Id,
                                                p: nat, q: nat, i: nat)
    requires Tower(m, lv, root, NONE, 0) && 1 < |lv| && q < |lv[1]| && Linked(m, lv, NONE, 0, 1)
    requires i < |m[lv[1][q].id].keys| && Offset(m, lv[1], q) + i == p
    requires KeepsBut(m, m', lv, 1, q)
    requires lv[1][q].id in m' && m'[lv[1][q].id] == Shrink(m[lv[1][q].id], i)
    ensures p + 1 < |lv[0]| && Tower(m', lv[0 := Fold(lv[0], p)], root, NONE, 0)
  {
    assert Linked(m, lv, NONE, 0, 1);
    FlatShrink(m, m', lv[1], q, i);
    var lv' := lv[0 := Fold(lv[0], p)];
    forall e | 1 <= e < |lv'| ensures Linked(m', lv', NONE, 0, e) {
      if e != 1 {
        assert Linked(m, lv, NONE, 0, e);
        FlatFrame(m, m', lv[e]);
      }
    }
  }

  // A change that touches no internal node.
  lemma {:induction false} TowerFrame<Id, K>(m: map<Id, Inode<Id, K>>, m': map<Id, Inode<Id, K>>,
                                             lv: seq<seq<Slot<Id, K>>>, root: Id, d: int, p: nat)
    requires Tower(m, lv, root, d, p) && KeepsBut(m, m', lv, NONE, NONE)
    ensures Tower(m', lv, root, d, p)
  {
    forall e | 1 <= e < |lv| ensures Linked(m', lv, d, p, e) {
      assert Linked(m, lv, d, p, e);
      FlatFrame(m, m', lv[e]);
    }
  }

  lemma {:induction false} DistinctCut<Id, K>(lv: seq<seq<Slot<Id, K>>>, d: nat, p: nat, key: K, right: Id)
    requires Distinct(lv) && d < |lv| && p < |lv[d]|
    requires forall e, q :: 0 <= e < |lv| && 0 <= q < |lv[e]| ==> lv[e][q].id != right
    ensures Distinct(lv[d := Cut(lv[d], p, key, right)])
  {
    var c := Cut(lv[d], p, key, right);
    forall q | 0 <= q < |c|
      ensures c[q].id == (if q <= p then lv[d][q].id else if q == p + 1 then right else lv[d][q - 1].id) {
    }
  }

  lemma {:induction false} DistinctRoot<Id, K>(lv: seq<seq<Slot<Id, K>>>, root': Id)
    requires Distinct(lv)
    requires forall e, q :: 0 <= e < |lv| && 0 <= q < |lv[e]| ==> lv[e][q].id != root'
    ensures Distinct(lv + [[Slot(root', Bot, Top)]])
  {
  }

  lemma {:induction false} DistinctFold<Id, K>(lv: seq<seq<Slot<Id, K>>>, d: nat, p: nat)
    requires Distinct(lv) && d < |lv| && p + 1 < |lv[d]|
    ensures Distinct(lv[d := Fold(lv[d], p)])
  {
    var f := Fold(lv[d], p);
    forall q | 0 <= q < |f| ensures f[q].id == (if q <= p then lv[d][q].id else lv[d][q + 1].id) {
    }
  }
}
