// What a range scan visits: one stretch of the stored records.
module PagedScan {
  import opened Seqs
  import opened Levels
  import opened Towers
  import opened Keys
  import opened PageView
  import opened PagedShape
  import opened PagedSteps
  import opened PagedOps

  // An empty bound is no bound.
  predicate FromStart(start: Bytes, key: Bytes) {
    start == [] || !Lt(key, start)
  }

  predicate UpToEnd(end: Bytes, key: Bytes) {
    end == [] || !Lt(end, key)
  }

  // find_leftmost_leaf_page.
  function FindLeftmost(pages: Pages, id: nat, depth: nat): (r: Option<nat>)
    requires depth <= MAX_DEPTH
    ensures r.Some? ==> r.value in pages && pages[r.value].LeafNode?
    decreases MAX_DEPTH - depth
  {
    if id !in pages then None
    else if pages[id].LeafNode? then Some(id)
    else if pages[id].leftmost == 0 || depth + 1 > MAX_DEPTH then None
    else FindLeftmost(pages, pages[id].leftmost, depth + 1)
  }

  lemma {:induction false} LeftmostFound(pages: Pages, lv: seq<seq<PSlot>>, root: nat, e: nat, depth: nat)
    requires Shape(pages, lv, root, NONE, 0) && e < |lv| && |lv[e]| > 0 && depth + e <= MAX_DEPTH
    ensures |lv[0]| > 0 && FindLeftmost(pages, lv[e][0].id, depth) == Some(lv[0][0].id)
    decreases e
  {
    InTree(pages, lv, root, NONE, 0, e, 0);
    if e > 0 {
      FirstChild(pages, lv, root, e);
      InTree(pages, lv, root, NONE, 0, e - 1, 0);
      LeftmostFound(pages, lv, root, e - 1, depth + 1);
    }
  }

  lemma {:induction false} FirstChild(pages: Pages, lv: seq<seq<PSlot>>, root: nat, e: nat)
    requires Shape(pages, lv, root, NONE, 0) && 1 <= e < |lv| && |lv[e]| > 0
    requires lv[e][0].id in pages && pages[lv[e][0].id].InnerNode?
    ensures |lv[e - 1]| > 0 && lv[e - 1][0].id == pages[lv[e][0].id].leftmost
  {
    var m, low := Inodes(pages), lv[e - 1];
    assert Linked(m, lv, NONE, 0, e);
    assert Seen(lv, NONE, 0, e - 1) == low;
    ChildSlot(m, lv[e], 0, 0);
    assert Flat(m, lv[e][..0]) == [];
    assert low[0].id == Children(pages[lv[e][0].id].leftmost, pages[lv[e][0].id].entries)[0];
  }

  lemma {:induction false} LeftmostLeaf(pages: Pages, lv: seq<seq<PSlot>>, root: nat)
    requires Shape(pages, lv, root, NONE, 0) && |lv| <= MAX_DEPTH + 1
    ensures |lv[0]| > 0 && FindLeftmost(pages, root, 0) == Some(lv[0][0].id)
  {
    AloneAtTop(pages, lv, root);
    LeftmostFound(pages, lv, root, |lv| - 1, 0);
  }

  // How many stored records come before record i of leaf q.
  ghost function Pos(pages: Pages, slots: seq<PSlot>, q: nat, i: nat): nat
    requires q <= |slots| && forall r :: 0 <= r < |slots| ==> slots[r].id in pages && pages[slots[r].id].LeafNode?
  {
    |Records(pages, slots[..q])| + i
  }

  lemma {:induction false} PosNext(pages: Pages, slots: seq<PSlot>, q: nat)
    requires q < |slots| && forall r :: 0 <= r < |slots| ==> slots[r].id in pages && pages[slots[r].id].LeafNode?
    ensures Pos(pages, slots, q + 1, 0) ==
      Pos(pages, slots, q, |pages[slots[q].id].page.recs|) <= |Records(pages, slots)|
    ensures forall i :: 0 <= i < |pages[slots[q].id].page.recs| ==>
      Records(pages, slots)[Pos(pages, slots, q, i)] == pages[slots[q].id].page.recs[i]
  {
    RecordsAt(pages, slots, q);
  }

  lemma {:induction false} StartIn(A: seq<Rec>, L: seq<Rec>, B: seq<Rec>, i: nat, start: Bytes)
    requires i <= |L| && AllBelow(A, start) && AllAbove(start, B)
    requires forall x :: 0 <= x < i ==> Lt(L[x].key, start)
    requires forall x :: i <= x < |L| && L[x].key != start ==> Lt(start, L[x].key)
    ensures forall x :: 0 <= x < |A| + i ==> Lt((A + L + B)[x].key, start)
    ensures forall x :: |A| + i <= x < |A + L + B| ==> !Lt((A + L + B)[x].key, start)
  {
    Irreflexive(start);
    forall x | 0 <= x < |A| + |L| + |B| ensures Lt((A + L + B)[x].key, start) <==> x < |A| + i {
      Concat3At(A, L, B, x);
      Trichotomy((A + L + B)[x].key, start);
    }
  }

  // The records come in ascending order, so those not before the start key are a tail.
  lemma {:induction false} StartPlace(pages: Pages, slots: seq<PSlot>, q: nat, start: Bytes)
    requires LeavesOk(pages, slots) && Ordered(slots) && q < |slots|
    requires AtLeast(start, slots[q].lo) && Before(start, slots[q].hi)
    ensures var g := Pos(pages, slots, q, Find(pages[slots[q].id].page.recs, start).index);
      && g <= |Records(pages, slots)|
      && (forall x :: 0 <= x < g ==> Lt(Records(pages, slots)[x].key, start))
      && (forall x :: g <= x < |Records(pages, slots)| ==> !Lt(Records(pages, slots)[x].key, start))
  {
    var recs := pages[slots[q].id].page.recs;
    assert LeafOk(pages[slots[q].id], slots[q]);
    RecordsAt(pages, slots, q);
    OnlyHere(pages, slots, q, start);
    FindSorted(recs, start);
    StartIn(Records(pages, slots[..q]), recs, Records(pages, slots[q + 1..]), Find(recs, start).index, start);
  }

  lemma {:induction false} RestBeyond(recs: seq<Rec>, g: nat, end: Bytes)
    requires SortedRecs(recs) && g < |recs| && Lt(end, recs[g].key)
    ensures forall x :: g <= x < |recs| ==> Lt(end, recs[x].key)
  {
    forall x | g <= x < |recs| ensures Lt(end, recs[x].key) {
      if x > g { Transitive(end, recs[g].key, recs[x].key); }
    }
  }

  // A list of records in ascending key order that holds the entries of m within bounds, and only those.
  ghost predicate Lists(out: seq<Rec>, m: map<Bytes, Bytes>, start: Bytes, end: Bytes) {
    && SortedRecs(out)
    && (forall r :: r in out ==> r.key in m && m[r.key] == r.val && FromStart(start, r.key) && UpToEnd(end, r.key))
    && (forall k :: k in m && FromStart(start, k) && UpToEnd(end, k) ==> Rec(k, m[k]) in out)
  }

  // There is only one such list.
  lemma {:induction false} ListsOnce(a: seq<Rec>, b: seq<Rec>, m: map<Bytes, Bytes>, start: Bytes, end: Bytes)
    requires Lists(a, m, start, end) && Lists(b, m, start, end)
    ensures a == b
  {
    SortedOnce(a, b);
  }

  lemma FirstIn(b: seq<Rec>)
    ensures b != [] ==> b[0] in b
  {
  }

  lemma {:induction false} SortedOnce(a: seq<Rec>, b: seq<Rec>)
    requires SortedRecs(a) && SortedRecs(b) && forall r :: r in a <==> r in b
    ensures a == b
    decreases |a|
  {
    if a == [] {
      FirstIn(b);
    } else {
      assert a[0] in b;
      FirstSame(a, b);
      FirstSame(b, a);
      Trichotomy(a[0].key, b[0].key);
      Irreflexive(a[0].key);
      forall r ensures r in a[1..] <==> r in b[1..] {
        if r in a[1..] { assert r in b && r != b[0]; }
        if r in b[1..] { assert r in a && r != a[0]; }
      }
      SortedOnce(a[1..], b[1..]);
    }
  }

  lemma {:induction false} FirstSame(a: seq<Rec>, b: seq<Rec>)
    requires SortedRecs(a) && SortedRecs(b) && a != [] && b != [] && a[0] in b
    ensures a[0] == b[0] || Lt(b[0].key, a[0].key)
  {
    var i :| 0 <= i < |b| && b[i] == a[0];
  }

  // The stretch between the two cuts is the scan's result.
  lemma {:induction false} StretchLists(recs: seq<Rec>, g: nat, h: nat, start: Bytes, end: Bytes)
    requires SortedRecs(recs) && g <= h <= |recs|
    requires forall x :: 0 <= x < g ==> !FromStart(start, recs[x].key)
    requires forall x :: g <= x < |recs| ==> FromStart(start, recs[x].key)
    requires forall x :: g <= x < h ==> UpToEnd(end, recs[x].key)
    requires forall x :: h <= x < |recs| ==> !UpToEnd(end, recs[x].key)
    ensures Lists(recs[g..h], ToMap(recs), start, end)
  {
    var out, m := recs[g..h], ToMap(recs);
    forall r | r in out ensures r.key in m && m[r.key] == r.val && FromStart(start, r.key) && UpToEnd(end, r.key) {
      var x :| 0 <= x < |out| && out[x] == r;
      assert recs[g + x] == r;
      ToMapAt(recs, r.key);
    }
    forall k | k in m && FromStart(start, k) && UpToEnd(end, k) ensures Rec(k, m[k]) in out {
      ToMapAt(recs, k);
      var x :| 0 <= x < |recs| && recs[x].key == k;
      assert out[x - g] == recs[x];
    }
  }

  // Everything from position g on, and nothing before it, is within the start bound.
  ghost predicate StartsAt(pages: Pages, slots: seq<PSlot>, g: nat, start: Bytes)
    requires forall q :: 0 <= q < |slots| ==> slots[q].id in pages && pages[slots[q].id].LeafNode?
  {
    && g <= |Records(pages, slots)|
    && (forall x :: 0 <= x < g ==> !FromStart(start, Records(pages, slots)[x].key))
    && (forall x :: g <= x < |Records(pages, slots)| ==> FromStart(start, Records(pages, slots)[x].key))
  }

  // The scan has taken everything from position g up to record i of leaf q.
  ghost predicate Scanned(pages: Pages, slots: seq<PSlot>, q: nat, i: nat, g: nat, out: seq<Rec>, end: Bytes)
    requires forall r :: 0 <= r < |slots| ==> slots[r].id in pages && pages[slots[r].id].LeafNode?
  {
    && q < |slots| && i <= |pages[slots[q].id].page.recs|
    && g <= Pos(pages, slots, q, i) <= |Records(pages, slots)|
    && out == Records(pages, slots)[g..Pos(pages, slots, q, i)]
    && forall x :: g <= x < Pos(pages, slots, q, i) ==> UpToEnd(end, Records(pages, slots)[x].key)
  }

  lemma {:induction false} StretchGrows(all: seq<Rec>, g: nat, p: nat, part: seq<Rec>, end: Bytes)
    requires g <= p && p + |part| <= |all| && forall x :: 0 <= x < |part| ==>
      all[p + x] == part[x] && UpToEnd(end, part[x].key)
    requires forall x :: g <= x < p ==> UpToEnd(end, all[x].key)
    ensures all[g..p + |part|] == all[g..p] + part
    ensures forall x :: g <= x < p + |part| ==> UpToEnd(end, all[x].key)
  {
    Stretch(all, g, p, |part|);
    assert all[p..p + |part|] == part;
    forall x | p <= x < p + |part| ensures UpToEnd(end, all[x].key) {
      assert all[p + (x - p)] == part[x - p];
    }
  }

  lemma {:induction false} PartOf(A: seq<Rec>, L: seq<Rec>, B: seq<Rec>, i: nat, part: seq<Rec>, end: Bytes)
    requires i + |part| <= |L| && part == L[i..i + |part|]
    requires forall x :: i <= x < i + |part| ==> UpToEnd(end, L[x].key)
    ensures forall x :: 0 <= x < |part| ==> (A + L + B)[|A| + i + x] == part[x] && UpToEnd(end, part[x].key)
  {
    forall x | 0 <= x < |part| ensures (A + L + B)[|A| + i + x] == part[x] && UpToEnd(end, part[x].key) {
      var k := i + x;
      assert part[x] == L[k];
    }
  }

  lemma {:induction false} ScanStep(pages: Pages, slots: seq<PSlot>, q: nat, i: nat, g: nat, out: seq<Rec>,
                                    part: seq<Rec>, end: Bytes)
    requires forall r :: 0 <= r < |slots| ==> slots[r].id in pages && pages[slots[r].id].LeafNode?
    requires Scanned(pages, slots, q, i, g, out, end) && i + |part| <= |pages[slots[q].id].page.recs|
    requires part == pages[slots[q].id].page.recs[i..i + |part|]
    requires forall x :: i <= x < i + |part| ==> UpToEnd(end, pages[slots[q].id].page.recs[x].key)
    ensures Scanned(pages, slots, q, i + |part|, g, out + part, end)
  {
    var all, recs := Records(pages, slots), pages[slots[q].id].page.recs;
    var before, behind := Records(pages, slots[..q]), Records(pages, slots[q + 1..]);
    RecordsAt(pages, slots, q);
    PartOf(before, recs, behind, i, part, end);
    var p := Pos(pages, slots, q, i);
    assert Pos(pages, slots, q, i + |part|) == p + |part| <= |all|;
    StretchGrows(all, g, p, part, end);
  }

  lemma {:induction false} ScanOn(pages: Pages, slots: seq<PSlot>, q: nat, g: nat, out: seq<Rec>, end: Bytes)
    requires forall r :: 0 <= r < |slots| ==> slots[r].id in pages && pages[slots[r].id].LeafNode?
    requires q + 1 < |slots| && Scanned(pages, slots, q, |pages[slots[q].id].page.recs|, g, out, end)
    ensures Scanned(pages, slots, q + 1, 0, g, out, end)
  {
    PosNext(pages, slots, q);
  }

  lemma {:induction false} ScanDone(pages: Pages, slots: seq<PSlot>, q: nat, i: nat, g: nat, out: seq<Rec>,
                                    start: Bytes, end: Bytes)
    requires LeavesOk(pages, slots) && Ordered(slots) && StartsAt(pages, slots, g, start)
    requires Scanned(pages, slots, q, i, g, out, end)
    requires if i < |pages[slots[q].id].page.recs|
      then !UpToEnd(end, pages[slots[q].id].page.recs[i].key) else q + 1 == |slots|
    ensures Lists(out, ToMap(Records(pages, slots)), start, end)
  {
    var all, h := Records(pages, slots), Pos(pages, slots, q, i);
    RecordsSorted(pages, slots);
    PosNext(pages, slots, q);
    if i < |pages[slots[q].id].page.recs| {
      RestBeyond(all, h, end);
    } else {
      assert slots[..q + 1] == slots;
    }
    StretchLists(all, g, h, start, end);
  }

  lemma {:induction false} ScanPlace(pages: Pages, root: nat, lv: seq<seq<PSlot>>, start: Bytes) returns (q: nat)
    requires TreeOk(pages, root, lv) && root != 0
    ensures q < |lv[0]| && lv[0][q].id in pages && pages[lv[0][q].id].LeafNode?
    ensures start == [] ==> FindLeftmost(pages, root, 0) == Some(lv[0][q].id)
    ensures start != [] ==> FindLeaf(pages, root, start, 0) == Some(lv[0][q].id)
    ensures forall r :: 0 <= r < |lv[0]| ==> lv[0][r].id != 0
    ensures forall r :: 0 <= r < |lv[0]| ==> lv[0][r].id in pages && pages[lv[0][r].id].LeafNode?
    ensures StartsAt(pages, lv[0],
      Pos(pages, lv[0], q, if start == [] then 0 else Find(pages[lv[0][q].id].page.recs, start).index), start)
  {
    forall r | 0 <= r < |lv[0]| ensures lv[0][r].id != 0 && lv[0][r].id in pages && pages[lv[0][r].id].LeafNode? {
      InTree(pages, lv, root, NONE, 0, 0, r);
    }
    if start == [] {
      LeftmostLeaf(pages, lv, root);
      q := 0;
      assert Records(pages, lv[0][..0]) == [];
    } else {
      q := RootFound(pages, lv, root, start);
      StartPlace(pages, lv[0], q, start);
    }
  }
}
