// The B+ tree over pages as a value: page ids to nodes, how the code descends
// them, and what makes them a search tree for a map from keys to values.
module PagedShape {
  import opened Levels
  import opened Towers
  import opened Keys
  import opened PageView

  const MAX_CHILD_ID := 1000000
  const MAX_DEPTH := 100
  // Pages a bitmap page of 2008 bytes can number.
  const PAGE_LIMIT := 16064

  datatype Option<+T> = None | Some(value: T)

  datatype Entry = Entry(key: Bytes, child: nat)

  datatype Node =
    | LeafNode(parent: nat, prev: nat, next: nat, page: Content)
    | InnerNode(parent: nat, freeStart: nat, leftmost: nat, entries: seq<Entry>)

  type Pages = map<nat, Node>
  type PSlot = Slot<nat, Bytes>

  function EntryKeys(es: seq<Entry>): (r: seq<Bytes>)
    ensures |r| == |es| && forall i :: 0 <= i < |es| ==> r[i] == es[i].key
  {
    seq(|es|, i requires 0 <= i < |es| => es[i].key)
  }

  function Children(leftmost: nat, es: seq<Entry>): (r: seq<nat>)
    ensures |r| == |es| + 1 && r[0] == leftmost && forall i :: 0 <= i < |es| ==> r[i + 1] == es[i].child
  {
    seq(|es| + 1, i requires 0 <= i <= |es| => if i == 0 then leftmost else es[i - 1].child)
  }

  ghost function Inodes(pages: Pages): map<nat, Inode<nat, Bytes>> {
    map id | id in pages && pages[id].InnerNode? ::
      Inode(EntryKeys(pages[id].entries), Children(pages[id].leftmost, pages[id].entries))
  }

  // The loop of internal_find_child.
  function ChildPos(keys: seq<Bytes>, key: Bytes, left: nat, right: int, pos: nat): (r: nat)
    requires right < |keys| && pos <= |keys| && left <= |keys|
    ensures r <= |keys|
    decreases right + 1 - left
  {
    if left > right then pos
    else
      var mid := (right + left) / 2;
      if Lt(key, keys[mid]) then ChildPos(keys, key, left, mid - 1, mid)
      else ChildPos(keys, key, mid + 1, right, pos)
  }

  lemma {:induction false} ChildPosSorted(keys: seq<Bytes>, key: Bytes, left: nat, right: int, pos: nat)
    requires SortedKeys(keys) && right < |keys| && pos <= |keys| && left <= right + 1 && pos == right + 1
    requires forall i :: 0 <= i < left ==> !Lt(key, keys[i])
    requires forall i :: pos <= i < |keys| ==> Lt(key, keys[i])
    ensures forall i :: 0 <= i < ChildPos(keys, key, left, right, pos) ==> !Lt(key, keys[i])
    ensures forall i :: ChildPos(keys, key, left, right, pos) <= i < |keys| ==> Lt(key, keys[i])
    decreases right + 1 - left
  {
    if left <= right {
      var mid := (right + left) / 2;
      if Lt(key, keys[mid]) {
        forall i | mid <= i < |keys| ensures Lt(key, keys[i]) {
          if i > mid { Transitive(key, keys[mid], keys[i]); }
        }
        ChildPosSorted(keys, key, left, mid - 1, mid);
      } else {
        forall i | 0 <= i < mid + 1 ensures !Lt(key, keys[i]) {
          if i < mid && Lt(key, keys[i]) { Transitive(key, keys[i], keys[mid]); }
        }
        ChildPosSorted(keys, key, mid + 1, right, pos);
      }
    }
  }

  // internal_find_child: 0 when there is nowhere to go.
  function FindChild(n: Node, key: Bytes): nat
    requires n.InnerNode?
  {
    var pos := ChildPos(EntryKeys(n.entries), key, 0, |n.entries| - 1, |n.entries|);
    if pos == 0 then
      if n.leftmost != 0 && n.leftmost < MAX_CHILD_ID then n.leftmost
      else if |n.entries| > 0 && n.entries[0].child != 0 && n.entries[0].child < MAX_CHILD_ID then n.entries[0].child
      else 0
    else n.entries[pos - 1].child
  }

  // find_leaf_page, with UINT32_MAX as None.  A page that was never written reads as neither leaf nor internal.
  function FindLeaf(pages: Pages, id: nat, key: Bytes, depth: nat): (r: Option<nat>)
    requires depth <= MAX_DEPTH
    ensures r.Some? ==> r.value in pages && pages[r.value].LeafNode?
    decreases MAX_DEPTH - depth
  {
    if id !in pages then None
    else if pages[id].LeafNode? then Some(id)
    else
      var next := FindChild(pages[id], key);
      if next == 0 || next >= MAX_CHILD_ID || depth + 1 > MAX_DEPTH then None
      else FindLeaf(pages, next, key, depth + 1)
  }

  // btree_search.  slot_value gives nothing for an empty value.
  function Lookup(pages: Pages, root: nat, key: Bytes): Option<Bytes> {
    if root == 0 then None
    else match FindLeaf(pages, root, key, 0)
      case None => None
      case Some(id) =>
        var recs := pages[id].page.recs;
        var r := Find(recs, key);
        if !r.found || |recs[r.index].val| == 0 then None else Some(recs[r.index].val)
  }

  // Key order against slot bounds.
  ghost predicate AtLeast(k: Bytes, lo: Bound<Bytes>) {
    lo.Bot? || (lo.Key? && !Lt(k, lo.key))
  }

  ghost predicate Before(k: Bytes, hi: Bound<Bytes>) {
    hi.Top? || (hi.Key? && Lt(k, hi.key))
  }

  ghost predicate Leq(a: Bound<Bytes>, b: Bound<Bytes>) {
    a.Bot? || b.Top? || (a.Key? && b.Key? && !Lt(b.key, a.key))
  }

  ghost predicate Less(a: Bound<Bytes>, b: Bound<Bytes>) {
    (a.Bot? && !b.Bot?) || (!a.Top? && b.Top?) || (a.Key? && b.Key? && Lt(a.key, b.key))
  }

  // No slot is empty of possible keys.
  ghost predicate Strict(slots: seq<PSlot>) {
    forall q :: 0 <= q < |slots| ==> Less(slots[q].lo, slots[q].hi)
  }

  ghost predicate Ordered(slots: seq<PSlot>) {
    forall i, j :: 0 <= i < j < |slots| ==> Leq(slots[i].hi, slots[j].lo)
  }

  ghost predicate LeafOk(n: Node, s: PSlot) {
    && n.LeafNode?
    && SortedRecs(n.page.recs) && Filled(n.page.recs)
    && forall i :: 0 <= i < |n.page.recs| ==> AtLeast(n.page.recs[i].key, s.lo) && Before(n.page.recs[i].key, s.hi)
  }

  ghost predicate LeavesOk(pages: Pages, slots: seq<PSlot>) {
    forall q :: 0 <= q < |slots| ==> slots[q].id in pages && LeafOk(pages[slots[q].id], slots[q])
  }

  // What the leaves hold fits where it is.
  ghost predicate LeavesFit(pages: Pages, slots: seq<PSlot>) {
    forall q :: 0 <= q < |slots| ==>
      slots[q].id in pages && pages[slots[q].id].LeafNode?
        && Fits(pages[slots[q].id].page.recs, pages[slots[q].id].page.freeStart)
  }

  // Only a leaf that is the whole tree may be empty.
  ghost predicate NoEmptyLeaf(pages: Pages, slots: seq<PSlot>) {
    |slots| > 1 ==> forall q :: 0 <= q < |slots| ==>
      slots[q].id in pages && pages[slots[q].id].LeafNode? && |pages[slots[q].id].page.recs| > 0
  }

  // The leaf chain.  Of the backward links only that of the first leaf is kept right: it has none.
  ghost predicate NextOk(pages: Pages, slots: seq<PSlot>, q: nat)
    requires q < |slots|
  {
    && slots[q].id in pages && pages[slots[q].id].LeafNode?
    && pages[slots[q].id].next == (if q + 1 < |slots| then slots[q + 1].id else 0)
    && (q == 0 ==> pages[slots[q].id].prev == 0)
  }

  ghost predicate Chained(pages: Pages, slots: seq<PSlot>) {
    forall q :: 0 <= q < |slots| ==> NextOk(pages, slots, q)
  }

  ghost predicate ParentOf(pages: Pages, id: nat, up: nat) {
    id in pages && pages[id].parent == up
  }

  ghost predicate Parented(pages: Pages, lv: seq<seq<PSlot>>) {
    forall e, q, i :: 1 <= e < |lv| && 0 <= q < |lv[e]| && lv[e][q].id in pages && pages[lv[e][q].id].InnerNode?
                      && 0 <= i <= |pages[lv[e][q].id].entries| ==>
      ParentOf(pages, Children(pages[lv[e][q].id].leftmost, pages[lv[e][q].id].entries)[i], lv[e][q].id)
  }

  ghost predicate Inner(pages: Pages, lv: seq<seq<PSlot>>) {
    forall e, q :: 1 <= e < |lv| && 0 <= q < |lv[e]| ==> lv[e][q].id in pages && pages[lv[e][q].id].InnerNode?
  }

  ghost predicate Listed(lv: seq<seq<PSlot>>, id: nat) {
    exists e, q :: 0 <= e < |lv| && 0 <= q < |lv[e]| && lv[e][q].id == id
  }

  ghost predicate AllListed(pages: Pages, lv: seq<seq<PSlot>>) {
    forall id {:trigger Listed(lv, id)} :: id in pages ==> Listed(lv, id)
  }

  ghost predicate InRange(pages: Pages) {
    forall id :: id in pages ==> 2 <= id < PAGE_LIMIT
  }

  // A search tree whose leaf level may hold one split (of slot p, when d is 0) not yet known to the parent.
  ghost predicate Shape(pages: Pages, lv: seq<seq<PSlot>>, root: nat, d: int, p: nat) {
    && d <= 0
    && Within(lv, pages.Keys)
    && Distinct(lv)
    && Tower(Inodes(pages), lv, root, d, p)
    && root in pages && pages[root].parent == 0
    && Inner(pages, lv)
    && Parented(pages, lv)
    && LeavesOk(pages, lv[0]) && Ordered(lv[0]) && Chained(pages, lv[0])
    && (forall e :: 0 <= e < |lv| ==> Strict(lv[e]))
    && AllListed(pages, lv) && InRange(pages)
    && (d == 0 ==> lv[0][p].id in pages && lv[0][p + 1].id in pages
                   && pages[lv[0][p + 1].id].parent == pages[lv[0][p].id].parent)
  }

  // The stored records, in leaf order.
  ghost function Records(pages: Pages, slots: seq<PSlot>): seq<Rec>
    requires forall q :: 0 <= q < |slots| ==> slots[q].id in pages && pages[slots[q].id].LeafNode?
  {
    if slots == [] then [] else pages[slots[0].id].page.recs + Records(pages, slots[1..])
  }

  lemma {:induction false} RecordsConcat(pages: Pages, a: seq<PSlot>, b: seq<PSlot>)
    requires forall q :: 0 <= q < |a| ==> a[q].id in pages && pages[a[q].id].LeafNode?
    requires forall q :: 0 <= q < |b| ==> b[q].id in pages && pages[b[q].id].LeafNode?
    ensures forall q :: 0 <= q < |a + b| ==> (a + b)[q].id in pages && pages[(a + b)[q].id].LeafNode?
    ensures Records(pages, a + b) == Records(pages, a) + Records(pages, b)
  {
    if a == [] {
      assert a + b == b;
    } else {
      RecordsConcat(pages, a[1..], b);
      assert (a + b)[1..] == a[1..] + b && (a + b)[0] == a[0];
      Regroup(pages[a[0].id].page.recs, Records(pages, a[1..]), Records(pages, b));
    }
  }

  lemma {:induction false} Regroup(a: seq<Rec>, b: seq<Rec>, c: seq<Rec>)
    ensures (a + b) + c == a + (b + c)
  {
  }

  lemma {:induction false} RecordsAt(pages: Pages, slots: seq<PSlot>, p: nat)
    requires p < |slots| && forall q :: 0 <= q < |slots| ==> slots[q].id in pages && pages[slots[q].id].LeafNode?
    ensures Records(pages, slots) == Records(pages, slots[..p]) + pages[slots[p].id].page.recs +
      Records(pages, slots[p + 1..])
    ensures Records(pages, slots[..p + 1]) == Records(pages, slots[..p]) + pages[slots[p].id].page.recs
  {
    var s := [slots[p]];
    assert Records(pages, s[1..]) == [];
    assert slots[..p + 1] == slots[..p] + s;
    assert slots == slots[..p + 1] + slots[p + 1..];
    RecordsConcat(pages, slots[..p], s);
    RecordsConcat(pages, slots[..p + 1], slots[p + 1..]);
  }

  lemma {:induction false} RecordsFrame(pages: Pages, pages': Pages, slots: seq<PSlot>)
    requires forall q :: 0 <= q < |slots| ==> slots[q].id in pages && pages[slots[q].id].LeafNode?
    requires forall q :: 0 <= q < |slots| ==>
      slots[q].id in pages' && pages'[slots[q].id].LeafNode?
        && pages'[slots[q].id].page.recs == pages[slots[q].id].page.recs
    ensures Records(pages', slots) == Records(pages, slots)
  {
    if slots != [] {
      RecordsFrame(pages, pages', slots[1..]);
    }
  }

  lemma {:induction false} RecordsLocate(pages: Pages, slots: seq<PSlot>, x: nat) returns (q: nat, i: nat)
    requires forall q :: 0 <= q < |slots| ==> slots[q].id in pages && pages[slots[q].id].LeafNode?
    requires x < |Records(pages, slots)|
    ensures q < |slots| && i < |pages[slots[q].id].page.recs|
      && Records(pages, slots)[x] == pages[slots[q].id].page.recs[i]
    ensures x == |Records(pages, slots[..q])| + i
  {
    var n := |pages[slots[0].id].page.recs|;
    if x < n {
      q, i := 0, x;
    } else {
      q, i := RecordsLocate(pages, slots[1..], x - n);
      assert slots[..q + 1][1..] == slots[1..][..q];
      q := q + 1;
    }
  }

  lemma {:induction false} PrefixMonotone(pages: Pages, slots: seq<PSlot>, q: nat, r: nat)
    requires q <= r <= |slots| && forall q :: 0 <= q < |slots| ==> slots[q].id in pages && pages[slots[q].id].LeafNode?
    ensures |Records(pages, slots[..q])| <= |Records(pages, slots[..r])|
  {
    assert slots[..r] == slots[..q] + slots[q..r];
    RecordsConcat(pages, slots[..q], slots[q..r]);
  }

  // k < hi <= lo <= k' puts k before k'.
  lemma {:induction false} Apart(k: Bytes, hi: Bound<Bytes>, lo: Bound<Bytes>, k': Bytes)
    requires Before(k, hi) && Leq(hi, lo) && AtLeast(k', lo)
    ensures Lt(k, k')
  {
    LtLe(k, hi.key, lo.key);
    LtLe(k, lo.key, k');
  }

  // The records come in ascending key order, no key twice.
  lemma {:induction false} RecordsSorted(pages: Pages, slots: seq<PSlot>)
    requires LeavesOk(pages, slots) && Ordered(slots)
    ensures SortedRecs(Records(pages, slots))
  {
    var c := Records(pages, slots);
    forall x, y | 0 <= x < y < |c| ensures Lt(c[x].key, c[y].key) {
      var q, i := RecordsLocate(pages, slots, x);
      var r, j := RecordsLocate(pages, slots, y);
      assert LeafOk(pages[slots[q].id], slots[q]) && LeafOk(pages[slots[r].id], slots[r]);
      RecordsAt(pages, slots, r);
      if r < q {
        PrefixMonotone(pages, slots, r + 1, q);
        assert false;
      } else if q < r {
        Apart(c[x].key, slots[q].hi, slots[r].lo, c[y].key);
      }
    }
  }

  // The map a record list stands for.
  ghost function ToMap(recs: seq<Rec>): map<Bytes, Bytes> {
    if recs == [] then map[] else ToMap(recs[1..])[recs[0].key := recs[0].val]
  }

  lemma {:induction false} ToMapAt(recs: seq<Rec>, key: Bytes)
    requires SortedRecs(recs)
    ensures key in ToMap(recs) <==> exists i :: 0 <= i < |recs| && recs[i].key == key
    ensures forall i :: 0 <= i < |recs| && recs[i].key == key ==> key in ToMap(recs) && ToMap(recs)[key] == recs[i].val
  {
    if recs != [] {
      ToMapAt(recs[1..], key);
      Irreflexive(key);
      forall i | 0 <= i < |recs| && recs[i].key == key ensures key in ToMap(recs) && ToMap(recs)[key] == recs[i].val {
        if i > 0 {
          assert recs[1..][i - 1] == recs[i];
        }
      }
      if key in ToMap(recs) && recs[0].key != key {
        var i :| 0 <= i < |recs[1..]| && recs[1..][i].key == key;
        assert recs[i + 1].key == key;
      }
    }
  }

  lemma {:induction false} ToMapConcat(a: seq<Rec>, b: seq<Rec>)
    ensures ToMap(a + b) == ToMap(b) + ToMap(a)
  {
    if a == [] {
      assert a + b == b;
    } else {
      ToMapConcat(a[1..], b);
      assert (a + b)[1..] == a[1..] + b;
    }
  }

  // A record's key is not that of another.
  lemma {:induction false} SortedAround(a: seq<Rec>, r: Rec, b: seq<Rec>)
    requires SortedRecs(a + [r] + b)
    ensures SortedRecs(a) && SortedRecs(b) && r.key !in ToMap(a) && r.key !in ToMap(b)
  {
    var s := a + [r] + b;
    assert s[|a|] == r;
    forall i | 0 <= i < |a| ensures a[i] == s[i] && Lt(a[i].key, r.key) {
    }
    forall i | 0 <= i < |b| ensures b[i] == s[|a| + 1 + i] && Lt(r.key, b[i].key) {
    }
    Irreflexive(r.key);
    ToMapAt(a, r.key);
    ToMapAt(b, r.key);
  }

  // A record put in its place is an update of the map.
  lemma {:induction false} ToMapInsert(a: seq<Rec>, r: Rec, b: seq<Rec>)
    requires SortedRecs(a + [r] + b)
    ensures ToMap(a + [r] + b) == ToMap(a + b)[r.key := r.val]
  {
    assert ToMap([r]) == ToMap([r][1..])[r.key := r.val];
    ToMapConcat(a + [r], b);
    ToMapConcat(a, [r]);
    ToMapConcat(a, b);
    SortedAround(a, r, b);
  }

  // A record taken out is a removal from the map.
  lemma {:induction false} ToMapRemove(a: seq<Rec>, r: Rec, b: seq<Rec>)
    requires SortedRecs(a + [r] + b)
    ensures ToMap(a + b) == ToMap(a + [r] + b) - {r.key}
  {
    ToMapInsert(a, r, b);
    ToMapConcat(a, b);
    SortedAround(a, r, b);
  }
}
