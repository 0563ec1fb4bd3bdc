// What the structural changes of the tree write, page by page and in numbers.
module Nodes {
  import opened Keys
  import opened PageView
  import opened PagedShape
  import opened PagedSteps
  import opened PagedEdits
  import opened PagedOverflow
  import opened PagedDelete
  import opened Acceptance

  // What a page of records written one after the other is filled up to.
  function Packed(recs: seq<Rec>): Content {
    Content(recs, 40 + SizeOf(recs))
  }

  lemma {:induction false} PackedIs(recs: seq<Rec>)
    ensures Compact(recs) == Packed(recs)
  {
    SizeSame(recs);
  }

  // All other pages are as they were.
  ghost predicate OthersKept(pages: Pages, after: Pages, written: set<nat>) {
    forall id :: id !in written ==> (id in after <==> id in pages) && (id in pages ==> after[id] == pages[id])
  }

  // The page behind a leaf is told its new neighbour.
  ghost predicate Back(pages: Pages, after: Pages, next: nat, prev: nat) {
    next != 0 && next in pages ==>
      next in after && after[next] == if pages[next].LeafNode? then pages[next].(prev := prev) else pages[next]
  }

  // A leaf split after s records: the halves with their links, and the page behind them.
  lemma {:induction false} LeafSplitTold(pages: Pages, x: nat, y: nat, s: nat)
    requires x in pages && pages[x].LeafNode? && s <= |pages[x].page.recs| && x != y && y !in pages
    requires pages[x].next != x
    ensures var n, after := pages[x], LeafSplit(pages, x, y, s);
      && x in after && after[x] == LeafNode(n.parent, 0, y, Packed(n.page.recs[..s]))
      && y in after && after[y] == LeafNode(n.parent, x, n.next, Packed(n.page.recs[s..]))
      && Back(pages, after, n.next, y) && OthersKept(pages, after, {x, y, n.next})
  {
    PackedIs(pages[x].page.recs[..s]);
    PackedIs(pages[x].page.recs[s..]);
  }

  // A merge: the left page holds both, the right one is gone.
  lemma {:induction false} MergeTold(pages: Pages, x: nat, y: nat)
    requires x in pages && y in pages && pages[x].LeafNode? && pages[y].LeafNode? && x != y
    requires pages[y].next != x && pages[y].next != y
    ensures var l, r, after := pages[x], pages[y], MergedLeaves(pages, x, y);
      && x in after && after[x] == LeafNode(l.parent, l.prev, r.next, Packed(l.page.recs + r.page.recs))
      && y !in after && Back(pages, after, r.next, x) && OthersKept(pages, after, {x, y, r.next})
  {
    PackedIs(pages[x].page.recs + pages[y].page.recs);
  }

  // A leaf taken out of the chain: its neighbours are each other's.
  lemma {:induction false} UnlinkTold(pages: Pages, id: nat)
    requires id in pages && pages[id].LeafNode? && pages[id].prev != pages[id].next
    ensures var n, after := pages[id], Unlinked(pages, id);
      && Back(pages, after, n.next, n.prev)
      && (n.prev != 0 && n.prev in pages ==>
        n.prev in after
        && after[n.prev] == if pages[n.prev].LeafNode? then pages[n.prev].(next := n.next) else pages[n.prev])
      && OthersKept(pages, after, {n.prev, n.next})
  {
  }

  // A new root has its one entry at the start of its page.
  lemma {:induction false} RootTold(pages: Pages, left: nat, key: Bytes, right: nat, top: nat)
    requires left in pages && right in pages && left != right && top != left && top != right
    ensures var after := RootAdded(pages, left, key, right, top);
      && top in after && after[top] == InnerNode(0, 46 + |key|, left, [Entry(key, right)])
      && left in after && after[left] == pages[left].(parent := top)
      && right in after && after[right] == pages[right].(parent := top) && OthersKept(pages, after, {left, right, top})
  {
  }

  // An entry put into a parent takes 6 bytes and its key.
  lemma {:induction false} GrowTold(pages: Pages, x: nat, i: nat, key: Bytes, right: nat)
    requires x in pages && pages[x].InnerNode? && i <= |pages[x].entries|
    ensures var n, after := pages[x], ParentGrown(pages, x, i, key, right);
      && x in after
      && after[x] == InnerNode(n.parent, n.freeStart + 6 + |key|, n.leftmost,
                       n.entries[..i] + [Entry(key, right)] + n.entries[i..])
      && OthersKept(pages, after, {x})
  {
  }

  function EntriesFill(es: seq<Entry>): nat {
    if es == [] then 0 else 6 + |es[0].key| + EntriesFill(es[1..])
  }

  lemma {:induction false} FillIs(es: seq<Entry>)
    ensures EntriesFill(es) == EntriesSize(es)
  {
    if es != [] {
      FillIs(es[1..]);
    }
  }

  predicate Among(kids: seq<Entry>, id: nat) {
    exists i :: 0 <= i < |kids| && kids[i].child == id
  }

  lemma {:induction false} SetParentsTold(pages: Pages, kids: seq<Entry>, up: nat)
    ensures var after := SetParents(pages, kids, up);
      after.Keys == pages.Keys
      && forall id :: id in pages ==>
           after[id] == if Among(kids, id) then pages[id].(parent := up) else pages[id]
    decreases |kids|
  {
    if kids != [] {
      var first := SetParent(pages, kids[0].child, up);
      var after := SetParents(first, kids[1..], up);
      SetParentsTold(first, kids[1..], up);
      forall id | id in pages
        ensures after[id] == if Among(kids, id) then pages[id].(parent := up) else pages[id]
      {
        if i :| 0 <= i < |kids| && kids[i].child == id {
          assert i > 0 ==> kids[1..][i - 1].child == id;
        }
        if i :| 0 <= i < |kids| - 1 && kids[1..][i].child == id {
          assert kids[i + 1].child == id;
        }
      }
    }
  }

  // An internal split: the middle entry goes up, its child becomes the leftmost of the new node.  The children of the
  // entries behind it learn their parent; that leftmost one does not.
  lemma {:induction false} InnerSplitTold(pages: Pages, x: nat, y: nat)
    requires x in pages && pages[x].InnerNode? && |pages[x].entries| >= 2 && x != y && y !in pages
    requires forall i :: 0 <= i < |pages[x].entries| ==> pages[x].entries[i].child != x
    ensures var n, after, mid := pages[x], InnerSplit(pages, x, y), |pages[x].entries| / 2;
      && x in after && after[x] == InnerNode(n.parent, n.freeStart, n.leftmost, n.entries[..mid])
      && y in after
      && after[y] ==
        InnerNode(n.parent, 40 + EntriesFill(n.entries[mid + 1..]), n.entries[mid].child, n.entries[mid + 1..])
      && forall id :: id in pages && id != x ==>
           id in after
           && after[id] == if Among(n.entries[mid + 1..], id) then pages[id].(parent := y) else pages[id]
  {
    var n, mid := pages[x], |pages[x].entries| / 2;
    var moved := n.entries[mid + 1..];
    FillIs(moved);
    SetParentsTold(pages, moved, y);
  }
}
