// Which leaves are merged after a deletion, in numbers.
module Merging {
  import opened Keys
  import opened PageView
  import opened PagedShape
  import opened PagedDelete
  import opened Acceptance

  // What the records take with their slots.
  function Fill(recs: seq<Rec>): nat {
    SizeOf(recs) + 2 * |recs|
  }

  // Less than half of the 2008 bytes behind the header.
  predicate Underused(recs: seq<Rec>) {
    Fill(recs) < 1004
  }

  predicate FitTogether(left: seq<Rec>, right: seq<Rec>) {
    Fill(left) + Fill(right) <= 2008
  }

  lemma {:induction false} Percent(x: nat)
    requires x <= 2008
    ensures x % U16 == x && (x * 100 / 2008 % U16 < 50 <==> x < 1004)
  {
    var q := x * 100 / 2008;
    assert 2008 * q <= x * 100 < 2008 * q + 2008;
    assert q <= 100;
  }

  lemma {:induction false} SumCut(a: nat, b: nat)
    requires a + b <= 2048
    ensures a % U16 == a && (a % U16 + b) % U16 == a + b
  {
  }

  lemma {:induction false} UnderusedIs(recs: seq<Rec>)
    requires Fill(recs) <= 2008
    ensures Underutilized(|recs|, TotalSize(recs) % U16) <==> Underused(recs)
  {
    SizeSame(recs);
    Percent(Fill(recs));
    if recs == [] {
      assert SizeOf(recs) == 0;
    }
    SumCut(TotalSize(recs), 2 * |recs|);
  }

  lemma {:induction false} TogetherIs(left: seq<Rec>, right: seq<Rec>)
    requires Fill(left) <= 2008 && Fill(right) <= 2008
    ensures CanMerge(left, right) <==> FitTogether(left, right)
  {
    SizeSame(left);
    SizeSame(right);
    var l, r := TotalSize(left), TotalSize(right);
    assert l % U16 == l && r % U16 == r && (l + r) % U16 == l + r;
    assert (HEADER_SIZE + (l + r) + 2 * (|left| + |right|)) % U16 == HEADER_SIZE + (l + r) + 2 * (|left| + |right|);
  }

  lemma {:induction false} FitsIs(c: Content)
    requires PageView.Fits(c.recs, c.freeStart)
    ensures Fill(c.recs) <= 2008
  {
    SizeSame(c.recs);
  }

  // A leaf below half full is merged with its left neighbour if both fit a page, else with its right one if those do.
  lemma {:induction false} MergesInNumbers(pages: Pages, id: nat, j: nat)
    requires Placed(pages, id, j) && PageView.Fits(pages[id].page.recs, pages[id].page.freeStart)
    ensures var n, recs, choice := pages[pages[id].parent], pages[id].page.recs, ChoiceOf(pages, id, j);
      var toLeft := j > 0 && FitTogether(pages[LeftOf(n, j)].page.recs, recs);
      var toRight := j < |n.entries| && FitTogether(recs, pages[RightOf(n, j)].page.recs);
      && (choice.NoMerge? <==> !Underused(recs) || (!toLeft && !toRight))
      && (choice.WithLeft? <==> Underused(recs) && toLeft)
      && (choice.WithLeft? ==> choice.sibling == LeftOf(n, j))
        && (choice.WithRight? ==> choice.sibling == RightOf(n, j))
  {
    var n, recs := pages[pages[id].parent], pages[id].page.recs;
    FitsIs(pages[id].page);
    UnderusedIs(recs);
    if j > 0 {
      FitsIs(pages[LeftOf(n, j)].page);
      TogetherIs(pages[LeftOf(n, j)].page.recs, recs);
    }
    if j < |n.entries| {
      FitsIs(pages[RightOf(n, j)].page);
      TogetherIs(recs, pages[RightOf(n, j)].page.recs);
    }
  }
}
