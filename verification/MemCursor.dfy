// Where a key is to be found among the leaves, and what a cursor over them sees.
module MemCursor {
  import opened Seqs
  import opened Levels
  import opened Towers
  import opened MemShape
  import opened MemSteps

  ghost predicate StandsAt(S: Heap, slots: seq<MSlot>, leaf: BPlusNode?, index: nat, q: nat, x: nat)
    requires forall r :: 0 <= r < |slots| ==> slots[r].id in S
  {
    if q < |slots| then
      leaf == slots[q].id && index < |S[slots[q].id].keys| && x == |Contents(S, slots[..q])| + index
    else
      q == |slots| && leaf == null && x == |Contents(S, slots)|
  }

  // Everything before position x is at most the key, everything from there on at least.
  ghost predicate Straddles(s: seq<int>, x: nat, key: int) {
    && x <= |s|
    && (forall y :: 0 <= y < x ==> s[y] <= key)
    && (forall y :: x <= y < |s| ==> s[y] >= key)
  }

  ghost predicate AllAtMost(s: seq<int>, key: int) {
    forall y :: 0 <= y < |s| ==> s[y] <= key
  }

  ghost predicate AllAbove(s: seq<int>, key: int) {
    forall y :: 0 <= y < |s| ==> s[y] > key
  }

  // The keys that are at least `key`, in the order they are listed.
  function Filtered(s: seq<int>, key: int): seq<int> {
    if s == [] then [] else (if s[0] >= key then [s[0]] else []) + Filtered(s[1..], key)
  }

  // The leaf a key is routed to splits the stored keys: none after it is as small as the key,
  // none before it is greater, and an equal one before it means the leaf starts with the key.
  lemma {:induction false} Routed(S: Heap, slots: seq<MSlot>, p: nat, key: int)
    requires LeavesOk(S, slots) && Ordered(slots) && p < |slots|
    requires AtLeast(key, slots[p].lo) && Before(key, slots[p].hi)
    ensures AllAtMost(Contents(S, slots[..p]), key)
    ensures key in Contents(S, slots[..p]) ==> |S[slots[p].id].keys| > 0 && S[slots[p].id].keys[0] == key
    ensures AllAbove(Contents(S, slots[p + 1..]), key)
    ensures key in Contents(S, slots) ==> key in S[slots[p].id].keys
  {
    var A, B := Contents(S, slots[..p]), Contents(S, slots[p + 1..]);
    assert LeafOk(S[slots[p].id], slots[p], p == 0);
    forall y | 0 <= y < |A|
      ensures A[y] <= key && (A[y] == key ==> |S[slots[p].id].keys| > 0 && S[slots[p].id].keys[0] == key) {
      var q, i := ContentsLocate(S, slots[..p], y);
      assert LeafOk(S[slots[q].id], slots[q], q == 0);
      assert Leq(slots[q].hi, slots[p].lo);
    }
    forall y | 0 <= y < |B| ensures B[y] > key {
      var q, i := ContentsLocate(S, slots[p + 1..], y);
      assert slots[p + 1..][q] == slots[p + 1 + q];
      assert LeafOk(S[slots[p + 1 + q].id], slots[p + 1 + q], false);
      assert Leq(slots[p].hi, slots[p + 1 + q].lo);
    }
    ContentsAt(S, slots, p);
  }

  // Copies of the key end one leaf and begin the next.
  ghost predicate PartedAt(S: Heap, slots: seq<MSlot>, q: nat, key: int) {
    && q + 1 < |slots| && slots[q].id in S && slots[q + 1].id in S
    && |S[slots[q].id].keys| > 0 && S[slots[q].id].keys[|S[slots[q].id].keys| - 1] == key
    && |S[slots[q + 1].id].keys| > 0 && S[slots[q + 1].id].keys[0] == key
  }

  ghost predicate CopiesParted(S: Heap, slots: seq<MSlot>, key: int) {
    exists q: nat :: PartedAt(S, slots, q, key)
  }

  // The leaf a key is routed to has copies of the key before it exactly when two leaves part them.
  lemma {:induction false} PartedCopies(S: Heap, slots: seq<MSlot>, p: nat, key: int)
    requires LeavesOk(S, slots) && Ordered(slots) && p < |slots|
    requires AtLeast(key, slots[p].lo) && Before(key, slots[p].hi)
    ensures key in Contents(S, slots[..p]) <==> CopiesParted(S, slots, key)
  {
    Routed(S, slots, p, key);
    if key in Contents(S, slots[..p]) {
      EndsWith(S, slots, p, key);
      assert PartedAt(S, slots, p - 1, key);
    }
    if CopiesParted(S, slots, key) {
      var q: nat :| PartedAt(S, slots, q, key);
      assert LeafOk(S[slots[q].id], slots[q], q == 0) && LeafOk(S[slots[q + 1].id], slots[q + 1], false);
      if p <= q {
        assert false;
      }
      ContentsAt(S, slots[..p], q);
      assert slots[..p][q] == slots[q];
    }
  }

  // A key that no earlier one exceeds ends the leaf before.
  lemma {:induction false} EndsWith(S: Heap, slots: seq<MSlot>, p: nat, key: int)
    requires LeavesOk(S, slots) && Ordered(slots) && p < |slots|
    requires key in Contents(S, slots[..p]) && AllAtMost(Contents(S, slots[..p]), key)
    ensures p > 0 && |S[slots[p - 1].id].keys| > 0 && S[slots[p - 1].id].keys[|S[slots[p - 1].id].keys| - 1] == key
  {
    var A := Contents(S, slots[..p]);
    ContentsSorted(S, slots[..p]);
    var y :| 0 <= y < |A| && A[y] == key;
    var last := S[slots[p - 1].id].keys;
    PrefixStep(S, slots, p - 1);
    assert LeafOk(S[slots[p - 1].id], slots[p - 1], p == 1);
    if p == 1 { assert slots[..0] == []; }
    assert A[|A| - 1] == last[|last| - 1] && A[y] <= A[|A| - 1];
  }

  // How often a key can be stored, given which leaves may hold it.
  lemma {:induction false} Counted(S: Heap, slots: seq<MSlot>, p: nat, key: int)
    requires LeavesOk(S, slots) && Ordered(slots) && p < |slots|
    requires AtLeast(key, slots[p].lo) && Before(key, slots[p].hi)
    ensures multiset(Contents(S, slots))[key] <= 1 ==> key !in Contents(S, slots[..p])
    ensures multiset(Contents(S, slots))[key] > |S[slots[p].id].keys| ==> key in Contents(S, slots[..p])
  {
    Routed(S, slots, p, key);
    ContentsAt(S, slots, p);
    var A, L, B := Contents(S, slots[..p]), S[slots[p].id].keys, Contents(S, slots[p + 1..]);
    assert multiset(A + L + B) == multiset(A) + multiset(L) + multiset(B);
    assert key !in B;
    assert key !in multiset(B);
    CountAtMost(L, key);
    if key in A {
      assert key in multiset(A) && key in multiset(L);
    } else {
      assert key !in multiset(A);
    }
  }

  lemma {:induction false} CountAtMost(s: seq<int>, key: int)
    ensures multiset(s)[key] <= |s|
  {
    if s != [] {
      CountAtMost(s[1..], key);
      assert s == [s[0]] + s[1..];
    }
  }

  // The position is i in the middle one of three stretches.
  lemma {:induction false} StraddlesIn(A: seq<int>, L: seq<int>, B: seq<int>, i: nat, key: int)
    requires i <= |L| && AllAtMost(A, key) && AllAbove(B, key) && Sorted(L)
    requires forall j :: 0 <= j < i ==> L[j] < key
    requires i < |L| ==> L[i] >= key
    ensures Straddles(A + L + B, |A| + i, key)
    ensures key in (A + L + B)[..|A| + i] <==> key in A
  {
    var c := A + L + B;
    forall y | 0 <= y < |c| ensures if y < |A| + i then c[y] <= key else c[y] >= key {
      Concat3At(A, L, B, y);
      if |A| + i <= y < |A| + |L| {
        assert L[i] <= L[y - |A|];
      }
    }
    assert c[..|A| + i] == A + L[..i];
  }

  // The first position in the routed leaf that is not below the key.
  lemma {:induction false} LowerBoundAt(S: Heap, slots: seq<MSlot>, p: nat, key: int, i: nat)
    requires LeavesOk(S, slots) && Ordered(slots) && p < |slots|
    requires AtLeast(key, slots[p].lo) && Before(key, slots[p].hi)
    requires i <= |S[slots[p].id].keys|
    requires forall j :: 0 <= j < i ==> S[slots[p].id].keys[j] < key
    requires i < |S[slots[p].id].keys| ==> S[slots[p].id].keys[i] >= key
    ensures Straddles(Contents(S, slots), |Contents(S, slots[..p])| + i, key)
    ensures key in Contents(S, slots)[..|Contents(S, slots[..p])| + i] <==> key in Contents(S, slots[..p])
  {
    Routed(S, slots, p, key);
    ContentsAt(S, slots, p);
    assert LeafOk(S[slots[p].id], slots[p], p == 0);
    StraddlesIn(Contents(S, slots[..p]), S[slots[p].id].keys, Contents(S, slots[p + 1..]), i, key);
  }

  lemma {:induction false} LowerBoundCounts(S: Heap, slots: seq<MSlot>, p: nat, key: int, i: nat, x: nat)
    requires LeavesOk(S, slots) && Ordered(slots) && p < |slots|
    requires AtLeast(key, slots[p].lo) && Before(key, slots[p].hi)
    requires i <= |S[slots[p].id].keys|
    requires forall j :: 0 <= j < i ==> S[slots[p].id].keys[j] < key
    requires i < |S[slots[p].id].keys| ==> S[slots[p].id].keys[i] >= key
    requires x == |Contents(S, slots[..p])| + i
    ensures Straddles(Contents(S, slots), x, key)
    ensures multiset(Contents(S, slots))[key] <= 1 ==> key !in Contents(S, slots)[..x]
    ensures multiset(Contents(S, slots))[key] > |S[slots[p].id].keys| ==> key in Contents(S, slots)[..x]
    ensures key in Contents(S, slots)[..x] <==> CopiesParted(S, slots, key)
  {
    Counted(S, slots, p, key);
    PartedCopies(S, slots, p, key);
    LowerBoundAt(S, slots, p, key, i);
  }

  // The cursor's place: in the leaf, or at the start of the next.
  lemma {:induction false} LowerBoundStands(S: Heap, lv: seq<seq<MSlot>>, root: BPlusNode, p: nat, i: nat)
    returns (q: nat)
    requires Shape(S, lv, root, NONE, 0) && Bounded(S, lv, NONE, null) && p < |lv[0]| && lv[0][p].id in S
    requires i <= |S[lv[0][p].id].keys|
    ensures var x := |Contents(S, lv[0][..p])| + i;
      && (i < |S[lv[0][p].id].keys| ==> StandsAt(S, lv[0], lv[0][p].id, i, q, x))
      && (i == |S[lv[0][p].id].keys| ==> StandsAt(S, lv[0], S[lv[0][p].id].next, 0, q, x))
  {
    q := p;
    if i == |S[lv[0][p].id].keys| {
      q := p + 1;
      if i > 0 {
        NextStands(S, lv[0], lv[0][p].id, i - 1, p, |Contents(S, lv[0][..p])| + i - 1);
      } else {
        EmptyLeaf(S, lv, root, p);
      }
    }
  }

  // Everything a lower bound promises, given the leaf and the position found in it.
  lemma {:induction false} LowerBoundFound(S: Heap, lv: seq<seq<MSlot>>, root: BPlusNode, p: nat, key: int, i: nat)
    returns (q: nat, x: nat)
    requires Shape(S, lv, root, NONE, 0) && Bounded(S, lv, NONE, null) && p < |lv[0]| && lv[0][p].id in S
    requires AtLeast(key, lv[0][p].lo) && Before(key, lv[0][p].hi)
    requires i <= |S[lv[0][p].id].keys|
    requires forall j :: 0 <= j < i ==> S[lv[0][p].id].keys[j] < key
    requires i < |S[lv[0][p].id].keys| ==> S[lv[0][p].id].keys[i] >= key
    ensures Straddles(Contents(S, lv[0]), x, key)
    ensures multiset(Contents(S, lv[0]))[key] <= 1 ==> key !in Contents(S, lv[0])[..x]
    ensures multiset(Contents(S, lv[0]))[key] > NODE_SIZE ==> key in Contents(S, lv[0])[..x]
    ensures key in Contents(S, lv[0])[..x] <==> CopiesParted(S, lv[0], key)
    ensures i < |S[lv[0][p].id].keys| ==> StandsAt(S, lv[0], lv[0][p].id, i, q, x)
    ensures i == |S[lv[0][p].id].keys| ==> StandsAt(S, lv[0], S[lv[0][p].id].next, 0, q, x)
  {
    x := |Contents(S, lv[0][..p])| + i;
    assert |S[lv[0][p].id].keys| <= NODE_SIZE by { assert KeyCountOk(|S[lv[0][p].id].keys|, false, 0 == |lv| - 1); }
    LowerBoundCounts(S, lv[0], p, key, i, x);
    q := LowerBoundStands(S, lv, root, p, i);
  }

  // Only the root leaf can be empty, and then it is the whole tree.
  lemma {:induction false} EmptyLeaf(S: Heap, lv: seq<seq<MSlot>>, root: BPlusNode, p: nat)
    requires Shape(S, lv, root, NONE, 0) && Bounded(S, lv, NONE, null) && p < |lv[0]|
    requires lv[0][p].id in S && S[lv[0][p].id].keys == []
    ensures |lv[0]| == 1 && S[lv[0][p].id].next == null && Contents(S, lv[0]) == [] && Contents(S, lv[0][..p]) == []
  {
    AloneAtTop(S, lv, root);
    assert NextOk(S, lv[0], p);
    assert KeyCountOk(0, false, 0 == |lv| - 1);
    assert Contents(S, lv[0][1..]) == [];
  }

  // The next leaf of the list carries on where this one ends.
  lemma {:induction false} NextStands(S: Heap, slots: seq<MSlot>, leaf: BPlusNode, index: nat, q: nat, x: nat)
    requires LeavesOk(S, slots) && Chained(S, slots)
    requires q < |slots| && StandsAt(S, slots, leaf, index, q, x) && index + 1 == |S[leaf].keys|
    ensures StandsAt(S, slots, S[leaf].next, 0, q + 1, x + 1)
  {
    assert NextOk(S, slots, q);
    PrefixStep(S, slots, q);
    if q + 1 < |slots| {
      assert LeafOk(S[slots[q + 1].id], slots[q + 1], false);
    } else {
      assert slots[..q + 1] == slots;
    }
  }

  lemma {:induction false} FilteredConcat(a: seq<int>, b: seq<int>, key: int)
    ensures Filtered(a + b, key) == Filtered(a, key) + Filtered(b, key)
  {
    if a == [] {
      assert a + b == b;
    } else {
      FilteredConcat(a[1..], b, key);
      assert (a + b)[1..] == a[1..] + b;
    }
  }

  lemma {:induction false} FilteredAll(s: seq<int>, key: int)
    requires forall y :: 0 <= y < |s| ==> s[y] >= key
    ensures Filtered(s, key) == s
  {
    if s != [] {
      FilteredAll(s[1..], key);
    }
  }

  lemma {:induction false} FilteredNone(s: seq<int>, key: int)
    requires forall y :: 0 <= y < |s| ==> s[y] <= key
    ensures key !in s ==> Filtered(s, key) == []
    ensures key in s ==> |Filtered(s, key)| > 0
  {
    if s != [] {
      FilteredNone(s[1..], key);
      assert s == [s[0]] + s[1..];
    }
  }

  // What is read from position x on, against all keys that should be read.
  lemma {:induction false} SuffixFiltered(s: seq<int>, x: nat, key: int)
    requires Straddles(s, x, key)
    ensures key !in s[..x] ==> s[x..] == Filtered(s, key)
    ensures key in s[..x] ==> |s[x..]| < |Filtered(s, key)|
  {
    assert s == s[..x] + s[x..];
    FilteredConcat(s[..x], s[x..], key);
    FilteredNone(s[..x], key);
    FilteredAll(s[x..], key);
  }

  // Leaves with at least n keys each.
  lemma {:induction false} ManyKeys(S: Heap, slots: seq<MSlot>, n: nat)
    requires forall q :: 0 <= q < |slots| ==> slots[q].id in S && |S[slots[q].id].keys| >= n
    ensures |Contents(S, slots)| >= n * |slots|
  {
    if slots != [] {
      ManyKeys(S, slots[1..], n);
      assert n * |slots| == n + n * |slots[1..]|;
    }
  }

  // Five keys take two leaves, and three equal ones in the middle are parted.
  lemma {:induction false} ThreeParted(S: Heap, lv: seq<seq<MSlot>>, root: BPlusNode, a: int, key: int, b: int)
    requires Shape(S, lv, root, NONE, 0) && Bounded(S, lv, NONE, null)
    requires Contents(S, lv[0]) == [a, key, key, key, b]
    ensures CopiesParted(S, lv[0], key)
  {
    AloneAtTop(S, lv, root);
    var slots := lv[0];
    assert slots[..0] == [];
    var q, i := ContentsLocate(S, slots, 0);
    ContentsAt(S, slots, 0);
    var first := S[slots[0].id].keys;
    assert KeyCountOk(|first|, false, 0 == |lv| - 1);
    assert |slots| > 1;
    forall r | 0 <= r < |slots| ensures slots[r].id in S && |S[slots[r].id].keys| >= 2 {
      assert |lv| > 1;
      assert KeyCountOk(|S[slots[r].id].keys|, false, 0 == |lv| - 1);
    }
    ManyKeys(S, slots, 2);
    ContentsAt(S, slots, 1);
    ManyKeys(S, slots[2..], 2);
    var second := S[slots[1].id].keys;
    assert slots[..1] == [slots[0]] && Contents(S, [slots[0]][1..]) == [];
    assert Contents(S, slots[..1]) == first;
    var c := Contents(S, slots);
    assert c == first + second + Contents(S, slots[2..]);
    assert first[|first| - 1] == c[|first| - 1] && second[0] == c[|first|];
    assert 2 <= |first| <= 3;
    assert PartedAt(S, slots, 0, key);
  }
}
