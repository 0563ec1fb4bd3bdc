// What a slotted page holds, without its bytes: the live records in slot order and
// how far the record area has grown.  Space of deleted records is not given back
// until the page is rebuilt, so the two are independent.
module PageView {
  import opened Keys

  const PAGE_SIZE := 2048
  const HEADER_SIZE := 40
  const RECORD_HEADER := 5
  const ENTRY_HEADER := 6
  const U16 := 0x1_0000

  datatype Rec = Rec(key: Bytes, val: Bytes)

  // record_size returns a 16-bit number.
  function RecordSize(k: nat, v: nat): nat {
    (RECORD_HEADER + k + v) % U16
  }

  // The test counts the space of all slots again on top of what free_end already reserves.
  predicate CanInsert(freeStart: nat, count: nat, size: nat) {
    freeStart + size + 2 * (count + 1) <= PAGE_SIZE - 2 * count
  }

  function RecSize(r: Rec): nat {
    RECORD_HEADER + |r.key| + |r.val|
  }

  function TotalSize(recs: seq<Rec>): nat {
    if recs == [] then 0 else RecSize(recs[0]) + TotalSize(recs[1..])
  }

  lemma {:induction false} TotalConcat(a: seq<Rec>, b: seq<Rec>)
    ensures TotalSize(a + b) == TotalSize(a) + TotalSize(b)
  {
    if a == [] {
      assert a + b == b;
    } else {
      TotalConcat(a[1..], b);
      assert (a + b)[1..] == a[1..] + b;
    }
  }

  lemma {:induction false} TotalNext(recs: seq<Rec>, i: nat)
    requires i < |recs|
    ensures TotalSize(recs[..i + 1]) == TotalSize(recs[..i]) + RecSize(recs[i])
  {
    assert recs[..i + 1] == recs[..i] + [recs[i]];
    TotalConcat(recs[..i], [recs[i]]);
    assert TotalSize([recs[i]]) == RecSize(recs[i]) + TotalSize([recs[i]][1..]);
  }

  ghost predicate SortedRecs(recs: seq<Rec>) {
    forall i, j :: 0 <= i < j < |recs| ==> Lt(recs[i].key, recs[j].key)
  }

  // A page whose live records fit where they are.
  ghost predicate Fits(recs: seq<Rec>, freeStart: nat) {
    && HEADER_SIZE + TotalSize(recs) <= freeStart
    && freeStart + 2 * |recs| <= PAGE_SIZE
  }

  // slot_key and slot_value reject records with an empty key or value.
  ghost predicate Filled(recs: seq<Rec>) {
    forall i :: 0 <= i < |recs| ==> |recs[i].key| > 0 && |recs[i].val| > 0
  }

  datatype SearchResult = SearchResult(found: bool, index: nat)

  // The binary search of search_record, and of internal_search_record on separators.
  function Search(keys: seq<Bytes>, key: Bytes, left: nat, right: nat): (r: SearchResult)
    requires left <= right <= |keys|
    ensures r.index <= |keys| && (r.found ==> r.index < |keys| && keys[r.index] == key)
    decreases right - left
  {
    if left == right then SearchResult(false, left)
    else
      var mid := left + (right - left) / 2;
      if Lt(keys[mid], key) then Search(keys, key, mid + 1, right)
      else if Lt(key, keys[mid]) then Search(keys, key, left, mid)
      else Trichotomy(keys[mid], key); SearchResult(true, mid)
  }

  lemma {:induction false} SearchStep(keys: seq<Bytes>, key: Bytes, left: nat, right: nat, mid: nat)
    requires left < right <= |keys| && mid == left + (right - left) / 2
    ensures Lt(keys[mid], key) ==> Search(keys, key, left, right) == Search(keys, key, mid + 1, right)
    ensures Lt(key, keys[mid]) ==> Search(keys, key, left, right) == Search(keys, key, left, mid)
    ensures keys[mid] == key ==> Search(keys, key, left, right) == SearchResult(true, mid)
  {
    Trichotomy(keys[mid], key);
  }

  // One round of the loop, whatever it is looking for.
  lemma {:induction false} SearchMove(keys: seq<Bytes>, key: Bytes, left: nat, right: nat, mid: nat, cmp: int,
                                      target: SearchResult)
    requires left < right <= |keys| && mid == left + (right - left) / 2 && Search(keys, key, left, right) == target
    requires (cmp < 0 <==> Lt(keys[mid], key)) && (cmp > 0 <==> Lt(key, keys[mid])) && (cmp == 0 <==> keys[mid] == key)
    ensures if cmp < 0 then Search(keys, key, mid + 1, right) == target
      else if cmp > 0 then Search(keys, key, left, mid) == target
      else target == SearchResult(true, mid)
  {
    SearchStep(keys, key, left, right, mid);
  }

  ghost predicate SortedKeys(keys: seq<Bytes>) {
    forall i, j :: 0 <= i < j < |keys| ==> Lt(keys[i], keys[j])
  }

  lemma {:induction false} NotBetween(keys: seq<Bytes>, key: Bytes, i: nat)
    requires i <= |keys| && (forall j :: 0 <= j < i ==> Lt(keys[j], key)) && forall j :: i <= j < |keys| ==>
      Lt(key, keys[j])
    ensures key !in keys
  {
    Irreflexive(key);
  }

  lemma {:induction false} AroundFound(keys: seq<Bytes>, mid: nat)
    requires SortedKeys(keys) && mid < |keys|
    ensures forall i :: 0 <= i < mid ==> Lt(keys[i], keys[mid])
    ensures forall i :: mid <= i < |keys| && keys[i] != keys[mid] ==> Lt(keys[mid], keys[i])
  {
  }

  // On ascending keys it finds the key if it is there, and its place if it is not.
  lemma {:induction false} SearchSorted(keys: seq<Bytes>, key: Bytes, left: nat, right: nat)
    requires SortedKeys(keys) && left <= right <= |keys|
    requires forall i :: 0 <= i < left ==> Lt(keys[i], key)
    requires forall i :: right <= i < |keys| ==> Lt(key, keys[i])
    ensures Search(keys, key, left, right).found <==> key in keys
    ensures forall i :: 0 <= i < Search(keys, key, left, right).index ==> Lt(keys[i], key)
    ensures forall i :: Search(keys, key, left, right).index <= i < |keys| && keys[i] != key ==> Lt(key, keys[i])
    decreases right - left
  {
    if left == right {
      NotBetween(keys, key, left);
    } else {
      var mid := left + (right - left) / 2;
      SearchStep(keys, key, left, right, mid);
      Trichotomy(keys[mid], key);
      if Lt(keys[mid], key) {
        BelowPivot(keys, key, mid);
        SearchSorted(keys, key, mid + 1, right);
      } else if Lt(key, keys[mid]) {
        AbovePivot(keys, key, mid);
        SearchSorted(keys, key, left, mid);
      } else {
        AroundFound(keys, mid);
      }
    }
  }

  lemma {:induction false} BelowPivot(keys: seq<Bytes>, key: Bytes, mid: nat)
    requires SortedKeys(keys) && mid < |keys| && (Lt(keys[mid], key) || keys[mid] == key)
    ensures forall i :: 0 <= i < mid ==> Lt(keys[i], key)
  {
    forall i | 0 <= i < mid ensures Lt(keys[i], key) {
      if keys[mid] != key { Transitive(keys[i], keys[mid], key); }
    }
  }

  lemma {:induction false} AbovePivot(keys: seq<Bytes>, key: Bytes, mid: nat)
    requires SortedKeys(keys) && mid < |keys| && (Lt(key, keys[mid]) || keys[mid] == key)
    ensures forall i :: mid < i < |keys| ==> Lt(key, keys[i])
  {
    forall i | mid < i < |keys| ensures Lt(key, keys[i]) {
      if keys[mid] != key { Transitive(key, keys[mid], keys[i]); }
    }
  }

  function KeysOf(recs: seq<Rec>): (r: seq<Bytes>)
    ensures |r| == |recs| && forall i :: 0 <= i < |recs| ==> r[i] == recs[i].key
  {
    seq(|recs|, i requires 0 <= i < |recs| => recs[i].key)
  }

  // search_record on a leaf.
  function Find(recs: seq<Rec>, key: Bytes): (r: SearchResult)
    ensures r.index <= |recs| && (r.found ==> r.index < |recs| && recs[r.index].key == key)
  {
    Search(KeysOf(recs), key, 0, |recs|)
  }

  lemma {:induction false} FindSorted(recs: seq<Rec>, key: Bytes)
    requires SortedRecs(recs)
    ensures Find(recs, key).found <==> exists i :: 0 <= i < |recs| && recs[i].key == key
    ensures forall i :: 0 <= i < Find(recs, key).index ==> Lt(recs[i].key, key)
    ensures forall i :: Find(recs, key).index <= i < |recs| && recs[i].key != key ==> Lt(key, recs[i].key)
  {
    SearchSorted(KeysOf(recs), key, 0, |recs|);
  }

  datatype Content = Content(recs: seq<Rec>, freeStart: nat)

  datatype Inserted = Inserted(ok: bool, page: Content)

  // page_insert.  A size that wrapped to 16 bits may pass the room test, but the write itself does not fit.
  function PageInsert(c: Content, key: Bytes, val: Bytes): Inserted {
    var r := Find(c.recs, key);
    if r.found || !CanInsert(c.freeStart, |c.recs|, RecordSize(|key|, |val|))
      || c.freeStart + RECORD_HEADER + |key| + |val| > PAGE_SIZE - 2 * |c.recs| then
      Inserted(false, c)
    else
      Inserted(true, Content(InsertAt(c.recs, r.index, Rec(key, val)), c.freeStart + RecordSize(|key|, |val|)))
  }

  // A key and value that page_insert can store in this page as a new record.
  predicate Takes(c: Content, key: Bytes, val: Bytes) {
    && |val| > 0
    && RECORD_HEADER + |key| + |val| < U16
    && CanInsert(c.freeStart, |c.recs|, RECORD_HEADER + |key| + |val|)
  }

  function InsertAt(recs: seq<Rec>, i: nat, r: Rec): seq<Rec>
    requires i <= |recs|
  {
    recs[..i] + [r] + recs[i..]
  }

  function RemoveAt(recs: seq<Rec>, i: nat): seq<Rec>
    requires i < |recs|
  {
    recs[..i] + recs[i + 1..]
  }

  lemma {:induction false} TotalInsert(recs: seq<Rec>, i: nat, r: Rec)
    requires i <= |recs|
    ensures TotalSize(InsertAt(recs, i, r)) == TotalSize(recs) + RecSize(r)
  {
    assert recs == recs[..i] + recs[i..];
    TotalConcat(recs[..i], recs[i..]);
    TotalConcat(recs[..i], [r]);
    TotalConcat(recs[..i] + [r], recs[i..]);
    assert TotalSize([r]) == RecSize(r) + TotalSize([r][1..]);
  }

  lemma {:induction false} RemoveInsert(recs: seq<Rec>, i: nat)
    requires i < |recs|
    ensures InsertAt(RemoveAt(recs, i), i, recs[i]) == recs
  {
  }

  lemma {:induction false} SortedInsert(recs: seq<Rec>, i: nat, r: Rec)
    requires SortedRecs(recs) && i <= |recs|
    requires forall j :: 0 <= j < i ==> Lt(recs[j].key, r.key)
    requires forall j :: i <= j < |recs| ==> Lt(r.key, recs[j].key)
    ensures SortedRecs(InsertAt(recs, i, r))
  {
    var n := InsertAt(recs, i, r);
    forall x, y | 0 <= x < y < |n| ensures Lt(n[x].key, n[y].key) {
      if x < i && y > i {
        assert n[y] == recs[y - 1];
        assert Lt(recs[x].key, recs[y - 1].key);
      } else if x > i {
        assert n[x] == recs[x - 1] && n[y] == recs[y - 1];
      } else if x == i {
        assert n[y] == recs[y - 1];
      }
    }
  }

  lemma {:induction false} SortedRemove(recs: seq<Rec>, i: nat)
    requires SortedRecs(recs) && i < |recs|
    ensures SortedRecs(RemoveAt(recs, i))
    ensures forall j :: 0 <= j < |RemoveAt(recs, i)| ==> RemoveAt(recs, i)[j].key != recs[i].key
  {
    var n := RemoveAt(recs, i);
    Irreflexive(recs[i].key);
    forall x | 0 <= x < |n| ensures n[x] == recs[if x < i then x else x + 1] {
    }
  }

  lemma {:induction false} FilledInsert(recs: seq<Rec>, i: nat, r: Rec)
    requires Filled(recs) && i <= |recs| && |r.key| > 0 && |r.val| > 0
    ensures Filled(InsertAt(recs, i, r))
  {
    var n := InsertAt(recs, i, r);
    forall x | 0 <= x < |n| ensures |n[x].key| > 0 && |n[x].val| > 0 {
      assert n[x] == if x < i then recs[x] else if x == i then r else recs[x - 1];
    }
  }

  lemma {:induction false} FilledRemove(recs: seq<Rec>, i: nat)
    requires Filled(recs) && i < |recs|
    ensures Filled(RemoveAt(recs, i))
  {
    var n := RemoveAt(recs, i);
    forall x | 0 <= x < |n| ensures |n[x].key| > 0 && |n[x].val| > 0 {
      assert n[x] == recs[if x < i then x else x + 1];
    }
  }

  lemma {:induction false} InsertTaken(c: Content, key: Bytes, val: Bytes)
    requires SortedRecs(c.recs) && Filled(c.recs) && Fits(c.recs, c.freeStart) && |key| > 0
    requires Takes(c, key, val) && !Find(c.recs, key).found
    ensures PageInsert(c, key, val).ok
    ensures PageInsert(c, key, val).page.recs == InsertAt(c.recs, Find(c.recs, key).index, Rec(key, val))
    ensures SortedRecs(PageInsert(c, key, val).page.recs) && Filled(PageInsert(c, key, val).page.recs)
    ensures Fits(PageInsert(c, key, val).page.recs, PageInsert(c, key, val).page.freeStart)
  {
    FindSorted(c.recs, key);
    var i, r := Find(c.recs, key).index, Rec(key, val);
    SortedInsert(c.recs, i, r);
    FilledInsert(c.recs, i, r);
    TotalInsert(c.recs, i, r);
    InsertIs(c, key, val, i);
  }

  lemma {:induction false} InsertIs(c: Content, key: Bytes, val: Bytes, index: nat)
    requires Find(c.recs, key) == SearchResult(false, index)
      && CanInsert(c.freeStart, |c.recs|, RecordSize(|key|, |val|))
    ensures PageInsert(c, key, val) ==
      if c.freeStart + RECORD_HEADER + |key| + |val| <= PAGE_SIZE - 2 * |c.recs| then
        Inserted(true, Content(InsertAt(c.recs, index, Rec(key, val)), c.freeStart + RECORD_HEADER + |key| + |val|))
      else Inserted(false, c)
  {
  }

  // page_delete.
  function PageDelete(c: Content, key: Bytes): Inserted {
    var r := Find(c.recs, key);
    if !r.found then Inserted(false, c)
    else Inserted(true, Content(RemoveAt(c.recs, r.index), c.freeStart))
  }

  lemma {:induction false} DeleteKeepsPage(c: Content, key: Bytes)
    requires SortedRecs(c.recs) && Filled(c.recs) && Fits(c.recs, c.freeStart) && Find(c.recs, key).found
    ensures SortedRecs(PageDelete(c, key).page.recs) && Filled(PageDelete(c, key).page.recs)
    ensures Fits(PageDelete(c, key).page.recs, c.freeStart)
    ensures forall i :: 0 <= i < |PageDelete(c, key).page.recs| ==> PageDelete(c, key).page.recs[i].key != key
  {
    var i := Find(c.recs, key).index;
    SortedRemove(c.recs, i);
    FilledRemove(c.recs, i);
    RemoveInsert(c.recs, i);
    TotalInsert(RemoveAt(c.recs, i), i, c.recs[i]);
    assert PageDelete(c, key).page == Content(RemoveAt(c.recs, i), c.freeStart);
  }

  // split_leaf_page divides at half, rounded down but at least one.
  function SplitIndex(total: nat): nat {
    if total / 2 == 0 then 1 else total / 2
  }

  // A half as split_leaf_page writes it: compacted from the start of the record area.
  function Compact(recs: seq<Rec>): Content {
    Content(recs, HEADER_SIZE + TotalSize(recs))
  }

  lemma {:induction false} CompactFits(c: Content, i: nat, j: nat)
    requires Fits(c.recs, c.freeStart) && i <= j <= |c.recs|
    ensures Fits(c.recs[i..j], Compact(c.recs[i..j]).freeStart)
  {
    assert c.recs == c.recs[..i] + (c.recs[i..j] + c.recs[j..]);
    TotalConcat(c.recs[..i], c.recs[i..j] + c.recs[j..]);
    TotalConcat(c.recs[i..j], c.recs[j..]);
  }

  // The half a new key goes to.
  function ChosenHalf(recs: seq<Rec>, key: Bytes): Content
    requires |recs| >= 2
  {
    var s := SplitIndex(|recs|);
    Compact(if Lt(key, recs[s].key) then recs[..s] else recs[s..])
  }

  lemma {:induction false} EqualSizes(recs: seq<Rec>, s: nat)
    requires forall i :: 0 <= i < |recs| ==> RecSize(recs[i]) == s
    ensures TotalSize(recs) == |recs| * s
  {
    if recs != [] {
      EqualSizes(recs[1..], s);
    }
  }

  // With records of one size, a split always makes room for the record that did not fit.
  lemma {:induction false} SplitMakesRoom(c: Content, key: Bytes, val: Bytes, s: nat)
    requires Fits(c.recs, c.freeStart) && |c.recs| >= 2 && 7 <= s <= 500
    requires forall i :: 0 <= i < |c.recs| ==> RecSize(c.recs[i]) == s
    requires RECORD_HEADER + |key| + |val| == s && |val| > 0
    ensures Takes(ChosenHalf(c.recs, key), key, val)
  {
    var n := |c.recs|;
    var k := SplitIndex(n);
    EqualSizes(c.recs, s);
    var half := ChosenHalf(c.recs, key).recs;
    EqualSizes(half, s);
    var m := |half|;
    assert m == k || m == n - k;
    assert 2 * m <= n + 1;
    assert n * s + 2 * n + HEADER_SIZE <= PAGE_SIZE;
    RoomInHalf(n, m, s);
  }

  lemma {:induction false} RoomInHalf(n: nat, m: nat, s: nat)
    requires n >= 2 && 2 * m <= n + 1 && 7 <= s <= 500
    requires HEADER_SIZE + n * s + 2 * n <= PAGE_SIZE
    ensures HEADER_SIZE + m * s + s + 2 * (m + 1) <= PAGE_SIZE - 2 * m
  {
    assert m * s + s == (m + 1) * s;
    if n >= 4 {
      assert m + 2 <= n;
      assert (m + 1) * s + s == (m + 2) * s;
      assert (m + 2) * s <= n * s by { MulMonotone(m + 2, n, s); }
    } else if n == 3 {
      assert m <= 2;
      MulMonotone(m + 1, 3, s);
    } else {
      assert m <= 1;
      MulMonotone(m + 1, 2, s);
    }
  }

  lemma MulMonotone(a: nat, b: nat, s: nat)
    requires a <= b
    ensures a * s <= b * s
  {
  }

  // page_insert of an absent key succeeds, with a value that can be read back, exactly when the page takes the record.
  lemma {:induction false} TakesIsOk(c: Content, key: Bytes, val: Bytes)
    requires !Find(c.recs, key).found
    ensures Takes(c, key, val) <==> PageInsert(c, key, val).ok && |val| > 0
    ensures PageInsert(c, key, val).ok ==> CanInsert(c.freeStart, |c.recs|, RecordSize(|key|, |val|))
  {
  }
}
