// Which page the buffer pool gives up: the one used least recently, and when it does not.
module Recency {
  import opened BufferPool

  // When each frame was used last; a frame never used has been used at time 0.
  type Uses = map<nat, nat>

  function LastUse(uses: Uses, f: nat): nat {
    if f in uses then uses[f] else 0
  }

  // The list goes from the most recently used frame to the least.
  ghost predicate ByUse(lru: seq<nat>, uses: Uses) {
    forall i, j :: 0 <= i < j < |lru| ==> LastUse(uses, lru[j]) <= LastUse(uses, lru[i])
  }

  // A page fetched or made at time `now` is the most recently used, and the order stays.
  lemma {:induction false} FetchedByUse(was: seq<nat>, lru: seq<nat>, f: nat, uses: Uses, now: nat)
    requires NoDups(was) && ByUse(was, uses) && MovedUp(was, lru, f) && forall g :: LastUse(uses, g) <= now
    ensures ByUse(lru, uses[f := now]) && lru != [] && lru[0] == f
  {
    var rest :| rest <= was && lru == [f] + Without(rest, f);
    var left := Without(rest, f);
    LeftInOrder(rest, f, uses);
    forall i, j | 0 <= i < j < |lru| ensures LastUse(uses[f := now], lru[j]) <= LastUse(uses[f := now], lru[i]) {
      assert lru[j] == left[j - 1] && left[j - 1] in left;
      if i > 0 {
        assert lru[i] == left[i - 1] && left[i - 1] in left;
      }
    }
  }

  lemma {:induction false} LeftInOrder(s: seq<nat>, f: nat, uses: Uses)
    requires NoDups(s) && ByUse(s, uses)
    ensures ByUse(Without(s, f), uses) && f !in Without(s, f)
  {
    if f in s {
      var i :| 0 <= i < |s| && s[i] == f;
      WithoutAt(s, i);
      var left := Without(s, f);
      assert forall k :: 0 <= k < |left| ==> left[k] == s[if k < i then k else k + 1];
    } else {
      WithoutNone(s, f);
    }
  }

  // Deleting a page and losing the end of the list keep the order.
  lemma {:induction false} ShorterByUse(was: seq<nat>, lru: seq<nat>, f: nat, uses: Uses)
    requires NoDups(was) && ByUse(was, uses) && (lru <= was || lru == Without(was, f))
    ensures ByUse(lru, uses)
  {
    LeftInOrder(was, f, uses);
  }

  // The last pin given back puts a frame that had left the list at its end; the order stays exactly if no listed
  // frame has been used before it.
  lemma {:induction false} GivenBackByUse(was: seq<nat>, f: nat, uses: Uses)
    requires ByUse(was, uses)
    ensures ByUse(Listed(was, f), uses) <==> f in was || forall g :: g in was ==> LastUse(uses, f) <= LastUse(uses, g)
  {
    var lru := Listed(was, f);
    if f !in was && ByUse(lru, uses) {
      forall g | g in was ensures LastUse(uses, f) <= LastUse(uses, g) {
        var i :| 0 <= i < |was| && was[i] == g;
        assert lru[i] == g && lru[|was|] == f;
      }
    }
    if f !in was && forall g :: g in was ==> LastUse(uses, f) <= LastUse(uses, g) {
      forall i, j | 0 <= i < j < |lru| ensures LastUse(uses, lru[j]) <= LastUse(uses, lru[i]) {
        assert lru[i] in was;
      }
    }
  }

  // While the order lasts, what is evicted has been used least recently of all that could be.
  lemma {:induction false} VictimLeastRecent(frames: seq<Frame>, lru: seq<nat>, uses: Uses, f: nat)
    requires ListOk(frames, lru) && Tracked(frames, lru) && NoneFree(frames) && ByUse(lru, uses)
    requires f < |frames| && frames[f].pins == 0
    ensures Victim(frames, lru).Some? && LastUse(uses, Victim(frames, lru).value) <= LastUse(uses, f)
  {
    assert forall k :: 0 <= k < |lru| ==> lru[k] in lru;
    LastUnpinned(frames, lru, |lru|, uses, f);
  }

  lemma {:induction false} LastUnpinned(frames: seq<Frame>, lru: seq<nat>, n: nat, uses: Uses, f: nat)
    requires n <= |lru| && (forall k :: 0 <= k < |lru| ==> lru[k] < |frames|) && ByUse(lru, uses)
    requires f in lru[..n] && f < |frames| && frames[f].pins == 0
    ensures Unpinned(frames, lru, n).Some? && LastUse(uses, Unpinned(frames, lru, n).value) <= LastUse(uses, f)
  {
    var i :| 0 <= i < n && lru[i] == f;
    if frames[lru[n - 1]].pins > 0 {
      assert f == lru[..n - 1][i];
      LastUnpinned(frames, lru, n - 1, uses, f);
    }
  }
}
