// The buffer pool as the tree operations see it: the pins held on pages, and which pages may be in memory.
module PagePool {
  import B = BufferPool
  import opened Keys
  import opened Bitmap

  class Pool {
    const frames: nat
    var pins: multiset<nat>
    // Eviction takes pages out without anybody seeing it, so not all of these need to be there.
    var resident: set<nat>

    constructor (frames: nat)
      ensures this.frames == frames && pins == multiset{} && resident == {}
    {
      this.frames, pins, resident := frames, multiset{}, {};
    }

    // With fewer pins than frames this never gives null.
    method FetchPage(id: nat)
      requires |pins| < frames
      modifies this
      ensures pins == old(pins) + multiset{id} && resident == old(resident) + {id}
    {
      pins, resident := pins + multiset{id}, resident + {id};
    }

    // Neither does this.  A page still in memory keeps what it holds and is not laid out anew; stale says so.
    method NewPage(id: nat) returns (stale: bool)
      requires |pins| < frames
      modifies this
      ensures pins == old(pins) + multiset{id} && resident == old(resident) + {id}
      ensures stale ==> id in old(resident)
    {
      stale := id in resident;
      if stale {
        // unless it was evicted
        stale := *;
      }
      pins, resident := pins + multiset{id}, resident + {id};
    }

    method UnpinPage(id: nat)
      requires id in pins
      modifies this
      ensures pins == old(pins) - multiset{id} && resident == old(resident)
    {
      pins := pins - multiset{id};
    }

    // Refused while the page is pinned.
    method DeletePage(id: nat)
      modifies this
      ensures pins == old(pins) && resident == if id in pins then old(resident) else old(resident) - {id}
    {
      if id !in pins {
        resident := resident - {id};
      }
    }
  }

  // The ledger is that of a buffer pool with a working disk.
  ghost predicate Stands(pool: B.BufferPoolManager, pins: multiset<nat>, resident: set<nat>)
    reads pool, pool.disk
  {
    && pool.Valid() && B.Tracked(pool.frames, pool.lru) && !pool.disk.broken
    && pool.pageTable.Keys <= resident && forall id :: pool.PinsOn(id) == pins[id]
  }

  ghost function PagesOf(frames: seq<B.Frame>): (m: multiset<nat>)
    ensures |m| == |frames|
  {
    if frames == [] then multiset{} else PagesOf(frames[..|frames| - 1]) + multiset{frames[|frames| - 1].pageId}
  }

  lemma {:induction false} Fewer(a: multiset<nat>, b: multiset<nat>)
    requires a <= b
    ensures |a| <= |b|
  {
    assert b == a + (b - a);
  }

  // Each frame holds a page of its own.
  lemma {:induction false} PagesOnce(frames: seq<B.Frame>, table: map<nat, nat>, n: nat)
    requires B.TableOk(frames, table) && B.NoneFree(frames) && n <= |frames|
    ensures forall id :: PagesOf(frames[..n])[id] <= if id in table && table[id] < n then 1 else 0
  {
    if n > 0 {
      PagesOnce(frames, table, n - 1);
      assert frames[..n][..n - 1] == frames[..n - 1];
      assert frames[n - 1].pageId in table;
    }
  }

  lemma {:induction false} PagesPinned(frames: seq<B.Frame>, table: map<nat, nat>, pins: multiset<nat>)
    requires B.TableOk(frames, table) && B.AllPinned(frames) && forall id :: B.PinsIn(frames, table, id) == pins[id]
    ensures PagesOf(frames) <= pins
  {
    PagesOnce(frames, table, |frames|);
    assert frames[..|frames|] == frames;
    forall id ensures PagesOf(frames)[id] <= pins[id] {
      assert B.PinsIn(frames, table, id) == pins[id];
    }
  }

  // Frames that are all pinned take as many pins.
  lemma {:induction false} RoomToPin(pool: B.BufferPoolManager, pins: multiset<nat>, resident: set<nat>)
    requires Stands(pool, pins, resident) && |pins| < |pool.frames|
    ensures !B.AllPinned(pool.frames)
  {
    if B.AllPinned(pool.frames) {
      forall id ensures B.PinsIn(pool.frames, pool.pageTable, id) == pins[id] {
        assert pool.PinsOn(id) == pins[id];
      }
      PagesPinned(pool.frames, pool.pageTable, pins);
      Fewer(PagesOf(pool.frames), pins);
    }
  }

  // Each operation of the ledger is the buffer pool's.
  method Fetch(pool: B.BufferPoolManager, ghost pins: multiset<nat>, ghost resident: set<nat>, id: nat) returns (f: nat)
    requires Stands(pool, pins, resident) && |pins| < |pool.frames| && id != INVALID_PAGE_ID
    modifies pool`frames, pool`pageTable, pool`lru, pool.disk`pages
    ensures Stands(pool, pins + multiset{id}, resident + {id}) && |pool.frames| == |old(pool.frames)|
    ensures forall x :: pool.View(x) == old(pool.View(x))
    ensures f < |pool.frames| && pool.frames[f].pageId == id && pool.frames[f].page == pool.View(id)
  {
    RoomToPin(pool, pins, resident);
    var r := pool.FetchPage(id);
    f := r.value;
  }

  method New(pool: B.BufferPoolManager, ghost pins: multiset<nat>, ghost resident: set<nat>, id: nat, initial: Bytes)
    returns (f: nat)
    requires Stands(pool, pins, resident) && |pins| < |pool.frames| && id != INVALID_PAGE_ID
    modifies pool`frames, pool`pageTable, pool`lru, pool.disk`pages
    ensures Stands(pool, pins + multiset{id}, resident + {id}) && |pool.frames| == |old(pool.frames)|
    ensures forall x :: x != id || id in old(pool.pageTable) ==> pool.View(x) == old(pool.View(x))
    ensures id !in resident ==> pool.View(id) == initial
    ensures f < |pool.frames| && pool.frames[f].pageId == id && pool.frames[f].page == pool.View(id)
  {
    RoomToPin(pool, pins, resident);
    var r := pool.NewPage(id, initial);
    f := r.value;
  }

  method Unpin(pool: B.BufferPoolManager, ghost pins: multiset<nat>, ghost resident: set<nat>, id: nat, dirty: bool)
    requires Stands(pool, pins, resident) && id in pins && (id in pool.owed && pins[id] == 1 ==> dirty)
    modifies pool`frames, pool`lru, pool`owed
    ensures Stands(pool, pins - multiset{id}, resident) && |pool.frames| == |old(pool.frames)|
    ensures forall x :: pool.View(x) == old(pool.View(x))
  {
    assert pool.PinsOn(id) == pins[id];
    var ok := pool.UnpinPage(id, dirty);
  }

  method Delete(pool: B.BufferPoolManager, ghost pins: multiset<nat>, ghost resident: set<nat>, id: nat)
    requires Stands(pool, pins, resident)
    modifies pool`frames, pool`pageTable, pool`lru
    ensures Stands(pool, pins, if id in pins then resident else resident - {id}) && |pool.frames| == |old(pool.frames)|
    ensures forall x :: x != id || id in pins ==> pool.View(x) == old(pool.View(x))
  {
    assert pool.PinsOn(id) == pins[id];
    var ok := pool.DeletePage(id);
  }
}
