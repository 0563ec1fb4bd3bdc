// The buffer pool: a fixed number of frames in front of the disk.
module BufferPool {
  import opened Keys
  import opened PageView
  import opened Bitmap

  datatype Option<+T> = None | Some(value: T)

  const ZERO_PAGE: Bytes := Zeros(PAGE_SIZE)

  function OnDisk(pages: map<nat, Bytes>, id: nat): Bytes {
    if id in pages then pages[id] else ZERO_PAGE
  }

  // The file behind the pool.  What was never written reads as zeros; while it is broken nothing is read or written.
  class Disk {
    var pages: map<nat, Bytes>
    var broken: bool

    function At(id: nat): Bytes
      reads this
    {
      OnDisk(pages, id)
    }

    method ReadPage(id: nat) returns (page: Option<Bytes>)
      ensures page == if broken then None else Some(At(id))
    {
      return if broken then None else Some(At(id));
    }

    method WritePage(id: nat, page: Bytes) returns (ok: bool)
      modifies `pages
      ensures ok == !broken
      ensures pages == if broken then old(pages) else old(pages)[id := page]
    {
      if broken {
        return false;
      }
      pages := pages[id := page];
      return true;
    }

    constructor ()
      ensures pages == map[] && !broken
    {
      pages, broken := map[], false;
    }
  }

  // A frame without a page has the invalid page id.
  datatype Frame = Frame(pageId: nat, pins: nat, dirty: bool, page: Bytes) {
    predicate Free() {
      pageId == INVALID_PAGE_ID
    }
  }

  ghost predicate NoDups(s: seq<nat>) {
    forall i, j :: 0 <= i < j < |s| ==> s[i] != s[j]
  }

  // The page table names exactly the frames that hold a page.
  ghost predicate TableOk(frames: seq<Frame>, table: map<nat, nat>) {
    && (forall id :: id in table ==> table[id] < |frames| && frames[table[id]].pageId == id && id != INVALID_PAGE_ID)
    && (forall f :: 0 <= f < |frames| && !frames[f].Free() ==>
      frames[f].pageId in table && table[frames[f].pageId] == f)
  }

  ghost predicate ListOk(frames: seq<Frame>, lru: seq<nat>) {
    NoDups(lru) && forall f :: f in lru ==> f < |frames|
  }

  // Every frame that could be evicted is in the list.  Pinned frames may be, too.
  ghost predicate Tracked(frames: seq<Frame>, lru: seq<nat>) {
    forall f :: 0 <= f < |frames| && !frames[f].Free() && frames[f].pins == 0 ==> f in lru
  }

  // A frame that is neither dirty nor still to be declared so agrees with the disk.
  ghost predicate Clean(frames: seq<Frame>, owed: set<nat>, pages: map<nat, Bytes>) {
    forall f :: 0 <= f < |frames| && !frames[f].Free() && !frames[f].dirty && frames[f].pageId !in owed ==>
                frames[f].page == OnDisk(pages, frames[f].pageId)
  }

  // Only pinned pages can have changes that are still to be declared.
  ghost predicate OwedPinned(frames: seq<Frame>, table: map<nat, nat>, owed: set<nat>)
    requires TableOk(frames, table)
  {
    forall id :: id in owed ==> id in table && frames[table[id]].pins > 0
  }

  // What a page holds, whether in memory or on disk.
  ghost function Seen(frames: seq<Frame>, table: map<nat, nat>, pages: map<nat, Bytes>, id: nat): Bytes
    requires TableOk(frames, table)
  {
    if id in table then frames[table[id]].page else OnDisk(pages, id)
  }

  ghost function PinsIn(frames: seq<Frame>, table: map<nat, nat>, id: nat): nat
    requires TableOk(frames, table)
  {
    if id in table then frames[table[id]].pins else 0
  }

  // The same page in the frame, with other pins or marks or another content.
  lemma {:induction false} Changed(frames: seq<Frame>, table: map<nat, nat>, pages: map<nat, Bytes>, f: nat,
                                   frame: Frame)
    requires TableOk(frames, table) && f < |frames| && !frame.Free() && frames[f].pageId == frame.pageId
    ensures TableOk(frames[f := frame], table)
    ensures forall x :: PinsIn(frames[f := frame], table, x) == if x == frame.pageId
                        then frame.pins else PinsIn(frames, table, x)
    ensures forall x :: Seen(frames[f := frame], table, pages, x) ==
                        if x == frame.pageId then frame.page else Seen(frames, table, pages, x)
  {
    var now := frames[f := frame];
    forall x
      ensures PinsIn(now, table, x) == if x == frame.pageId then frame.pins else PinsIn(frames, table, x)
      ensures Seen(now, table, pages, x) == if x == frame.pageId then frame.page else Seen(frames, table, pages, x)
    {
      assert x in table && table[x] == f ==> x == frame.pageId;
      assert frames[f].pageId in table;
    }
  }

  lemma {:induction false} ChangedClean(frames: seq<Frame>, table: map<nat, nat>, owed: set<nat>, owed': set<nat>,
                                        pages: map<nat, Bytes>, f: nat, frame: Frame)
    requires TableOk(frames, table) && f < |frames| && !frame.Free() && frames[f].pageId == frame.pageId
    requires forall x :: x != frame.pageId ==> (x in owed <==> x in owed')
    requires Clean(frames, owed, pages)
      && (frame.dirty || frame.pageId in owed' || frame.page == OnDisk(pages, frame.pageId))
    ensures Clean(frames[f := frame], owed', pages)
  {
  }

  lemma {:induction false} ChangedOwed(frames: seq<Frame>, table: map<nat, nat>, owed: set<nat>, owed': set<nat>,
                                       f: nat, frame: Frame)
    requires TableOk(frames, table) && f < |frames| && !frame.Free() && frames[f].pageId == frame.pageId
    requires TableOk(frames[f := frame], table)
    requires forall x :: x != frame.pageId ==> (x in owed <==> x in owed')
    requires OwedPinned(frames, table, owed) && (frame.pageId in owed' ==> frame.pins > 0)
    ensures OwedPinned(frames[f := frame], table, owed')
  {
  }

  // A page written to disk as it is in memory.
  lemma {:induction false} Written(frames: seq<Frame>, table: map<nat, nat>, owed: set<nat>, pages: map<nat, Bytes>,
                                   f: nat)
    requires TableOk(frames, table) && f < |frames| && !frames[f].Free() && Clean(frames, owed, pages)
    ensures Clean(frames, owed, pages[frames[f].pageId := frames[f].page])
    ensures forall x ::
      Seen(frames, table, pages[frames[f].pageId := frames[f].page], x) == Seen(frames, table, pages, x)
  {
  }

  // No page but these is dirty.
  ghost predicate Declared(frames: seq<Frame>, table: map<nat, nat>, todo: set<nat>)
    requires TableOk(frames, table)
  {
    forall x :: x in table && x !in todo ==> !frames[table[x]].dirty
  }

  lemma {:induction false} DeclaredMore(was: seq<Frame>, now: seq<Frame>, table: map<nat, nat>, todo: set<nat>, id: nat)
    requires TableOk(was, table) && TableOk(now, table) && |was| == |now| && Declared(was, table, todo)
    requires forall f :: 0 <= f < |now| && now[f].dirty ==> was[f].dirty
    requires id in table && !now[table[id]].dirty
    ensures Declared(now, table, todo - {id})
  {
  }

  lemma {:induction false} AllDeclared(frames: seq<Frame>, table: map<nat, nat>, owed: set<nat>, pages: map<nat, Bytes>)
    requires TableOk(frames, table) && Clean(frames, owed, pages) && Declared(frames, table, {})
    ensures forall x :: x !in owed ==> OnDisk(pages, x) == Seen(frames, table, pages, x)
  {
  }

  // A frame emptied of its page.
  lemma {:induction false} Emptied(frames: seq<Frame>, table: map<nat, nat>, pages: map<nat, Bytes>, f: nat,
                                   frame: Frame)
    requires TableOk(frames, table) && f < |frames| && !frames[f].Free() && frame.Free() && frames[f].pins == 0
    ensures TableOk(frames[f := frame], table - {frames[f].pageId})
    ensures forall x :: PinsIn(frames[f := frame], table - {frames[f].pageId}, x) == PinsIn(frames, table, x)
    ensures forall x :: Seen(frames[f := frame], table - {frames[f].pageId}, pages, x) ==
                        if x == frames[f].pageId then OnDisk(pages, x) else Seen(frames, table, pages, x)
  {
    var now, left := frames[f := frame], table - {frames[f].pageId};
    forall x
      ensures PinsIn(now, left, x) == PinsIn(frames, table, x)
      ensures Seen(now, left, pages, x) == if x == frames[f].pageId
        then OnDisk(pages, x) else Seen(frames, table, pages, x)
    {
      assert x in table && table[x] == f ==> x == frames[f].pageId;
    }
  }

  lemma {:induction false} EmptiedOwed(frames: seq<Frame>, table: map<nat, nat>, owed: set<nat>, f: nat, frame: Frame)
    requires TableOk(frames, table) && f < |frames| && !frames[f].Free() && frame.Free() && frames[f].pins == 0
    requires TableOk(frames[f := frame], table - {frames[f].pageId}) && OwedPinned(frames, table, owed)
    ensures OwedPinned(frames[f := frame], table - {frames[f].pageId}, owed)
  {
  }

  // A page put into an empty frame.
  lemma {:induction false} Installed(frames: seq<Frame>, table: map<nat, nat>, pages: map<nat, Bytes>, f: nat,
                                     frame: Frame)
    requires TableOk(frames, table) && f < |frames| && frames[f].Free() && !frame.Free() && frame.pageId !in table
    ensures TableOk(frames[f := frame], table[frame.pageId := f])
    ensures forall x :: PinsIn(frames[f := frame], table[frame.pageId := f], x) ==
                        if x == frame.pageId then frame.pins else PinsIn(frames, table, x)
    ensures forall x :: Seen(frames[f := frame], table[frame.pageId := f], pages, x) ==
                        if x == frame.pageId then frame.page else Seen(frames, table, pages, x)
  {
    var now, more := frames[f := frame], table[frame.pageId := f];
    forall x
      ensures PinsIn(now, more, x) == if x == frame.pageId then frame.pins else PinsIn(frames, table, x)
      ensures Seen(now, more, pages, x) == if x == frame.pageId then frame.page else Seen(frames, table, pages, x)
    {
      assert x in table ==> table[x] != f;
    }
  }

  lemma {:induction false} InstalledOwed(frames: seq<Frame>, table: map<nat, nat>, owed: set<nat>, f: nat, frame: Frame)
    requires TableOk(frames, table) && f < |frames| && frames[f].Free() && !frame.Free() && frame.pageId !in table
    requires TableOk(frames[f := frame], table[frame.pageId := f]) && OwedPinned(frames, table, owed) && frame.pins > 0
    ensures OwedPinned(frames[f := frame], table[frame.pageId := f], owed)
  {
  }

  ghost predicate AllPinned(frames: seq<Frame>) {
    forall f :: 0 <= f < |frames| ==> !frames[f].Free() && frames[f].pins > 0
  }

  ghost predicate NoneFree(frames: seq<Frame>) {
    forall f :: 0 <= f < |frames| ==> !frames[f].Free()
  }

  function Without(s: seq<nat>, f: nat): seq<nat> {
    if s == [] then [] else Without(s[..|s| - 1], f) + if s[|s| - 1] == f then [] else [s[|s| - 1]]
  }

  lemma {:induction false} WithoutAt(s: seq<nat>, i: nat)
    requires NoDups(s) && i < |s|
    ensures Without(s, s[i]) == s[..i] + s[i + 1..]
  {
    var front, last := s[..|s| - 1], s[|s| - 1];
    assert s == front + [last];
    if i == |s| - 1 {
      WithoutNone(front, last);
      assert s[..i] + s[i + 1..] == front;
    } else {
      assert last != s[i];
      WithoutAt(front, i);
      assert s[..i] == front[..i] && s[i + 1..] == front[i + 1..] + [last];
    }
  }

  lemma {:induction false} WithoutNone(s: seq<nat>, f: nat)
    requires f !in s
    ensures Without(s, f) == s
  {
    if s != [] {
      WithoutNone(s[..|s| - 1], f);
      assert s == s[..|s| - 1] + [s[|s| - 1]];
    }
  }

  // The frame comes first in the list; the others keep their order, but for some at the end that have left it.
  ghost predicate MovedUp(was: seq<nat>, now: seq<nat>, f: nat) {
    exists rest :: rest <= was && now == [f] + Without(rest, f)
  }

  lemma {:induction false} MovedUpFrom(was: seq<nat>, mid: seq<nat>, now: seq<nat>, f: nat)
    requires mid <= was && MovedUp(mid, now, f)
    ensures MovedUp(was, now, f)
  {
    var rest :| rest <= mid && now == [f] + Without(rest, f);
    assert rest <= was;
  }

  // At the end, if it is not there.
  function Listed(lru: seq<nat>, f: nat): seq<nat> {
    if f in lru then lru else lru + [f]
  }

  // Among the first n of the list, the last that nobody has pinned.
  function Unpinned(frames: seq<Frame>, lru: seq<nat>, n: nat): (r: Option<nat>)
    requires n <= |lru| && forall k :: 0 <= k < |lru| ==> lru[k] < |frames|
    ensures r.Some? ==> r.value < |frames| && r.value in lru && frames[r.value].pins == 0
    ensures r.None? ==> forall k :: 0 <= k < n ==> frames[lru[k]].pins > 0
  {
    if n == 0 then None else if frames[lru[n - 1]].pins == 0 then Some(lru[n - 1]) else Unpinned(frames, lru, n - 1)
  }

  lemma {:induction false} FirstIn(f: nat, rest: seq<nat>)
    requires NoDups(rest) && f !in rest
    ensures NoDups([f] + rest) && forall g :: g in [f] + rest <==> g in rest || g == f
  {
    var s := [f] + rest;
    assert forall i :: 1 <= i < |s| ==> s[i] == rest[i - 1] && rest[i - 1] in rest;
  }

  lemma {:induction false} LastOff(s: seq<nat>)
    requires NoDups(s) && s != []
    ensures var rest := s[..|s| - 1];
      NoDups(rest) && s[|s| - 1] !in rest && forall g :: g in s <==> g in rest || g == s[|s| - 1]
  {
    assert s == s[..|s| - 1] + [s[|s| - 1]];
  }

  lemma {:induction false} OneOff(was: seq<nat>, s: seq<nat>)
    requires s <= was && s != []
    ensures s[..|s| - 1] <= was && was[|s| - 1] == s[|s| - 1] && s[..|s| - 1] == was[..|s| - 1]
  {
  }

  // Frame lru[n] is taken off with all behind it.
  lemma {:induction false} VictimOff(frames: seq<Frame>, lru: seq<nat>, n: nat)
    requires ListOk(frames, lru) && n < |lru|
    requires forall k :: n < k < |lru| ==> lru[k] in lru && frames[lru[k]].pins > 0
    ensures NoDups(lru[..n]) && lru[n] !in lru[..n] && (forall g :: g in lru[..n] ==> g in lru)
    ensures forall g :: g in lru && frames[g].pins == 0 && g != lru[n] ==> g in lru[..n]
  {
    PinnedBehind(frames, lru, n + 1);
    LastOff(lru[..n + 1]);
    assert lru[..n + 1][..n] == lru[..n];
  }

  // Behind the first n of the list only pinned frames.
  lemma {:induction false} PinnedBehind(frames: seq<Frame>, lru: seq<nat>, n: nat)
    requires ListOk(frames, lru) && n <= |lru|
    requires forall k :: n <= k < |lru| ==> lru[k] in lru && frames[lru[k]].pins > 0
    ensures NoDups(lru[..n]) && (forall g :: g in lru[..n] ==> g in lru)
    ensures forall g :: g in lru && frames[g].pins == 0 ==> g in lru[..n]
  {
    forall g | g in lru && frames[g].pins == 0 ensures g in lru[..n] {
      var k :| 0 <= k < |lru| && lru[k] == g;
      assert lru[..n][k] == g;
    }
  }

  // The frame that has to make room when none is free.
  ghost function Victim(frames: seq<Frame>, lru: seq<nat>): (r: Option<nat>)
    requires ListOk(frames, lru)
    ensures r.Some? ==> r.value < |frames| && frames[r.value].pins == 0
  {
    assert forall k :: 0 <= k < |lru| ==> lru[k] in lru;
    Unpinned(frames, lru, |lru|)
  }

  // It holds changes that cannot be written back.
  ghost predicate Stuck(frames: seq<Frame>, lru: seq<nat>, broken: bool)
    requires ListOk(frames, lru)
  {
    broken && NoneFree(frames) && Victim(frames, lru).Some? && frames[Victim(frames, lru).value].dirty
  }

  class BufferPoolManager {
    var frames: seq<Frame>
    var pageTable: map<nat, nat>
    var lru: seq<nat>
    const disk: Disk
    // Pages written through a pin since they were last declared dirty.
    ghost var owed: set<nat>

    ghost predicate Valid()
      reads this, disk
    {
      TableOk(frames, pageTable) && ListOk(frames, lru) && Clean(frames, owed, disk.pages)
        && OwedPinned(frames, pageTable, owed)
    }

    // What a page holds, whether in memory or on disk.
    ghost function View(id: nat): Bytes
      reads this, disk
      requires TableOk(frames, pageTable)
    {
      Seen(frames, pageTable, disk.pages, id)
    }

    // How many pins a page has.
    ghost function PinsOn(id: nat): nat
      reads this
      requires TableOk(frames, pageTable)
    {
      PinsIn(frames, pageTable, id)
    }

    constructor (disk: Disk, poolSize: nat)
      ensures Valid() && Tracked(frames, lru) && this.disk == disk && |frames| == poolSize
      ensures forall id :: View(id) == disk.At(id) && PinsOn(id) == 0
    {
      this.disk := disk;
      frames := seq(poolSize, _ => Frame(INVALID_PAGE_ID, 0, false, ZERO_PAGE));
      pageTable := map[];
      lru := seq(poolSize, i => i);
      owed := {};
    }

    method RemoveFromLru(f: nat)
      requires NoDups(lru)
      modifies `lru
      ensures NoDups(lru) && forall g :: g in lru <==> g in old(lru) && g != f
      ensures lru == Without(old(lru), f) && (f !in old(lru) ==> lru == old(lru))
    {
      var i := 0;
      while i < |lru| && lru[i] != f
        invariant i <= |lru| && forall j :: 0 <= j < i ==> lru[j] != f
      {
        i := i + 1;
      }
      if i == |lru| {
        WithoutNone(lru, f);
      } else {
        ghost var was := lru;
        WithoutAt(lru, i);
        lru := lru[..i] + lru[i + 1..];
        forall g ensures g in lru <==> g in was && g != f {
          if g in was && g != f {
            var j :| 0 <= j < |was| && was[j] == g;
            assert lru[if j < i then j else j - 1] == g;
          }
        }
      }
    }

    method MarkFrameUsed(f: nat)
      requires NoDups(lru)
      modifies `lru
      ensures NoDups(lru) && forall g :: g in lru <==> g in old(lru) || g == f
      ensures lru == [f] + Without(old(lru), f)
    {
      RemoveFromLru(f);
      FirstIn(f, lru);
      lru := [f] + lru;
    }

    method FindFreeFrame() returns (r: Option<nat>)
      ensures r.Some? ==> r.value < |frames| && frames[r.value].Free()
      ensures r.None? ==> NoneFree(frames)
    {
      var i := 0;
      while i < |frames|
        invariant i <= |frames| && forall f :: 0 <= f < i ==> !frames[f].Free()
      {
        if frames[i].Free() {
          return Some(i);
        }
        i := i + 1;
      }
      return None;
    }

    // A free frame if there is one; otherwise the last unpinned frame of the list, taken off it with all pinned ones
    // behind it.
    method FindOrEvictFrame() returns (r: Option<nat>)
      requires ListOk(frames, lru)
      modifies `lru
      ensures r.Some? ==> r.value < |frames| && (frames[r.value].Free() || frames[r.value].pins == 0)
      ensures NoDups(lru) && (forall g :: g in lru ==> g in old(lru))
      ensures lru <= old(lru)
      ensures forall g :: g in old(lru) && frames[g].pins == 0 && r != Some(g) ==> g in lru
      ensures (exists f :: 0 <= f < |frames| && frames[f].Free()) ==>
        r.Some? && frames[r.value].Free() && lru == old(lru)
      ensures r.None? ==> forall g :: g in old(lru) ==> frames[g].pins > 0
      ensures r.Some? && !frames[r.value].Free() ==> r.value !in lru
      ensures NoneFree(frames) ==> r == Victim(frames, old(lru))
    {
      r := FindFreeFrame();
      if r.None? {
        r := TakeVictim();
      }
    }

    // The last unpinned frame of the list, taken off it with all pinned ones behind it.
    method TakeVictim() returns (r: Option<nat>)
      requires ListOk(frames, lru)
      modifies `lru
      ensures r == Victim(frames, old(lru)) && lru <= old(lru) && NoDups(lru)
      ensures forall g :: g in lru ==> g in old(lru)
      ensures forall g :: g in old(lru) && frames[g].pins == 0 && r != Some(g) ==> g in lru
      ensures r.None? ==> forall g :: g in old(lru) ==> frames[g].pins > 0
      ensures r.Some? ==> r.value !in lru
    {
      ghost var was := lru;
      forall k | 0 <= k < |was| ensures was[k] < |frames| {
        assert was[k] in was;
      }
      while lru != []
        invariant lru <= was
        invariant forall k :: |lru| <= k < |was| ==> frames[was[k]].pins > 0
        invariant Unpinned(frames, was, |lru|) == Victim(frames, was)
      {
        var f := lru[|lru| - 1];
        OneOff(was, lru);
        lru := lru[..|lru| - 1];
        if frames[f].pins == 0 {
          VictimOff(frames, was, |lru|);
          return Some(f);
        }
      }
      PinnedBehind(frames, was, 0);
      return None;
    }

    method WriteBack(f: nat) returns (ok: bool)
      requires TableOk(frames, pageTable) && f < |frames| && !frames[f].Free() && Clean(frames, owed, disk.pages)
      modifies disk`pages
      ensures ok == (!frames[f].dirty || !disk.broken) && Clean(frames, owed, disk.pages)
      ensures ok && frames[f].pageId !in owed ==> disk.At(frames[f].pageId) == frames[f].page
      ensures forall x :: x != frames[f].pageId ==> disk.At(x) == old(disk.At(x))
      ensures forall x :: View(x) == old(View(x))
    {
      if !frames[f].dirty {
        return true;
      }
      ok := disk.WritePage(frames[f].pageId, frames[f].page);
      if ok {
        Written(frames, pageTable, owed, old(disk.pages), f);
      }
    }

    // Writes a dirty page back and empties the frame.
    method EvictFrame(f: nat) returns (ok: bool)
      requires Valid() && f < |frames| && !frames[f].Free() && frames[f].pins == 0
      modifies `frames, `pageTable, `lru, disk`pages
      ensures Valid()
      ensures ok == (!old(frames)[f].dirty || !disk.broken)
      ensures ok ==> frames == old(frames)[f := old(frames)[f].(pageId := INVALID_PAGE_ID, pins := 0, dirty := false)]
      ensures ok ==> pageTable == old(pageTable) - {old(frames)[f].pageId}
      ensures ok ==> (forall g :: g in lru <==> g in old(lru) && g != f) && (f !in old(lru) ==> lru == old(lru))
      ensures !ok ==> frames == old(frames) && pageTable == old(pageTable) && lru == old(lru)
      ensures forall id :: View(id) == old(View(id)) && PinsOn(id) == old(PinsOn(id))
    {
      ok := WriteBack(f);
      if !ok {
        return;
      }
      EmptyFrame(f);
    }

    // The page leaves the frame; what is seen of it then is what the disk has.
    method EmptyFrame(f: nat)
      requires Valid() && f < |frames| && !frames[f].Free() && frames[f].pins == 0
      modifies `frames, `pageTable, `lru
      ensures Valid()
      ensures frames == old(frames)[f := old(frames)[f].(pageId := INVALID_PAGE_ID, pins := 0, dirty := false)]
      ensures pageTable == old(pageTable) - {old(frames)[f].pageId}
      ensures lru == Without(old(lru), f)
      ensures (forall g :: g in lru <==> g in old(lru) && g != f) && (f !in old(lru) ==> lru == old(lru))
      ensures forall id :: View(id) == if id == old(frames)[f].pageId then disk.At(id) else old(View(id))
      ensures forall id :: PinsOn(id) == old(PinsOn(id))
    {
      var frame := frames[f];
      ghost var empty := frame.(pageId := INVALID_PAGE_ID, pins := 0, dirty := false);
      Emptied(frames, pageTable, disk.pages, f, empty);
      EmptiedOwed(frames, pageTable, owed, f, empty);
      pageTable := pageTable - {frame.pageId};
      RemoveFromLru(f);
      frames := frames[f := frame.(pageId := INVALID_PAGE_ID, pins := 0, dirty := false)];
    }

    // The frame a new page goes to, empty by then; frames in use by anybody stay as they are.
    // When a victim cannot be written back, it stays in memory but has dropped out of the list.
    method MakeRoom() returns (r: Option<nat>)
      requires Valid()
      modifies `frames, `pageTable, `lru, disk`pages
      ensures Valid() && |frames| == |old(frames)|
      ensures forall id :: View(id) == old(View(id))
      ensures r.Some? ==> r.value < |frames| && frames[r.value].Free()
      ensures lru <= old(lru)
      ensures forall f :: 0 <= f < |frames| && (old(frames)[f].Free() || old(frames)[f].pins > 0) ==>
        frames[f] == old(frames)[f]
      ensures forall f :: 0 <= f < |frames| && r != Some(f) ==> frames[f] == old(frames)[f]
      ensures pageTable.Keys <= old(pageTable).Keys && forall id :: PinsOn(id) == old(PinsOn(id))
      ensures Tracked(old(frames), old(lru)) ==>
        (r.None? <==> AllPinned(old(frames)) || Stuck(old(frames), old(lru), disk.broken))
      ensures Tracked(old(frames), old(lru)) ==> (Tracked(frames, lru) <==> !Stuck(old(frames), old(lru), disk.broken))
    {
      r := FindOrEvictFrame();
      if r.None? || frames[r.value].Free() {
        return;
      }
      var ok := EvictFrame(r.value);
      if !ok {
        return None;
      }
    }

    // Another state of the page in a frame; left are the pages whose writes are undeclared by then.
    method SetFrame(f: nat, frame: Frame, ghost left: set<nat>)
      requires Valid() && f < |frames| && !frame.Free() && frames[f].pageId == frame.pageId
      requires forall x :: x != frame.pageId ==> (x in owed <==> x in left)
      requires frame.pageId in left ==> frame.pins > 0
      requires frame.dirty || frame.pageId in left || frame.page == disk.At(frame.pageId)
      modifies `frames
      ensures frames == old(frames)[f := frame]
      ensures TableOk(frames, pageTable) && Clean(frames, left, disk.pages) && OwedPinned(frames, pageTable, left)
      ensures forall x :: PinsOn(x) == if x == frame.pageId then frame.pins else old(PinsOn(x))
      ensures forall x :: View(x) == if x == frame.pageId then frame.page else old(View(x))
    {
      Changed(frames, pageTable, disk.pages, f, frame);
      ChangedClean(frames, pageTable, owed, left, disk.pages, f, frame);
      ChangedOwed(frames, pageTable, owed, left, f, frame);
      frames := frames[f := frame];
    }

    method Pin(f: nat)
      requires Valid() && f < |frames| && !frames[f].Free()
      modifies `frames, `lru
      ensures Valid() && frames == old(frames)[f := old(frames)[f].(pins := old(frames)[f].pins + 1)]
      ensures MovedUp(old(lru), lru, f)
      ensures forall id :: View(id) == old(View(id))
      ensures forall id :: PinsOn(id) == old(PinsOn(id)) + if id == frames[f].pageId then 1 else 0
      ensures Tracked(old(frames), old(lru)) ==> Tracked(frames, lru)
    {
      SetFrame(f, frames[f].(pins := frames[f].pins + 1), owed);
      MarkFrameUsed(f);
      assert old(lru) <= old(lru);
    }

    // A page put into an empty frame.
    method Install(f: nat, frame: Frame)
      requires Valid() && f < |frames| && frames[f].Free()
      requires frame.pageId !in pageTable && !frame.Free() && frame.pins > 0
        && (frame.dirty || frame.page == disk.At(frame.pageId))
      modifies `frames, `pageTable, `lru
      ensures Valid() && frames == old(frames)[f := frame] && pageTable == old(pageTable)[frame.pageId := f]
      ensures MovedUp(old(lru), lru, f)
      ensures forall id :: PinsOn(id) == if id == frame.pageId then frame.pins else old(PinsOn(id))
      ensures forall id :: View(id) == if id == frame.pageId then frame.page else old(View(id))
      ensures Tracked(old(frames), old(lru)) ==> Tracked(frames, lru)
    {
      Installed(frames, pageTable, disk.pages, f, frame);
      InstalledOwed(frames, pageTable, owed, f, frame);
      frames := frames[f := frame];
      pageTable := pageTable[frame.pageId := f];
      MarkFrameUsed(f);
      assert old(lru) <= old(lru);
    }

    // A page brought in from the disk, if there is room and it can be read.
    method Load(id: nat) returns (r: Option<nat>)
      requires Valid() && id != INVALID_PAGE_ID && id !in pageTable
      modifies `frames, `pageTable, `lru, disk`pages
      ensures Valid() && |frames| == |old(frames)|
      ensures forall x :: View(x) == old(View(x))
      ensures forall x :: PinsOn(x) == old(PinsOn(x)) + if r.Some? && x == id then 1 else 0
      ensures pageTable.Keys <= old(pageTable).Keys + {id}
      ensures r.Some? ==> r.value < |frames| && frames[r.value] == Frame(id, 1, false, View(id))
      ensures r.Some? ==> MovedUp(old(lru), lru, r.value)
      ensures forall f :: 0 <= f < |frames| && old(frames)[f].pins > 0 && r != Some(f) ==> frames[f] == old(frames)[f]
      ensures Tracked(old(frames), old(lru)) ==> (r.None? <==> AllPinned(old(frames)) || disk.broken)
      ensures Tracked(old(frames), old(lru)) ==> (Tracked(frames, lru) <==> !Stuck(old(frames), old(lru), disk.broken))
    {
      r := MakeRoom();
      if r.None? {
        return;
      }
      ghost var mid := lru;
      var ok := ReadInto(r.value, id);
      if !ok {
        return None;
      }
      MovedUpFrom(old(lru), mid, lru, r.value);
    }

    method ReadInto(f: nat, id: nat) returns (ok: bool)
      requires Valid() && f < |frames| && frames[f].Free() && id != INVALID_PAGE_ID && id !in pageTable
      modifies `frames, `pageTable, `lru
      ensures Valid() && ok == !disk.broken
      ensures !ok ==> frames == old(frames) && pageTable == old(pageTable) && lru == old(lru)
      ensures ok ==> pageTable == old(pageTable)[id := f]
      ensures ok ==> frames == old(frames)[f := Frame(id, 1, false, View(id))] && MovedUp(old(lru), lru, f)
      ensures forall x :: View(x) == old(View(x))
      ensures forall x :: PinsOn(x) == if ok && x == id then 1 else old(PinsOn(x))
      ensures Tracked(old(frames), old(lru)) ==> Tracked(frames, lru)
    {
      var page := disk.ReadPage(id);
      if page.None? {
        return false;
      }
      Install(f, Frame(id, 1, false, page.value));
      return true;
    }

    // A pin on the page, and the frame that holds it.  With a working disk there is none exactly
    // when the page is not in memory and every frame is pinned.
    method FetchPage(id: nat) returns (r: Option<nat>)
      requires Valid() && id != INVALID_PAGE_ID
      modifies `frames, `pageTable, `lru, disk`pages
      ensures Valid() && |frames| == |old(frames)|
      ensures forall id :: View(id) == old(View(id))
      ensures pageTable.Keys <= old(pageTable).Keys + {id}
      ensures forall x :: PinsOn(x) == old(PinsOn(x)) + if r.Some? && x == id then 1 else 0
      ensures r.Some? ==> r.value < |frames| && frames[r.value].pageId == id && frames[r.value].page == View(id)
      ensures r.Some? ==>
        frames[r.value].pins == (if id in old(pageTable) then old(frames)[old(pageTable)[id]].pins else 0) + 1
      ensures forall f :: 0 <= f < |frames| && old(frames)[f].pins > 0 && r != Some(f) ==> frames[f] == old(frames)[f]
      ensures id in old(pageTable) ==> r == Some(old(pageTable)[id])
      ensures r.Some? ==> MovedUp(old(lru), lru, r.value)
      ensures Tracked(old(frames), old(lru)) ==>
        (r.None? <==> id !in old(pageTable) && (AllPinned(old(frames)) || disk.broken))
      ensures Tracked(old(frames), old(lru)) ==>
        (Tracked(frames, lru) <==> id in old(pageTable) || !Stuck(old(frames), old(lru), disk.broken))
    {
      if id in pageTable {
        r := Some(pageTable[id]);
        Pin(r.value);
        return;
      }
      r := Load(id);
    }

    // Like FetchPage, but a page that was not in memory starts out as given; one that was keeps what it holds.
    method NewPage(id: nat, initial: Bytes) returns (r: Option<nat>)
      requires Valid() && id != INVALID_PAGE_ID
      modifies `frames, `pageTable, `lru, disk`pages
      ensures Valid() && |frames| == |old(frames)|
      ensures forall x :: x != id || id in old(pageTable) || r.None? ==> View(x) == old(View(x))
      ensures pageTable.Keys <= old(pageTable).Keys + {id}
      ensures forall x :: PinsOn(x) == old(PinsOn(x)) + if r.Some? && x == id then 1 else 0
      ensures r.Some? && id !in old(pageTable) ==> View(id) == initial
      ensures r.Some? ==> MovedUp(old(lru), lru, r.value)
      ensures r.Some? ==> r.value < |frames| && frames[r.value].pageId == id && frames[r.value].page == View(id)
                          && frames[r.value].pins > 0
      ensures forall f :: 0 <= f < |frames| && old(frames)[f].pins > 0 && r != Some(f) ==> frames[f] == old(frames)[f]
      ensures Tracked(old(frames), old(lru)) ==>
        (r.None? <==> id !in old(pageTable) && (AllPinned(old(frames)) || Stuck(old(frames), old(lru), disk.broken)))
      ensures Tracked(old(frames), old(lru)) ==>
        (Tracked(frames, lru) <==> id in old(pageTable) || !Stuck(old(frames), old(lru), disk.broken))
    {
      if id in pageTable {
        r := Some(pageTable[id]);
        Pin(r.value);
        return;
      }
      r := MakeRoom();
      if r.None? {
        return;
      }
      ghost var mid := lru;
      Install(r.value, Frame(id, 1, true, initial));
      MovedUpFrom(old(lru), mid, lru, r.value);
    }

    // A write through a pin; it has to be declared when the pin is given back.
    method WriteThrough(f: nat, page: Bytes)
      requires Valid() && f < |frames| && !frames[f].Free() && frames[f].pins > 0
      modifies `frames, `owed
      ensures Valid() && frames == old(frames)[f := old(frames)[f].(page := page)]
      ensures owed == old(owed) + {frames[f].pageId}
      ensures forall id :: View(id) == if id == frames[f].pageId then page else old(View(id))
    {
      SetFrame(f, frames[f].(page := page), owed + {frames[f].pageId});
      owed := owed + {frames[f].pageId};
    }

    method AddToList(f: nat)
      requires NoDups(lru)
      modifies `lru
      ensures NoDups(lru) && forall g :: g in lru <==> g in old(lru) || g == f
      ensures lru == Listed(old(lru), f)
    {
      if f !in lru {
        lru := lru + [f];
        assert forall g :: g in lru <==> g in old(lru) || g == f;
      }
    }

    method UnpinPage(id: nat, dirty: bool) returns (ok: bool)
      requires Valid()
      requires id in owed && frames[pageTable[id]].pins == 1 ==> dirty
      modifies `frames, `lru, `owed
      ensures Valid() && |frames| == |old(frames)|
      ensures ok == (id in pageTable && old(frames)[pageTable[id]].pins > 0)
      ensures ok ==> frames[pageTable[id]].pins == old(frames)[pageTable[id]].pins - 1
      ensures forall x :: PinsOn(x) == old(PinsOn(x)) - if ok && x == id then 1 else 0
      ensures owed == if ok && dirty then old(owed) - {id} else old(owed)
      ensures lru == if ok && frames[pageTable[id]].pins == 0 then Listed(old(lru), pageTable[id]) else old(lru)
      ensures forall id :: View(id) == old(View(id))
      ensures forall f :: 0 <= f < |frames| && (id !in pageTable || f != pageTable[id]) ==> frames[f] == old(frames)[f]
      ensures Tracked(old(frames), old(lru)) ==> Tracked(frames, lru)
    {
      if id !in pageTable {
        return false;
      }
      var f := pageTable[id];
      if frames[f].pins == 0 {
        return false;
      }
      GiveBack(f, dirty);
      return true;
    }

    method GiveBack(f: nat, dirty: bool)
      requires Valid() && f < |frames| && !frames[f].Free() && frames[f].pins > 0
      requires frames[f].pageId in owed && frames[f].pins == 1 ==> dirty
      modifies `frames, `lru, `owed
      ensures Valid() && owed == if dirty then old(owed) - {frames[f].pageId} else old(owed)
      ensures frames ==
        old(frames)[f := old(frames)[f].(pins := old(frames)[f].pins - 1, dirty := old(frames)[f].dirty || dirty)]
      ensures lru == if frames[f].pins == 0 then Listed(old(lru), f) else old(lru)
      ensures forall x :: PinsOn(x) == old(PinsOn(x)) - if x == frames[f].pageId then 1 else 0
      ensures forall x :: View(x) == old(View(x))
    {
      var frame := frames[f].(pins := frames[f].pins - 1, dirty := frames[f].dirty || dirty);
      SetFrame(f, frame, if dirty then owed - {frame.pageId} else owed);
      if dirty {
        owed := owed - {frame.pageId};
      }
      if frame.pins == 0 {
        AddToList(f);
      }
    }

    // Forgets a page that nobody holds, with what was written to it since it last went to disk.
    method DeletePage(id: nat) returns (ok: bool)
      requires Valid()
      modifies `frames, `pageTable, `lru
      ensures Valid() && |frames| == |old(frames)|
      ensures ok == (id in old(pageTable) && old(frames)[old(pageTable)[id]].pins == 0)
      ensures forall x :: View(x) == if ok && x == id then disk.At(x) else old(View(x))
      ensures pageTable == if ok then old(pageTable) - {id} else old(pageTable)
      ensures forall x :: PinsOn(x) == old(PinsOn(x))
      ensures lru == if ok then Without(old(lru), old(pageTable)[id]) else old(lru)
      ensures forall f :: 0 <= f < |frames| && (!ok || f != old(pageTable)[id]) ==> frames[f] == old(frames)[f]
      ensures Tracked(old(frames), old(lru)) ==> Tracked(frames, lru)
    {
      if id !in pageTable {
        return false;
      }
      var f := pageTable[id];
      if frames[f].pins > 0 {
        return false;
      }
      EmptyFrame(f);
      return true;
    }

    method FlushPage(id: nat) returns (ok: bool)
      requires Valid()
      modifies `frames, disk`pages
      ensures Valid() && |frames| == |old(frames)|
      ensures ok == (id in pageTable && (!old(frames)[pageTable[id]].dirty || !disk.broken))
      ensures ok && id !in owed ==> disk.At(id) == View(id)
      ensures forall x :: View(x) == old(View(x))
      ensures forall x :: x != id ==> disk.At(x) == old(disk.At(x))
      ensures forall f :: 0 <= f < |frames| ==>
                          frames[f] == old(frames)[f].(dirty := frames[f].dirty)
                            && (frames[f].dirty ==> old(frames)[f].dirty)
      ensures ok ==> !frames[pageTable[id]].dirty
      ensures Tracked(old(frames), lru) ==> Tracked(frames, lru)
    {
      if id !in pageTable {
        return false;
      }
      var f := pageTable[id];
      ok := WriteBack(f);
      if ok && frames[f].dirty {
        SetFrame(f, frames[f].(dirty := false), owed);
      }
    }

    // Afterwards a working disk holds every page as it is seen, except for writes not yet declared.
    method FlushAll()
      requires Valid()
      modifies `frames, disk`pages
      ensures Valid() && |frames| == |old(frames)|
      ensures forall x :: View(x) == old(View(x))
      ensures !disk.broken ==> forall x :: x !in owed ==> disk.At(x) == View(x)
      ensures Tracked(old(frames), lru) ==> Tracked(frames, lru)
    {
      var todo := pageTable.Keys;
      while todo != {}
        invariant Valid() && |frames| == |old(frames)| && todo <= pageTable.Keys
        invariant forall x :: View(x) == old(View(x))
        invariant !disk.broken ==> Declared(frames, pageTable, todo)
        invariant Tracked(old(frames), lru) ==> Tracked(frames, lru)
        decreases todo
      {
        var id :| id in todo;
        ghost var was := frames;
        var ok := FlushPage(id);
        if ok && !disk.broken {
          DeclaredMore(was, frames, pageTable, todo, id);
        }
        todo := todo - {id};
      }
      if !disk.broken {
        AllDeclared(frames, pageTable, owed, disk.pages);
      }
    }
  }
}
