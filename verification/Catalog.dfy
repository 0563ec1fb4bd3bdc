// The catalog cache: header and schema pages of up to three tables, kept in memory and written back late.
module Catalog {

  const SLOTS := 3
  const UINT64 := 0x1_0000_0000_0000_0000
  const UINT64_MAX := UINT64 - 1

  const COUNTERS := 8
  const MAX_SCHEMA_SIZE := 8158

  datatype Option<+T> = None | Some(value: T)

  // Page 0 of a table, with its row counter and AUTO_INCREMENT counters taken out, and page 1.
  type Counters = s: seq<nat> | |s| == COUNTERS witness NO_COUNTERS

  const NO_COUNTERS: seq<nat> := [0, 0, 0, 0, 0, 0, 0, 0]

  datatype Header = Header(nextRowId: nat, counters: Counters, bytes: string)
  datatype Pages = Pages(header: Header, schema: string)

  const BLANK := Pages(Header(0, NO_COUNTERS, ""), "")

  datatype Key = Key(db: string, table: string)

  // The files.  What was never written reads as blank.
  type Files = map<Key, Pages>

  function At(files: Files, k: Key): Pages {
    if k in files then files[k] else BLANK
  }

  datatype Slot = Slot(valid: bool, key: Key, pool: nat, lastAccess: nat)

  datatype Dirty = Dirty(header: bool, schema: bool) {
    predicate Any() {
      header || schema
    }
  }

  // What can be done to the cache.
  datatype Op =
    | NextRowId(key: Key)
    | NextAuto(key: Key, column: nat)
    | Page0(key: Key)
    | ReadSchema(key: Key)
    | NewSchema(key: Key, schema: string)
    | FlushAll
    | ClearAll
    | Evict(table: string)
  {
    predicate In(db: string) {
      NextRowId? || NextAuto? || Page0? || ReadSchema? || NewSchema? ==> key.db == db
    }
  }

  // Valid slots own different pool slots and hold different tables, each accessed at another time.
  ghost predicate SlotsOk(slots: seq<Slot>, counter: nat) {
    && |slots| == SLOTS
    && (forall i :: 0 <= i < SLOTS && slots[i].valid ==> slots[i].pool < SLOTS && slots[i].lastAccess <= counter)
    && (forall i, j :: 0 <= i < j < SLOTS ==> Apart(slots[i], slots[j]))
  }

  ghost predicate Apart(a: Slot, b: Slot) {
    a.valid && b.valid ==> a.pool != b.pool && a.key.table != b.key.table && a.lastAccess != b.lastAccess
  }

  // All cached tables are of one database.
  ghost predicate OneHome(slots: seq<Slot>, db: string) {
    forall i :: 0 <= i < |slots| && slots[i].valid ==> slots[i].key.db == db
  }

  ghost predicate Owned(slots: seq<Slot>, p: nat) {
    exists i :: 0 <= i < |slots| && slots[i].valid && slots[i].pool == p
  }

  // Every dirty page belongs to a cached table.
  ghost predicate DirtyOwned(slots: seq<Slot>, dirty: seq<Dirty>) {
    |dirty| == SLOTS && forall p :: 0 <= p < SLOTS && dirty[p].Any() ==> Owned(slots, p)
  }

  // A page that is not dirty is as on disk.
  ghost predicate CleanOk(slots: seq<Slot>, pool: seq<Pages>, dirty: seq<Dirty>, files: Files)
    requires SlotsOk(slots, UINT64_MAX) && |dirty| == SLOTS
  {
    && |pool| == SLOTS
    && forall i :: 0 <= i < SLOTS && slots[i].valid ==>
      CleanAt(pool[slots[i].pool], dirty[slots[i].pool], At(files, slots[i].key))
  }

  predicate CleanAt(cached: Pages, d: Dirty, stored: Pages) {
    (!d.header ==> cached.header == stored.header) && (!d.schema ==> cached.schema == stored.schema)
  }

  ghost predicate CacheOk(slots: seq<Slot>, pool: seq<Pages>, dirty: seq<Dirty>, counter: nat, files: Files) {
    counter <= UINT64_MAX && SlotsOk(slots, counter) && DirtyOwned(slots, dirty) && CleanOk(slots, pool, dirty, files)
  }

  // The slot that holds a table, by name alone.
  function SlotOf(slots: seq<Slot>, table: string): (r: Option<nat>)
    requires |slots| == SLOTS
    ensures r.Some? ==> r.value < SLOTS && slots[r.value].valid && slots[r.value].key.table == table
    ensures r.None? ==> forall i :: 0 <= i < SLOTS ==> !(slots[i].valid && slots[i].key.table == table)
  {
    if slots[0].valid && slots[0].key.table == table then Some(0)
    else if slots[1].valid && slots[1].key.table == table then Some(1)
    else if slots[2].valid && slots[2].key.table == table then Some(2)
    else None
  }

  // What a table's pages are, in the cache or on disk.
  ghost function View(slots: seq<Slot>, pool: seq<Pages>, files: Files, k: Key): Pages
    requires SlotsOk(slots, UINT64_MAX) && |pool| == SLOTS
  {
    var s := SlotOf(slots, k.table);
    if s.Some? && slots[s.value].key == k then pool[slots[s.value].pool] else At(files, k)
  }

  // No two slots hold one table, or one pool slot.
  lemma {:induction false} OnlyOne(slots: seq<Slot>, counter: nat, i: nat, table: string)
    requires SlotsOk(slots, counter) && i < SLOTS
      && ((slots[i].valid && slots[i].key.table == table) || SlotOf(slots, table) == None)
    ensures forall j :: 0 <= j < SLOTS && j != i && slots[j].valid ==>
      slots[j].key.table != table && (slots[i].valid ==> slots[j].pool != slots[i].pool)
    ensures slots[i].valid && slots[i].key.table == table ==> SlotOf(slots, table) == Some(i)
  {
    forall j | 0 <= j < SLOTS && j != i && slots[j].valid
      ensures slots[j].key.table != table && (slots[i].valid ==> slots[j].pool != slots[i].pool) {
      assert if j < i then Apart(slots[j], slots[i]) else Apart(slots[i], slots[j]);
    }
  }

  // A clean table leaves the cache.
  lemma {:induction false} Released(slots: seq<Slot>, pool: seq<Pages>, dirty: seq<Dirty>, counter: nat, files: Files,
                                    i: nat)
    requires CacheOk(slots, pool, dirty, counter, files) && i < SLOTS && slots[i].valid && !dirty[slots[i].pool].Any()
    ensures CacheOk(slots[i := slots[i].(valid := false, key := Key("", ""))], pool, dirty, counter, files)
    ensures forall k ::
      View(slots[i := slots[i].(valid := false, key := Key("", ""))], pool, files, k) == View(slots, pool, files, k)
  {
    var slots' := slots[i := slots[i].(valid := false, key := Key("", ""))];
    forall p | 0 <= p < SLOTS && dirty[p].Any() ensures Owned(slots', p) {
      assert Owned(slots, p);
      var j :| 0 <= j < |slots| && slots[j].valid && slots[j].pool == p;
      assert slots'[j] == slots[j];
    }
    forall k ensures View(slots', pool, files, k) == View(slots, pool, files, k) {
    }
  }

  // A table comes into slot i of the index and slot p of the pool, as it is on disk.
  lemma {:induction false} Loaded(slots: seq<Slot>, pool: seq<Pages>, dirty: seq<Dirty>, counter: nat, files: Files,
                                  i: nat, p: nat, key: Key)
    requires CacheOk(slots, pool, dirty, counter, files) && counter < UINT64_MAX && i < SLOTS && p < SLOTS
    requires forall j :: 0 <= j < SLOTS && j != i && slots[j].valid ==>
      slots[j].pool != p && slots[j].key.table != key.table
    requires slots[i].valid ==> slots[i].pool == p && slots[i].key.table == key.table
    ensures CacheOk(slots[i := Slot(true, key, p, counter + 1)], pool[p := At(files, key)],
      dirty[p := Dirty(false, false)], counter + 1, files)
  {
    var slots', dirty' := slots[i := Slot(true, key, p, counter + 1)], dirty[p := Dirty(false, false)];
    forall q | 0 <= q < SLOTS && dirty'[q].Any() ensures Owned(slots', q) {
      assert Owned(slots, q);
      var j :| 0 <= j < |slots| && slots[j].valid && slots[j].pool == q;
      assert slots'[j] == slots[j];
    }
  }

  // Nothing else looks different.
  lemma {:induction false} LoadedView(slots: seq<Slot>, pool: seq<Pages>, counter: nat, files: Files, i: nat, p: nat,
                                      key: Key)
    requires SlotsOk(slots, counter) && |pool| == SLOTS && counter < UINT64_MAX && i < SLOTS && p < SLOTS
    requires forall j :: 0 <= j < SLOTS && j != i && slots[j].valid ==>
      slots[j].pool != p && slots[j].key.table != key.table
    requires slots[i].valid ==> slots[i].pool == p && slots[i].key.table == key.table
    ensures SlotsOk(slots[i := Slot(true, key, p, counter + 1)], counter + 1)
    ensures forall k: Key :: k.table == key.table ==>
      View(slots[i := Slot(true, key, p, counter + 1)], pool[p := At(files, key)], files, k) == At(files, k)
    ensures forall k: Key :: k.table != key.table ==>
      View(slots[i := Slot(true, key, p, counter + 1)], pool[p := At(files, key)], files, k) ==
        View(slots, pool, files, k)
  {
  }

  // A cached table is used.
  lemma {:induction false} Touched(slots: seq<Slot>, slots': seq<Slot>, pool: seq<Pages>, dirty: seq<Dirty>,
                                   counter: nat, files: Files, i: nat)
    requires CacheOk(slots, pool, dirty, counter, files) && counter < UINT64_MAX && i < SLOTS && slots[i].valid
    requires slots' == slots[i := slots[i].(lastAccess := counter + 1)]
    ensures CacheOk(slots', pool, dirty, counter + 1, files)
  {
    forall q | 0 <= q < SLOTS && dirty[q].Any() ensures Owned(slots', q) {
      assert Owned(slots, q);
      var j :| 0 <= j < |slots| && slots[j].valid && slots[j].pool == q;
      assert slots'[j].valid && slots'[j].pool == q;
    }
  }

  lemma {:induction false} TouchedView(slots: seq<Slot>, slots': seq<Slot>, pool: seq<Pages>, counter: nat,
                                       files: Files, i: nat)
    requires SlotsOk(slots, counter) && |pool| == SLOTS && counter < UINT64_MAX && i < SLOTS && slots[i].valid
    requires slots' == slots[i := slots[i].(lastAccess := counter + 1)]
    ensures SlotsOk(slots', counter + 1)
    ensures forall k: Key :: View(slots', pool, files, k) == View(slots, pool, files, k)
  {
  }

  // The pages of a cached table are changed, and those that changed are dirty.
  lemma {:induction false} Changed(slots: seq<Slot>, pool: seq<Pages>, dirty: seq<Dirty>, counter: nat, files: Files,
                                   i: nat, pages: Pages, d: Dirty)
    requires CacheOk(slots, pool, dirty, counter, files) && i < SLOTS && slots[i].valid
    requires !d.header ==> pages.header == pool[slots[i].pool].header && !dirty[slots[i].pool].header
    requires !d.schema ==> pages.schema == pool[slots[i].pool].schema && !dirty[slots[i].pool].schema
    ensures CacheOk(slots, pool[slots[i].pool := pages], dirty[slots[i].pool := d], counter, files)
    ensures forall k :: View(slots, pool[slots[i].pool := pages], files, k) == if k == slots[i].key
                        then pages else View(slots, pool, files, k)
  {
    var dirty' := dirty[slots[i].pool := d];
    forall q | 0 <= q < SLOTS && dirty'[q].Any() ensures Owned(slots, q) {
      assert q != slots[i].pool ==> Owned(slots, q);
    }
    OnlyOne(slots, counter, i, slots[i].key.table);
    forall k
      ensures View(slots, pool[slots[i].pool := pages], files, k) == if k == slots[i].key
      then pages else View(slots, pool, files, k) {
      var t := SlotOf(slots, k.table);
    }
  }

  // Its dirty pages are written.
  lemma {:induction false} Saved(slots: seq<Slot>, pool: seq<Pages>, dirty: seq<Dirty>, counter: nat, files: Files,
                                 i: nat, files': Files)
    requires CacheOk(slots, pool, dirty, counter, files) && i < SLOTS && slots[i].valid
    requires forall k :: k != slots[i].key ==> At(files', k) == At(files, k)
    requires At(files', slots[i].key).header == pool[slots[i].pool].header
      && At(files', slots[i].key).schema == pool[slots[i].pool].schema
    ensures CacheOk(slots, pool, dirty[slots[i].pool := Dirty(false, false)], counter, files')
    ensures forall k :: View(slots, pool, files', k) == View(slots, pool, files, k)
    ensures At(files', slots[i].key) == View(slots, pool, files, slots[i].key)
  {
    var dirty' := dirty[slots[i].pool := Dirty(false, false)];
    forall q | 0 <= q < SLOTS && dirty'[q].Any() ensures Owned(slots, q) {
      assert Owned(slots, q);
    }
    OnlyOne(slots, counter, i, slots[i].key.table);
  }

  // Three slots, one of them free, cannot own three pool slots.
  lemma {:induction false} Pigeonhole(slots: seq<Slot>, free: nat)
    requires SlotsOk(slots, UINT64_MAX) && free < SLOTS && !slots[free].valid
    ensures exists p :: 0 <= p < SLOTS && !Owned(slots, p)
  {
    if Owned(slots, 0) && Owned(slots, 1) {
      var a :| 0 <= a < |slots| && slots[a].valid && slots[a].pool == 0;
      var b :| 0 <= b < |slots| && slots[b].valid && slots[b].pool == 1;
      forall c | 0 <= c < |slots| && slots[c].valid ensures slots[c].pool != 2 {
        assert c == a || c == b;
      }
      assert !Owned(slots, 2);
    }
  }

  lemma {:induction false} AllSaved(slots: seq<Slot>, pool: seq<Pages>, dirty: seq<Dirty>, counter: nat, files: Files)
    requires CacheOk(slots, pool, dirty, counter, files) && forall p :: 0 <= p < SLOTS ==> !dirty[p].Any()
    ensures forall k :: View(slots, pool, files, k) == At(files, k)
  {
  }

  // A counter hands itself out and goes up by one, or it stays.
  ghost predicate Counted(id: Option<nat>, before: nat, after: nat) {
    if id.Some? then id.value == before && after == (before + 1) % UINT64 else after == before
  }

  // Numbers from `first` on, and the one that comes next.
  ghost predicate Consecutive(ids: seq<nat>, first: nat, next: nat) {
    (forall i :: 0 <= i < |ids| ==> ids[i] == (first + i) % UINT64) && next == (first + |ids|) % UINT64
  }

  function Added(ids: seq<nat>, id: Option<nat>): seq<nat> {
    if id.Some? then ids + [id.value] else ids
  }

  lemma {:induction false} OneMore(ids: seq<nat>, first: nat, id: Option<nat>, before: nat, after: nat)
    requires Consecutive(ids, first, before) && Counted(id, before, after)
    ensures Consecutive(Added(ids, id), first, after)
  {
    if id.Some? {
      Wraps(first + |ids|);
    }
  }

  lemma Wraps(n: nat)
    ensures (n % UINT64 + 1) % UINT64 == (n + 1) % UINT64
  {
  }

  function Times(op: Op, ops: seq<Op>): nat {
    if ops == [] then 0 else Times(op, ops[..|ops| - 1]) + if ops[|ops| - 1] == op then 1 else 0
  }

  class CatalogManager {
    var slots: seq<Slot>
    var pool: seq<Pages>
    var dirty: seq<Dirty>
    var accessCounter: nat
    var files: Files

    ghost predicate Valid()
      reads this
    {
      CacheOk(slots, pool, dirty, accessCounter, files)
    }

    ghost function Seen(k: Key): Pages
      reads this
      requires Valid()
    {
      View(slots, pool, files, k)
    }

    constructor (files: Files)
      ensures Valid() && forall k :: Seen(k) == At(files, k)
      ensures accessCounter == 0 && forall i :: 0 <= i < SLOTS ==> !slots[i].valid
    {
      var unused := Slot(false, Key("", ""), 0, 0);
      slots := [unused, unused, unused];
      pool := [BLANK, BLANK, BLANK];
      dirty := [Dirty(false, false), Dirty(false, false), Dirty(false, false)];
      accessCounter := 0;
      this.files := files;
    }

    method FindSlot(table: string) returns (r: Option<nat>)
      requires |slots| == SLOTS
      ensures r == SlotOf(slots, table)
    {
      var i := 0;
      while i < SLOTS
        invariant i <= SLOTS && forall j :: 0 <= j < i ==> !(slots[j].valid && slots[j].key.table == table)
      {
        if slots[i].valid && slots[i].key.table == table {
          return Some(i);
        }
        i := i + 1;
      }
      return None;
    }

    // Writes the dirty pages of a cached table to its file.
    method WriteSlotToDisk(i: nat)
      requires Valid() && i < SLOTS && slots[i].valid
      modifies `files, `dirty
      ensures Valid() && dirty == old(dirty)[slots[i].pool := Dirty(false, false)]
      ensures forall k :: Seen(k) == old(Seen(k))
      ensures At(files, slots[i].key) == old(Seen(slots[i].key))
      ensures forall k :: k != slots[i].key ==> At(files, k) == old(At(files, k))
    {
      var p, k := slots[i].pool, slots[i].key;
      ghost var files0 := files;
      if dirty[p].header {
        files := files[k := At(files, k).(header := pool[p].header)];
      }
      if dirty[p].schema {
        files := files[k := At(files, k).(schema := pool[p].schema)];
      }
      Saved(slots, pool, dirty, accessCounter, files0, i, files);
      dirty := dirty[p := Dirty(false, false)];
    }

    // The least recently accessed table leaves the cache, its changes written.
    method EvictLruSlot() returns (victim: nat)
      requires Valid() && accessCounter < UINT64_MAX && exists i :: 0 <= i < SLOTS && slots[i].valid
      modifies `slots, `dirty, `files
      ensures Valid() && victim < SLOTS && old(slots)[victim].valid
      ensures forall i :: 0 <= i < SLOTS && old(slots)[i].valid && i != victim ==>
        old(slots)[victim].lastAccess < old(slots)[i].lastAccess
      ensures slots == old(slots)[victim := old(slots)[victim].(valid := false, key := Key("", ""))]
      ensures forall k :: Seen(k) == old(Seen(k))
    {
      var oldest := UINT64_MAX;
      victim := 0;
      var i := 0;
      while i < SLOTS
        invariant i <= SLOTS && victim < SLOTS
        invariant forall j :: 0 <= j < i && slots[j].valid ==> oldest <= slots[j].lastAccess
        invariant if oldest == UINT64_MAX then forall j :: 0 <= j < i ==> !slots[j].valid
                  else victim < i && slots[victim].valid && slots[victim].lastAccess == oldest
      {
        if slots[i].valid && slots[i].lastAccess < oldest {
          oldest, victim := slots[i].lastAccess, i;
        }
        i := i + 1;
      }
      Release(victim);
    }

    // A cached table leaves the cache, its changes written.
    method Release(i: nat)
      requires Valid() && i < SLOTS && slots[i].valid
      modifies `slots, `dirty, `files
      ensures Valid() && slots == old(slots)[i := old(slots)[i].(valid := false, key := Key("", ""))]
      ensures forall k :: Seen(k) == old(Seen(k))
    {
      if dirty[slots[i].pool].Any() {
        WriteSlotToDisk(i);
      }
      Released(slots, pool, dirty, accessCounter, files, i);
      slots := slots[i := slots[i].(valid := false, key := Key("", ""))];
    }

    // A slot of the index for a table that is not cached.
    method FindOrAllocateSlot(table: string) returns (i: nat)
      requires Valid() && accessCounter < UINT64_MAX
      modifies `slots, `dirty, `files
      ensures Valid() && i < SLOTS
      ensures SlotOf(old(slots), table).Some? ==>
        i == SlotOf(old(slots), table).value && slots == old(slots) && dirty == old(dirty) && files == old(files)
      ensures SlotOf(old(slots), table).None? ==> !slots[i].valid && SlotOf(slots, table).None?
      ensures forall k :: Seen(k) == old(Seen(k))
      ensures forall j :: 0 <= j < SLOTS && slots[j].valid ==> slots[j] == old(slots)[j]
    {
      var existing := FindSlot(table);
      if existing.Some? {
        return existing.value;
      }
      i := 0;
      while i < SLOTS
        invariant i <= SLOTS && forall j :: 0 <= j < i ==> slots[j].valid
      {
        if !slots[i].valid {
          return;
        }
        i := i + 1;
      }
      assert slots[0].valid;
      var victim := EvictLruSlot();
      i := 0;
      while i < SLOTS
        invariant i <= SLOTS && !slots[victim].valid && forall j :: 0 <= j < i ==> slots[j].valid
      {
        if !slots[i].valid {
          return;
        }
        i := i + 1;
      }
      assert false;
    }

    // With a slot of the index free, one of the pool is, too.
    method FindPoolSlot(ghost free: nat) returns (p: nat)
      requires Valid() && free < SLOTS && !slots[free].valid
      ensures p < SLOTS && forall i :: 0 <= i < SLOTS && slots[i].valid ==> slots[i].pool != p
    {
      p := 0;
      while p < SLOTS
        invariant p <= SLOTS && forall q :: 0 <= q < p ==> Owned(slots, q)
      {
        var used, j := false, 0;
        while j < SLOTS && !used
          invariant j <= SLOTS && (used ==> Owned(slots, p))
            && (!used ==> forall i :: 0 <= i < j && slots[i].valid ==> slots[i].pool != p)
        {
          used := slots[j].valid && slots[j].pool == p;
          j := j + 1;
        }
        if !used {
          return;
        }
        p := p + 1;
      }
      Pigeonhole(slots, free);
      assert false;
    }

    // Reads both pages from disk, whatever the cache has.
    method LoadTableMeta(key: Key)
      requires Valid() && accessCounter < UINT64_MAX
      modifies this
      ensures Valid() && accessCounter == old(accessCounter) + 1
      ensures forall k :: Seen(k) == if k.table == key.table
                          then (if SlotOf(old(slots), key.table).None? then old(Seen(k)) else At(files, k))
                               else old(Seen(k))
      ensures SlotOf(slots, key.table).Some? && slots[SlotOf(slots, key.table).value].key == key
      ensures OneHome(old(slots), key.db) ==> OneHome(slots, key.db)
    {
      var i := FindOrAllocateSlot(key.table);
      var p;
      if !slots[i].valid {
        p := FindPoolSlot(i);
      } else {
        p := slots[i].pool;
      }
      OnlyOne(slots, accessCounter, i, key.table);
      PutTable(i, p, key);
    }

    method PutTable(i: nat, p: nat, key: Key)
      requires Valid() && accessCounter < UINT64_MAX && i < SLOTS && p < SLOTS
      requires forall j :: 0 <= j < SLOTS && j != i && slots[j].valid ==>
        slots[j].pool != p && slots[j].key.table != key.table
      requires slots[i].valid ==> slots[i].pool == p && slots[i].key.table == key.table
      modifies `pool, `accessCounter, `slots, `dirty
      ensures Valid() && accessCounter == old(accessCounter) + 1
      ensures slots == old(slots)[i := Slot(true, key, p, accessCounter)]
      ensures SlotOf(slots, key.table) == Some(i)
      ensures forall k :: Seen(k) == if k.table == key.table then At(files, k) else old(Seen(k))
    {
      Loaded(slots, pool, dirty, accessCounter, files, i, p, key);
      LoadedView(slots, pool, accessCounter, files, i, p, key);
      pool := pool[p := At(files, key)];
      accessCounter := accessCounter + 1;
      slots := slots[i := Slot(true, key, p, accessCounter)];
      dirty := dirty[p := Dirty(false, false)];
      OnlyOne(slots, accessCounter, i, key.table);
    }

    // A table's page 0, found by the name alone: of the table asked for, unless one of another database is cached
    // under the name.
    method GetPage0(key: Key) returns (p: nat, ghost home: Key)
      requires Valid() && accessCounter < UINT64_MAX - 1
      modifies this
      ensures Valid() && old(accessCounter) < accessCounter <= old(accessCounter) + 2
      ensures forall k :: Seen(k) == old(Seen(k))
      ensures home == if SlotOf(old(slots), key.table).Some?
        then old(slots)[SlotOf(old(slots), key.table).value].key else key
      ensures SlotOf(slots, key.table).Some? && slots[SlotOf(slots, key.table).value].key == home
      ensures p == slots[SlotOf(slots, key.table).value].pool && p < SLOTS && pool[p] == Seen(home)
      ensures OneHome(old(slots), key.db) ==> OneHome(slots, key.db)
    {
      var slot := FindSlot(key.table);
      if slot.None? {
        LoadTableMeta(key);
        slot := FindSlot(key.table);
      }
      home := slots[slot.value].key;
      Touch(slot.value);
      OnlyOne(slots, accessCounter, slot.value, key.table);
      p := slots[slot.value].pool;
    }

    method Touch(i: nat)
      requires Valid() && accessCounter < UINT64_MAX && i < SLOTS && slots[i].valid
      modifies `slots, `accessCounter
      ensures Valid() && accessCounter == old(accessCounter) + 1
      ensures slots == old(slots)[i := old(slots)[i].(lastAccess := accessCounter)]
      ensures forall k :: Seen(k) == old(Seen(k))
    {
      ghost var was := slots;
      accessCounter := accessCounter + 1;
      slots := slots[i := slots[i].(lastAccess := accessCounter)];
      Touched(was, slots, pool, dirty, accessCounter - 1, files, i);
      TouchedView(was, slots, pool, accessCounter - 1, files, i);
    }

    // Page 1, likewise.
    method GetTableMeta(key: Key) returns (p: nat, ghost home: Key)
      requires Valid() && accessCounter < UINT64_MAX
      modifies this
      ensures Valid() && accessCounter == old(accessCounter) + 1
      ensures forall k :: Seen(k) == old(Seen(k))
      ensures home == if SlotOf(old(slots), key.table).Some?
        then old(slots)[SlotOf(old(slots), key.table).value].key else key
      ensures SlotOf(slots, key.table).Some? && slots[SlotOf(slots, key.table).value].key == home
      ensures p == slots[SlotOf(slots, key.table).value].pool && p < SLOTS && pool[p] == Seen(home)
      ensures OneHome(old(slots), key.db) ==> OneHome(slots, key.db)
    {
      var slot := FindSlot(key.table);
      if slot.Some? {
        Touch(slot.value);
        OnlyOne(slots, accessCounter, slot.value, key.table);
      } else {
        LoadTableMeta(key);
        slot := FindSlot(key.table);
      }
      home := slots[slot.value].key;
      p := slots[slot.value].pool;
    }

    // A new schema for the table; false if it is too large for page 1.
    method WriteSchema(key: Key, schema: string) returns (ok: bool, ghost home: Key)
      requires Valid() && accessCounter < UINT64_MAX
      modifies this
      ensures Valid() && accessCounter == old(accessCounter) + 1 && ok == (|schema| <= 8158)
      ensures OneHome(old(slots), key.db) ==> OneHome(slots, key.db)
      ensures home == if SlotOf(old(slots), key.table).Some?
        then old(slots)[SlotOf(old(slots), key.table).value].key else key
      ensures forall k :: Seen(k) == if ok && k == home then old(Seen(k)).(schema := schema) else old(Seen(k))
    {
      var p;
      p, home := GetTableMeta(key);
      ok := |schema| <= MAX_SCHEMA_SIZE;
      if ok {
        ChangeSchema(key.table, schema);
      }
    }

    // Row ids of one table count up, modulo 2^64.
    method GetAndIncrementRowId(key: Key) returns (id: nat, ghost home: Key)
      requires Valid() && accessCounter < UINT64_MAX - 1
      modifies this
      ensures Valid() && old(accessCounter) < accessCounter <= old(accessCounter) + 2
      ensures home == if SlotOf(old(slots), key.table).Some?
        then old(slots)[SlotOf(old(slots), key.table).value].key else key
      ensures id == old(Seen(home)).header.nextRowId
      ensures SlotOf(slots, key.table).Some? && slots[SlotOf(slots, key.table).value].key == home
      ensures Seen(home) ==
        old(Seen(home)).(header := old(Seen(home)).header.(nextRowId := (id + 1) % 18446744073709551616))
      ensures forall k :: k != home ==> Seen(k) == old(Seen(k))
      ensures OneHome(old(slots), key.db) ==> OneHome(slots, key.db)
    {
      var p;
      p, home := GetPage0(key);
      id := pool[p].header.nextRowId;
      ChangeHeader(key.table, pool[p].header.(nextRowId := (id + 1) % UINT64));
    }

    // Two tables of one name in different databases, the first just loaded: the second takes its row ids from the
    // header
    // of the first, and its own does not move.
    method SharedRowIds(a: Key, b: Key) returns (first: nat, second: nat)
      requires Valid() && accessCounter < UINT64_MAX - 4
      requires a.table == b.table && a.db != b.db && SlotOf(slots, a.table).None?
      modifies this
      ensures Valid() && first == old(Seen(a)).header.nextRowId && second == (first + 1) % 18446744073709551616
      ensures Seen(b) == old(Seen(b))
    {
      ghost var home, home';
      first, home := GetAndIncrementRowId(a);
      second, home' := GetAndIncrementRowId(b);
    }

    method GetAndIncrementAutoIncrement(key: Key, column: nat) returns (r: Option<nat>, ghost home: Key)
      requires Valid() && accessCounter < UINT64_MAX - 1
      modifies this
      ensures Valid() && old(accessCounter) <= accessCounter <= old(accessCounter) + 2
      ensures OneHome(old(slots), key.db) ==> OneHome(slots, key.db)
      ensures home == if SlotOf(old(slots), key.table).Some?
        then old(slots)[SlotOf(old(slots), key.table).value].key else key
      ensures column >= 8 ==> r == None && forall k :: Seen(k) == old(Seen(k))
      ensures column < 8 ==>
        && r == Some(old(Seen(home)).header.counters[column])
        && Seen(home) ==
          old(Seen(home)).(header :=
          old(Seen(home)).header.(counters := old(Seen(home)).header.counters[column := (r.value + 1) % UINT64]))
        && forall k :: k != home ==> Seen(k) == old(Seen(k))
    {
      if column >= COUNTERS {
        home := if SlotOf(slots, key.table).Some? then slots[SlotOf(slots, key.table).value].key else key;
        return None, home;
      }
      var p;
      p, home := GetPage0(key);
      assert pool[p] == old(Seen(home));
      var h := pool[p].header;
      r := Some(h.counters[column]);
      ChangeHeader(key.table, h.(counters := h.counters[column := (h.counters[column] + 1) % UINT64]));
    }

    // A change through the page pointer, and mark_page0_dirty.
    method ChangeHeader(table: string, header: Header)
      requires Valid() && SlotOf(slots, table).Some?
      modifies `pool, `dirty
      ensures Valid()
      ensures forall k :: Seen(k) == if k == slots[SlotOf(slots, table).value].key
                          then old(Seen(k)).(header := header) else old(Seen(k))
    {
      var slot := FindSlot(table);
      var p := slots[slot.value].pool;
      Changed(slots, pool, dirty, accessCounter, files, slot.value, pool[p].(header := header),
        dirty[p].(header := true));
      pool := pool[p := pool[p].(header := header)];
      dirty := dirty[p := dirty[p].(header := true)];
    }

    method ChangeSchema(table: string, schema: string)
      requires Valid() && SlotOf(slots, table).Some?
      modifies `pool, `dirty
      ensures Valid()
      ensures forall k :: Seen(k) == if k == slots[SlotOf(slots, table).value].key
                          then old(Seen(k)).(schema := schema) else old(Seen(k))
    {
      var slot := FindSlot(table);
      var p := slots[slot.value].pool;
      Changed(slots, pool, dirty, accessCounter, files, slot.value, pool[p].(schema := schema),
        dirty[p].(schema := true));
      pool := pool[p := pool[p].(schema := schema)];
      dirty := dirty[p := dirty[p].(schema := true)];
    }

    // Afterwards the disk has every table as it is seen.
    method Flush()
      requires Valid()
      modifies `files, `dirty
      ensures Valid() && forall k :: Seen(k) == old(Seen(k)) == At(files, k)
      ensures forall p :: 0 <= p < SLOTS ==> !dirty[p].Any()
    {
      var i := 0;
      while i < SLOTS
        invariant Valid() && i <= SLOTS && forall k :: Seen(k) == old(Seen(k))
        invariant forall p :: 0 <= p < i ==> !dirty[p].Any()
      {
        if dirty[i].Any() {
          var j := 0;
          assert Owned(slots, i);
          while j < SLOTS && !(slots[j].valid && slots[j].pool == i)
            invariant j <= SLOTS && forall x :: 0 <= x < j ==> !(slots[x].valid && slots[x].pool == i)
          {
            j := j + 1;
          }
          WriteSlotToDisk(j);
        }
        i := i + 1;
      }
      AllSaved(slots, pool, dirty, accessCounter, files);
    }

    method Clear()
      requires Valid()
      modifies `slots, `pool, `dirty, `files
      ensures Valid() && forall k :: Seen(k) == old(Seen(k)) == At(files, k)
      ensures forall i :: 0 <= i < SLOTS ==> !slots[i].valid
    {
      Flush();
      var unused := Slot(false, Key("", ""), 0, 0);
      slots :=
        [slots[0].(valid := false, key := Key("", ""), lastAccess := 0),
        slots[1].(valid := false, key := Key("", ""), lastAccess := 0),
                slots[2].(valid := false, key := Key("", ""), lastAccess := 0)];
      dirty := [Dirty(false, false), Dirty(false, false), Dirty(false, false)];
      pool := [BLANK, BLANK, BLANK];
    }

    method EvictTable(table: string)
      requires Valid()
      modifies `slots, `dirty, `files
      ensures Valid() && SlotOf(slots, table).None? && forall k :: Seen(k) == old(Seen(k))
      ensures forall j :: 0 <= j < SLOTS && slots[j].valid ==> slots[j] == old(slots)[j]
    {
      var slot := FindSlot(table);
      if slot.None? {
        return;
      }
      OnlyOne(slots, accessCounter, slot.value, table);
      Release(slot.value);
    }

    // The schema page as it is seen.
    method SchemaOf(key: Key) returns (schema: string, ghost home: Key)
      requires Valid() && accessCounter < UINT64_MAX
      modifies this
      ensures Valid() && accessCounter == old(accessCounter) + 1
      ensures OneHome(old(slots), key.db) ==> OneHome(slots, key.db)
      ensures home == if SlotOf(old(slots), key.table).Some?
        then old(slots)[SlotOf(old(slots), key.table).value].key else key
      ensures schema == Seen(home).schema && forall k :: Seen(k) == old(Seen(k))
    {
      var p;
      p, home := GetTableMeta(key);
      schema := pool[p].schema;
    }

    // One of them, and its number if it is the next row id or the next value of the column for the table `key`.
    method Perform(op: Op, key: Key, column: nat) returns (row: Option<nat>, auto: Option<nat>)
      requires Valid() && OneHome(slots, key.db) && accessCounter < UINT64_MAX - 1 && op.In(key.db) && column < COUNTERS
      modifies this
      ensures Valid() && OneHome(slots, key.db) && accessCounter <= old(accessCounter) + 2
      ensures row.Some? <==> op == NextRowId(key)
      ensures auto.Some? <==> op == NextAuto(key, column)
      ensures Counted(row, old(Seen(key)).header.nextRowId, Seen(key).header.nextRowId)
      ensures Counted(auto, old(Seen(key)).header.counters[column], Seen(key).header.counters[column])
    {
      row, auto := None, None;
      match op {
        case NextRowId(k) =>
          var rowId, home := GetAndIncrementRowId(k);
          row := if k == key then Some(rowId) else None;
        case NextAuto(k, c) =>
          var value, home := GetAndIncrementAutoIncrement(k, c);
          auto := if k == key && c == column then value else None;
        case Page0(k) => var p, home := GetPage0(k);
        case ReadSchema(k) => var schema, home := SchemaOf(k);
        case NewSchema(k, schema) => var ok, home := WriteSchema(k, schema);
        case FlushAll => Flush();
        case ClearAll => Clear();
        case Evict(table) => EvictTable(table);
      }
    }

    // Whatever else is done to tables of the same database in between, the row ids handed out for one table are
    // consecutive, and so are the AUTO_INCREMENT values of one of its columns.
    method Run(ops: seq<Op>, key: Key, column: nat) returns (ids: seq<nat>, autos: seq<nat>)
      requires Valid() && OneHome(slots, key.db) && accessCounter + 2 * |ops| < UINT64_MAX && column < COUNTERS
      requires forall i :: 0 <= i < |ops| ==> ops[i].In(key.db)
      requires Seen(key).header.nextRowId < UINT64 && Seen(key).header.counters[column] < UINT64
      modifies this
      ensures Valid() && OneHome(slots, key.db)
      ensures Consecutive(ids, old(Seen(key)).header.nextRowId, Seen(key).header.nextRowId)
      ensures Consecutive(autos, old(Seen(key)).header.counters[column], Seen(key).header.counters[column])
      ensures |ids| == Times(NextRowId(key), ops) && |autos| == Times(NextAuto(key, column), ops)
    {
      ids, autos := [], [];
      ghost var row, auto := Seen(key).header.nextRowId, Seen(key).header.counters[column];
      var n := 0;
      while n < |ops|
        invariant n <= |ops| && Valid() && OneHome(slots, key.db) && accessCounter + 2 * (|ops| - n) < UINT64_MAX
        invariant Consecutive(ids, row, Seen(key).header.nextRowId)
        invariant Consecutive(autos, auto, Seen(key).header.counters[column])
        invariant |ids| == Times(NextRowId(key), ops[..n]) && |autos| == Times(NextAuto(key, column), ops[..n])
      {
        assert ops[n].In(key.db);
        assert ops[..n + 1][..n] == ops[..n];
        ghost var before := Seen(key).header;
        var id, value := Perform(ops[n], key, column);
        OneMore(ids, row, id, before.nextRowId, Seen(key).header.nextRowId);
        OneMore(autos, auto, value, before.counters[column], Seen(key).header.counters[column]);
        ids, autos := Added(ids, id), Added(autos, value);
        n := n + 1;
      }
      assert ops[..n] == ops;
    }
  }
}
