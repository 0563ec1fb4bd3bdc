// A page in memory and the operations on its records and slots, byte by byte.
module SlottedPage {
  import opened Keys
  import opened PageView
  import opened PageBytes

  datatype Option<+T> = None | Some(value: T)

  const PAGE_ID := 0
  const PAGE_TYPE := 4
  const PAGE_LEVEL := 6

  // In a well-formed page every slot has a key, and a value unless that is empty.
  ghost function KeyOfSlot(d: Bytes, i: nat): Option<Bytes>
    requires PageOk(d)
  {
    if i < Count(d) then Some(View(d).recs[i].key) else None
  }

  // The record of a slot, in a well-formed page.
  lemma {:induction false} SlotFacts(d: Bytes, i: nat)
    ensures PageOk(d) && i < Count(d) ==>
      var off := SlotAt(d, i);
      && Inside(d, off) && |RecAt(d, off).key| > 0 && View(d).recs[i] == RecAt(d, off)
      && (End(d) + 2 * i) % U16 == End(d) + 2 * i && End(d) + 2 * i + 2 <= PAGE_SIZE
  {
  }

  lemma {:induction false} KeysOfSlots(d: Bytes)
    requires PageOk(d)
    ensures |KeysOf(View(d).recs)| == Count(d)
    ensures forall i :: 0 <= i < Count(d) ==> KeyOfSlot(d, i) == Some(KeysOf(View(d).recs)[i])
  {
  }

  ghost function ValueOfSlot(d: Bytes, i: nat): Option<Bytes>
    requires PageOk(d)
  {
    if i < Count(d) && |View(d).recs[i].val| > 0 then Some(View(d).recs[i].val) else None
  }

  // The header of a new page: its id, its type, its level, and otherwise zeros up to the fields of the free space.
  predicate NewHeader(d: Bytes, id: nat, kind: nat, level: nat) {
    && |d| == 2048
    && (var b0: int, b1: int, b2: int, b3: int := d[0], d[1], d[2], d[3];
        b0 + 256 * b1 + 65536 * b2 + 16777216 * b3 == id)
    && Get16(d, 4) == kind && Get16(d, 6) == level
    && forall k :: 8 <= k < 2048 && !(18 <= k < 24) ==> d[k] == 0
  }

  // Header and record after a deletion.
  ghost predicate Deleted(d: Bytes, d': Bytes, index: nat) {
    Framed(d) && index < Count(d) && HeaderKept(d, d') && DroppedAt(d, d', SlotAt(d, index))
  }

  class Page {
    const data: array<Byte>

    ghost predicate Valid()
      reads data
    {
      data.Length == PAGE_SIZE && PageOk(data[..])
    }

    // The records in slot order, and how far the record area has grown.
    ghost function Content(): PageView.Content
      reads data
      requires Valid()
    {
      View(data[..])
    }

    // init_page: an empty page.
    constructor (id: nat, kind: nat, level: nat)
      requires id < U16 * U16 && kind < U16 && level < U16
      ensures Valid() && fresh(data) && Content() == Compact([]) && NewHeader(data[..], id, kind, level)
    {
      data := new Byte[PAGE_SIZE](i => 0);
      new;
      Write16(PAGE_ID, id % U16);
      Write16(PAGE_ID + 2, id / U16);
      Write16(PAGE_TYPE, kind);
      Write16(PAGE_LEVEL, level);
      Write16(CELL_COUNT, 0);
      Write16(FREE_START, HEADER_SIZE);
      Write16(FREE_END, PAGE_SIZE);
    }

    function Read16(o: nat): nat
      reads data
      requires o + 2 <= data.Length
    {
      Get16(data[..], o)
    }

    method Write16(o: nat, v: nat)
      requires o + 2 <= data.Length && v < U16
      modifies data
      ensures data[..] == Put16(old(data[..]), o, v)
    {
      data[o] := v % 256;
      data[o + 1] := v / 256;
    }

    // The offset of slot i in the directory; none when there is no such slot.
    function SlotPtr(i: nat): (o: Option<nat>)
      requires data.Length == PAGE_SIZE
      reads data
      ensures Valid() ==> o == if i < Count(data[..]) then Some(End(data[..]) + 2 * i) else None
      ensures o.Some? ==> o.value + 2 <= PAGE_SIZE
    {
      SlotFacts(data[..], i);
      if i >= Read16(CELL_COUNT) then None
      else
        var slot := (Read16(FREE_END) + 2 * i) % U16;
        if slot + 2 > PAGE_SIZE then None else Some(slot)
    }

    function SlotKey(i: nat): (key: Option<Bytes>)
      requires data.Length == PAGE_SIZE
      reads data
      ensures PageOk(data[..]) ==> key == KeyOfSlot(data[..], i)
    {
      SlotFacts(data[..], i);
      var slot := SlotPtr(i);
      if slot.None? then None
      else
        var off := Read16(slot.value);
        if off < HEADER_SIZE || off >= Read16(FREE_START) || off + RECORD_HEADER > PAGE_SIZE then None
        else
          var k := Read16(off + 1);
          if k == 0 || k > PAGE_SIZE || off + RECORD_HEADER + k > Read16(FREE_START)
            || off + RECORD_HEADER + k > PAGE_SIZE
          then None
          else
            assert data[off + RECORD_HEADER..off + RECORD_HEADER + k] ==
              data[..][off + RECORD_HEADER..off + RECORD_HEADER + k];
            Some(data[off + RECORD_HEADER..off + RECORD_HEADER + k])
    }

    function SlotValue(i: nat): (value: Option<Bytes>)
      requires data.Length == PAGE_SIZE
      reads data
      ensures PageOk(data[..]) ==> value == ValueOfSlot(data[..], i)
    {
      SlotFacts(data[..], i);
      var slot := SlotPtr(i);
      if slot.None? then None
      else
        var off := Read16(slot.value);
        if off < HEADER_SIZE || off >= Read16(FREE_START) || off + RECORD_HEADER > PAGE_SIZE then None
        else
          var k, v := Read16(off + 1), Read16(off + 3);
          if k == 0 || k > PAGE_SIZE || v == 0 || v > PAGE_SIZE then None
          else
            var keyEnd := off + RECORD_HEADER + k;
            if keyEnd + v > Read16(FREE_START) || keyEnd + v > PAGE_SIZE then None
            else
              assert data[keyEnd..keyEnd + v] == data[..][keyEnd..keyEnd + v];
              Some(data[keyEnd..keyEnd + v])
    }

    // The keys of the slots are these.
    ghost predicate HasKeys(keys: seq<Bytes>)
      reads data
    {
      data.Length == PAGE_SIZE && Read16(CELL_COUNT) == |keys| && forall i {:trigger SlotKey(i)} :: 0 <= i < |keys| ==>
        SlotKey(i) == Some(keys[i])
    }

    lemma KeysInSlots()
      requires Valid()
      ensures HasKeys(KeysOf(Content().recs))
    {
      KeysOfSlots(data[..]);
    }

    method SearchRecord(key: Bytes) returns (r: SearchResult)
      requires Valid()
      ensures r == Find(Content().recs, key)
    {
      KeysInSlots();
      r := SearchSlots(key, KeysOf(Content().recs));
    }

    // The binary search over the slots.
    method SearchSlots(key: Bytes, ghost keys: seq<Bytes>) returns (r: SearchResult)
      requires HasKeys(keys)
      ensures r == Search(keys, key, 0, |keys|)
    {
      ghost var target := Search(keys, key, 0, |keys|);
      var left: nat, right: nat := 0, Read16(CELL_COUNT);
      while left < right
        invariant left <= right <= |keys| && Search(keys, key, left, right) == target
      {
        var mid := left + (right - left) / 2;
        var cmp := CompareSlot(mid, key, keys);
        SearchMove(keys, key, left, right, mid, cmp, target);
        if cmp < 0 {
          left := mid + 1;
        } else if cmp > 0 {
          right := mid;
        } else {
          return SearchResult(true, mid);
        }
      }
      return SearchResult(false, left);
    }

    method CompareSlot(i: nat, key: Bytes, ghost keys: seq<Bytes>) returns (cmp: int)
      requires HasKeys(keys) && i < |keys|
      ensures (cmp < 0 <==> Lt(keys[i], key)) && (cmp > 0 <==> Lt(key, keys[i])) && (cmp == 0 <==> keys[i] == key)
    {
      var slotKey := SlotKey(i);
      cmp := CompareKeys(slotKey.value, key);
    }

    // A 16-bit number for every slot from `base` on, as far as the sequence goes.
    method WriteSlots(base: nat, first: nat, slots: seq<nat>)
      requires base + 2 * (first + |slots|) <= data.Length && forall i :: 0 <= i < |slots| ==> slots[i] < U16
      modifies data
      ensures forall i :: 0 <= i < |slots| ==> Get16(data[..], base + 2 * (first + i)) == slots[i]
      ensures forall k :: 0 <= k < data.Length && !(base + 2 * first <= k < base + 2 * (first + |slots|)) ==>
        data[k] == old(data[k])
    {
      var i := 0;
      while i < |slots|
        invariant i <= |slots|
        invariant forall j :: 0 <= j < i ==> Get16(data[..], base + 2 * (first + j)) == slots[j]
        invariant forall k :: 0 <= k < data.Length && !(base + 2 * first <= k < base + 2 * (first + i)) ==>
          data[k] == old(data[k])
      {
        ghost var before := data[..];
        Write16(base + 2 * (first + i), slots[i]);
        forall j | 0 <= j < i ensures Get16(data[..], base + 2 * (first + j)) == slots[j] {
          assert Get16(before, base + 2 * (first + j)) == slots[j];
        }
        i := i + 1;
      }
    }

    // The slots before the new one, the new one, and those after it.
    method WriteAround(base: nat, before: seq<nat>, off: nat, after: seq<nat>)
      requires base + 2 * (|before| + 1 + |after|) == data.Length && off < U16
      requires (forall i :: 0 <= i < |before| ==> before[i] < U16) && (forall i :: 0 <= i < |after| ==> after[i] < U16)
      modifies data
      ensures forall i :: 0 <= i < |before + [off] + after| ==>
        Get16(data[..], base + 2 * i) == (before + [off] + after)[i]
      ensures forall k :: 0 <= k < base ==> data[k] == old(data[k])
    {
      WriteSlots(base, 0, before);
      WriteSlots(base, |before|, [off]);
      ghost var d := data[..];
      forall i | 0 <= i < |before| + 1 ensures Get16(d, base + 2 * i) == (before + [off])[i] {
        assert i == |before| ==> [off][0] == off;
      }
      WriteSlots(base, |before| + 1, after);
      forall i | 0 <= i < |before + [off] + after|
        ensures Get16(data[..], base + 2 * i) == (before + [off] + after)[i] {
        if i <= |before| {
          assert Get16(data[..], base + 2 * i) == Get16(d, base + 2 * i);
        } else {
          assert after[i - |before| - 1] == (before + [off] + after)[i];
        }
      }
    }

    // The slots as they are.
    method ReadSlots() returns (slots: seq<nat>)
      requires data.Length == PAGE_SIZE && Framed(data[..])
      ensures slots == Offsets(data[..])
    {
      slots := [];
      var i, n := 0, Read16(CELL_COUNT);
      while i < n
        invariant i <= n && slots == Offsets(data[..])[..i]
      {
        slots := slots + [Read16(Read16(FREE_END) + 2 * i)];
        i := i + 1;
      }
    }

    // Refuses when the directory would reach the records.
    method InsertSlot(index: nat, off: nat) returns (ok: bool)
      requires data.Length == PAGE_SIZE && Framed(data[..]) && index <= Count(data[..]) && off < U16
      modifies data
      ensures ok == (Start(old(data[..])) + 2 <= End(old(data[..])))
      ensures ok ==> SlotInserted(old(data[..]), data[..], index, off)
      ensures !ok ==> data[..] == old(data[..])
    {
      ghost var before := data[..];
      var count, oldEnd := Read16(CELL_COUNT), Read16(FREE_END);
      var newEnd := oldEnd - 2;
      if newEnd < Read16(FREE_START) || newEnd + 2 * (count + 1) > PAGE_SIZE {
        return false;
      }
      var slots := ReadSlots();
      Write16(FREE_END, newEnd);
      WriteAround(newEnd, slots[..index], off, slots[index..]);
      Write16(CELL_COUNT, count + 1);
      DirectoryWritten(before, data[..], slots[..index] + [off] + slots[index..], newEnd);
      return true;
    }

    method RemoveSlot(index: nat)
      requires data.Length == PAGE_SIZE && Framed(data[..]) && index < Count(data[..])
      modifies data
      ensures SlotRemoved(old(data[..]), data[..], index)
    {
      ghost var before := data[..];
      var count, newEnd := Read16(CELL_COUNT), Read16(FREE_END) + 2;
      var slots := ReadSlots();
      Write16(FREE_END, newEnd);
      WriteSlots(newEnd, 0, slots[..index]);
      WriteSlots(newEnd, index, slots[index + 1..]);
      Write16(CELL_COUNT, count - 1);
      DirectoryWritten(before, data[..], slots[..index] + slots[index + 1..], newEnd);
    }

    method WriteBytes(o: nat, bytes: Bytes)
      requires o + |bytes| <= data.Length
      modifies data
      ensures data[o..o + |bytes|] == bytes
      ensures forall k :: 0 <= k < data.Length && !(o <= k < o + |bytes|) ==> data[k] == old(data[k])
    {
      var i := 0;
      while i < |bytes|
        invariant i <= |bytes| && data[o..o + i] == bytes[..i]
        invariant forall k :: 0 <= k < data.Length && !(o <= k < o + i) ==> data[k] == old(data[k])
      {
        data[o + i] := bytes[i];
        i := i + 1;
      }
    }

    // The offset of the new record; 0 when it does not fit.
    method WriteRecord(key: Bytes, value: Bytes) returns (off: nat)
      requires data.Length == PAGE_SIZE && Framed(data[..]) && |key| < U16 && |value| < U16
      modifies data
      ensures off == if Start(old(data[..])) + RECORD_HEADER + |key| + |value| <= End(old(data[..]))
        then Start(old(data[..])) else 0
      ensures off != 0 ==> RecordWritten(old(data[..]), data[..], key, value)
      ensures off == 0 ==> data[..] == old(data[..])
    {
      ghost var before := data[..];
      off := Read16(FREE_START);
      if off + RECORD_HEADER + |key| + |value| > Read16(FREE_END) {
        return 0;
      }
      WriteBytes(off, RecordHeader(|key|, |value|) + key + value);
      Write16(FREE_START, off + RecordSize(|key|, |value|));
      RecordBytes(before, data[..], key, value);
    }

    // can_insert.
    function Fits(size: nat): bool
      reads data
      requires data.Length == PAGE_SIZE
    {
      Read16(FREE_START) + size + (Read16(CELL_COUNT) + 1) * 2 % U16 <= Read16(FREE_END)
    }

    lemma RoomSeen(size: nat)
      requires Valid()
      ensures Fits(size) <==> CanInsert(Start(data[..]), Count(data[..]), size)
      ensures Content().freeStart == Start(data[..]) && |Content().recs| == Count(data[..])
    {
    }

    // page_insert.
    method Insert(key: Bytes, value: Bytes) returns (ok: bool)
      requires Valid() && 0 < |key| < U16 && |value| < U16
      modifies data
      ensures Valid()
      ensures Inserted(ok, Content()) == PageInsert(old(Content()), key, value)
      ensures HeaderKept(old(data[..]), data[..]) && (!ok ==> data[..] == old(data[..]))
    {
      ghost var c := Content();
      var r := SearchRecord(key);
      var fits := Fits(RecordSize(|key|, |value|));
      RoomSeen(RecordSize(|key|, |value|));
      if r.found || !fits {
        InsertRefused(c, key, value);
        return false;
      }
      ok := PutAt(r.index, key, value);
    }

    method PutAt(index: nat, key: Bytes, value: Bytes) returns (ok: bool)
      requires Valid() && Find(Content().recs, key) == SearchResult(false, index) && 0 < |key| < U16 && |value| < U16
      requires CanInsert(Start(data[..]), Count(data[..]), RecordSize(|key|, |value|))
      modifies data
      ensures Valid()
      ensures Inserted(ok, Content()) == PageInsert(old(Content()), key, value)
      ensures HeaderKept(old(data[..]), data[..]) && (!ok ==> data[..] == old(data[..]))
    {
      ghost var before := data[..];
      ghost var written;
      ok, written := PutRecord(index, key, value);
      if ok {
        InsertHeader(before, written, data[..], key, value, index);
      }
      InsertFinish(before, written, data[..], key, value, index, ok);
    }

    // The record and its slot.  Once the room test has passed only the write itself can fail.
    method PutRecord(index: nat, key: Bytes, value: Bytes) returns (ok: bool, ghost written: Bytes)
      requires data.Length == PAGE_SIZE && Framed(data[..]) && index <= Count(data[..]) && |key| < U16 && |value| < U16
      requires CanInsert(Start(data[..]), Count(data[..]), RecordSize(|key|, |value|))
      modifies data
      ensures ok == (Start(old(data[..])) + RECORD_HEADER + |key| + |value| <= End(old(data[..])))
      ensures ok ==> RecordWritten(old(data[..]), written, key, value)
                     && SlotInserted(written, data[..], index, Start(old(data[..])))
      ensures !ok ==> data[..] == old(data[..])
    {
      var off := WriteRecord(key, value);
      written := data[..];
      if off == 0 {
        return false, written;
      }
      RoomForSlot(off, Count(written), |key|, |value|);
      ok := InsertSlot(index, off);
    }

    // page_delete.
    method Delete(key: Bytes) returns (ok: bool)
      requires Valid()
      modifies data
      ensures Valid()
      ensures Inserted(ok, Content()) == PageDelete(old(Content()), key)
      ensures ok ==> Deleted(old(data[..]), data[..], Find(old(Content()).recs, key).index)
      ensures !ok ==> data[..] == old(data[..])
    {
      ghost var before := data[..];
      var r := SearchRecord(key);
      if !r.found {
        return false;
      }
      ghost var marked := DropRecord(r.index);
      DeleteHeader(before, data[..], r.index);
      DeleteFinish(before, marked, data[..], key, r.index);
      return true;
    }

    // The record stays where it is, marked as deleted; only its slot goes.
    method DropRecord(index: nat) returns (ghost marked: Bytes)
      requires data.Length == PAGE_SIZE && Framed(data[..]) && index < Count(data[..])
      requires HEADER_SIZE <= SlotAt(data[..], index) < Start(data[..])
      modifies data
      ensures marked == Marked(old(data[..]), index) && Framed(marked) && Count(marked) == Count(old(data[..]))
        && SlotRemoved(marked, data[..], index)
    {
      ghost var before := data[..];
      var off := Read16(Read16(FREE_END) + 2 * index);
      DirectoryKept(before, off, WithFlag(data[off]));
      data[off] := WithFlag(data[off]);
      marked := data[..];
      RemoveSlot(index);
    }
  }
}
