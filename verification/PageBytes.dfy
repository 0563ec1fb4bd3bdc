// The layout of a slotted page: header fields, a slot directory growing down from
// the end of the page, and records growing up from the header.
module PageBytes {
  import opened Seqs
  import opened Keys
  import opened PageView

  // Offsets of header fields.
  const CELL_COUNT := 18
  const FREE_START := 20
  const FREE_END := 22

  // 16-bit little-endian numbers.
  function Get16(d: Bytes, o: nat): nat
    requires o + 2 <= |d|
  {
    var lo: int, hi: int := d[o], d[o + 1];
    lo + 256 * hi
  }

  function Put16(d: Bytes, o: nat, v: nat): (r: Bytes)
    requires o + 2 <= |d| && v < U16
    ensures |r| == |d| && Get16(r, o) == v
    ensures forall k :: 0 <= k < |d| && k != o && k != o + 1 ==> r[k] == d[k]
  {
    d[o := v % 256][o + 1 := v / 256]
  }

  function Count(d: Bytes): nat
    requires |d| == PAGE_SIZE
  {
    Get16(d, CELL_COUNT)
  }

  function Start(d: Bytes): nat
    requires |d| == PAGE_SIZE
  {
    Get16(d, FREE_START)
  }

  function End(d: Bytes): nat
    requires |d| == PAGE_SIZE
  {
    Get16(d, FREE_END)
  }

  // The directory lies at the end of the page.
  predicate Framed(d: Bytes) {
    |d| == PAGE_SIZE && HEADER_SIZE <= Start(d) <= End(d) && End(d) + 2 * Count(d) == PAGE_SIZE
  }

  function SlotAt(d: Bytes, i: nat): nat
    requires Framed(d) && i < Count(d)
  {
    Get16(d, End(d) + 2 * i)
  }

  // The record whose header is at off lies in the record area.
  predicate Inside(d: Bytes, off: nat)
    requires |d| == PAGE_SIZE
  {
    && HEADER_SIZE <= off && off + RECORD_HEADER <= Start(d) <= PAGE_SIZE
    && off + RECORD_HEADER + Get16(d, off + 1) + Get16(d, off + 3) <= Start(d)
  }

  function RecAt(d: Bytes, off: nat): Rec
    requires |d| == PAGE_SIZE && Inside(d, off)
  {
    var k, v := Get16(d, off + 1), Get16(d, off + 3);
    Rec(d[off + RECORD_HEADER..off + RECORD_HEADER + k], d[off + RECORD_HEADER + k..off + RECORD_HEADER + k + v])
  }

  // The bytes of the records at off and off' do not overlap.
  predicate Disjoint(d: Bytes, off: nat, off': nat)
    requires |d| == PAGE_SIZE && Inside(d, off) && Inside(d, off')
  {
    off + RecSize(RecAt(d, off)) <= off' || off' + RecSize(RecAt(d, off')) <= off
  }

  // What is asked of the records at these offsets.
  ghost predicate RecordsOk(d: Bytes, offs: seq<nat>)
    requires |d| == PAGE_SIZE
  {
    && (forall i :: 0 <= i < |offs| ==> Inside(d, offs[i]) && |RecAt(d, offs[i]).key| > 0)
    && (forall i, j :: 0 <= i < j < |offs| ==> Disjoint(d, offs[i], offs[j]))
  }

  ghost function RecsAt(d: Bytes, offs: seq<nat>): (r: seq<Rec>)
    requires |d| == PAGE_SIZE && RecordsOk(d, offs)
    ensures |r| == |offs| && forall i :: 0 <= i < |offs| ==> r[i] == RecAt(d, offs[i])
  {
    seq(|offs|, i requires 0 <= i < |offs| => RecAt(d, offs[i]))
  }

  ghost function Offsets(d: Bytes): (r: seq<nat>)
    requires Framed(d)
    ensures |r| == Count(d) && forall i :: 0 <= i < |r| ==> r[i] == SlotAt(d, i)
  {
    seq(Count(d), i requires 0 <= i < Count(d) => SlotAt(d, i))
  }

  ghost predicate PageOk(d: Bytes) {
    Framed(d) && RecordsOk(d, Offsets(d))
  }

  // What the page holds.
  ghost function View(d: Bytes): Content
    requires PageOk(d)
  {
    Content(RecsAt(d, Offsets(d)), Start(d))
  }

  predicate SameFrom(d: Bytes, d': Bytes, lo: nat, hi: nat) {
    |d| == |d'| && hi <= |d| && forall k :: lo <= k < hi ==> d'[k] == d[k]
  }

  // A record is its bytes after the flags.
  lemma {:induction false} RecordFrame(d: Bytes, d': Bytes, off: nat)
    requires |d| == PAGE_SIZE == |d'| && Inside(d, off) && Start(d) <= Start(d') <= PAGE_SIZE
    requires SameFrom(d, d', off + 1, off + RecSize(RecAt(d, off)))
    ensures Inside(d', off) && RecAt(d', off) == RecAt(d, off)
  {
    assert Get16(d', off + 1) == Get16(d, off + 1) && Get16(d', off + 3) == Get16(d, off + 3);
  }

  lemma {:induction false} RecordsKept(d: Bytes, d': Bytes, offs: seq<nat>)
    requires |d| == PAGE_SIZE == |d'| && RecordsOk(d, offs) && Start(d) <= Start(d') <= PAGE_SIZE
    requires forall i :: 0 <= i < |offs| ==> SameFrom(d, d', offs[i] + 1, offs[i] + RecSize(RecAt(d, offs[i])))
    ensures RecordsOk(d', offs) && RecsAt(d', offs) == RecsAt(d, offs)
  {
    forall i | 0 <= i < |offs| ensures Inside(d', offs[i]) && RecAt(d', offs[i]) == RecAt(d, offs[i]) {
      RecordFrame(d, d', offs[i]);
    }
    forall i, j | 0 <= i < j < |offs| ensures Disjoint(d', offs[i], offs[j]) {
      assert Disjoint(d, offs[i], offs[j]);
    }
  }

  // Header bytes that belong to the directory.
  predicate DirectoryField(k: nat) {
    CELL_COUNT <= k < FREE_START || FREE_END <= k < FREE_END + 2
  }

  predicate SameButDirectory(d: Bytes, d': Bytes, hi: nat) {
    |d| == |d'| && hi <= |d| && forall k: nat :: k < hi && !DirectoryField(k) ==> d'[k] == d[k]
  }

  // insert_slot: one more slot, everything below the directory as it was.
  ghost predicate SlotInserted(d: Bytes, d': Bytes, index: nat, off: nat)
    requires Framed(d) && index <= Count(d)
  {
    && Framed(d') && Start(d') == Start(d) && SameButDirectory(d, d', End(d'))
    && Offsets(d') == Offsets(d)[..index] + [off] + Offsets(d)[index..]
  }

  lemma {:induction false} SlotInsertedView(d: Bytes, d': Bytes, index: nat, off: nat)
    requires PageOk(d) && index <= Count(d) && SlotInserted(d, d', index, off)
    requires Inside(d, off) && |RecAt(d, off).key| > 0
    requires forall i :: 0 <= i < Count(d) ==> Disjoint(d, Offsets(d)[i], off)
    ensures PageOk(d') && View(d') == Content(InsertAt(View(d).recs, index, RecAt(d, off)), Start(d))
  {
    var offs, offs' := Offsets(d), Offsets(d');
    OneMoreOk(d, offs, index, off);
    forall i | 0 <= i < |offs'| ensures SameFrom(d, d', offs'[i] + 1, offs'[i] + RecSize(RecAt(d, offs'[i]))) {
    }
    RecordsKept(d, d', offs');
  }

  lemma {:induction false} OneMoreOk(d: Bytes, offs: seq<nat>, index: nat, off: nat)
    requires |d| == PAGE_SIZE && RecordsOk(d, offs) && index <= |offs| && Inside(d, off) && |RecAt(d, off).key| > 0
    requires forall i :: 0 <= i < |offs| ==> Disjoint(d, offs[i], off)
    ensures RecordsOk(d, offs[..index] + [off] + offs[index..])
    ensures RecsAt(d, offs[..index] + [off] + offs[index..]) == InsertAt(RecsAt(d, offs), index, RecAt(d, off))
  {
    var offs' := offs[..index] + [off] + offs[index..];
    forall i | 0 <= i < |offs'|
      ensures offs'[i] == (if i < index then offs[i] else if i == index then off else offs[i - 1]) {
      SpliceAt(offs, index, off, i);
    }
    forall i, j | 0 <= i < j < |offs'| ensures Disjoint(d, offs'[i], offs'[j]) {
      if i != index && j != index {
        assert Disjoint(d, offs[if i < index then i else i - 1], offs[if j < index then j else j - 1]);
      }
    }
    OneMoreRec(d, offs, index, off);
  }

  lemma {:induction false} OneMoreRec(d: Bytes, offs: seq<nat>, index: nat, off: nat)
    requires |d| == PAGE_SIZE && RecordsOk(d, offs) && index <= |offs| && Inside(d, off)
    requires RecordsOk(d, offs[..index] + [off] + offs[index..])
    ensures RecsAt(d, offs[..index] + [off] + offs[index..]) == InsertAt(RecsAt(d, offs), index, RecAt(d, off))
  {
    var offs' := offs[..index] + [off] + offs[index..];
    var a, b := RecsAt(d, offs'), InsertAt(RecsAt(d, offs), index, RecAt(d, off));
    assert |a| == |b|;
    forall i | 0 <= i < |a| ensures a[i] == b[i] {
      SpliceAt(offs, index, off, i);
      SpliceAt(RecsAt(d, offs), index, RecAt(d, off), i);
    }
  }

  // remove_slot: one slot less.
  ghost predicate SlotRemoved(d: Bytes, d': Bytes, index: nat)
    requires Framed(d) && index < Count(d)
  {
    && Framed(d') && Start(d') == Start(d) && SameButDirectory(d, d', End(d))
    && Offsets(d') == Offsets(d)[..index] + Offsets(d)[index + 1..]
  }

  lemma {:induction false} SlotRemovedView(d: Bytes, d': Bytes, index: nat)
    requires PageOk(d) && index < Count(d) && SlotRemoved(d, d', index)
    ensures PageOk(d') && View(d') == Content(RemoveAt(View(d).recs, index), Start(d))
  {
    var offs, offs' := Offsets(d), Offsets(d');
    OneLessOk(d, offs, index);
    forall i | 0 <= i < |offs'| ensures SameFrom(d, d', offs'[i] + 1, offs'[i] + RecSize(RecAt(d, offs'[i]))) {
    }
    RecordsKept(d, d', offs');
  }

  lemma {:induction false} OneLessOk(d: Bytes, offs: seq<nat>, index: nat)
    requires |d| == PAGE_SIZE && RecordsOk(d, offs) && index < |offs|
    ensures RecordsOk(d, offs[..index] + offs[index + 1..])
    ensures RecsAt(d, offs[..index] + offs[index + 1..]) == RemoveAt(RecsAt(d, offs), index)
  {
    var offs' := offs[..index] + offs[index + 1..];
    forall i | 0 <= i < |offs'| ensures offs'[i] == offs[if i < index then i else i + 1] {
    }
    forall i, j | 0 <= i < j < |offs'| ensures Disjoint(d, offs'[i], offs'[j]) {
      assert Disjoint(d, offs[if i < index then i else i + 1], offs[if j < index then j else j + 1]);
    }
  }

  // write_record: a record at the end of the record area, and nothing else but free_start.
  ghost predicate RecordWritten(d: Bytes, d': Bytes, key: Bytes, val: Bytes)
    requires Framed(d)
  {
    && Framed(d') && Offsets(d') == Offsets(d)
    && Start(d') == Start(d) + RECORD_HEADER + |key| + |val|
    && Inside(d', Start(d)) && RecAt(d', Start(d)) == Rec(key, val)
    && (forall k :: 0 <= k < Start(d) && !(FREE_START <= k < FREE_START + 2) ==> d'[k] == d[k])
  }

  lemma {:induction false} RecordWrittenView(d: Bytes, d': Bytes, key: Bytes, val: Bytes)
    requires PageOk(d) && RecordWritten(d, d', key, val)
    ensures PageOk(d') && View(d') == Content(View(d).recs, Start(d'))
    ensures forall i :: 0 <= i < Count(d') ==> Disjoint(d', Offsets(d')[i], Start(d))
  {
    assert SameFrom(d, d', FREE_END + 2, Start(d));
    RecordsKept(d, d', Offsets(d));
  }

  // Bytes of the record area are not part of header or directory.
  lemma {:induction false} DirectoryKept(d: Bytes, off: nat, flags: Byte)
    requires Framed(d) && HEADER_SIZE <= off < Start(d)
    ensures Framed(d[off := flags]) && Start(d[off := flags]) == Start(d) && Offsets(d[off := flags]) == Offsets(d)
  {
    var d' := d[off := flags];
    assert Start(d') == Start(d) && End(d') == End(d) && Count(d') == Count(d);
    forall i | 0 <= i < Count(d) ensures SlotAt(d', i) == SlotAt(d, i) {
    }
  }

  lemma {:induction false} FlagsApart(d: Bytes, offs: seq<nat>, index: nat, flags: Byte, i: nat)
    requires |d| == PAGE_SIZE && RecordsOk(d, offs) && index < |offs| && i < |offs|
    ensures SameFrom(d, d[offs[index] := flags], offs[i] + 1, offs[i] + RecSize(RecAt(d, offs[i])))
  {
    if i < index {
      assert Disjoint(d, offs[i], offs[index]);
    } else if i > index {
      assert Disjoint(d, offs[index], offs[i]);
    }
  }

  // Marking a record as deleted changes no record.
  lemma {:induction false} FlagsView(d: Bytes, index: nat, flags: Byte)
    requires PageOk(d) && index < Count(d)
    ensures PageOk(d[SlotAt(d, index) := flags]) && View(d[SlotAt(d, index) := flags]) == View(d)
  {
    var off, offs := SlotAt(d, index), Offsets(d);
    DirectoryKept(d, off, flags);
    forall i | 0 <= i < |offs| ensures SameFrom(d, d[off := flags], offs[i] + 1, offs[i] + RecSize(RecAt(d, offs[i]))) {
      FlagsApart(d, offs, index, flags, i);
    }
    RecordsKept(d, d[off := flags], offs);
  }

  // A directory written anew: its end, its count and its slots.
  lemma {:induction false} DirectoryWritten(d: Bytes, d': Bytes, offs: seq<nat>, end: nat)
    requires Framed(d) && |d'| == PAGE_SIZE && Start(d) <= end && end + 2 * |offs| == PAGE_SIZE
    requires Get16(d', FREE_END) == end && Get16(d', CELL_COUNT) == |offs|
    requires forall i :: 0 <= i < |offs| ==> Get16(d', end + 2 * i) == offs[i]
    requires SameButDirectory(d, d', end)
    ensures Framed(d') && Start(d') == Start(d) && Offsets(d') == offs
  {
    assert Start(d') == Start(d);
    forall i | 0 <= i < |offs| ensures SlotAt(d', i) == offs[i] {
    }
  }

  function RecordHeader(k: nat, v: nat): (r: Bytes)
    requires k < U16 && v < U16
    ensures |r| == RECORD_HEADER && Get16(r, 1) == k && Get16(r, 3) == v
  {
    [0, k % 256, k / 256, v % 256, v / 256]
  }

  // A record written at the end of the record area.
  lemma {:induction false} RecordBytes(d: Bytes, d': Bytes, key: Bytes, val: Bytes)
    requires Framed(d) && |d'| == PAGE_SIZE && |key| < U16 && |val| < U16
    requires Start(d) + RECORD_HEADER + |key| + |val| <= End(d)
    requires Start(d') == Start(d) + RECORD_HEADER + |key| + |val|
    requires d'[Start(d)..Start(d')] == RecordHeader(|key|, |val|) + key + val
    requires forall k :: 0 <= k < PAGE_SIZE && !(FREE_START <= k < FREE_START + 2) && !(Start(d) <= k < Start(d')) ==>
      d'[k] == d[k]
    ensures RecordWritten(d, d', key, val)
  {
    assert End(d') == End(d) && Count(d') == Count(d);
    forall i | 0 <= i < Count(d) ensures SlotAt(d', i) == SlotAt(d, i) {
    }
    RecordRead(d', Start(d), key, val);
  }

  lemma {:induction false} RecordRead(d: Bytes, off: nat, key: Bytes, val: Bytes)
    requires |d| == PAGE_SIZE && HEADER_SIZE <= off && |key| < U16 && |val| < U16
      && off + RECORD_HEADER + |key| + |val| <= Start(d) <= PAGE_SIZE
    requires d[off..off + RECORD_HEADER + |key| + |val|] == RecordHeader(|key|, |val|) + key + val
    ensures Inside(d, off) && RecAt(d, off) == Rec(key, val)
  {
    var s, h := d[off..off + RECORD_HEADER + |key| + |val|], RecordHeader(|key|, |val|);
    assert s[1] == h[1] && s[2] == h[2] && s[3] == h[3] && s[4] == h[4];
    assert Get16(d, off + 1) == Get16(h, 1) && Get16(d, off + 3) == Get16(h, 3);
    assert d[off + RECORD_HEADER..off + RECORD_HEADER + |key|] == s[RECORD_HEADER..RECORD_HEADER + |key|] == key;
    assert d[off + RECORD_HEADER + |key|..off + RECORD_HEADER + |key| + |val|] == s[RECORD_HEADER + |key|..] == val;
  }

  // When page_insert refuses at once.
  lemma {:induction false} InsertRefused(c: Content, key: Bytes, val: Bytes)
    requires Find(c.recs, key).found || !CanInsert(c.freeStart, |c.recs|, RecordSize(|key|, |val|))
    ensures PageInsert(c, key, val) == Inserted(false, c)
  {
  }

  // The room test leaves room for the slot as well, unless the size has wrapped and the record does not fit at all.
  lemma {:induction false} RoomForSlot(start: nat, count: nat, k: nat, v: nat)
    requires CanInsert(start, count, RecordSize(k, v)) && start + RECORD_HEADER + k + v <= PAGE_SIZE - 2 * count
    ensures start + RECORD_HEADER + k + v + 2 <= PAGE_SIZE - 2 * count
  {
  }

  // What page_insert does to the bytes, as what it does to the records.
  lemma {:induction false} InsertFinish(d: Bytes, written: Bytes, d': Bytes, key: Bytes, val: Bytes, index: nat,
                                        ok: bool)
    requires PageOk(d) && |key| > 0 && Find(View(d).recs, key) == SearchResult(false, index)
    requires CanInsert(Start(d), Count(d), RecordSize(|key|, |val|))
      && ok == (Start(d) + RECORD_HEADER + |key| + |val| <= End(d))
    requires ok ==> RecordWritten(d, written, key, val) && SlotInserted(written, d', index, Start(d))
    requires !ok ==> d' == d
    ensures PageOk(d') && Inserted(ok, View(d')) == PageInsert(View(d), key, val)
  {
    InsertIs(View(d), key, val, index);
    if ok {
      RecordWrittenView(d, written, key, val);
      SlotInsertedView(written, d', index, Start(d));
    }
  }

  const RECORD_DELETED := 1

  function WithFlag(flags: Byte): Byte {
    flags - flags % 2 + RECORD_DELETED
  }

  function Marked(d: Bytes, index: nat): Bytes
    requires Framed(d) && index < Count(d) && SlotAt(d, index) < PAGE_SIZE
  {
    d[SlotAt(d, index) := WithFlag(d[SlotAt(d, index)])]
  }

  // What page_delete does to the bytes, as what it does to the records.
  lemma {:induction false} DeleteFinish(d: Bytes, marked: Bytes, d': Bytes, key: Bytes, index: nat)
    requires PageOk(d) && Find(View(d).recs, key) == SearchResult(true, index)
    requires index < Count(d) && SlotAt(d, index) < PAGE_SIZE && marked == Marked(d, index) && Framed(marked)
      && index < Count(marked)
    requires SlotRemoved(marked, d', index)
    ensures PageOk(d') && Inserted(true, View(d')) == PageDelete(View(d), key)
  {
    FlagsView(d, index, WithFlag(d[SlotAt(d, index)]));
    SlotRemovedView(marked, d', index);
  }

  // The header keeps its fields, but for the count and the two ends of the free space.
  predicate HeaderKept(d: Bytes, d': Bytes) {
    |d| == |d'| && forall k: nat :: k < |d| && (k < 18 || 24 <= k < 40) ==> d'[k] == d[k]
  }

  lemma {:induction false} InsertHeader(d: Bytes, written: Bytes, d': Bytes, key: Bytes, val: Bytes, index: nat)
    requires Framed(d) && RecordWritten(d, written, key, val) && index <= Count(d)
    requires SlotInserted(written, d', index, Start(d))
    ensures HeaderKept(d, d')
  {
  }

  // The record that is dropped stays where it is; the lowest bit of its first byte says that it is deleted.
  predicate DroppedAt(d: Bytes, d': Bytes, off: nat) {
    off < |d| && |d'| == |d| && d'[off] % 2 == 1 && d'[off] / 2 == d[off] / 2
  }

  lemma {:induction false} DeleteHeader(d: Bytes, d': Bytes, index: nat)
    requires Framed(d) && index < Count(d) && HEADER_SIZE <= SlotAt(d, index) < Start(d)
    requires Framed(Marked(d, index)) && index < Count(Marked(d, index)) && SlotRemoved(Marked(d, index), d', index)
    ensures HeaderKept(d, d') && DroppedAt(d, d', SlotAt(d, index))
  {
    var marked := Marked(d, index);
    DirectoryKept(d, SlotAt(d, index), WithFlag(d[SlotAt(d, index)]));
    assert marked[SlotAt(d, index)] == WithFlag(d[SlotAt(d, index)]);
  }
}
