// Tables of rows: the storage engine's insert, scan and record operations over a B+ tree.
module Relation {
  import opened Keys
  import opened PageView
  import opened PagedOps
  import opened PagedShape
  import opened PagedInsert
  import opened PagedDelete
  import opened PagedScan
  import opened PagedTree
  import C = RowCodec

  const UINT16_MAX := 65535

  // The row as it can be stored: it has a key, and key and value have 16-bit lengths.
  predicate Storable(schema: C.Schema, row: C.Row)
    requires |row| == |schema.columns| ==> C.TypedRow(schema.columns, row)
  {
    |row| == |schema.columns| && 0 < |C.EncodeKey(schema, row)| <= 65535
      && |C.Encode(schema.columns, row)| <= 65535
  }

  // The engine hands these to the tree, and the key is not there yet.
  predicate Fresh(key: Bytes, value: Bytes, model: map<Bytes, Bytes>) {
    0 < |key| <= 65535 && |value| <= 65535 && key !in model
  }

  // The engine deletes the record to insert it again.
  predicate Present(key: Bytes, value: Bytes, model: map<Bytes, Bytes>) {
    0 < |key| <= 65535 && |value| <= 65535 && key in model
  }

  // What an update answers, when it does what it is for, and what is left if not: the insertion is into mid.
  ghost predicate UpdateTold(before: Pages, root: nat, mid: Pages, midRoot: nat, midUsed: set<nat>, key: Bytes,
                             val: Bytes,
                             after: Pages, root': nat, ok: bool) {
    && (ok <==> Attempts(mid, midRoot, midUsed, key, val))
    && (Accepts(mid, midRoot, midUsed, key, val) <==>
      ok && Refines(before, root, after, root', key, val) && RootOk(midRoot, after, root'))
    && (!ok ==> forall k :: Lookup(after, root', k) ==
                            if k == key || CutOff(mid, midRoot, key, k) then None else Lookup(before, root, k))
  }

  lemma {:induction false} UpdateIs(before: Pages, root: nat, mid: Pages, midRoot: nat, midUsed: set<nat>, key: Bytes,
                                    val: Bytes,
                                    after: Pages, root': nat, ok: bool)
    requires Removes(before, root, mid, midRoot, key) && InsertTold(mid, midRoot, midUsed, key, val, after, root', ok)
    ensures UpdateTold(before, root, mid, midRoot, midUsed, key, val, after, root', ok)
  {
  }

  // The tree stores these rows, each under the bytes of its primary key.
  ghost predicate Holds(schema: C.Schema, model: map<Bytes, Bytes>, rows: map<Bytes, C.Row>) {
    model.Keys == rows.Keys && forall k :: k in rows ==> HeldAt(schema, k, model[k], rows[k])
  }

  ghost predicate HeldAt(schema: C.Schema, k: Bytes, v: Bytes, row: C.Row) {
    && C.TypedRow(schema.columns, row) && C.KeptRow(schema.columns, row) == row
    && k == C.EncodeKey(schema, row) && v == C.Encode(schema.columns, row)
  }

  // Storing a row keeps of it what its bytes keep.
  lemma {:induction false} HeldRow(schema: C.Schema, row: C.Row)
    requires C.TypedRow(schema.columns, row)
    ensures HeldAt(schema, C.EncodeKey(schema, row), C.Encode(schema.columns, row), C.KeptRow(schema.columns, row))
  {
    C.KeptSame(schema.columns, row);
    if 0 <= schema.pkIndex < |schema.columns| {
      C.ValueKeptSame(schema.columns[schema.pkIndex], row[schema.pkIndex]);
    }
  }

  lemma {:induction false} HoldsMore(schema: C.Schema, model: map<Bytes, Bytes>, rows: map<Bytes, C.Row>, row: C.Row)
    requires Holds(schema, model, rows) && C.TypedRow(schema.columns, row)
    ensures Holds(schema, model[C.EncodeKey(schema, row) := C.Encode(schema.columns, row)],
      rows[C.EncodeKey(schema, row) := C.KeptRow(schema.columns, row)])
  {
    HeldRow(schema, row);
  }

  lemma {:induction false} HoldsLess(schema: C.Schema, model: map<Bytes, Bytes>, rows: map<Bytes, C.Row>, key: Bytes)
    requires Holds(schema, model, rows)
    ensures Holds(schema, model - {key}, rows - {key})
  {
  }

  // Reading a record back gives its row.
  lemma {:induction false} ReadRow(schema: C.Schema, k: Bytes, v: Bytes, row: C.Row)
    requires HeldAt(schema, k, v, row)
    ensures C.Decode(schema.columns, v) == C.Some(row)
  {
    C.RowBack(schema.columns, row, []);
    assert v + [] == v;
  }

  ghost predicate ReadsAs(schema: C.Schema, r: Rec, rows: map<Bytes, C.Row>) {
    r.key in rows && |rows[r.key]| == |schema.columns| && C.Decode(schema.columns, r.val) == C.Some(rows[r.key])
  }

  // A scan of everything finds the rows, each under its key.
  lemma {:induction false} ReadAll(schema: C.Schema, model: map<Bytes, Bytes>, rows: map<Bytes, C.Row>,
                                   records: seq<Rec>)
    requires Holds(schema, model, rows) && Lists(records, model, [], [])
    ensures SortedKeys(KeysOf(records)) && forall k :: k in rows ==> k in KeysOf(records)
    ensures forall j :: 0 <= j < |records| ==> ReadsAs(schema, records[j], rows)
  {
    forall j | 0 <= j < |records| ensures ReadsAs(schema, records[j], rows) {
      var r := records[j];
      assert r in records;
      assert HeldAt(schema, r.key, model[r.key], rows[r.key]);
      ReadRow(schema, r.key, r.val, rows[r.key]);
    }
    forall k | k in rows ensures k in KeysOf(records) {
      assert Rec(k, model[k]) in records;
      var j :| 0 <= j < |records| && records[j] == Rec(k, model[k]);
      assert KeysOf(records)[j] == k;
    }
  }

  lemma {:induction false} AscendingCount(keys: seq<Bytes>, all: set<Bytes>)
    requires SortedKeys(keys) && forall k :: k in keys <==> k in all
    ensures |keys| == |all|
  {
    if keys != [] {
      var last := keys[|keys| - 1];
      var front := keys[..|keys| - 1];
      Irreflexive(last);
      assert keys == front + [last];
      AscendingCount(front, all - {last});
    }
  }

  lemma {:induction false} RowsListed(keys: seq<Bytes>, result: seq<C.Row>, rows: map<Bytes, C.Row>)
    requires SortedKeys(keys) && |keys| == |result| && forall k :: k in rows ==> k in keys
    requires forall i :: 0 <= i < |keys| ==> keys[i] in rows && result[i] == rows[keys[i]]
    ensures |result| == |rows| && forall row :: row in result <==> row in rows.Values
  {
    AscendingCount(keys, rows.Keys);
    forall row ensures row in result <==> row in rows.Values {
      if row in rows.Values {
        var k :| k in rows && rows[k] == row;
        var i :| 0 <= i < |keys| && keys[i] == k;
        assert result[i] == row;
      }
    }
  }

  // The rows read are the rows stored, each under its key.
  ghost predicate ScannedRows(keys: seq<Bytes>, result: seq<C.Row>, rows: map<Bytes, C.Row>) {
    && |keys| == |result| && SortedKeys(keys)
    && (forall i :: 0 <= i < |keys| ==> keys[i] in rows && result[i] == rows[keys[i]])
    && (forall k :: k in rows ==> k in keys)
    && |result| == |rows| && forall row :: row in result <==> row in rows.Values
  }

  lemma {:induction false} RowsFound(schema: C.Schema, model: map<Bytes, Bytes>, rows: map<Bytes, C.Row>,
                                     records: seq<Rec>, result: seq<C.Row>)
    requires Holds(schema, model, rows) && Lists(records, model, [], []) && |result| == |records|
    requires forall j :: 0 <= j < |records| ==> records[j].key in rows && result[j] == rows[records[j].key]
    ensures ScannedRows(KeysOf(records), result, rows)
  {
    ReadAll(schema, model, rows, records);
    RowsListed(KeysOf(records), result, rows);
  }

  class RelationalTable {
    const handle: TableHandle
    const schema: C.Schema
    ghost var rows: map<Bytes, C.Row>

    ghost predicate Valid()
      reads this, handle, handle.bm.bits, handle.pool
    {
      handle.Valid() && Holds(schema, handle.Model(), rows)
    }

    constructor (schema: C.Schema, frames: nat)
      requires frames >= 2
      ensures Valid() && rows == map[] && this.schema == schema && fresh(handle) && fresh(handle.bm.bits)
        && fresh(handle.pool)
    {
      handle := new TableHandle(frames);
      this.schema := schema;
      rows := map[];
    }

    method InsertRecord(key: Bytes, value: Bytes) returns (ok: bool)
      requires handle.Valid()
      modifies handle, handle.bm.bits, handle.pool
      ensures !Fresh(key, value, old(handle.Model())) ==> !ok && handle.Valid() && handle.Model() == old(handle.Model())
      ensures Fresh(key, value, old(handle.Model())) ==>
        (ok <==> Attempts(old(handle.pages), old(handle.rootPage), old(handle.bm.Used()), key, value))
      ensures Fresh(key, value, old(handle.Model()))
               && Accepts(old(handle.pages), old(handle.rootPage), old(handle.bm.Used()), key, value) ==>
        ok && handle.Valid() && handle.Model() == old(handle.Model())[key := value]
      ensures Fresh(key, value, old(handle.Model())) ==>
        (Accepts(old(handle.pages), old(handle.rootPage), old(handle.bm.Used()), key, value) <==>
          && ok && Refines(old(handle.pages), old(handle.rootPage), handle.pages, handle.rootPage, key, value)
          && RootOk(old(handle.rootPage), handle.pages, handle.rootPage))
    {
      if key == [] || |key| > UINT16_MAX || |value| > UINT16_MAX {
        return false;
      }
      ok := handle.BtreeInsert(key, value);
    }

    // A row is stored once for each primary key; of what is stored, the row as its bytes keep it.
    method Insert(row: C.Row) returns (ok: bool)
      requires Valid()
      requires |row| == |schema.columns| ==> C.TypedRow(schema.columns, row)
      modifies this, handle, handle.bm.bits, handle.pool
      ensures !IsNew(row, old(rows)) ==> !ok && Valid() && rows == old(rows)
      ensures IsNew(row, old(rows))
               && Accepts(old(handle.pages), old(handle.rootPage), old(handle.bm.Used()), KeyOf(row), ValueOf(row)) ==>
        ok && Valid() && rows == old(rows)[KeyOf(row) := C.KeptRow(schema.columns, row)]
      ensures IsNew(row, old(rows)) ==>
        (Accepts(old(handle.pages), old(handle.rootPage), old(handle.bm.Used()), KeyOf(row), ValueOf(row)) <==>
          && ok && Refines(old(handle.pages), old(handle.rootPage), handle.pages, handle.rootPage, KeyOf(row),
            ValueOf(row))
          && RootOk(old(handle.rootPage), handle.pages, handle.rootPage))
    {
      var key := KeyOf(row);
      var value := C.EncodeRow(schema.columns, row);
      if key == [] || value == [] {
        return false;
      }
      ghost var accepted := Accepts(handle.pages, handle.rootPage, handle.bm.Used(), key, value);
      ok := InsertRecord(key, value);
      if ok && accepted {
        HoldsMore(schema, old(handle.Model()), rows, row);
        rows := rows[key := C.KeptRow(schema.columns, row)];
      }
    }

    function KeyOf(row: C.Row): Bytes
      requires |row| == |schema.columns| ==> C.TypedRow(schema.columns, row)
    {
      if |row| == |schema.columns| then C.EncodeKey(schema, row) else []
    }

    function ValueOf(row: C.Row): Bytes
      requires |row| == |schema.columns| ==> C.TypedRow(schema.columns, row)
    {
      if |row| == |schema.columns| then C.Encode(schema.columns, row) else []
    }

    ghost predicate IsNew(row: C.Row, rows: map<Bytes, C.Row>)
      requires |row| == |schema.columns| ==> C.TypedRow(schema.columns, row)
    {
      Storable(schema, row) && KeyOf(row) !in rows
    }

    // Every stored row once, in the order of the keys.
    method Scan() returns (result: seq<C.Row>, ghost keys: seq<Bytes>)
      requires Valid()
      modifies handle.pool
      ensures Valid()
      ensures ScannedRows(keys, result, rows)
    {
      var records := handle.BtreeRangeScan([], []);
      ReadAll(schema, handle.Model(), rows, records);
      result := DecodeAll(records, rows);
      keys := KeysOf(records);
      RowsFound(schema, handle.Model(), rows, records, result);
    }

    method DecodeAll(records: seq<Rec>, ghost all: map<Bytes, C.Row>) returns (result: seq<C.Row>)
      requires forall j :: 0 <= j < |records| ==> ReadsAs(schema, records[j], all)
      ensures |result| == |records| && forall j :: 0 <= j < |records| ==>
        records[j].key in all && result[j] == all[records[j].key]
    {
      result := [];
      var i := 0;
      while i < |records|
        invariant i <= |records| && |result| == i
        invariant forall j :: 0 <= j < i ==> records[j].key in all && result[j] == all[records[j].key]
      {
        assert ReadsAs(schema, records[i], all);
        var row := C.DecodeRow(schema.columns, records[i].val);
        if |row| == |schema.columns| {
          result := result + [row];
        }
        i := i + 1;
      }
    }

    method GetRecord(key: Bytes) returns (value: Option<Bytes>)
      requires Valid()
      modifies handle.pool
      ensures Valid()
      ensures value == if 0 < |key| <= 65535 && key in rows
        then Some(C.Encode(schema.columns, rows[key])) else None
    {
      if key == [] || |key| > UINT16_MAX {
        return None;
      }
      value := handle.BtreeSearch(key);
    }

    // A record deleted and inserted again with the new value; mid is what the deletion leaves.  The record is gone
    // when the insertion is refused, and the new one is stored exactly when the insertion into mid is accepted.
    method UpdateRecord(key: Bytes, value: Bytes)
      returns (ok: bool, ghost mid: Pages, ghost midRoot: nat, ghost midUsed: set<nat>)
      requires handle.Valid()
      requires Present(key, value, handle.Model()) ==> !DropsLast(handle.pages, handle.rootPage, key)
      modifies handle, handle.bm.bits, handle.pool
      ensures !Present(key, value, old(handle.Model())) ==>
        !ok && handle.Valid() && handle.Model() == old(handle.Model())
      ensures Present(key, value, old(handle.Model())) ==>
        Removes(old(handle.pages), old(handle.rootPage), mid, midRoot, key)
      ensures Present(key, value, old(handle.Model())) ==>
        UpdateTold(old(handle.pages), old(handle.rootPage), mid, midRoot, midUsed, key, value, handle.pages,
          handle.rootPage, ok)
      ensures Present(key, value, old(handle.Model())) && Accepts(mid, midRoot, midUsed, key, value) ==>
        handle.Valid() && handle.Model() == old(handle.Model())[key := value]
    {
      mid, midRoot, midUsed := handle.pages, handle.rootPage, handle.bm.Used();
      if key == [] || |key| > UINT16_MAX || |value| > UINT16_MAX {
        return false, mid, midRoot, midUsed;
      }
      ghost var was := handle.Model();
      assert (was - {key})[key := value] == was[key := value];
      ok := DeleteBytes(key);
      if ok {
        mid, midRoot, midUsed := handle.pages, handle.rootPage, handle.bm.Used();
        ok := InsertAnew(old(handle.pages), old(handle.rootPage), key, value);
      }
    }

    method DeleteBytes(key: Bytes) returns (ok: bool)
      requires handle.Valid()
      modifies handle, handle.bm.bits, handle.pool
      ensures ok == (key in old(handle.Model()))
      ensures ok ==> Removes(old(handle.pages), old(handle.rootPage), handle.pages, handle.rootPage, key)
      ensures ok && !DropsLast(old(handle.pages), old(handle.rootPage), key) ==>
        handle.Valid() && handle.Model() == old(handle.Model()) - {key}
      ensures !ok ==> handle.Valid() && handle.Model() == old(handle.Model())
    {
      ok := handle.BtreeDelete(key);
    }

    // The second half of an update.
    method InsertAnew(ghost before: Pages, ghost root: nat, key: Bytes, value: Bytes) returns (ok: bool)
      requires handle.Valid() && |key| > 0 && key !in handle.Model()
        && Removes(before, root, handle.pages, handle.rootPage, key)
      modifies handle, handle.bm.bits, handle.pool
      ensures UpdateTold(before, root, old(handle.pages), old(handle.rootPage), old(handle.bm.Used()), key, value,
        handle.pages, handle.rootPage, ok)
      ensures Accepts(old(handle.pages), old(handle.rootPage), old(handle.bm.Used()), key, value) ==>
        handle.Valid() && handle.Model() == old(handle.Model())[key := value]
    {
      ok := handle.BtreeInsert(key, value);
      UpdateIs(before, root, old(handle.pages), old(handle.rootPage), old(handle.bm.Used()), key, value, handle.pages,
        handle.rootPage, ok);
    }

    // The last row below an internal node goes, too, but the tree is no longer one to insert into.
    method DeleteRecord(key: Bytes) returns (ok: bool)
      requires Valid()
      modifies this, handle, handle.bm.bits, handle.pool
      ensures ok == (0 < |key| <= 65535 && key in old(rows))
      ensures !ok ==> Valid() && rows == old(rows)
      ensures ok ==> rows == old(rows) - {key}
                     && Removes(old(handle.pages), old(handle.rootPage), handle.pages, handle.rootPage, key)
      ensures ok && !DropsLast(old(handle.pages), old(handle.rootPage), key) ==> Valid()
    {
      if key == [] || |key| > UINT16_MAX {
        return false;
      }
      HoldsLess(schema, handle.Model(), rows, key);
      ok := DeleteBytes(key);
      if ok {
        rows := rows - {key};
      }
    }
  }
}
