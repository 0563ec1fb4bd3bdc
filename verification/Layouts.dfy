// The formats of pages, rows and table definitions, byte by byte.
module Layouts {
  import opened Keys
  import P = PageView
  import B = PageBytes
  import R = RowCodec
  import S = SchemaCodec

  // Two bytes, the lower one first.
  function Word(d: Bytes, o: nat): int
    requires o + 2 <= |d|
  {
    var lo: int, hi: int := d[o], d[o + 1];
    lo + 256 * hi
  }

  function Word32(d: Bytes, o: nat): int
    requires o + 4 <= |d|
  {
    Word(d, o) + 65536 * Word(d, o + 2)
  }

  // A page has 2048 bytes: the number of records at byte 18, the start and the end of the free space at 20 and 22,
  // and at its end a slot for each record.
  lemma {:induction false} PageLayout(d: Bytes)
    requires B.PageOk(d)
    ensures |d| == 2048 && |B.View(d).recs| == Word(d, 18) && B.View(d).freeStart == Word(d, 20)
    ensures Word(d, 22) + 2 * Word(d, 18) == 2048 && 40 <= Word(d, 20) <= Word(d, 22)
  {
  }

  // A record has its flags in one byte, the lengths of key and value, the key and the value.
  lemma {:induction false} RecordLayout(d: Bytes, i: nat)
    requires B.PageOk(d) && i < |B.View(d).recs|
    ensures |d| == 2048 && Word(d, 18) > i && Word(d, 22) + 2 * Word(d, 18) == 2048
    ensures var off := Word(d, Word(d, 22) + 2 * i);
      && 40 <= off && off + 5 <= |d|
      && var k, v := Word(d, off + 1), Word(d, off + 3);
        && off + 5 + k + v <= Word(d, 20) <= 2048
        && B.View(d).recs[i] == P.Rec(d[off + 5..off + 5 + k], d[off + 5 + k..off + 5 + k + v])
  {
    assert B.Offsets(d)[i] == B.SlotAt(d, i);
    assert B.Inside(d, B.SlotAt(d, i));
  }

  // Each column begins with the number of its type.
  lemma {:induction false} ColumnLayout(t: R.ColumnType, v: R.Value)
    requires R.Typed(t, v)
    ensures var b := R.ColumnBytes(t, v);
      match t
      case INT => |b| == 5 && b[0] == 0 && Word32(b, 1) == (if v.n < 0 then v.n + 4294967296 else v.n)
      case FLOAT => b == [1] + v.bytes
      case DOUBLE => b == [2] + v.bytes
      case STRING =>
        && |b| == 3 + |v.text| % 65536 && b[0] == 3 && Word(b, 1) == |v.text| % 65536
        && b[3..] == v.text[..|v.text| % 65536]
      case BOOLEAN => b == [4, if v.b then 1 else 0]
      case DATETIME => b == [5, 0, 0, 0, 0, 0, 0, 0, 0]
  {
    if t == R.INT {
      var u := if v.n < 0 then v.n + 4294967296 else v.n;
      R.BytesOf(u);
    }
  }

  // How many bytes a column takes where the data have that many.
  function ColumnNeeds(t: R.ColumnType, data: Bytes): int
    requires data != []
  {
    match t
    case INT => 5
    case FLOAT => 5
    case DOUBLE => 9
    case STRING => if |data| < 3 then 3 else 3 + Word(data, 1)
    case BOOLEAN => 2
    case DATETIME => 9
  }

  function TypeNumber(t: R.ColumnType): int {
    match t
    case INT => 0
    case FLOAT => 1
    case DOUBLE => 2
    case STRING => 3
    case BOOLEAN => 4
    case DATETIME => 5
  }

  // A column is read exactly if its type's number comes first and enough bytes are there; what it says is what would
  // be written, but any byte but 0 is true, and a date is 0.
  lemma {:induction false} ColumnRead(t: R.ColumnType, data: Bytes)
    ensures R.DecodeColumn(t, data).Some? <==> data != [] && data[0] == TypeNumber(t) && ColumnNeeds(t, data) <= |data|
    ensures R.DecodeColumn(t, data).Some? ==> ReadBack(t, data, R.DecodeColumn(t, data).value.0)
    ensures R.DecodeColumn(t, data).Some? ==> R.DecodeColumn(t, data).value.1 == ColumnNeeds(t, data)
  {
    if R.DecodeColumn(t, data).Some? {
      match t
      case INT => IntRead(data);
      case STRING => TextRead(data);
      case FLOAT => assert data[..5] == [data[0]] + data[1..5];
      case DOUBLE => assert data[..9] == [data[0]] + data[1..9];
      case _ =>
    }
  }

  ghost predicate ReadBack(t: R.ColumnType, data: Bytes, v: R.Value)
    requires data != []
  {
    && R.Typed(t, v) && ColumnNeeds(t, data) <= |data|
    && match t
       case BOOLEAN => v.b == (data[1] != 0)
       case DATETIME => v == R.IntValue(0)
       case _ => data[..ColumnNeeds(t, data)] == R.ColumnBytes(t, v)
  }

  lemma {:induction false} IntRead(data: Bytes)
    requires R.DecodeColumn(R.INT, data).Some?
    ensures ReadBack(R.INT, data, R.DecodeColumn(R.INT, data).value.0)
  {
    IntWritten(data[1..5]);
    assert data[..5] == [data[0]] + data[1..5];
  }

  lemma {:induction false} TextRead(data: Bytes)
    requires R.DecodeColumn(R.STRING, data).Some?
    ensures ReadBack(R.STRING, data, R.DecodeColumn(R.STRING, data).value.0)
  {
    var n := Word(data, 1);
    var text := data[3..3 + n];
    assert |text| == n < 65536 && text[..n] == text;
    assert data[..3 + n] == [data[0]] + ([data[1], data[2]] + text);
  }

  lemma {:induction false} IntWritten(b: Bytes)
    requires |b| == 4
    ensures R.Typed(R.INT, R.IntValue(R.IntOf(b))) && R.IntBytes(R.IntOf(b)) == b
  {
    var b0: int, b1: int, b2: int, b3: int := b[0], b[1], b[2], b[3];
    var u := b0 + 256 * (b1 + 256 * (b2 + 256 * b3));
    assert u % 256 == b0 && u / 256 == b1 + 256 * (b2 + 256 * b3);
    assert u / 256 % 256 == b1 && u / 256 / 256 == b2 + 256 * b3;
    assert u / 65536 == u / 256 / 256 && u / 65536 % 256 == b2;
    assert u / 16777216 == b3;
  }

  // A row is its columns one after the other; its key is the column of the primary key.
  lemma {:induction false} RowLayout(s: R.Schema, row: R.Row)
    requires R.TypedRow(s.columns, row) && row != []
    ensures R.Encode(s.columns, row) == R.ColumnBytes(s.columns[0], row[0]) + R.Encode(s.columns[1..], row[1..])
    ensures R.EncodeKey(s, row) ==
      if 0 <= s.pkIndex < |row| then R.ColumnBytes(s.columns[s.pkIndex], row[s.pkIndex]) else []
  {
  }

  // A text in a table definition: its length and its bytes.
  ghost predicate TextAt(d: Bytes, o: nat, s: Bytes) {
    o + 2 + |s| <= |d| && Word(d, o) == |s| % 65536 && d[o + 2..o + 2 + |s|] == s
  }

  lemma {:induction false} TextLies(a: Bytes, s: Bytes, b: Bytes)
    ensures TextAt(a + S.Text(s) + b, |a|, s)
  {
    var d := a + S.Text(s) + b;
    var n := |s|;
    assert d[|a|] == S.Text(s)[0] == n % 256 && d[|a| + 1] == S.Text(s)[1] == n / 256 % 256;
    assert n % 65536 == n % 256 + 256 * (n / 256 % 256);
  }

  // A column of a table definition: its name, its type and its flags.
  lemma {:induction false} SchemaColumnLayout(c: S.Column)
    ensures var b, n, m := S.ColumnBytes(c), |c.name|, |c.dataType|;
      && |b| == 5 + n + m && TextAt(b, 0, c.name) && TextAt(b, 2 + n, c.dataType)
      && b[4 + n + m] == (if c.primaryKey then 1 else 0) + (if c.unique then 2 else 0) + (if c.notNull then 4 else 0)
  {
    var b := S.ColumnBytes(c);
    TextLies([], c.name, S.Text(c.dataType) + [S.Flags(c)]);
    assert [] + S.Text(c.name) + (S.Text(c.dataType) + [S.Flags(c)]) == b;
    TextLies(S.Text(c.name), c.dataType, [S.Flags(c)]);
  }

  // A table definition: the number of columns, the name of the table, and the columns.
  lemma {:induction false} SchemaLayout(t: S.Table)
    ensures var b := S.Serialize(t);
      && |b| >= 4 + |t.name| && Word(b, 0) == |t.columns| % 65536 && TextAt(b, 2, t.name)
      && b[4 + |t.name|..] == S.ColumnsBytes(t.columns)
  {
    var head := S.Length(|t.columns|);
    TextLies(head, t.name, S.ColumnsBytes(t.columns));
    var n := |t.columns|;
    assert n % 65536 == n % 256 + 256 * (n / 256 % 256);
  }
}
