// Rows as bytes: each column is a tag and the bytes of its value.
module RowCodec {
  import opened Keys

  const U16 := 0x1_0000
  const INT_MIN := -0x8000_0000
  const INT_MAX := 0x7FFF_FFFF

  datatype Option<+T> = None | Some(value: T)

  datatype ColumnType = INT | FLOAT | DOUBLE | STRING | BOOLEAN | DATETIME

  // Floating-point numbers are their bytes.
  datatype Value = IntValue(n: int) | FloatValue(bytes: Bytes) | DoubleValue(bytes: Bytes)
    | StringValue(text: Bytes) | BoolValue(b: bool)

  type Row = seq<Value>

  datatype Schema = Schema(pkIndex: int, columns: seq<ColumnType>)

  // A value of the column's type.  Nothing is asked of the value of a DATETIME column.
  predicate Typed(t: ColumnType, v: Value) {
    match t
    case INT => v.IntValue? && INT_MIN <= v.n <= INT_MAX
    case FLOAT => v.FloatValue? && |v.bytes| == 4
    case DOUBLE => v.DoubleValue? && |v.bytes| == 8
    case STRING => v.StringValue?
    case BOOLEAN => v.BoolValue?
    case DATETIME => true
  }

  predicate TypedRow(columns: seq<ColumnType>, row: Row) {
    |row| == |columns| && forall i :: 0 <= i < |row| ==> Typed(columns[i], row[i])
  }

  function Tag(t: ColumnType): Byte {
    match t
    case INT => 0
    case FLOAT => 1
    case DOUBLE => 2
    case STRING => 3
    case BOOLEAN => 4
    case DATETIME => 5
  }

  // Four bytes, least first, of a number in two's complement.
  function IntBytes(n: int): (r: Bytes)
    requires INT_MIN <= n <= INT_MAX
    ensures |r| == 4
  {
    var u := if n < 0 then n + 0x1_0000_0000 else n;
    [u % 256, u / 256 % 256, u / 65536 % 256, u / 16777216]
  }

  function IntOf(b: Bytes): int
    requires |b| == 4
  {
    var b0: int, b1: int, b2: int, b3: int := b[0], b[1], b[2], b[3];
    var u := b0 + 256 * b1 + 65536 * b2 + 16777216 * b3;
    if u > INT_MAX then u - 0x1_0000_0000 else u
  }

  // append_column.  Of a string only as many bytes are written as its length, cut to 16 bits, says.
  function ColumnBytes(t: ColumnType, v: Value): (r: Bytes)
    requires Typed(t, v)
    ensures |r| > 0
  {
    [Tag(t)] + match t
      case INT => IntBytes(v.n)
      case FLOAT => v.bytes
      case DOUBLE => v.bytes
      case STRING => var n := |v.text| % U16; [n % 256, n / 256] + v.text[..n]
      case BOOLEAN => [if v.b then 1 else 0]
      case DATETIME => Zeros(8)
  }

  // encode: nothing for a row of another length.
  function Encode(columns: seq<ColumnType>, row: Row): Bytes
    requires TypedRow(columns, row)
  {
    if columns == [] then [] else ColumnBytes(columns[0], row[0]) + Encode(columns[1..], row[1..])
  }

  // encode_key.
  function EncodeKey(s: Schema, row: Row): Bytes
    requires TypedRow(s.columns, row)
  {
    if s.pkIndex < 0 || s.pkIndex >= |s.columns| then [] else ColumnBytes(s.columns[s.pkIndex], row[s.pkIndex])
  }

  // One column at the start of the data, and how many bytes it took.
  function DecodeColumn(t: ColumnType, data: Bytes): (r: Option<(Value, nat)>)
    ensures r.Some? ==> r.value.1 <= |data|
  {
    if data == [] || data[0] != Tag(t) then None
    else match t
      case INT => if |data| < 5 then None else Some((IntValue(IntOf(data[1..5])), 5))
      case FLOAT => if |data| < 5 then None else Some((FloatValue(data[1..5]), 5))
      case DOUBLE => if |data| < 9 then None else Some((DoubleValue(data[1..9]), 9))
      case STRING =>
        if |data| < 3 then None
        else
          var lo: int, hi: int := data[1], data[2];
          var n := lo + 256 * hi;
          if |data| < 3 + n then None else Some((StringValue(data[3..3 + n]), 3 + n))
      case BOOLEAN => if |data| < 2 then None else Some((BoolValue(data[1] != 0), 2))
      case DATETIME => if |data| < 9 then None else Some((IntValue(0), 9))
  }

  // decode, with an empty row for data it does not accept.
  function Decode(columns: seq<ColumnType>, data: Bytes): Option<Row> {
    if columns == [] then Some([])
    else match DecodeColumn(columns[0], data)
      case None => None
      case Some(first) =>
        Joined([first.0], Decode(columns[1..], data[first.1..]))
  }

  function Joined(row: Row, rest: Option<Row>): Option<Row> {
    if rest.None? then None else Some(row + rest.value)
  }

  lemma {:induction false} JoinedTwice(row: Row, v: Value, rest: Option<Row>)
    ensures Joined(row, Joined([v], rest)) == Joined(row + [v], rest)
    ensures Joined([], rest) == rest
    ensures Joined(row, Some([])) == Some(row)
  {
    assert row + [] == row;
    if rest.Some? {
      assert row + ([v] + rest.value) == row + [v] + rest.value && [] + rest.value == rest.value;
    }
  }

  // What of a value survives.
  function Kept(t: ColumnType, v: Value): Value
    requires Typed(t, v)
  {
    match t
    case STRING => StringValue(v.text[..|v.text| % U16])
    case DATETIME => IntValue(0)
    case _ => v
  }

  function KeptRow(columns: seq<ColumnType>, row: Row): Row
    requires TypedRow(columns, row)
  {
    seq(|row|, i requires 0 <= i < |row| => Kept(columns[i], row[i]))
  }

  // A value that can be got back.
  predicate Exact(t: ColumnType, v: Value) {
    Typed(t, v) && (t == STRING ==> |v.text| < U16) && (t == DATETIME ==> v == IntValue(0))
  }

  lemma {:induction false} KeptExact(t: ColumnType, v: Value)
    requires Typed(t, v)
    ensures Kept(t, v) == v <==> Exact(t, v)
  {
    if t == STRING && |v.text| >= U16 {
      assert |v.text[..|v.text| % U16]| < U16;
    }
  }

  lemma {:induction false} BytesOf(u: nat)
    ensures u == u % 256 + 256 * (u / 256 % 256) + 65536 * (u / 65536 % 256) + 16777216 * (u / 16777216)
  {
    var q := u / 256;
    var s := q / 256;
    assert u == 256 * q + u % 256 && q == 256 * s + q % 256 && s == 256 * (s / 256) + s % 256;
    assert u / 65536 == s by { assert 65536 * s <= u < 65536 * (s + 1); }
    assert u / 16777216 == s / 256 by { assert 16777216 * (s / 256) <= u < 16777216 * (s / 256 + 1); }
  }

  lemma {:induction false} IntBack(n: int)
    requires INT_MIN <= n <= INT_MAX
    ensures IntOf(IntBytes(n)) == n
  {
    var u := if n < 0 then n + 0x1_0000_0000 else n;
    BytesOf(u);
  }

  lemma {:induction false} ColumnBack(t: ColumnType, v: Value, suffix: Bytes)
    requires Typed(t, v)
    ensures DecodeColumn(t, ColumnBytes(t, v) + suffix) == Some((Kept(t, v), |ColumnBytes(t, v)|))
  {
    var b := ColumnBytes(t, v);
    var data := b + suffix;
    assert data[1..|b|] == b[1..];
    match t
    case INT =>
      IntBack(v.n);
    case STRING =>
      var n := |v.text| % U16;
      assert b[1] == n % 256 && b[2] == n / 256;
      assert data[3..3 + n] == b[3..3 + n] == v.text[..n];
    case _ =>
  }

  lemma {:induction false} DecodeFirst(columns: seq<ColumnType>, v: Value, b: Bytes, rest: Bytes)
    requires columns != [] && DecodeColumn(columns[0], b + rest) == Some((v, |b|))
    ensures Decode(columns, b + rest) == Joined([v], Decode(columns[1..], rest))
  {
    assert (b + rest)[|b|..] == rest;
  }

  lemma {:induction false} EncodeFirst(columns: seq<ColumnType>, row: Row, suffix: Bytes)
    requires TypedRow(columns, row) && columns != []
    ensures Encode(columns, row) + suffix == ColumnBytes(columns[0], row[0]) + (Encode(columns[1..], row[1..]) + suffix)
  {
  }

  // Decoding gives back of each column what survives, whatever follows.
  lemma {:induction false} RowBack(columns: seq<ColumnType>, row: Row, suffix: Bytes)
    requires TypedRow(columns, row)
    ensures Decode(columns, Encode(columns, row) + suffix) == Some(KeptRow(columns, row))
  {
    if columns != [] {
      EncodeFirst(columns, row, suffix);
      var rest := Encode(columns[1..], row[1..]) + suffix;
      ColumnBack(columns[0], row[0], rest);
      DecodeFirst(columns, Kept(columns[0], row[0]), ColumnBytes(columns[0], row[0]), rest);
      RowBack(columns[1..], row[1..], suffix);
      assert KeptRow(columns, row) == [Kept(columns[0], row[0])] + KeptRow(columns[1..], row[1..]);
    }
  }

  // A row is written as what survives of it, and that survives.
  lemma {:induction false} KeptSame(columns: seq<ColumnType>, row: Row)
    requires TypedRow(columns, row)
    ensures TypedRow(columns, KeptRow(columns, row)) && Encode(columns, KeptRow(columns, row)) == Encode(columns, row)
    ensures KeptRow(columns, KeptRow(columns, row)) == KeptRow(columns, row)
  {
    var kept := KeptRow(columns, row);
    forall i | 0 <= i < |row| ensures Typed(columns[i], kept[i]) && Kept(columns[i], kept[i]) == kept[i] {
      ValueKeptSame(columns[i], row[i]);
    }
    if columns != [] {
      ValueKeptSame(columns[0], row[0]);
      KeptSame(columns[1..], row[1..]);
      assert kept[1..] == KeptRow(columns[1..], row[1..]);
    }
  }

  lemma {:induction false} ValueKeptSame(t: ColumnType, v: Value)
    requires Typed(t, v)
    ensures Typed(t, Kept(t, v)) && Kept(t, Kept(t, v)) == Kept(t, v) && ColumnBytes(t, Kept(t, v)) == ColumnBytes(t, v)
  {
    if t == STRING {
      var n := |v.text| % U16;
      assert |v.text[..n]| == n && v.text[..n][..n] == v.text[..n];
    }
  }

  // Exactly the rows without long strings and without dates other than 0 come back as they were.
  lemma {:induction false} RoundTrip(columns: seq<ColumnType>, row: Row, suffix: Bytes)
    requires TypedRow(columns, row)
    ensures Decode(columns, Encode(columns, row) + suffix) == Some(row) <==>
      forall i :: 0 <= i < |row| ==> Exact(columns[i], row[i])
  {
    RowBack(columns, row, suffix);
    var kept := KeptRow(columns, row);
    forall i | 0 <= i < |row| ensures kept[i] == row[i] <==> Exact(columns[i], row[i]) {
      KeptExact(columns[i], row[i]);
    }
    if forall i :: 0 <= i < |row| ==> Exact(columns[i], row[i]) {
      assert kept == row;
    }
  }

  // Rows with one key have one primary key value, as far as it survives.
  lemma {:induction false} KeyInjective(s: Schema, a: Row, b: Row)
    requires TypedRow(s.columns, a) && TypedRow(s.columns, b) && 0 <= s.pkIndex < |s.columns|
    ensures EncodeKey(s, a) == EncodeKey(s, b) <==>
      Kept(s.columns[s.pkIndex], a[s.pkIndex]) == Kept(s.columns[s.pkIndex], b[s.pkIndex])
  {
    var t := s.columns[s.pkIndex];
    ColumnBack(t, a[s.pkIndex], []);
    ColumnBack(t, b[s.pkIndex], []);
    assert ColumnBytes(t, a[s.pkIndex]) + [] == ColumnBytes(t, a[s.pkIndex]);
    assert ColumnBytes(t, b[s.pkIndex]) + [] == ColumnBytes(t, b[s.pkIndex]);
    ValueKeptSame(t, a[s.pkIndex]);
    ValueKeptSame(t, b[s.pkIndex]);
  }

  method AppendColumn(result: Bytes, t: ColumnType, v: Value) returns (r: Bytes)
    requires Typed(t, v)
    ensures r == result + ColumnBytes(t, v)
  {
    match t
    case INT => r := result + [Tag(INT)] + IntBytes(v.n);
    case FLOAT => r := result + [Tag(FLOAT)] + v.bytes;
    case DOUBLE => r := result + [Tag(DOUBLE)] + v.bytes;
    case STRING =>
      var n := |v.text| % U16;
      r := result + [Tag(STRING)];
      r := r + [n % 256, n / 256];
      r := r + v.text[..n];
      assert r == result + ([Tag(STRING)] + ([n % 256, n / 256] + v.text[..n]));
    case BOOLEAN => r := result + [Tag(BOOLEAN)] + [if v.b then 1 else 0];
    case DATETIME => r := result + [Tag(DATETIME)] + Zeros(8);
  }

  lemma {:induction false} EncodeStep(columns: seq<ColumnType>, row: Row, i: nat, r: Bytes)
    requires TypedRow(columns, row) && i < |columns|
    ensures r + Encode(columns[i..], row[i..]) ==
      r + ColumnBytes(columns[i], row[i]) + Encode(columns[i + 1..], row[i + 1..])
  {
    assert columns[i..][1..] == columns[i + 1..] && row[i..][1..] == row[i + 1..];
  }

  method EncodeRow(columns: seq<ColumnType>, row: Row) returns (r: Bytes)
    requires |row| == |columns| ==> TypedRow(columns, row)
    ensures r == if |row| == |columns| then Encode(columns, row) else []
  {
    r := [];
    if |row| != |columns| {
      return;
    }
    var i := 0;
    ghost var whole := Encode(columns, row);
    assert columns[0..] == columns && row[0..] == row;
    while i < |columns|
      invariant i <= |columns| && r + Encode(columns[i..], row[i..]) == whole
    {
      EncodeStep(columns, row, i, r);
      r := AppendColumn(r, columns[i], row[i]);
      i := i + 1;
    }
    assert r + [] == r;
  }

  // What is left to decode once i columns have taken p bytes.
  ghost predicate DecodedTo(columns: seq<ColumnType>, data: Bytes, i: nat, p: nat, row: Row)
    requires i <= |columns| && p <= |data|
  {
    Decode(columns, data) == Joined(row, Decode(columns[i..], data[p..]))
  }

  // The first of the columns left.
  lemma {:induction false} JoinedFirst(columns: seq<ColumnType>, data: Bytes, row: Row, c: Option<(Value, nat)>)
    requires columns != [] && c == DecodeColumn(columns[0], data)
    ensures Joined(row, Decode(columns, data)) ==
      if c.None? then None else Joined(row + [c.value.0], Decode(columns[1..], data[c.value.1..]))
  {
    if c.Some? {
      JoinedTwice(row, c.value.0, Decode(columns[1..], data[c.value.1..]));
    }
  }

  lemma {:induction false} DecodeStep(columns: seq<ColumnType>, data: Bytes, i: nat, p: nat, row: Row,
                                      c: Option<(Value, nat)>)
    requires i < |columns| && p <= |data| && DecodedTo(columns, data, i, p, row)
    requires c == DecodeColumn(columns[i], data[p..])
    ensures if c.None? then Decode(columns, data) == None
            else DecodedTo(columns, data, i + 1, p + c.value.1, row + [c.value.0])
  {
    JoinedFirst(columns[i..], data[p..], row, c);
    assert columns[i..][1..] == columns[i + 1..];
    if c.Some? {
      assert data[p..][c.value.1..] == data[p + c.value.1..];
    }
  }

  lemma {:induction false} DecodeStart(columns: seq<ColumnType>, data: Bytes)
    ensures DecodedTo(columns, data, 0, 0, [])
  {
    assert columns[0..] == columns && data[0..] == data;
    JoinedTwice([], IntValue(0), Decode(columns, data));
  }

  lemma {:induction false} DecodeEnd(columns: seq<ColumnType>, data: Bytes, p: nat, row: Row)
    requires p <= |data| && DecodedTo(columns, data, |columns|, p, row)
    ensures Decode(columns, data) == Some(row)
  {
    JoinedTwice(row, IntValue(0), Some([]));
  }

  method DecodeRow(columns: seq<ColumnType>, data: Bytes) returns (row: Row)
    ensures row == match Decode(columns, data) case Some(r) => r case None => []
  {
    row := [];
    var p: nat, i: nat := 0, 0;
    DecodeStart(columns, data);
    while i < |columns|
      invariant i <= |columns| && p <= |data| && DecodedTo(columns, data, i, p, row)
    {
      var c := DecodeColumn(columns[i], data[p..]);
      DecodeStep(columns, data, i, p, row, c);
      if c.None? {
        return [];
      }
      row := row + [c.value.0];
      p := p + c.value.1;
      i := i + 1;
    }
    DecodeEnd(columns, data, p, row);
  }
}
