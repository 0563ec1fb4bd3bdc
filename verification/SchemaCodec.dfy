// Table definitions as bytes.
module SchemaCodec {
  import opened Keys

  const U16 := 0x1_0000

  datatype Option<+T> = None | Some(value: T)

  datatype Column = Column(name: Bytes, dataType: Bytes, primaryKey: bool, unique: bool, notNull: bool,
    autoIncrement: bool)

  datatype Table = Table(name: Bytes, columns: seq<Column>)

  // A length as two bytes, the lower one first.
  function Length(n: nat): (r: Bytes)
    ensures |r| == 2
  {
    [n % 256, n / 256 % 256]
  }

  function LengthOf(d: Bytes): nat
    requires |d| >= 2
  {
    var lo: int, hi: int := d[0], d[1];
    lo + 256 * hi
  }

  // The string is written in full, whatever its length field can hold.
  function Text(s: Bytes): (r: Bytes)
    ensures |r| == 2 + |s|
  {
    Length(|s|) + s
  }

  function Flags(c: Column): Byte {
    (if c.primaryKey then 1 else 0) + (if c.unique then 2 else 0) + (if c.notNull then 4 else 0)
  }

  function ColumnBytes(c: Column): (r: Bytes)
    ensures |r| == 5 + |c.name| + |c.dataType|
  {
    Text(c.name) + Text(c.dataType) + [Flags(c)]
  }

  function ColumnsBytes(cs: seq<Column>): Bytes {
    if cs == [] then [] else ColumnBytes(cs[0]) + ColumnsBytes(cs[1..])
  }

  // serialize_schema.
  function Serialize(t: Table): Bytes {
    Length(|t.columns|) + Text(t.name) + ColumnsBytes(t.columns)
  }

  // A string with its length, and what follows.
  function TextOf(d: Bytes): Option<(Bytes, Bytes)> {
    if |d| < 2 || |d| < 2 + LengthOf(d) then None
    else Some((d[2..2 + LengthOf(d)], d[2 + LengthOf(d)..]))
  }

  function FlagSet(flags: Byte, mask: int): bool
    requires mask == 1 || mask == 2 || mask == 4
  {
    flags / mask % 2 == 1
  }

  function ColumnOf(d: Bytes): Option<(Column, Bytes)> {
    match TextOf(d)
    case None => None
    case Some((name, rest)) =>
      match TextOf(rest)
      case None => None
      case Some((dataType, last)) =>
        if last == [] then None
        else Some((Column(name, dataType, FlagSet(last[0], 1), FlagSet(last[0], 2), FlagSet(last[0], 4), false),
             last[1..]))
  }

  // As many columns as announced, and nothing after them.
  function ColumnsOf(n: nat, d: Bytes): Option<seq<Column>> {
    if n == 0 then (if d == [] then Some([]) else None)
    else match ColumnOf(d)
      case None => None
      case Some((c, rest)) =>
        match ColumnsOf(n - 1, rest)
        case None => None
        case Some(cs) => Some([c] + cs)
  }

  // deserialize_schema.
  function Deserialize(d: Bytes): Option<Table> {
    if |d| < 4 then None
    else match TextOf(d[2..])
      case None => None
      case Some((name, rest)) =>
        match ColumnsOf(LengthOf(d), rest)
        case None => None
        case Some(cs) => Some(Table(name, cs))
  }

  // AUTO_INCREMENT is not written.
  function Remembered(t: Table): Table {
    Table(t.name, seq(|t.columns|, i requires 0 <= i < |t.columns| => t.columns[i].(autoIncrement := false)))
  }

  lemma {:induction false} LengthBack(n: nat, rest: Bytes)
    requires n < U16
    ensures LengthOf(Length(n) + rest) == n
  {
  }

  lemma {:induction false} TextBack(s: Bytes, rest: Bytes)
    requires |s| < U16
    ensures TextOf(Text(s) + rest) == Some((s, rest))
  {
    var d := Text(s) + rest;
    assert d == Length(|s|) + (s + rest);
    LengthBack(|s|, s + rest);
    assert d[2..2 + |s|] == s && d[2 + |s|..] == rest;
  }

  lemma {:induction false} ColumnBack(c: Column, rest: Bytes)
    requires |c.name| < U16 && |c.dataType| < U16
    ensures ColumnOf(ColumnBytes(c) + rest) == Some((c.(autoIncrement := false), rest))
  {
    var tail := [Flags(c)] + rest;
    assert ColumnBytes(c) + rest == Text(c.name) + (Text(c.dataType) + tail);
    TextBack(c.name, Text(c.dataType) + tail);
    TextBack(c.dataType, tail);
    assert tail[1..] == rest;
  }

  lemma {:induction false} RememberedFirst(cs: seq<Column>, name: Bytes)
    requires cs != []
    ensures Remembered(Table(name, cs)).columns ==
      [cs[0].(autoIncrement := false)] + Remembered(Table(name, cs[1..])).columns
  {
  }

  lemma {:induction false} ColumnsBack(cs: seq<Column>, name: Bytes)
    requires forall i :: 0 <= i < |cs| ==> |cs[i].name| < U16 && |cs[i].dataType| < U16
    ensures ColumnsOf(|cs|, ColumnsBytes(cs)) == Some(Remembered(Table(name, cs)).columns)
  {
    if cs != [] {
      ColumnBack(cs[0], ColumnsBytes(cs[1..]));
      ColumnsBack(cs[1..], name);
      RememberedFirst(cs, name);
    }
  }

  lemma {:induction false} ColumnsSize(cs: seq<Column>)
    ensures |ColumnsBytes(cs)| >= 5 * |cs|
    ensures forall i :: 0 <= i < |cs| ==> |cs[i].name| + |cs[i].dataType| <= |ColumnsBytes(cs)|
  {
    if cs != [] {
      ColumnsSize(cs[1..]);
      forall i | 0 <= i < |cs| ensures |cs[i].name| + |cs[i].dataType| <= |ColumnsBytes(cs)| {
        if i > 0 { assert cs[i] == cs[1..][i - 1]; }
      }
    }
  }

  // What fits a 16-bit size comes back, all but the AUTO_INCREMENT marks.
  lemma {:induction false} RoundTrip(t: Table)
    requires |Serialize(t)| < U16
    ensures Deserialize(Serialize(t)) == Some(Remembered(t))
    ensures Deserialize(Serialize(t)) == Some(t) <==> forall i :: 0 <= i < |t.columns| ==> !t.columns[i].autoIncrement
  {
    var d := Serialize(t);
    ColumnsSize(t.columns);
    assert d == Length(|t.columns|) + (Text(t.name) + ColumnsBytes(t.columns));
    LengthBack(|t.columns|, Text(t.name) + ColumnsBytes(t.columns));
    assert d[2..] == Text(t.name) + ColumnsBytes(t.columns);
    TextBack(t.name, ColumnsBytes(t.columns));
    ColumnsBack(t.columns, t.name);
    var r := Remembered(t);
    if forall i :: 0 <= i < |t.columns| ==> !t.columns[i].autoIncrement {
      assert forall i :: 0 <= i < |t.columns| ==> r.columns[i] == t.columns[i];
      assert r.columns == t.columns;
    } else {
      var i :| 0 <= i < |t.columns| && t.columns[i].autoIncrement;
      assert r.columns[i] != t.columns[i];
    }
  }

  // The same bytes, but for flag bits without a meaning.
  ghost predicate SameButFlags(a: Bytes, b: Bytes) {
    |a| == |b| && forall i :: 0 <= i < |a| ==> a[i] == b[i] || a[i] == b[i] % 8
  }

  lemma {:induction false} TextRewritten(d: Bytes)
    requires TextOf(d).Some?
    ensures d == Text(TextOf(d).value.0) + TextOf(d).value.1
  {
    var s := TextOf(d).value.0;
    assert |s| == LengthOf(d);
    var lo: int, hi: int := d[0], d[1];
    assert |s| % 256 == lo && |s| / 256 % 256 == hi;
    assert d == d[..2] + d[2..2 + |s|] + d[2 + |s|..];
  }

  lemma {:induction false} FlagsRewritten(flags: Byte, c: Column)
    requires c.primaryKey == FlagSet(flags, 1) && c.unique == FlagSet(flags, 2) && c.notNull == FlagSet(flags, 4)
    ensures Flags(c) == flags % 8
  {
  }

  lemma {:induction false} ColumnRewritten(d: Bytes)
    requires ColumnOf(d).Some?
    ensures SameButFlags(ColumnBytes(ColumnOf(d).value.0) + ColumnOf(d).value.1, d)
  {
    var (name, rest) := TextOf(d).value;
    var (dataType, last) := TextOf(rest).value;
    var (c, after) := ColumnOf(d).value;
    TextRewritten(d);
    TextRewritten(rest);
    FlagsRewritten(last[0], c);
    assert d == Text(name) + Text(dataType) + [last[0]] + after;
    assert ColumnBytes(c) + after == Text(name) + Text(dataType) + [Flags(c)] + after;
  }

  lemma {:induction false} ColumnsRewritten(n: nat, d: Bytes)
    requires ColumnsOf(n, d).Some?
    ensures |ColumnsOf(n, d).value| == n && SameButFlags(ColumnsBytes(ColumnsOf(n, d).value), d)
  {
    if n > 0 {
      var (c, rest) := ColumnOf(d).value;
      var cs := ColumnsOf(n, d).value;
      ColumnRewritten(d);
      ColumnsRewritten(n - 1, rest);
      assert cs[1..] == ColumnsOf(n - 1, rest).value;
      Spliced(ColumnBytes(c), ColumnsBytes(cs[1..]), rest, d);
    }
  }

  lemma {:induction false} Spliced(a: Bytes, b: Bytes, rest: Bytes, d: Bytes)
    requires SameButFlags(a + rest, d) && SameButFlags(b, rest)
    ensures SameButFlags(a + b, d)
  {
    forall i | 0 <= i < |a + b| ensures (a + b)[i] == d[i] || (a + b)[i] == d[i] % 8 {
      if i < |a| {
        assert (a + rest)[i] == a[i];
      } else {
        assert (a + rest)[i] == rest[i - |a|] && (a + b)[i] == b[i - |a|];
      }
    }
  }

  // Whatever is accepted is written again as it was, but for flag bits without a meaning; and is then accepted as the
  // same.
  lemma {:induction false} Rewritten(d: Bytes)
    requires Deserialize(d).Some? && |d| < U16
    ensures SameButFlags(Serialize(Deserialize(d).value), d)
    ensures Deserialize(Serialize(Deserialize(d).value)) == Deserialize(d)
  {
    HeadRewritten(d);
    var t := Deserialize(d).value;
    RoundTrip(t);
    NeverAuto(LengthOf(d), TextOf(d[2..]).value.1);
  }

  lemma {:induction false} HeadRewritten(d: Bytes)
    requires Deserialize(d).Some?
    ensures SameButFlags(Serialize(Deserialize(d).value), d)
  {
    var t := Deserialize(d).value;
    var (name, rest) := TextOf(d[2..]).value;
    TextRewritten(d[2..]);
    ColumnsRewritten(LengthOf(d), rest);
    var head := Length(|t.columns|) + Text(name);
    assert Length(|t.columns|) == d[..2] by {
      LengthRewritten(d);
    }
    assert head + rest == d;
    Spliced(head, ColumnsBytes(t.columns), rest, d);
  }

  lemma {:induction false} LengthRewritten(d: Bytes)
    requires |d| >= 2
    ensures Length(LengthOf(d)) == d[..2]
  {
    var lo: int, hi: int := d[0], d[1];
    assert LengthOf(d) % 256 == lo && LengthOf(d) / 256 % 256 == hi;
  }

  lemma {:induction false} NeverAuto(n: nat, d: Bytes)
    requires ColumnsOf(n, d).Some?
    ensures forall i :: 0 <= i < |ColumnsOf(n, d).value| ==> !ColumnsOf(n, d).value[i].autoIncrement
  {
    if n > 0 {
      NeverAuto(n - 1, ColumnOf(d).value.1);
    }
  }

  lemma {:induction false} ColumnsStep(cs: seq<Column>, i: nat, r: Bytes)
    requires i < |cs|
    ensures r + ColumnsBytes(cs[i..]) == r + ColumnBytes(cs[i]) + ColumnsBytes(cs[i + 1..])
  {
    assert cs[i..][1..] == cs[i + 1..];
  }

  method AppendColumn(before: Bytes, c: Column) returns (r: Bytes)
    ensures r == before + ColumnBytes(c)
  {
    r := before + Length(|c.name|) + c.name;
    r := r + Length(|c.dataType|) + c.dataType;
    r := r + [Flags(c)];
  }

  method SerializeSchema(t: Table) returns (r: Bytes)
    ensures r == Serialize(t)
  {
    r := Length(|t.columns|);
    r := r + Length(|t.name|);
    r := r + t.name;
    ghost var head := r;
    assert head == Length(|t.columns|) + Text(t.name);
    var i := 0;
    assert t.columns[0..] == t.columns;
    while i < |t.columns|
      invariant i <= |t.columns| && r + ColumnsBytes(t.columns[i..]) == head + ColumnsBytes(t.columns)
    {
      ColumnsStep(t.columns, i, r);
      r := AppendColumn(r, t.columns[i]);
      i := i + 1;
    }
    assert r + [] == r;
  }

  method DeserializeSchema(d: Bytes) returns (t: Option<Table>)
    ensures t == Deserialize(d)
  {
    if |d| < 4 {
      return None;
    }
    var count := LengthOf(d);
    var name := TextOf(d[2..]);
    if name.None? {
      return None;
    }
    var rest, columns, i := name.value.1, [], 0;
    ghost var all := ColumnsOf(count, rest);
    assert all.Some? ==> [] + all.value == all.value;
    while i < count
      invariant i <= count && all == Joined(columns, ColumnsOf(count - i, rest))
    {
      var c := ColumnOf(rest);
      if c.None? {
        return None;
      }
      JoinedTwice(columns, c.value.0, ColumnsOf(count - i - 1, c.value.1));
      columns := columns + [c.value.0];
      rest := c.value.1;
      i := i + 1;
    }
    if rest != [] {
      return None;
    }
    assert columns + [] == columns;
    return Some(Table(name.value.0, columns));
  }

  ghost function Joined(cs: seq<Column>, rest: Option<seq<Column>>): Option<seq<Column>> {
    if rest.None? then None else Some(cs + rest.value)
  }

  lemma {:induction false} JoinedTwice(cs: seq<Column>, c: Column, rest: Option<seq<Column>>)
    ensures Joined(cs, if rest.None? then None else Some([c] + rest.value)) == Joined(cs + [c], rest)
  {
    if rest.Some? {
      assert cs + ([c] + rest.value) == cs + [c] + rest.value;
    }
  }
}
