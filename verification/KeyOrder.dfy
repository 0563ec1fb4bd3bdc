// In which order a scan delivers the rows of a table: by the bytes of their keys.
module KeyOrder {
  import opened Keys
  import opened PageView
  import opened PagedScan
  import R = RowCodec

  function IntKey(n: int): Bytes
    requires R.Typed(R.INT, R.IntValue(n))
  {
    R.ColumnBytes(R.INT, R.IntValue(n))
  }

  // The bytes of the number in two's complement, the lowest taken as the highest.
  function Swapped(n: int): int {
    var u := if n < 0 then n + 4294967296 else n;
    16777216 * (u % 256) + 65536 * (u / 256 % 256) + 256 * (u / 65536 % 256) + u / 16777216
  }

  function BigEndian(b: Bytes): int {
    if b == [] then 0 else 256 * BigEndian(b[..|b| - 1]) + b[|b| - 1]
  }

  lemma {:induction false} BigEndianFirst(b: Bytes)
    requires b != []
    ensures BigEndian(b) == b[0] * Power(|b| - 1) + BigEndian(b[1..]) && 0 <= BigEndian(b[1..]) < Power(|b| - 1)
  {
    if |b| == 1 {
      assert b[..0] == [] && b[1..] == [];
    } else {
      var front := b[..|b| - 1];
      BigEndianFirst(front);
      assert b[1..][..|b| - 2] == front[1..] && b[1..][|b| - 2] == b[|b| - 1];
      PowerNext(|b| - 2, b[0]);
    }
  }

  function Power(n: nat): int {
    if n == 0 then 1 else 256 * Power(n - 1)
  }

  lemma {:induction false} PowerNext(n: nat, k: int)
    ensures 256 * (k * Power(n)) == k * Power(n + 1)
  {
  }

  // Byte strings of one length are ordered as numbers written with the highest byte first.
  lemma {:induction false} BytesAsNumbers(a: Bytes, b: Bytes)
    requires |a| == |b|
    ensures Lt(a, b) <==> BigEndian(a) < BigEndian(b)
  {
    if a != [] {
      BigEndianFirst(a);
      BigEndianFirst(b);
      BytesAsNumbers(a[1..], b[1..]);
      HigherByte(a[0], b[0], Power(|a| - 1), BigEndian(a[1..]), BigEndian(b[1..]));
    }
  }

  lemma {:induction false} HigherByte(x: int, y: int, p: int, r: int, s: int)
    requires 0 <= r < p && 0 <= s < p
    ensures x * p + r < y * p + s <==> x < y || (x == y && r < s)
  {
    if x < y {
      assert (x + 1) * p <= y * p by { MulLeq(x + 1, y, p); }
    } else if y < x {
      assert (y + 1) * p <= x * p by { MulLeq(y + 1, x, p); }
    }
  }

  lemma {:induction false} MulLeq(x: int, y: int, p: int)
    requires x <= y && p >= 0
    ensures x * p <= y * p
  {
    assert y * p == x * p + (y - x) * p;
  }

  // Rows with an INT primary key come in the order of their keys' bytes, the lowest byte first.
  lemma {:induction false} IntKeyOrder(m: int, n: int)
    requires R.Typed(R.INT, R.IntValue(m)) && R.Typed(R.INT, R.IntValue(n))
    ensures Lt(IntKey(m), IntKey(n)) <==> Swapped(m) < Swapped(n)
  {
    SwappedIs(m);
    SwappedIs(n);
    BytesAsNumbers(R.IntBytes(m), R.IntBytes(n));
    assert IntKey(m)[1..] == R.IntBytes(m) && IntKey(n)[1..] == R.IntBytes(n);
  }

  lemma {:induction false} SwappedIs(n: int)
    requires R.Typed(R.INT, R.IntValue(n))
    ensures BigEndian(R.IntBytes(n)) == Swapped(n)
  {
    var b := R.IntBytes(n);
    assert b[..3][..2][..1] == [b[0]] && b[..3][..2] == [b[0], b[1]] && b[..3] == [b[0], b[1], b[2]];
    assert BigEndian(b) == 256 * BigEndian(b[..3]) + b[3];
    assert BigEndian(b[..3]) == 256 * BigEndian(b[..3][..2]) + b[2];
    assert BigEndian(b[..3][..2]) == 256 * BigEndian(b[..3][..2][..1]) + b[1];
    assert BigEndian([b[0]]) == 256 * BigEndian([b[0]][..0]) + b[0];
  }

  // That is the order of the numbers from 0 to 255, and not beyond: 256 comes before 1, and 1 before -1.
  lemma {:induction false} SmallIntsOrdered(m: int, n: int)
    requires 0 <= m < 256 && 0 <= n < 256
    ensures Lt(IntKey(m), IntKey(n)) <==> m < n
  {
    IntKeyOrder(m, n);
  }

  lemma {:induction false} NotByValue()
    ensures Lt(IntKey(256), IntKey(1)) && Lt(IntKey(1), IntKey(-1))
  {
    IntKeyOrder(256, 1);
    IntKeyOrder(1, -1);
  }

  function StringKey(text: Bytes): Bytes {
    R.ColumnBytes(R.STRING, R.StringValue(text))
  }

  lemma {:induction false} FirstByte(x: Byte, a: Bytes, y: Byte, b: Bytes)
    ensures Lt([x] + a, [y] + b) <==> x < y || (x == y && Lt(a, b))
  {
    assert ([x] + a)[1..] == a && ([y] + b)[1..] == b;
  }

  // Rows with a STRING primary key come by the lower byte of the length, then by the upper one, then by the text.
  lemma {:induction false} StringKeyOrder(a: Bytes, b: Bytes)
    requires |a| < 65536 && |b| < 65536
    ensures Lt(StringKey(a), StringKey(b)) <==>
      || |a| % 256 < |b| % 256
      || (|a| % 256 == |b| % 256 && (|a| / 256 < |b| / 256 || (|a| / 256 == |b| / 256 && Lt(a, b))))
  {
    var x, y: Bytes := [|a| / 256] + a, [|b| / 256] + b;
    var lo, lo': Byte := |a| % 256, |b| % 256;
    assert a[..|a|] == a && b[..|b|] == b;
    assert StringKey(a) == [3] + ([lo] + x) && StringKey(b) == [3] + ([lo'] + y);
    FirstByte(3, [lo] + x, 3, [lo'] + y);
    FirstByte(lo, x, lo', y);
    FirstByte(|a| / 256, a, |b| / 256, b);
  }

  // A scan takes both its bounds in: one that begins and ends with a key finds that key.
  lemma {:induction false} BoundsTaken(out: seq<Rec>, m: map<Bytes, Bytes>, k: Bytes)
    requires k != [] && Lists(out, m, k, k)
    ensures out == if k in m then [Rec(k, m[k])] else []
  {
    Irreflexive(k);
    var one := if k in m then [Rec(k, m[k])] else [];
    forall x | x in m && FromStart(k, x) && UpToEnd(k, x) ensures Rec(x, m[x]) in one {
      Trichotomy(x, k);
    }
    ListsOnce(out, one, m, k, k);
  }
}
