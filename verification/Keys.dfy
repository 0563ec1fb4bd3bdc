// Byte strings and the order of keys.
module Keys {
  type Byte = x: int | 0 <= x < 256
  type Bytes = seq<Byte>

  function Zeros(n: nat): (r: Bytes)
    ensures |r| == n
  {
    seq(n, _ => 0)
  }

  // Lexicographic, a proper prefix first.
  predicate Lt(a: Bytes, b: Bytes) {
    |b| > 0 && (|a| == 0 || a[0] < b[0] || (a[0] == b[0] && Lt(a[1..], b[1..])))
  }

  lemma {:induction false} Irreflexive(a: Bytes)
    ensures !Lt(a, a)
  {
    if |a| > 0 { Irreflexive(a[1..]); }
  }

  lemma {:induction false} Transitive(a: Bytes, b: Bytes, c: Bytes)
    requires Lt(a, b) && Lt(b, c)
    ensures Lt(a, c)
  {
    if |a| > 0 && a[0] == b[0] && b[0] == c[0] {
      Transitive(a[1..], b[1..], c[1..]);
    }
  }

  // Exactly one of a < b, a == b, b < a.
  lemma {:induction false} Trichotomy(a: Bytes, b: Bytes)
    ensures Lt(a, b) || a == b || Lt(b, a)
    ensures !(Lt(a, b) && Lt(b, a))
    ensures a == b ==> !Lt(a, b)
  {
    if |a| > 0 && |b| > 0 && a[0] == b[0] {
      Trichotomy(a[1..], b[1..]);
      assert a == [a[0]] + a[1..] && b == [b[0]] + b[1..];
    }
    if a == b { Irreflexive(a); }
  }

  // a < b and b <= c, or a <= b and b < c.
  lemma {:induction false} LtLe(a: Bytes, b: Bytes, c: Bytes)
    requires (Lt(a, b) && !Lt(c, b)) || (!Lt(b, a) && Lt(b, c))
    ensures Lt(a, c)
  {
    Trichotomy(a, b);
    Trichotomy(b, c);
    if Lt(a, b) && Lt(b, c) {
      Transitive(a, b, c);
    }
  }

  // The bytes agree up to i.
  predicate SamePrefix(a: Bytes, b: Bytes, i: nat) {
    i <= |a| && i <= |b| && a[..i] == b[..i]
  }

  lemma {:induction false} DecidedAt(a: Bytes, b: Bytes, i: nat)
    requires SamePrefix(a, b, i)
    ensures i < |a| && i < |b| && a[i] != b[i] ==> (Lt(a, b) <==> a[i] < b[i])
    ensures i == |a| || i == |b| ==> (Lt(a, b) <==> |a| < |b|)
    ensures i == |a| == |b| ==> a == b
  {
    if i > 0 {
      assert a[0] == a[..i][0] && b[0] == b[..i][0];
      assert a[1..][..i - 1] == a[..i][1..] && b[1..][..i - 1] == b[..i][1..];
      DecidedAt(a[1..], b[1..], i - 1);
      if i == |a| == |b| {
        assert a == a[..i] && b == b[..i];
      }
    }
  }

  // memcmp over the common length, then the lengths.
  method CompareKeys(a: Bytes, b: Bytes) returns (r: int)
    ensures r < 0 <==> Lt(a, b)
    ensures r > 0 <==> Lt(b, a)
    ensures r == 0 <==> a == b
  {
    Trichotomy(a, b);
    var n := if |a| < |b| then |a| else |b|;
    var i := 0;
    while i < n && a[i] == b[i]
      invariant 0 <= i <= n && SamePrefix(a, b, i)
    {
      assert a[..i + 1] == a[..i] + [a[i]] && b[..i + 1] == b[..i] + [b[i]];
      i := i + 1;
    }
    DecidedAt(a, b, i);
    DecidedAt(b, a, i);
    if i < n {
      var x: int, y: int := a[i], b[i];
      return x - y;
    }
    return |a| - |b|;
  }
}
