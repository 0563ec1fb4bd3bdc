// Where the elements of sequences put together from slices come from.
module Seqs {
  lemma {:induction false} SpliceAt<T>(s: seq<T>, i: nat, x: T, k: nat)
    requires i <= |s| && k <= |s|
    ensures |s[..i] + [x] + s[i..]| == |s| + 1
    ensures (s[..i] + [x] + s[i..])[k] == if k < i then s[k] else if k == i then x else s[k - 1]
  {
  }

  lemma {:induction false} DropAt<T>(s: seq<T>, i: nat, k: nat)
    requires i < |s| && k < |s| - 1
    ensures |s[..i] + s[i + 1..]| == |s| - 1
    ensures (s[..i] + s[i + 1..])[k] == if k < i then s[k] else s[k + 1]
  {
  }

  lemma {:induction false} Stretch<T>(s: seq<T>, g: nat, p: nat, n: nat)
    requires g <= p && p + n <= |s|
    ensures s[g..p + n] == s[g..p] + s[p..p + n]
  {
  }

  lemma {:induction false} Concat3At<T>(a: seq<T>, b: seq<T>, c: seq<T>, k: nat)
    requires k < |a| + |b| + |c|
    ensures |a + b + c| == |a| + |b| + |c|
    ensures (a + b + c)[k] == if k < |a| then a[k] else if k < |a| + |b| then b[k - |a|] else c[k - |a| - |b|]
  {
  }
}
