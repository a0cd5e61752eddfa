/**
 * Sequence helpers shared by the components: JavaScript's `Array.prototype.filter`
 * and `slice`, `Math.ceil` of a quotient, and cutting a list into consecutive
 * batches of a fixed size (the shape of `chunk` in scripts/embed.ts, of the byte
 * hard-split in `splitByBytes` and of the batch loop in scripts/backfill.ts).
 */
module Sequences {

  /** `s.filter(p)`: the elements satisfying `p`, in their original order. */
  function Filter<T(==)>(s: seq<T>, p: T -> bool): (r: seq<T>)
    ensures |r| <= |s|
    ensures forall i :: 0 <= i < |r| ==> r[i] in s && p(r[i])
    ensures forall i :: 0 <= i < |s| && p(s[i]) ==> s[i] in r
    ensures IsSubseq(r, s)
  {
    if s == [] then []
    else if p(s[0]) then [s[0]] + Filter(s[1..], p)
    else Filter(s[1..], p)
  }

  lemma FilterSingle<T>(x: T, p: T -> bool)
    ensures Filter([x], p) == if p(x) then [x] else []
  {
    assert [x][1..] == [];
  }

  /** The filter keeps every occurrence of a satisfying element and none of the others. */
  lemma {:induction false} FilterCount<T>(s: seq<T>, p: T -> bool, x: T)
    ensures multiset(Filter(s, p))[x] == if p(x) then multiset(s)[x] else 0
  {
    if s != [] {
      FilterCount(s[1..], p, x);
      assert s == [s[0]] + s[1..];
      assert multiset(s) == multiset([s[0]]) + multiset(s[1..]);
    }
  }

  /** `a` is obtained from `b` by deleting elements (order is kept). */
  predicate IsSubseq<T(==)>(a: seq<T>, b: seq<T>)
    decreases |b|
  {
    if a == [] then true
    else if b == [] then false
    else if a[0] == b[0] then IsSubseq(a[1..], b[1..])
    else IsSubseq(a, b[1..])
  }

  lemma {:induction false} IsSubseqRefl<T>(s: seq<T>)
    ensures IsSubseq(s, s)
    decreases |s|
  {
    if s != [] {
      IsSubseqRefl(s[1..]);
    }
  }

  /** Filtering twice is filtering once by the conjunction. */
  lemma {:induction false} FilterTwice<T>(s: seq<T>, p: T -> bool, q: T -> bool, pq: T -> bool)
    requires forall x :: pq(x) == (p(x) && q(x))
    ensures Filter(Filter(s, p), q) == Filter(s, pq)
  {
    if s != [] {
      FilterTwice(s[1..], p, q, pq);
      if p(s[0]) {
        assert Filter(s, p) == [s[0]] + Filter(s[1..], p);
        assert Filter(s, p)[1..] == Filter(s[1..], p);
      }
    }
  }

  /** Filtering distributes over concatenation. */
  lemma {:induction false} FilterAppend<T>(a: seq<T>, b: seq<T>, p: T -> bool)
    ensures Filter(a + b, p) == Filter(a, p) + Filter(b, p)
  {
    if a == [] {
      assert a + b == b;
    } else {
      assert (a + b)[0] == a[0] && (a + b)[1..] == a[1..] + b;
      FilterAppend(a[1..], b, p);
    }
  }

  /** A filter whose predicate holds throughout keeps everything. */
  lemma {:induction false} FilterKeepsAll<T>(s: seq<T>, p: T -> bool)
    requires forall i :: 0 <= i < |s| ==> p(s[i])
    ensures Filter(s, p) == s
  {
    if s != [] {
      FilterKeepsAll(s[1..], p);
    }
  }

  /** Filtering by two predicates that agree on every element gives the same list. */
  lemma {:induction false} FilterCongruent<T>(s: seq<T>, p: T -> bool, q: T -> bool)
    requires forall i :: 0 <= i < |s| ==> p(s[i]) == q(s[i])
    ensures Filter(s, p) == Filter(s, q)
  {
    if s != [] {
      FilterCongruent(s[1..], p, q);
    }
  }

  /** `Math.ceil(n / d)` for a non-negative `n` and a positive `d`. */
  function CeilDiv(n: nat, d: nat): nat
    requires d > 0
    decreases n
  {
    if n == 0 then 0
    else if n <= d then 1
    else CeilDiv(n - d, d) + 1
  }

  /** `CeilDiv(n, d)` is the least `r` with `r * d >= n`. */
  lemma {:induction false} CeilDivBounds(n: nat, d: nat)
    requires d > 0
    ensures CeilDiv(n, d) * d >= n && (CeilDiv(n, d) - 1) * d < n
    decreases n
  {
    if n > d {
      var k := CeilDiv(n - d, d);
      CeilDivBounds(n - d, d);
      assert (k + 1) * d == k * d + d && k * d == (k - 1) * d + d;
    }
  }

  /** Converts a relative `slice` index to an absolute one, as JavaScript does. */
  function SliceIndex(len: nat, k: int): (r: nat)
    ensures r <= len
    ensures 0 <= k <= len ==> r == k
  {
    if k < 0 then (if len + k < 0 then 0 else len + k)
    else if k > len then len
    else k
  }

  /** `s.slice(start, end)`: negative indices count from the end, both are clamped. */
  function JsSlice<T>(s: seq<T>, start: int, end: int): (r: seq<T>)
    ensures |r| <= |s|
    ensures 0 <= start <= end <= |s| ==> r == s[start..end]
    ensures 0 <= start && |s| <= end && start <= |s| ==> r == s[start..]
    ensures 0 <= end <= start ==> r == []
  {
    var a := SliceIndex(|s|, start);
    var b := SliceIndex(|s|, end);
    if a < b then s[a..b] else []
  }

  /** Concatenation of a list of lists. */
  function Flatten<T>(ss: seq<seq<T>>): seq<T>
  {
    if ss == [] then [] else ss[0] + Flatten(ss[1..])
  }

  lemma {:induction false} FlattenAppend<T>(a: seq<seq<T>>, b: seq<seq<T>>)
    ensures Flatten(a + b) == Flatten(a) + Flatten(b)
  {
    if a == [] {
      assert a + b == b;
    } else {
      assert (a + b)[0] == a[0] && (a + b)[1..] == a[1..] + b;
      FlattenAppend(a[1..], b);
      calc {
        Flatten(a + b);
        a[0] + Flatten(a[1..] + b);
        a[0] + (Flatten(a[1..]) + Flatten(b));
        Flatten(a) + Flatten(b);
      }
    }
  }

  /**
   * `xs` cut into consecutive groups of `size`, the last one possibly shorter:
   * `for (i = 0; i < xs.length; i += size) groups.push(xs.slice(i, i + size))`.
   */
  function Batches<T>(xs: seq<T>, size: nat): seq<seq<T>>
    requires size > 0
    decreases |xs|
  {
    if xs == [] then []
    else if |xs| <= size then [xs]
    else [xs[..size]] + Batches(xs[size..], size)
  }

  /**
   * The groups concatenate back to `xs`; there are `ceil(|xs| / size)` of them;
   * each is non-empty and at most `size` long, and all but the last are full.
   */
  lemma {:induction false} BatchesShape<T>(xs: seq<T>, size: nat)
    requires size > 0
    ensures Flatten(Batches(xs, size)) == xs
    ensures |Batches(xs, size)| == CeilDiv(|xs|, size)
    ensures forall j :: 0 <= j < |Batches(xs, size)| ==> 0 < |Batches(xs, size)[j]| <= size
    ensures forall j :: 0 <= j < |Batches(xs, size)| - 1 ==> |Batches(xs, size)[j]| == size
    decreases |xs|
  {
    if |xs| > size {
      var rest := Batches(xs[size..], size);
      BatchesShape(xs[size..], size);
      var r := [xs[..size]] + rest;
      assert r[0] == xs[..size] && r[1..] == rest;
      assert xs == xs[..size] + xs[size..];
    } else if xs != [] {
      assert [xs][1..] == [];
    }
  }

  /** Slicing the tail `xs[k..]` is slicing `xs` with both bounds shifted by `k`. */
  lemma JsSliceShift<T>(xs: seq<T>, k: nat, a: nat, b: nat)
    requires k <= |xs| && a <= b
    ensures JsSlice(xs[k..], a, b) == JsSlice(xs, a + k, b + k)
  {
    var t := xs[k..];
    if b <= |t| {
      assert t[a..b] == xs[a + k..b + k];
    } else if a <= |t| {
      assert t[a..] == xs[a + k..];
    }
  }

  /** `j * size`, written as repeated addition so that proofs about it stay linear. */
  function Offset(j: nat, size: nat): nat
  {
    if j == 0 then 0 else Offset(j - 1, size) + size
  }

  lemma {:induction false} OffsetIsProduct(j: nat, size: nat)
    ensures Offset(j, size) == j * size
  {
    if j > 0 {
      OffsetIsProduct(j - 1, size);
      assert j * size == (j - 1) * size + size;
    }
  }

  function Min(a: int, b: int): int
  {
    if a < b then a else b
  }

  lemma BatchesCons<T>(xs: seq<T>, size: nat)
    requires size > 0 && |xs| > size
    ensures Batches(xs, size) == [xs[..size]] + Batches(xs[size..], size)
  {
  }

  lemma SliceOfSuffix<T>(xs: seq<T>, k: nat, a: nat, b: nat)
    requires k <= |xs| && a <= b <= |xs| - k
    ensures xs[k..][a..b] == xs[a + k..b + k]
  {
  }

  lemma {:induction false} BatchAtOffset<T>(xs: seq<T>, size: nat, j: nat)
    requires size > 0 && j < |Batches(xs, size)|
    ensures Offset(j, size) < |xs|
    ensures Batches(xs, size)[j] == xs[Offset(j, size)..Min(Offset(j, size) + size, |xs|)]
    decreases |xs|
  {
    if j > 0 {
      var tail := xs[size..];
      BatchesCons(xs, size);
      var bt := Batches(tail, size);
      assert Batches(xs, size)[j] == bt[j - 1];
      BatchAtOffset(tail, size, j - 1);
      var m := Offset(j - 1, size);
      var e := Min(m + size, |tail|);
      assert Offset(j, size) == m + size;
      assert Min(m + size + size, |xs|) == e + size;
      SliceOfSuffix(xs, size, m, e);
    }
  }

  /** Group `j` of `Batches(xs, size)` is the slice `[j*size, (j+1)*size)`, clamped to `xs`. */
  lemma BatchAt<T>(xs: seq<T>, size: nat, j: nat)
    requires size > 0 && j < |Batches(xs, size)|
    ensures Batches(xs, size)[j] == JsSlice(xs, j * size, j * size + size)
  {
    BatchAtOffset(xs, size, j);
    OffsetIsProduct(j, size);
    var o := Offset(j, size);
    if o + size <= |xs| {
      assert JsSlice(xs, o, o + size) == xs[o..o + size];
    } else {
      assert JsSlice(xs, o, o + size) == xs[o..];
    }
  }

  /** The first batch of a suffix `xs[start..]` is `xs.slice(start, min(start + size, xs.length))`. */
  lemma BatchesFrom<T>(xs: seq<T>, start: nat, end: nat, size: nat)
    requires size > 0 && start < |xs|
    requires end == if start + size < |xs| then start + size else |xs|
    ensures Batches(xs[start..], size) == [xs[start..end]] + Batches(xs[end..], size)
  {
    var rest := xs[start..];
    if |rest| > size {
      assert rest[..size] == xs[start..end] && rest[size..] == xs[end..];
    } else {
      assert rest == xs[start..end] && xs[end..] == [];
    }
  }
}
