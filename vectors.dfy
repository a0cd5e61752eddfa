/**
 * `avg` of scripts/embed.ts: the component-wise mean of the embedding vectors of a
 * document's chunks. Components are real numbers; a component that a vector lacks
 * counts as zero, and the output is as long as the first vector.
 */
module Vectors {

  /** `v[i] || 0`: component `i` of `v`, or zero when `v` is too short. */
  function Entry(v: seq<real>, i: nat): real
  {
    if i < |v| then v[i] else 0.0
  }

  /** The sum of component `i` over the vectors, taken in order. */
  function ColumnSum(vecs: seq<seq<real>>, i: nat): real
  {
    if vecs == [] then 0.0 else ColumnSum(vecs[..|vecs| - 1], i) + Entry(vecs[|vecs| - 1], i)
  }

  /** The mean the source computes: `[]` for no vectors, else one column mean per component of the first. */
  function Mean(vecs: seq<seq<real>>): (r: seq<real>)
    ensures vecs == [] ==> r == []
    ensures vecs != [] ==> |r| == |vecs[0]|
  {
    if vecs == [] then []
    else seq(|vecs[0]|, i requires 0 <= i < |vecs[0]| => ColumnSum(vecs, i) / (|vecs| as real))
  }

  /** `n` copies of one vector. */
  function Copies(v: seq<real>, n: nat): (r: seq<seq<real>>)
    ensures |r| == n && forall j :: 0 <= j < n ==> r[j] == v
  {
    seq(n, _ => v)
  }

  lemma {:induction false} ColumnSumCopies(v: seq<real>, n: nat, i: nat)
    requires i < |v|
    ensures ColumnSum(Copies(v, n), i) == (n as real) * v[i]
  {
    if n > 0 {
      assert Copies(v, n)[..n - 1] == Copies(v, n - 1);
      ColumnSumCopies(v, n - 1, i);
    }
  }

  /** Averaging copies of one vector gives that vector back. */
  lemma MeanOfCopies(v: seq<real>, n: nat)
    requires n > 0
    ensures Mean(Copies(v, n)) == v
  {
    var r := Mean(Copies(v, n));
    forall i | 0 <= i < |v|
      ensures r[i] == v[i]
    {
      ColumnSumCopies(v, n, i);
    }
  }

  /** The mean of a single vector is that vector. */
  lemma MeanOfOne(v: seq<real>)
    ensures Mean([v]) == v
  {
    assert [v] == Copies(v, 1);
    MeanOfCopies(v, 1);
  }

  /**
   * Each component of the mean lies between the smallest and the largest value the
   * vectors give that component (missing components counting as zero).
   */
  lemma {:induction false} ColumnSumBounds(vecs: seq<seq<real>>, i: nat, lo: real, hi: real)
    requires forall j :: 0 <= j < |vecs| ==> lo <= Entry(vecs[j], i) <= hi
    ensures (|vecs| as real) * lo <= ColumnSum(vecs, i) <= (|vecs| as real) * hi
  {
    if vecs != [] {
      ColumnSumBounds(vecs[..|vecs| - 1], i, lo, hi);
    }
  }

  lemma DivBounds(s: real, n: real, lo: real, hi: real)
    requires n > 0.0 && n * lo <= s <= n * hi
    ensures lo <= s / n <= hi
  {
    var q := s / n;
    assert q * n == s;
  }

  lemma MeanBounds(vecs: seq<seq<real>>, i: nat, lo: real, hi: real)
    requires vecs != [] && i < |vecs[0]|
    requires forall j :: 0 <= j < |vecs| ==> lo <= Entry(vecs[j], i) <= hi
    ensures lo <= Mean(vecs)[i] <= hi
  {
    ColumnSumBounds(vecs, i, lo, hi);
    DivBounds(ColumnSum(vecs, i), |vecs| as real, lo, hi);
  }

  /** `avg(vecs)`: accumulates into a zero-filled array, then divides every component by the count. */
  method Avg(vecs: seq<seq<real>>) returns (out: array<real>)
    ensures out[..] == Mean(vecs)
  {
    if |vecs| == 0 {
      out := new real[0];
      return;
    }
    out := new real[|vecs[0]|](_ => 0.0);
    for j := 0 to |vecs|
      invariant forall i :: 0 <= i < out.Length ==> out[i] == ColumnSum(vecs[..j], i)
    {
      assert vecs[..j + 1][..j] == vecs[..j];
      for i := 0 to out.Length
        invariant forall t :: 0 <= t < i ==> out[t] == ColumnSum(vecs[..j + 1], t)
        invariant forall t :: i <= t < out.Length ==> out[t] == ColumnSum(vecs[..j], t)
      {
        out[i] := out[i] + Entry(vecs[j], i);
      }
    }
    assert vecs[..|vecs|] == vecs;
    var n := |vecs| as real;
    for i := 0 to out.Length
      invariant forall t :: 0 <= t < i ==> out[t] == ColumnSum(vecs, t) / n
      invariant forall t :: i <= t < out.Length ==> out[t] == ColumnSum(vecs, t)
    {
      out[i] := out[i] / n;
    }
  }
}
