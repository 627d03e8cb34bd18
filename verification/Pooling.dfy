/**
 Reducing the vectors of the tokens of a text to one embedding: reshaping the flat
 payload, mean, last and decayed-mean pooling, and the normalization that follows.
 Arithmetic is over the reals. The one-token decay r stands for 2^(-1/halfLife), and
 `root(x, p)` for the library's p-th root.
 */
module Pooling {
  import opened Basics

  datatype Result<+T> = Ok(value: T) | InvalidShape | ShapeMismatch | UnknownScheme

  predicate Uniform(vecs: seq<seq<real>>, dim: nat) {
    forall i | 0 <= i < |vecs| :: |vecs[i]| == dim
  }

  // ---------- Reshaping ----------

  lemma RowBounds(i: nat, tokens: nat, dim: nat)
    requires i < tokens
    ensures 0 <= i * dim <= (i + 1) * dim <= tokens * dim && (i + 1) * dim == i * dim + dim
  {
    var rest := tokens - i - 1;
    Products(i, dim);
    Products(rest, dim);
    assert tokens * dim == (i + 1 + rest) * dim == (i + 1) * dim + rest * dim;
  }

  lemma Products(a: nat, b: nat)
    ensures a * b >= 0
  {
  }

  /**
   The payload as rows: refused exactly when the shape is not positive or does not fit
   the payload, and else the one list of rows of that shape that concatenates to it.
   */
  method Reshape(flat: seq<real>, tokens: int, dim: int) returns (r: Result<seq<seq<real>>>)
    ensures r == InvalidShape <==> tokens <= 0 || dim <= 0
    ensures r == ShapeMismatch <==> tokens > 0 && dim > 0 && |flat| != tokens * dim
    ensures r != UnknownScheme
    ensures r.Ok? ==> |r.value| == tokens && Uniform(r.value, dim) && Concat(r.value) == flat
  {
    if tokens <= 0 || dim <= 0 {
      return InvalidShape;
    }
    if |flat| != tokens * dim {
      return ShapeMismatch;
    }
    var vecs: seq<seq<real>> := [];
    var i := 0;
    while i < tokens
      invariant i <= tokens && |vecs| == i && Uniform(vecs, dim)
      invariant 0 <= i * dim <= |flat| && Concat(vecs) == flat[..i * dim]
    {
      RowBounds(i, tokens, dim);
      var row := flat[i * dim..(i + 1) * dim];
      assert (vecs + [row])[..i] == vecs;
      assert flat[..i * dim] + row == flat[..(i + 1) * dim];
      vecs := vecs + [row];
      i := i + 1;
    }
    assert flat[..i * dim] == flat;
    return Ok(vecs);
  }

  lemma {:induction false} ConcatSize(rows: seq<seq<real>>, dim: nat)
    requires Uniform(rows, dim)
    ensures |Concat(rows)| == |rows| * dim
  {
    if rows != [] {
      ConcatSize(rows[..|rows| - 1], dim);
      assert |rows| * dim == (|rows| - 1) * dim + dim;
    }
  }

  /** Rows of one width are determined by their concatenation, so reshaping undoes packing. */
  lemma {:induction false} ConcatInjective(a: seq<seq<real>>, b: seq<seq<real>>, dim: nat)
    requires |a| == |b| && Uniform(a, dim) && Uniform(b, dim) && Concat(a) == Concat(b)
    ensures a == b
  {
    if a != [] {
      var k := |a| - 1;
      ConcatSize(a[..k], dim);
      ConcatSize(b[..k], dim);
      assert Concat(a)[..k * dim] == Concat(a[..k]) && Concat(b)[..k * dim] == Concat(b[..k]);
      assert Concat(a)[k * dim..] == a[k] && Concat(b)[k * dim..] == b[k];
      ConcatInjective(a[..k], b[..k], dim);
      assert a == a[..k] + [a[k]] && b == b[..k] + [b[k]];
    }
  }

  // ---------- Products of reals ----------

  function Mul(a: real, b: real): real {
    a * b
  }

  lemma MulAssociates(a: real, b: real, c: real)
    ensures Mul(a, Mul(b, c)) == Mul(Mul(a, b), c)
  {
    assert a * (b * c) == (a * b) * c;
  }

  lemma MulCommutes(a: real, b: real)
    ensures Mul(a, b) == Mul(b, a)
  {
  }

  lemma MulDistributes(a: real, b: real, c: real)
    ensures Mul(a, b + c) == Mul(a, b) + Mul(a, c)
  {
  }

  lemma SumTimes(a: real, b: real, c: real)
    ensures Mul(a + b, c) == Mul(a, c) + Mul(b, c)
  {
  }

  lemma MulUnit(a: real)
    ensures Mul(1.0, a) == a && Mul(a, 1.0) == a && Mul(0.0, a) == 0.0 && Mul(a, 0.0) == 0.0
  {
  }

  lemma MulSign(a: real, b: real)
    requires a > 0.0
    ensures Mul(a, b) > 0.0 <==> b > 0.0
    ensures Mul(a, b) < 0.0 <==> b < 0.0
  {
  }

  lemma MulOrder(c: real, a: real, b: real)
    requires c > 0.0
    ensures Mul(c, a) < Mul(c, b) <==> a < b
  {
    MulDistributes(c, a, b - a);
    MulSign(c, b - a);
  }

  lemma Reciprocal(c: real)
    requires c > 0.0
    ensures 1.0 / c > 0.0 && Mul(1.0 / c, c) == 1.0
  {
  }

  lemma QuotientIsProduct(a: real, b: real)
    requires b > 0.0
    ensures a / b == Mul(1.0 / b, a)
  {
  }

  // ---------- Pooling ----------

  function Power(x: real, n: nat): real {
    if n == 0 then 1.0 else Mul(x, Power(x, n - 1))
  }

  /** The first k of `total` tokens' coordinate j, each weighted by its distance from the last token. */
  function WeightedSum(vecs: seq<seq<real>>, r: real, total: nat, k: nat, j: nat): real
    requires k <= |vecs| && k <= total && forall i | 0 <= i < k :: j < |vecs[i]|
  {
    if k == 0 then 0.0 else WeightedSum(vecs, r, total, k - 1, j) + Mul(Power(r, total - k), vecs[k - 1][j])
  }

  function WeightSum(r: real, total: nat, k: nat): real
    requires k <= total
  {
    if k == 0 then 0.0 else WeightSum(r, total, k - 1) + Power(r, total - k)
  }

  function ColumnSum(vecs: seq<seq<real>>, k: nat, j: nat): real
    requires k <= |vecs| && forall i | 0 <= i < k :: j < |vecs[i]|
  {
    if k == 0 then 0.0 else ColumnSum(vecs, k - 1, j) + vecs[k - 1][j]
  }

  function Sums(vecs: seq<seq<real>>, dim: nat): seq<real>
    requires Uniform(vecs, dim)
  {
    seq(dim, j requires 0 <= j < dim => ColumnSum(vecs, |vecs|, j))
  }

  function DecayedSums(vecs: seq<seq<real>>, r: real, dim: nat): seq<real>
    requires Uniform(vecs, dim)
  {
    seq(dim, j requires 0 <= j < dim => WeightedSum(vecs, r, |vecs|, |vecs|, j))
  }

  function Scaled(c: real, v: seq<real>): seq<real> {
    seq(|v|, j requires 0 <= j < |v| => Mul(c, v[j]))
  }

  function Mean(vecs: seq<seq<real>>, dim: nat): seq<real>
    requires vecs != [] && Uniform(vecs, dim)
  {
    Scaled(1.0 / |vecs| as real, Sums(vecs, dim))
  }

  function DecayedMean(vecs: seq<seq<real>>, r: real, dim: nat): seq<real>
    requires vecs != [] && Uniform(vecs, dim) && 0.0 < r
  {
    WeightSumPositive(r, |vecs|, |vecs|);
    Scaled(1.0 / WeightSum(r, |vecs|, |vecs|), DecayedSums(vecs, r, dim))
  }

  lemma {:induction false} PowerPositive(r: real, n: nat)
    requires 0.0 < r
    ensures Power(r, n) > 0.0
  {
    hide Mul;
    if n > 0 {
      PowerPositive(r, n - 1);
      MulSign(r, Power(r, n - 1));
    }
  }

  lemma {:induction false} WeightSumPositive(r: real, total: nat, k: nat)
    requires 0.0 < r && k <= total
    ensures WeightSum(r, total, k) >= 0.0 && (k > 0 ==> WeightSum(r, total, k) > 0.0)
  {
    if k > 0 {
      WeightSumPositive(r, total, k - 1);
      PowerPositive(r, total - k);
    }
  }

  method PoolMean(vecs: seq<seq<real>>) returns (out: seq<real>)
    requires vecs != [] && Uniform(vecs, |vecs[0]|)
    ensures out == Mean(vecs, |vecs[0]|)
  {
    var dim := |vecs[0]|;
    var acc := new real[dim](_ => 0.0);
    var i := 0;
    while i < |vecs|
      invariant i <= |vecs|
      invariant forall j | 0 <= j < dim :: acc[j] == ColumnSum(vecs, i, j)
    {
      var v, j := vecs[i], 0;
      while j < |v|
        invariant j <= |v|
        invariant forall m | 0 <= m < j :: acc[m] == ColumnSum(vecs, i + 1, m)
        invariant forall m | j <= m < dim :: acc[m] == ColumnSum(vecs, i, m)
      {
        acc[j] := acc[j] + v[j];
        j := j + 1;
      }
      i := i + 1;
    }
    out := Divided(acc, |vecs| as real);
    assert acc[..] == Sums(vecs, dim);
  }

  /** The last loop of the two means. */
  method Divided(acc: array<real>, divisor: real) returns (out: seq<real>)
    requires divisor > 0.0
    ensures out == Scaled(1.0 / divisor, acc[..])
  {
    hide Mul;
    var a := new real[acc.Length];
    var j := 0;
    while j < acc.Length
      invariant j <= acc.Length && acc[..] == old(acc[..])
      invariant forall m | 0 <= m < j :: a[m] == Mul(1.0 / divisor, acc[m])
    {
      QuotientIsProduct(acc[j], divisor);
      a[j] := acc[j] / divisor;
      j := j + 1;
    }
    out := a[..];
  }

  method PoolDecayedMean(vecs: seq<seq<real>>, r: real) returns (out: seq<real>)
    requires vecs != [] && Uniform(vecs, |vecs[0]|) && 0.0 < r
    ensures out == DecayedMean(vecs, r, |vecs[0]|)
  {
    hide Mul;
    var dim, total := |vecs[0]|, |vecs|;
    var acc := new real[dim](_ => 0.0);
    var wsum, i := 0.0, 0;
    while i < total
      invariant i <= total && wsum == WeightSum(r, total, i)
      invariant forall j | 0 <= j < dim :: acc[j] == WeightedSum(vecs, r, total, i, j)
    {
      var w, v, j := Power(r, total - 1 - i), vecs[i], 0;
      wsum := wsum + w;
      while j < |v|
        invariant j <= |v|
        invariant forall m | 0 <= m < j :: acc[m] == WeightedSum(vecs, r, total, i + 1, m)
        invariant forall m | j <= m < dim :: acc[m] == WeightedSum(vecs, r, total, i, m)
      {
        acc[j] := acc[j] + Mul(w, v[j]);
        j := j + 1;
      }
      i := i + 1;
    }
    WeightSumPositive(r, total, total);
    out := Divided(acc, wsum);
    assert acc[..] == DecayedSums(vecs, r, dim);
  }

  // ---------- What the means are ----------

  lemma {:induction false} OneMoreToken(vecs: seq<seq<real>>, r: real, total: nat, k: nat, j: nat)
    requires k <= |vecs| && k <= total && forall i | 0 <= i < k :: j < |vecs[i]|
    ensures WeightedSum(vecs, r, total + 1, k, j) == Mul(r, WeightedSum(vecs, r, total, k, j))
    ensures WeightSum(r, total + 1, k) == Mul(r, WeightSum(r, total, k))
  {
    hide Mul;
    if k == 0 {
      MulUnit(r);
    } else {
      OneMoreToken(vecs, r, total, k - 1, j);
      var w, x := Power(r, total - k), vecs[k - 1][j];
      assert Power(r, total + 1 - k) == Mul(r, w);
      MulAssociates(r, w, x);
      MulDistributes(r, WeightedSum(vecs, r, total, k - 1, j), Mul(w, x));
      MulDistributes(r, WeightSum(r, total, k - 1), w);
    }
  }

  lemma {:induction false} SumOfFront(vecs: seq<seq<real>>, x: seq<real>, r: real, total: nat, k: nat, j: nat)
    requires k <= |vecs| && k <= total && forall i | 0 <= i < k :: j < |vecs[i]|
    ensures forall i | 0 <= i < k :: j < |(vecs + [x])[i]|
    ensures WeightedSum(vecs + [x], r, total, k, j) == WeightedSum(vecs, r, total, k, j)
  {
    hide Mul, Power;
    if k > 0 {
      SumOfFront(vecs, x, r, total, k - 1, j);
    }
  }

  /** Appending a token: both sums become r times the old one plus the new token's share. */
  lemma DecayRecurrence(vecs: seq<seq<real>>, x: seq<real>, r: real, j: nat)
    requires Uniform(vecs, |x|) && j < |x|
    ensures Uniform(vecs + [x], |x|)
    ensures var t := |vecs|;
            && WeightedSum(vecs + [x], r, t + 1, t + 1, j) == r * WeightedSum(vecs, r, t, t, j) + x[j]
            && WeightSum(r, t + 1, t + 1) == r * WeightSum(r, t, t) + 1.0
  {
    var t := |vecs|;
    OneMoreToken(vecs, r, t, t, j);
    SumOfFront(vecs, x, r, t + 1, t, j);
    assert Power(r, 0) == 1.0 && (vecs + [x])[t] == x;
    MulUnit(x[j]);
  }

  lemma {:induction false} WeightedBounds(vecs: seq<seq<real>>, r: real, total: nat, k: nat, j: nat, lo: real, hi: real)
    requires 0.0 < r && k <= |vecs| && k <= total
    requires forall i | 0 <= i < k :: j < |vecs[i]| && lo <= vecs[i][j] <= hi
    ensures Mul(WeightSum(r, total, k), lo) <= WeightedSum(vecs, r, total, k, j) <= Mul(WeightSum(r, total, k), hi)
  {
    hide Mul, Power;
    if k == 0 {
      MulUnit(lo);
      MulUnit(hi);
    } else {
      WeightedBounds(vecs, r, total, k - 1, j, lo, hi);
      PowerPositive(r, total - k);
      BoundsStep(WeightSum(r, total, k - 1), Power(r, total - k), vecs[k - 1][j], lo, hi);
    }
  }

  lemma BoundsStep(sum: real, w: real, x: real, lo: real, hi: real)
    requires w > 0.0 && lo <= x <= hi
    ensures Mul(sum + w, lo) <= Mul(sum, lo) + Mul(w, x) && Mul(sum, hi) + Mul(w, x) <= Mul(sum + w, hi)
  {
    hide Mul;
    MulOrder(w, x, lo);
    MulOrder(w, hi, x);
    SumTimes(sum, w, lo);
    SumTimes(sum, w, hi);
  }

  lemma QuotientBounds(sum: real, weight: real, lo: real, hi: real)
    requires weight > 0.0 && Mul(weight, lo) <= sum <= Mul(weight, hi)
    ensures lo <= Mul(1.0 / weight, sum) <= hi
  {
    hide Mul;
    var q := Mul(1.0 / weight, sum);
    Reciprocal(weight);
    MulAssociates(weight, 1.0 / weight, sum);
    MulCommutes(weight, 1.0 / weight);
    MulUnit(sum);
    MulOrder(weight, q, lo);
    MulOrder(weight, hi, q);
  }

  /** Each pooled coordinate lies between the least and the greatest of the tokens'. */
  lemma DecayedMeanBounds(vecs: seq<seq<real>>, r: real, dim: nat, j: nat, lo: real, hi: real)
    requires vecs != [] && Uniform(vecs, dim) && 0.0 < r && j < dim
    requires forall i | 0 <= i < |vecs| :: lo <= vecs[i][j] <= hi
    ensures lo <= DecayedMean(vecs, r, dim)[j] <= hi
  {
    hide Mul, Power;
    var t := |vecs|;
    WeightedBounds(vecs, r, t, t, j, lo, hi);
    WeightSumPositive(r, t, t);
    QuotientBounds(WeightedSum(vecs, r, t, t, j), WeightSum(r, t, t), lo, hi);
  }

  lemma {:induction false} PowerOfOne(n: nat)
    ensures Power(1.0, n) == 1.0
  {
    if n > 0 {
      PowerOfOne(n - 1);
      MulUnit(Power(1.0, n - 1));
    }
  }

  lemma {:induction false} UndecayedSums(vecs: seq<seq<real>>, total: nat, k: nat, j: nat)
    requires k <= |vecs| && k <= total && forall i | 0 <= i < k :: j < |vecs[i]|
    ensures WeightedSum(vecs, 1.0, total, k, j) == ColumnSum(vecs, k, j) && WeightSum(1.0, total, k) == k as real
  {
    hide Mul;
    if k > 0 {
      UndecayedSums(vecs, total, k - 1, j);
      PowerOfOne(total - k);
      MulUnit(vecs[k - 1][j]);
    }
  }

  /** Without decay the decayed mean is the mean, so the mean has the same bounds. */
  lemma MeanIsUndecayed(vecs: seq<seq<real>>, dim: nat)
    requires vecs != [] && Uniform(vecs, dim)
    ensures Mean(vecs, dim) == DecayedMean(vecs, 1.0, dim)
  {
    hide Mul, Power;
    forall j | 0 <= j < dim ensures Mean(vecs, dim)[j] == DecayedMean(vecs, 1.0, dim)[j] {
      UndecayedSums(vecs, |vecs|, |vecs|, j);
    }
  }

  // ---------- Normalization ----------

  function Abs(x: real): real {
    if x < 0.0 then -x else x
  }

  function MaxAbs(v: seq<real>): real {
    if v == [] then 0.0
    else var m := MaxAbs(v[..|v| - 1]); if m < Abs(v[|v| - 1]) then Abs(v[|v| - 1]) else m
  }

  function PowerSum(v: seq<real>, p: nat): real {
    if v == [] then 0.0 else PowerSum(v[..|v| - 1], p) + Power(Abs(v[|v| - 1]), p)
  }

  /** The root of the library: the non-negative p-th root of a non-negative number. */
  ghost predicate IsRoot(root: (real, nat) -> real) {
    forall x: real, p: nat | x >= 0.0 && p >= 1 :: root(x, p) >= 0.0 && Power(root(x, p), p) == x
  }

  /** What the vector is divided by: nothing, the greatest value on a 16-bit scale, or the p-norm. */
  function Size(v: seq<real>, norm: int, root: (real, nat) -> real): real {
    if norm < 0 then 1.0
    else if norm == 0 then MaxAbs(v) / 32760.0
    else root(PowerSum(v, norm), norm)
  }

  function Factor(size: real): real {
    if size > 0.0 then 1.0 / size else 0.0
  }

  function Normalized(v: seq<real>, norm: int, root: (real, nat) -> real): seq<real> {
    Scaled(Factor(Size(v, norm, root)), v)
  }

  lemma SquareOfAbs(x: real)
    ensures Power(Abs(x), 2) == x * x
  {
    MulUnit(Abs(x));
    assert Power(Abs(x), 1) == Mul(Abs(x), Power(Abs(x), 0));
    assert Power(Abs(x), 2) == Mul(Abs(x), Power(Abs(x), 1));
  }

  /** The switch over the kinds of norm. */
  method Measure(v: seq<real>, norm: int, root: (real, nat) -> real) returns (sum: real)
    ensures sum == Size(v, norm, root)
  {
    hide Power, Mul, Abs;
    sum := 0.0;
    var i := 0;
    if norm < 0 {
      return 1.0;
    } else if norm == 0 {
      while i < |v|
        invariant i <= |v| && sum == MaxAbs(v[..i])
      {
        assert v[..i + 1][..i] == v[..i];
        if sum < Abs(v[i]) {
          sum := Abs(v[i]);
        }
        i := i + 1;
      }
      assert v[..i] == v;
      return sum / 32760.0;
    } else if norm == 2 {
      while i < |v|
        invariant i <= |v| && sum == PowerSum(v[..i], 2)
      {
        assert v[..i + 1][..i] == v[..i];
        SquareOfAbs(v[i]);
        sum := sum + v[i] * v[i];
        i := i + 1;
      }
    } else {
      while i < |v|
        invariant i <= |v| && sum == PowerSum(v[..i], norm)
      {
        assert v[..i + 1][..i] == v[..i];
        sum := sum + Power(Abs(v[i]), norm);
        i := i + 1;
      }
    }
    assert v[..i] == v;
    return root(sum, norm);
  }

  method Normalize(v: seq<real>, norm: int, root: (real, nat) -> real) returns (out: seq<real>)
    ensures out == Normalized(v, norm, root)
  {
    hide Size, Mul;
    var sum := Measure(v, norm, root);
    var factor := 0.0;
    if sum > 0.0 {
      factor := 1.0 / sum;
    }
    var a := new real[|v|];
    var i := 0;
    while i < |v|
      invariant i <= |v| && forall m | 0 <= m < i :: a[m] == Mul(factor, v[m])
    {
      MulCommutes(v[i], factor);
      a[i] := Mul(v[i], factor);
      i := i + 1;
    }
    out := a[..];
  }

  // ---------- Sizes of scaled vectors ----------

  lemma {:induction false} PowerOfProduct(a: real, b: real, n: nat)
    ensures Power(Mul(a, b), n) == Mul(Power(a, n), Power(b, n))
  {
    hide Mul;
    if n == 0 {
      MulUnit(1.0);
    } else {
      PowerOfProduct(a, b, n - 1);
      Interchange(a, b, Power(a, n - 1), Power(b, n - 1));
    }
  }

  lemma Interchange(a: real, b: real, x: real, y: real)
    ensures Mul(Mul(a, b), Mul(x, y)) == Mul(Mul(a, x), Mul(b, y))
  {
    hide Mul;
    MulAssociates(a, b, Mul(x, y));
    MulAssociates(b, x, y);
    MulCommutes(b, x);
    MulAssociates(x, b, y);
    MulAssociates(a, x, Mul(b, y));
  }

  lemma ScaledFront(c: real, v: seq<real>)
    requires v != []
    ensures Scaled(c, v)[..|v| - 1] == Scaled(c, v[..|v| - 1])
  {
    hide Mul;
  }

  lemma AbsScaled(c: real, x: real)
    requires c > 0.0
    ensures Abs(Mul(c, x)) == Mul(c, Abs(x))
  {
    hide Mul;
    MulSign(c, x);
    MulDistributes(c, x, -x);
    MulUnit(c);
  }

  lemma {:induction false} MaxAbsScaled(c: real, v: seq<real>)
    requires c > 0.0
    ensures MaxAbs(Scaled(c, v)) == Mul(c, MaxAbs(v))
  {
    hide Mul, Abs;
    if v == [] {
      MulUnit(c);
    } else {
      var front, last := v[..|v| - 1], v[|v| - 1];
      ScaledFront(c, v);
      MaxAbsScaled(c, front);
      AbsScaled(c, last);
      MulOrder(c, MaxAbs(front), Abs(last));
    }
  }

  lemma {:induction false} PowerSumScaled(c: real, v: seq<real>, p: nat)
    requires c > 0.0
    ensures PowerSum(Scaled(c, v), p) == Mul(Power(c, p), PowerSum(v, p))
  {
    hide Mul, Abs, Power;
    if v == [] {
      MulUnit(Power(c, p));
    } else {
      var front, last := v[..|v| - 1], v[|v| - 1];
      ScaledFront(c, v);
      PowerSumScaled(c, front, p);
      AbsScaled(c, last);
      PowerOfProduct(c, Abs(last), p);
      MulDistributes(Power(c, p), PowerSum(front, p), Power(Abs(last), p));
    }
  }

  lemma {:induction false} PowerOfZero(n: nat)
    requires n > 0
    ensures Power(0.0, n) == 0.0
  {
    MulUnit(Power(0.0, n - 1));
  }

  lemma PowerNonNegative(x: real, n: nat)
    requires x >= 0.0
    ensures Power(x, n) >= 0.0
  {
    hide Mul;
    if x > 0.0 {
      PowerPositive(x, n);
    } else if n > 0 {
      PowerOfZero(n);
    }
  }

  lemma {:induction false} PowerSumNonNegative(v: seq<real>, p: nat)
    ensures PowerSum(v, p) >= 0.0
    ensures forall k | 0 <= k < |v| && v[k] != 0.0 :: PowerSum(v, p) > 0.0
  {
    hide Mul, Power;
    if v != [] {
      PowerSumNonNegative(v[..|v| - 1], p);
      PowerNonNegative(Abs(v[|v| - 1]), p);
      if v[|v| - 1] != 0.0 {
        PowerPositive(Abs(v[|v| - 1]), p);
      }
    }
  }

  lemma {:induction false} PowerGrows(a: real, b: real, n: nat)
    requires 0.0 <= a < b && n >= 1
    ensures Power(a, n) < Power(b, n)
  {
    hide Mul;
    var x, y := Power(a, n - 1), Power(b, n - 1);
    if n == 1 {
      MulUnit(a);
      MulUnit(b);
    } else {
      PowerGrows(a, b, n - 1);
      PowerNonNegative(a, n - 1);
      MulOrder(b, x, y);
      MulLeft(a, b, x);
    }
  }

  lemma MulLeft(a: real, b: real, x: real)
    requires a <= b && x >= 0.0
    ensures Mul(a, x) <= Mul(b, x)
  {
  }

  lemma RootIs(root: (real, nat) -> real, x: real, p: nat, y: real)
    requires IsRoot(root) && p >= 1 && y >= 0.0 && Power(y, p) == x
    ensures root(x, p) == y
  {
    hide Mul, Power;
    PowerNonNegative(y, p);
    var z := root(x, p);
    if z < y {
      PowerGrows(z, y, p);
    } else if y < z {
      PowerGrows(y, z, p);
    }
  }

  /** Scaling a vector scales its size. */
  lemma SizeScaled(c: real, v: seq<real>, norm: int, root: (real, nat) -> real)
    requires c > 0.0 && norm >= 0 && IsRoot(root)
    ensures Size(Scaled(c, v), norm, root) == Mul(c, Size(v, norm, root))
  {
    hide Mul, Power, PowerSum, MaxAbs, Scaled;
    if norm == 0 {
      MaxAbsScaled(c, v);
      QuotientOfProduct(c, MaxAbs(v));
    } else {
      PowerSumScaled(c, v, norm);
      PowerSumNonNegative(v, norm);
      var s := root(PowerSum(v, norm), norm);
      PowerOfProduct(c, s, norm);
      MulSign(c, s);
      RootIs(root, PowerSum(Scaled(c, v), norm), norm, Mul(c, s));
    }
  }

  lemma QuotientOfProduct(c: real, m: real)
    ensures Mul(c, m) / 32760.0 == Mul(c, m / 32760.0)
  {
  }

  ghost predicate IsZero(v: seq<real>) {
    forall j | 0 <= j < |v| :: v[j] == 0.0
  }

  lemma {:induction false} MaxAbsPositive(v: seq<real>)
    ensures MaxAbs(v) >= 0.0 && (IsZero(v) <==> MaxAbs(v) == 0.0)
  {
    if v != [] {
      var front := v[..|v| - 1];
      MaxAbsPositive(front);
      assert v == front + [v[|v| - 1]];
    }
  }

  lemma {:induction false} PowerSumOfZero(v: seq<real>, p: nat)
    requires IsZero(v) && p >= 1
    ensures PowerSum(v, p) == 0.0
  {
    hide Mul, Power;
    if v != [] {
      PowerSumOfZero(v[..|v| - 1], p);
      PowerOfZero(p);
    }
  }

  /** The size is zero exactly for the zero vector. */
  lemma SizePositive(v: seq<real>, norm: int, root: (real, nat) -> real)
    requires norm >= 0 && IsRoot(root)
    ensures Size(v, norm, root) >= 0.0 && (IsZero(v) <==> Size(v, norm, root) == 0.0)
  {
    hide Mul, Power, PowerSum, MaxAbs;
    if norm == 0 {
      MaxAbsPositive(v);
    } else {
      PowerSumNonNegative(v, norm);
      PowerOfZero(norm);
      if IsZero(v) {
        PowerSumOfZero(v, norm);
        RootIs(root, 0.0, norm, 0.0);
      }
    }
  }

  // ---------- What normalization gives ----------

  lemma ScaleTwice(a: real, b: real, v: seq<real>)
    ensures Scaled(a, Scaled(b, v)) == Scaled(Mul(a, b), v)
  {
    hide Mul;
    forall j | 0 <= j < |v| ensures Mul(a, Mul(b, v[j])) == Mul(Mul(a, b), v[j]) {
      MulAssociates(a, b, v[j]);
    }
  }

  lemma ScaleByOne(v: seq<real>)
    ensures Scaled(1.0, v) == v
  {
    forall j | 0 <= j < |v| ensures Mul(1.0, v[j]) == v[j] {
      MulUnit(v[j]);
    }
  }

  lemma ScaleByZero(c: real, v: seq<real>)
    requires IsZero(v)
    ensures Scaled(c, v) == v
  {
    forall j | 0 <= j < |v| ensures Mul(c, v[j]) == v[j] {
      MulUnit(c);
    }
  }

  /** A nonzero vector comes out with size one: greatest value 32760, or power sum one. */
  lemma NormalizedSize(v: seq<real>, norm: int, root: (real, nat) -> real)
    requires norm >= 0 && IsRoot(root) && !IsZero(v)
    ensures Size(Normalized(v, norm, root), norm, root) == 1.0
    ensures norm == 0 ==> MaxAbs(Normalized(v, norm, root)) == 32760.0
    ensures norm >= 1 ==> PowerSum(Normalized(v, norm, root), norm) == 1.0
  {
    hide Mul, Power, PowerSum, MaxAbs, Scaled, IsZero;
    var s := Size(v, norm, root);
    SizePositive(v, norm, root);
    Reciprocal(s);
    SizeScaled(1.0 / s, v, norm, root);
    if norm >= 1 {
      PowerSumNonNegative(Normalized(v, norm, root), norm);
      PowerOfOne(norm);
    }
  }

  /** Normalizing twice is normalizing once, for every norm and every vector. */
  lemma NormalizeTwice(v: seq<real>, norm: int, root: (real, nat) -> real)
    requires IsRoot(root)
    ensures var once := Normalized(v, norm, root); Normalized(once, norm, root) == once
  {
    hide Size, IsRoot, Mul;
    var once := Normalized(v, norm, root);
    if norm < 0 {
      SizeOfNone(once, root, norm);
      ScaleByOne(once);
    } else if IsZero(v) {
      ScaleByZero(Factor(Size(v, norm, root)), v);
    } else {
      NormalizedSize(v, norm, root);
      ScaleByOne(once);
    }
  }

  lemma SizeOfNone(v: seq<real>, root: (real, nat) -> real, norm: int)
    requires norm < 0
    ensures Size(v, norm, root) == 1.0 && Normalized(v, norm, root) == v
  {
    ScaleByOne(v);
  }

  /** A positive factor on the vector does not show in the result. */
  lemma NormalizeIgnoresScale(c: real, v: seq<real>, norm: int, root: (real, nat) -> real)
    requires c > 0.0 && norm >= 0 && IsRoot(root)
    ensures Normalized(Scaled(c, v), norm, root) == Normalized(v, norm, root)
  {
    hide Size, IsRoot, Mul, Scaled;
    var s := Size(v, norm, root);
    SizeScaled(c, v, norm, root);
    SizePositive(v, norm, root);
    ScaleTwice(Factor(Mul(c, s)), c, v);
    MulSign(c, s);
    if s > 0.0 {
      Cancel(c, s);
    } else {
      MulUnit(c);
    }
  }

  lemma Cancel(c: real, s: real)
    requires c > 0.0 && s > 0.0
    ensures Mul(c, s) > 0.0 && Mul(1.0 / Mul(c, s), c) == 1.0 / s
  {
    hide Mul;
    MulSign(c, s);
    var q := 1.0 / Mul(c, s);
    Reciprocal(Mul(c, s));
    MulAssociates(q, c, s);
    Reciprocal(s);
    MulCommutes(1.0 / s, s);
    MulAssociates(Mul(q, c), s, 1.0 / s);
    MulUnit(Mul(q, c));
    MulUnit(1.0 / s);
  }

  /** Dividing by the number of tokens or by the sum of the weights does not affect the embedding. */
  lemma DivisionDoesNotMatter(vecs: seq<seq<real>>, r: real, dim: nat, norm: int, root: (real, nat) -> real)
    requires vecs != [] && Uniform(vecs, dim) && 0.0 < r && norm >= 0 && IsRoot(root)
    ensures Normalized(Mean(vecs, dim), norm, root) == Normalized(Sums(vecs, dim), norm, root)
    ensures Normalized(DecayedMean(vecs, r, dim), norm, root) == Normalized(DecayedSums(vecs, r, dim), norm, root)
  {
    hide Normalized, IsRoot, Mul, Scaled, WeightSum;
    Reciprocal(|vecs| as real);
    NormalizeIgnoresScale(1.0 / |vecs| as real, Sums(vecs, dim), norm, root);
    WeightSumPositive(r, |vecs|, |vecs|);
    Reciprocal(WeightSum(r, |vecs|, |vecs|));
    NormalizeIgnoresScale(1.0 / WeightSum(r, |vecs|, |vecs|), DecayedSums(vecs, r, dim), norm, root);
  }

  // ---------- The whole reduction ----------

  const MEAN := "mean"
  const LAST := "last"
  const DECAYED_MEAN := "decayed_mean"

  /**
   The reduction of a payload. `decay` is the decay of the half-life given, and
   `defaultDecay` that of the default half-life, which a half-life that is not positive
   stands for. A bad shape is reported before an unknown scheme.
   */
  method PoolEmbedding(flat: seq<real>, tokens: int, dim: int, scheme: string, halfLife: real, decay: real,
                       defaultDecay: real, norm: int, root: (real, nat) -> real)
    returns (out: Result<seq<real>>, ghost rows: seq<seq<real>>)
    requires 0.0 < defaultDecay < 1.0 && (halfLife > 0.0 ==> 0.0 < decay < 1.0)
    ensures out == InvalidShape <==> tokens <= 0 || dim <= 0
    ensures out == ShapeMismatch <==> tokens > 0 && dim > 0 && |flat| != tokens * dim
    ensures tokens > 0 && dim > 0 && |flat| == tokens * dim ==>
              && |rows| == tokens && Uniform(rows, dim) && Concat(rows) == flat
              && out == if scheme == "mean" then Ok(Normalized(Mean(rows, dim), norm, root))
                        else if scheme == "last" then Ok(Normalized(rows[tokens - 1], norm, root))
                        else if scheme == "decayed_mean" then
                          Ok(Normalized(DecayedMean(rows, if halfLife > 0.0 then decay else defaultDecay, dim), norm, root))
                        else UnknownScheme
  {
    hide Mean, DecayedMean, Normalized;
    rows := [];
    var shaped := Reshape(flat, tokens, dim);
    if !shaped.Ok? {
      return if shaped.InvalidShape? then InvalidShape else ShapeMismatch, rows;
    }
    var vecs := shaped.value;
    rows := vecs;
    var pooled: seq<real>;
    if scheme == MEAN {
      pooled := PoolMean(vecs);
    } else if scheme == LAST {
      pooled := vecs[|vecs| - 1];
    } else if scheme == DECAYED_MEAN {
      pooled := PoolDecayedMean(vecs, if halfLife <= 0.0 then defaultDecay else decay);
    } else {
      return UnknownScheme, rows;
    }
    var normal := Normalize(pooled, norm, root);
    out := Ok(normal);
  }
}
