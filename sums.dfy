/** Finite sums and weighted sums of real columns. */
module Sums {

  function Sum(s: seq<real>): real
  {
    if s == [] then 0.0 else s[0] + Sum(s[1..])
  }

  /** The sum of `f` over the elements of `s`. */
  function SumOf<T>(s: seq<T>, f: T -> real): real
  {
    if s == [] then 0.0 else f(s[0]) + SumOf(s[1..], f)
  }

  /** Σ w[i] * x[i], the matrix product `weights @ column` for one target. */
  function Dot(w: seq<real>, x: seq<real>): real
    requires |w| == |x|
  {
    if w == [] then 0.0 else w[0] * x[0] + Dot(w[1..], x[1..])
  }

  /** Element-wise division of a column by a scalar. */
  function Divide(s: seq<real>, d: real): (r: seq<real>)
    requires d != 0.0
    ensures |r| == |s| && forall i :: 0 <= i < |s| ==> r[i] == s[i] / d
  {
    seq(|s|, i requires 0 <= i < |s| => s[i] / d)
  }

  lemma DivTimes(a: real, d: real)
    requires d != 0.0
    ensures (a / d) * d == a
  {
  }

  /** Dividing a non-negative column by a positive scalar keeps it non-negative and is undone by
      multiplying back. */
  lemma DivideByPositive(s: seq<real>, d: real)
    requires NonNegative(s) && d > 0.0
    ensures NonNegative(Divide(s, d))
    ensures forall i :: 0 <= i < |s| ==> Divide(s, d)[i] * d == s[i]
  {
    forall i | 0 <= i < |s| ensures Divide(s, d)[i] * d == s[i] && Divide(s, d)[i] >= 0.0 {
      DivTimes(s[i], d);
    }
  }

  /** A column holding `v` in each of `n` rows. */
  function Const(n: nat, v: real): (r: seq<real>)
    ensures |r| == n && forall i :: 0 <= i < n ==> r[i] == v
  {
    seq(n, i => v)
  }

  ghost predicate NonNegative(s: seq<real>)
  {
    forall i :: 0 <= i < |s| ==> s[i] >= 0.0
  }

  lemma {:induction false} SumAppend(a: seq<real>, b: seq<real>)
    ensures Sum(a + b) == Sum(a) + Sum(b)
  {
    if a == [] {
      assert a + b == b;
    } else {
      assert (a + b)[1..] == a[1..] + b;
      SumAppend(a[1..], b);
    }
  }

  lemma {:induction false} SumNonNegative(s: seq<real>)
    requires NonNegative(s)
    ensures Sum(s) >= 0.0
  {
    if s != [] { SumNonNegative(s[1..]); }
  }

  /** A sum of non-negative terms is zero only when every term is. */
  lemma {:induction false} SumZeroIffAllZero(s: seq<real>)
    requires NonNegative(s)
    ensures Sum(s) == 0.0 <==> forall i :: 0 <= i < |s| ==> s[i] == 0.0
  {
    if s != [] {
      SumZeroIffAllZero(s[1..]);
      SumNonNegative(s[1..]);
      if Sum(s) == 0.0 {
        forall i | 0 <= i < |s| ensures s[i] == 0.0 {
          if i > 0 { assert s[i] == s[1..][i - 1]; }
        }
      } else {
        // nothing more: the right-hand side fails at some index
      }
      if forall i :: 0 <= i < |s| ==> s[i] == 0.0 {
        assert forall i :: 0 <= i < |s[1..]| ==> s[1..][i] == s[i + 1];
      }
    }
  }

  lemma {:induction false} SumDivide(s: seq<real>, d: real)
    requires d != 0.0
    ensures Sum(Divide(s, d)) == Sum(s) / d
  {
    if s != [] {
      assert Divide(s, d)[1..] == Divide(s[1..], d);
      SumDivide(s[1..], d);
    }
  }

  /** An element of a non-negative column is at most the column's sum. */
  lemma {:induction false} ElementAtMostSum(s: seq<real>, i: nat)
    requires NonNegative(s) && i < |s|
    ensures s[i] <= Sum(s)
  {
    if i == 0 {
      SumNonNegative(s[1..]);
    } else {
      ElementAtMostSum(s[1..], i - 1);
    }
  }

  lemma {:induction false} DotConst(w: seq<real>, v: real)
    ensures Dot(w, Const(|w|, v)) == Sum(w) * v
  {
    if w != [] {
      assert Const(|w|, v)[1..] == Const(|w| - 1, v);
      DotConst(w[1..], v);
    }
  }

  /** Weighted sums commute with an affine rescaling `a * x + b` of the column. */
  lemma {:induction false} DotAffine(w: seq<real>, x: seq<real>, y: seq<real>, a: real, b: real)
    requires |w| == |x| == |y|
    requires forall i :: 0 <= i < |x| ==> y[i] == a * x[i] + b
    ensures Dot(w, y) == a * Dot(w, x) + b * Sum(w)
  {
    if w != [] {
      DotAffine(w[1..], x[1..], y[1..], a, b);
      MulAdd(w[0], a * x[0], b, y[0]);
      MulAdd(a, w[0] * x[0], Dot(w[1..], x[1..]), Dot(w, x));
      MulAdd(b, w[0], Sum(w[1..]), Sum(w));
    }
  }

  lemma MulAdd(c: real, p: real, q: real, s: real)
    requires s == p + q
    ensures c * s == c * p + c * q
  {
  }

  lemma MulOne(c: real, s: real)
    requires s == 1.0
    ensures c * s == c
  {
  }

  lemma {:induction false} DotAdd(w: seq<real>, x: seq<real>, y: seq<real>, z: seq<real>)
    requires |w| == |x| == |y| == |z|
    requires forall i :: 0 <= i < |x| ==> z[i] == x[i] + y[i]
    ensures Dot(w, z) == Dot(w, x) + Dot(w, y)
  {
    if w != [] {
      DotAdd(w[1..], x[1..], y[1..], z[1..]);
      assert w[0] * z[0] == w[0] * x[0] + w[0] * y[0];
    }
  }

  /** With non-negative weights, a weighted sum is bounded by the bounds of the column on the
      rows of positive weight, scaled by the total weight. */
  lemma DotBounds(w: seq<real>, x: seq<real>, lo: real, hi: real)
    requires |w| == |x| && NonNegative(w)
    requires forall i :: 0 <= i < |x| && w[i] > 0.0 ==> lo <= x[i] <= hi
    ensures lo * Sum(w) <= Dot(w, x) <= hi * Sum(w)
  {
    DotMonotone(w, Const(|w|, lo), x);
    DotMonotone(w, x, Const(|w|, hi));
    DotConst(w, lo);
    DotConst(w, hi);
  }

  /** Weighted sums with non-negative weights are monotone in the column, on the rows of
      positive weight. */
  lemma {:induction false} DotMonotone(w: seq<real>, x: seq<real>, y: seq<real>)
    requires |w| == |x| == |y| && NonNegative(w)
    requires forall i :: 0 <= i < |x| && w[i] > 0.0 ==> x[i] <= y[i]
    ensures Dot(w, x) <= Dot(w, y)
  {
    if w != [] {
      DotMonotone(w[1..], x[1..], y[1..]);
      if w[0] > 0.0 {
        assert w[0] * x[0] <= w[0] * y[0];
      } else {
        assert w[0] == 0.0;
      }
    }
  }

  /** Summing `a * x[j] + y[j]` over the columns: the scale and the sum separate. */
  lemma {:induction false} SumScaleAdd(x: seq<real>, y: seq<real>, z: seq<real>, a: real)
    requires |x| == |y| == |z|
    requires forall j :: 0 <= j < |z| ==> z[j] == a * x[j] + y[j]
    ensures Sum(z) == a * Sum(x) + Sum(y)
  {
    if z != [] {
      SumScaleAdd(x[1..], y[1..], z[1..], a);
    }
  }

  lemma {:induction false} DotZeroWeights(w: seq<real>, x: seq<real>)
    requires |w| == |x| && forall i :: 0 <= i < |w| ==> w[i] == 0.0
    ensures Dot(w, x) == 0.0
  {
    if w != [] { DotZeroWeights(w[1..], x[1..]); }
  }
}
