/** The sums of deform_affine: `iter().sum()` over the weights and the folds
    `fold(zero(), |acc, x| acc + x)` over points and matrices. Each is a left
    fold over the sequence, so the last element is added last. */
module Sums {
  import Vectors
  import Matrices

  /** The sum of the weights, w_sum. A sum of non-negative terms is
      non-negative, and a non-empty sum of positive terms is positive. */
  function SumReals(xs: seq<real>): (r: real)
    ensures (forall i :: 0 <= i < |xs| ==> xs[i] >= 0.0) ==> r >= 0.0
    ensures |xs| > 0 && (forall i :: 0 <= i < |xs| ==> xs[i] > 0.0) ==> r > 0.0
  {
    if |xs| == 0 then 0.0 else SumReals(xs[..|xs| - 1]) + xs[|xs| - 1]
  }

  /** The fold of point addition from the origin. */
  function SumPoints(ps: seq<Vectors.Point>): Vectors.Point {
    if |ps| == 0 then Vectors.Zero() else Vectors.Add(SumPoints(ps[..|ps| - 1]), ps[|ps| - 1])
  }

  /** The fold of matrix addition from the zero matrix. A sum of symmetric
      matrices is symmetric. */
  function SumMats(ms: seq<Matrices.Mat2>): (r: Matrices.Mat2)
    ensures (forall i :: 0 <= i < |ms| ==> Matrices.Symmetric(ms[i])) ==> Matrices.Symmetric(r)
  {
    if |ms| == 0 then Matrices.Zero() else Matrices.Add(SumMats(ms[..|ms| - 1]), ms[|ms| - 1])
  }

  /** The terms w_i * p_i of a weighted sum, paired by index as `zip` pairs them. */
  function Weighted(w: seq<real>, ps: seq<Vectors.Point>): seq<Vectors.Point>
    requires |w| == |ps|
  {
    seq(|ps|, i requires 0 <= i < |ps| => Vectors.Scale(w[i], ps[i]))
  }

  /** Pairing commutes with taking a prefix: the first n terms are the terms
      of the first n weights and points, so a fold over the terms can be
      split at any n. */
  lemma WeightedPrefix(w: seq<real>, ps: seq<Vectors.Point>, n: nat)
    requires |w| == |ps| && n <= |ps|
    ensures |Weighted(w, ps)| == |ps|
    ensures Weighted(w, ps)[..n] == Weighted(w[..n], ps[..n])
  {
  }

  /** The fold of point addition does not depend on how the terms are grouped:
      summing a concatenation sums each part. */
  lemma {:induction false} SumPointsConcat(a: seq<Vectors.Point>, b: seq<Vectors.Point>)
    ensures SumPoints(a + b) == Vectors.Add(SumPoints(a), SumPoints(b))
    decreases |b|
  {
    if |b| == 0 {
      assert a + b == a;
    } else {
      var b' := b[..|b| - 1];
      assert (a + b)[..|a + b| - 1] == a + b';
      SumPointsConcat(a, b');
      Vectors.AddCommutativeAssociative(SumPoints(a), SumPoints(b'), b[|b| - 1]);
    }
  }

  /** A weighted sum of points that all move by t moves by (sum of the weights) * t. */
  lemma {:induction false} WeightedSumTranslated(w: seq<real>, ps: seq<Vectors.Point>, t: Vectors.Point)
    requires |w| == |ps|
    ensures SumPoints(Weighted(w, Translated(ps, t)))
         == Vectors.Add(SumPoints(Weighted(w, ps)), Vectors.Scale(SumReals(w), t))
    decreases |ps|
  {
    if |ps| == 0 {
      Vectors.ScaleScale(0.0, 0.0, t);
      assert Vectors.Scale(0.0, t) == Vectors.Zero();
    } else {
      var n := |ps| - 1;
      assert Translated(ps, t)[..n] == Translated(ps[..n], t);
      WeightedPrefix(w, Translated(ps, t), n);
      WeightedPrefix(w, ps, n);
      WeightedSumTranslated(w[..n], ps[..n], t);
      var s, wt := SumPoints(Weighted(w[..n], ps[..n])), Vectors.Scale(SumReals(w[..n]), t);
      Vectors.ScaleDistributes(w[n], ps[n], t);
      Vectors.ScaleAddsScalars(SumReals(w[..n]), w[n], t);
      var wp, wnt := Vectors.Scale(w[n], ps[n]), Vectors.Scale(w[n], t);
      Vectors.AddCommutativeAssociative(s, wt, Vectors.Add(wp, wnt));
      Vectors.AddCommutativeAssociative(wt, wp, wnt);
      Vectors.AddCommutativeAssociative(wp, wt, wnt);
      Vectors.AddCommutativeAssociative(s, wp, Vectors.Add(wt, wnt));
    }
  }

  /** A weighted sum of the differences p_i - c is the weighted sum of the p_i
      less (sum of the weights) * c. */
  lemma {:induction false} WeightedSumCentred(w: seq<real>, ps: seq<Vectors.Point>, c: Vectors.Point)
    requires |w| == |ps|
    ensures SumPoints(Weighted(w, Centred(ps, c)))
         == Vectors.Sub(SumPoints(Weighted(w, ps)), Vectors.Scale(SumReals(w), c))
    decreases |ps|
  {
    if |ps| == 0 {
      Vectors.ScaleScale(0.0, 0.0, c);
      assert Vectors.Scale(0.0, c) == Vectors.Zero();
    } else {
      var n := |ps| - 1;
      assert Centred(ps, c)[..n] == Centred(ps[..n], c);
      WeightedPrefix(w, Centred(ps, c), n);
      WeightedPrefix(w, ps, n);
      WeightedSumCentred(w[..n], ps[..n], c);
      Vectors.ScaleDistributes(w[n], ps[n], c);
      Vectors.ScaleAddsScalars(SumReals(w[..n]), w[n], c);
    }
  }

  /** The points p_i + t. */
  function Translated(ps: seq<Vectors.Point>, t: Vectors.Point): (r: seq<Vectors.Point>)
    ensures |r| == |ps|
    ensures forall i :: 0 <= i < |r| ==> Vectors.Sub(r[i], t) == ps[i]
  {
    seq(|ps|, i requires 0 <= i < |ps| => Vectors.Add(ps[i], t))
  }

  /** The points p_i - c, as `p_hat` holds them for c = p*. */
  function Centred(ps: seq<Vectors.Point>, c: Vectors.Point): (r: seq<Vectors.Point>)
    ensures |r| == |ps|
    ensures forall i :: 0 <= i < |r| ==> Vectors.Add(r[i], c) == ps[i]
  {
    seq(|ps|, i requires 0 <= i < |ps| => Vectors.Sub(ps[i], c))
  }

  /** A fold of point addition over origins is the origin. */
  lemma {:induction false} SumPointsOfZeros(ps: seq<Vectors.Point>)
    requires forall i :: 0 <= i < |ps| ==> ps[i] == Vectors.Zero()
    ensures SumPoints(ps) == Vectors.Zero()
    decreases |ps|
  {
    if |ps| > 0 {
      SumPointsOfZeros(ps[..|ps| - 1]);
    }
  }

  /** A fold of matrix addition over zero matrices is the zero matrix. */
  lemma {:induction false} SumMatsOfZeros(ms: seq<Matrices.Mat2>)
    requires forall i :: 0 <= i < |ms| ==> ms[i] == Matrices.Zero()
    ensures SumMats(ms) == Matrices.Zero()
    decreases |ms|
  {
    if |ms| > 0 {
      var n := |ms| - 1;
      SumMatsOfZeros(ms[..n]);
      assert ms[n] == Matrices.Zero();
      assert Matrices.Add(Matrices.Zero(), Matrices.Zero()) == Matrices.Zero();
    }
  }
}
