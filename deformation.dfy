/** deform_affine: the affine Moving Least Squares deformation of one query
    point v (Schaefer, McPhail and Warren, "Image Deformation Using Moving
    Least Squares", 2006, section 2.1), from the weights to the linear part
    M = Mp^-1 * Mq. The source ends at M, before the projection of v. */
module Deformation {
  import opened Options
  import Matrices
  import Vectors
  import Sums

  type Point = Vectors.Point
  type Mat2 = Matrices.Mat2

  /** The squared distance |p - v|^2: never negative, and zero exactly when p is v. */
  function SqrDist(p: Point, v: Point): (r: real)
    ensures r >= 0.0
    ensures r == 0.0 <==> p == v
  {
    Vectors.SqrNorm(Vectors.Sub(p, v))
  }

  /** The weight 1 / |p - v|^2 of a control point p that is not v: a positive
      number, the reciprocal of the squared distance. */
  function Weight(p: Point, v: Point): (w: real)
    requires p != v
    ensures w > 0.0
    ensures w * SqrDist(p, v) == 1.0
  {
    1.0 / SqrDist(p, v)
  }

  /** The weights w_all of the control points, none of which is v: one per
      point, in order, and their sum w_sum is positive. */
  function Weights(ps: seq<Point>, v: Point): (w: seq<real>)
    requires forall i :: 0 <= i < |ps| ==> ps[i] != v
    ensures |w| == |ps|
    ensures forall i :: 0 <= i < |ps| ==> w[i] > 0.0 && w[i] * SqrDist(ps[i], v) == 1.0
    ensures |ps| > 0 ==> Sums.SumReals(w) > 0.0
  {
    seq(|ps|, i requires 0 <= i < |ps| => Weight(ps[i], v))
  }

  /** The index of the first control point at squared distance zero from v,
      the first one whose weight is infinite; None when v is none of them. */
  function FirstCoincident(ps: seq<Point>, v: Point): (r: Option<nat>)
    ensures r.Some? ==> r.value < |ps| && ps[r.value] == v
    ensures r.Some? ==> forall i :: 0 <= i < r.value ==> ps[i] != v
    ensures r.None? <==> forall i :: 0 <= i < |ps| ==> ps[i] != v
  {
    if |ps| == 0 then None
    else if ps[0] == v then Some(0)
    else match FirstCoincident(ps[1..], v)
      case None => None
      case Some(k) => Some(k + 1)
  }

  /** The weighted centroid (1 / w_sum) * sum w_i p_i: the point c with
      w_sum * c equal to the weighted sum. */
  function Centroid(w: seq<real>, ps: seq<Point>): (c: Point)
    requires |w| == |ps|
    requires Sums.SumReals(w) != 0.0
    ensures Vectors.Scale(Sums.SumReals(w), c) == Sums.SumPoints(Sums.Weighted(w, ps))
  {
    var total, s := Sums.SumReals(w), Sums.SumPoints(Sums.Weighted(w, ps));
    Rescale(total, s);
    Vectors.Scale(1.0 / total, s)
  }

  /** The points centred on their weighted centroid, p_hat_i = p_i - p*,
      balance: their weighted sum is the origin. */
  lemma CentredPointsBalance(w: seq<real>, ps: seq<Point>)
    requires |w| == |ps|
    requires Sums.SumReals(w) != 0.0
    ensures Sums.SumPoints(Sums.Weighted(w, Sums.Centred(ps, Centroid(w, ps)))) == Vectors.Zero()
  {
    Sums.WeightedSumCentred(w, ps, Centroid(w, ps));
  }

  /** Dividing by a non-zero scalar and multiplying back gives the point back. */
  lemma Rescale(c: real, p: Point)
    requires c != 0.0
    ensures Vectors.Scale(c, Vectors.Scale(1.0 / c, p)) == p
  {
    Vectors.ScaleScale(c, 1.0 / c, p);
    Reciprocal(c);
  }

  /** A non-zero real times its reciprocal, in either order, is one. */
  lemma Reciprocal(c: real)
    requires c != 0.0
    ensures c * (1.0 / c) == 1.0 && (1.0 / c) * c == 1.0
  {
  }

  /** The terms w_i * p_hat_i p_hat_i^T of Mp: one per centred point, each
      symmetric. */
  function MomentPTerms(w: seq<real>, pHat: seq<Point>): (ts: seq<Mat2>)
    requires |w| == |pHat|
    ensures |ts| == |pHat|
    ensures forall i :: 0 <= i < |ts| ==> Matrices.Symmetric(ts[i])
  {
    MomentPTermsSymmetric(w, pHat);
    seq(|pHat|, i requires 0 <= i < |pHat| => Matrices.Scale(w[i], Vectors.TimesTranspose(pHat[i], pHat[i])))
  }

  /** Mp = sum w_i p_hat_i p_hat_i^T, the weighted second moment of the
      centred control points: a symmetric matrix. */
  function MomentP(w: seq<real>, pHat: seq<Point>): (mp: Mat2)
    requires |w| == |pHat|
    ensures Matrices.Symmetric(mp)
  {
    Sums.SumMats(MomentPTerms(w, pHat))
  }

  /** Every weighted square w_i * p_hat_i p_hat_i^T is symmetric. */
  lemma MomentPTermsSymmetric(w: seq<real>, pHat: seq<Point>)
    requires |w| == |pHat|
    ensures forall i :: 0 <= i < |pHat| ==>
      Matrices.Symmetric(Matrices.Scale(w[i], Vectors.TimesTranspose(pHat[i], pHat[i])))
  {
    forall i | 0 <= i < |pHat|
      ensures Matrices.Symmetric(Matrices.Scale(w[i], Vectors.TimesTranspose(pHat[i], pHat[i])))
    {
      Vectors.OuterProduct(pHat[i], pHat[i], pHat[i]);
      Matrices.ScaleSymmetric(w[i], Vectors.TimesTranspose(pHat[i], pHat[i]));
    }
  }

  /** The terms (w_i * p_hat_i) q_hat_i^T of Mq, with q_hat_i = q_i - q*:
      one per control point, each w_i times the outer product p_hat_i q_hat_i^T. */
  function MomentQTerms(w: seq<real>, pHat: seq<Point>, qs: seq<Point>, qStar: Point): (ts: seq<Mat2>)
    requires |w| == |pHat| == |qs|
    ensures |ts| == |pHat|
    ensures forall i :: 0 <= i < |ts| ==>
      ts[i] == Matrices.Scale(w[i], Vectors.TimesTranspose(pHat[i], Vectors.Sub(qs[i], qStar)))
  {
    WeightedOuterProducts(w, pHat, qs, qStar);
    seq(|pHat|, i requires 0 <= i < |pHat| =>
      Vectors.TimesTranspose(Vectors.Scale(w[i], pHat[i]), Vectors.Sub(qs[i], qStar)))
  }

  /** Weighting the left factor of each outer product weights the product. */
  lemma WeightedOuterProducts(w: seq<real>, pHat: seq<Point>, qs: seq<Point>, qStar: Point)
    requires |w| == |pHat| == |qs|
    ensures forall i :: 0 <= i < |pHat| ==>
      Vectors.TimesTranspose(Vectors.Scale(w[i], pHat[i]), Vectors.Sub(qs[i], qStar))
      == Matrices.Scale(w[i], Vectors.TimesTranspose(pHat[i], Vectors.Sub(qs[i], qStar)))
  {
    forall i | 0 <= i < |pHat|
      ensures Vectors.TimesTranspose(Vectors.Scale(w[i], pHat[i]), Vectors.Sub(qs[i], qStar))
           == Matrices.Scale(w[i], Vectors.TimesTranspose(pHat[i], Vectors.Sub(qs[i], qStar)))
    {
      Vectors.TimesTransposeScaleLeft(w[i], pHat[i], Vectors.Sub(qs[i], qStar));
    }
  }

  /** Mq = sum w_i p_hat_i q_hat_i^T. */
  function MomentQ(w: seq<real>, pHat: seq<Point>, qs: seq<Point>, qStar: Point): Mat2
    requires |w| == |pHat| == |qs|
  {
    Sums.SumMats(MomentQTerms(w, pHat, qs, qStar))
  }

  /** When every centred target equals its centred source, Mq is Mp. */
  lemma MomentQMatchesMomentP(w: seq<real>, pHat: seq<Point>, qs: seq<Point>, qStar: Point)
    requires |w| == |pHat| == |qs|
    requires forall i :: 0 <= i < |qs| ==> Vectors.Sub(qs[i], qStar) == pHat[i]
    ensures MomentQ(w, pHat, qs, qStar) == MomentP(w, pHat)
  {
    var tq, tp := MomentQTerms(w, pHat, qs, qStar), MomentPTerms(w, pHat);
    assert tq == tp;
  }

  /** What deform_affine has computed when it stops:
      - Interpolated: v is a control point, and the result is its target;
      - Affine: the centroids, Mp, Mq and M = Mp^-1 * Mq;
      - Singular: Mp has determinant zero, so Mp^-1 does not exist (the
        source's inverse then holds infinities or NaN). */
  datatype Estimate =
    | Interpolated(target: Point)
    | Affine(pStar: Point, qStar: Point, mp: Mat2, mq: Mat2, m: Mat2)
    | Singular(pStar: Point, qStar: Point, mp: Mat2, mq: Mat2)

  /** deform_affine up to M, for |P| = |Q| >= 1 control pairs:
      - v is a control point exactly when the result is Interpolated, and the
        target is that of the first control point equal to v;
      - otherwise Mp is symmetric, and either its determinant is non-zero and
        M solves Mp * M = Mq, or its determinant is zero. */
  function DeformAffine(ps: seq<Point>, qs: seq<Point>, v: Point): (e: Estimate)
    requires |ps| == |qs| >= 1
    ensures e.Interpolated? <==> exists i :: 0 <= i < |ps| && ps[i] == v
    ensures e.Interpolated? ==>
      exists j :: 0 <= j < |ps| && ps[j] == v && e.target == qs[j] && forall i :: 0 <= i < j ==> ps[i] != v
    ensures !e.Interpolated? ==> Matrices.Symmetric(e.mp)
    ensures e.Affine? ==> Matrices.Det(e.mp) != 0.0 && Matrices.Mul(e.mp, e.m) == e.mq
    ensures e.Singular? ==> Matrices.Det(e.mp) == 0.0
  {
    match FirstCoincident(ps, v)
    case Some(j) => Interpolated(qs[j])
    case None =>
      var w := Weights(ps, v);
      var pStar := Centroid(w, ps);
      var qStar := Centroid(w, qs);
      var pHat := Sums.Centred(ps, pStar);
      var mp := MomentP(w, pHat);
      var mq := MomentQ(w, pHat, qs, qStar);
      if Matrices.Det(mp) != 0.0 then
        Matrices.InvSolves(mp, mq);
        Affine(pStar, qStar, mp, mq, Matrices.Mul(Matrices.Inv(mp), mq))
      else
        Singular(pStar, qStar, mp, mq)
  }

  /** Outside the interpolation branch, DeformAffine's p* and q* are the
      weighted centroids of the control points and of their targets under
      the weights 1 / |p_i - v|^2, Mp and Mq are the moments of the points
      centred on them, and the centred points p_hat_i = p_i - p* balance:
      their weighted sum is the origin. */
  lemma DeformAffineBalance(ps: seq<Point>, qs: seq<Point>, v: Point)
    requires |ps| == |qs| >= 1
    requires forall i :: 0 <= i < |ps| ==> ps[i] != v
    ensures var e := DeformAffine(ps, qs, v);
      && !e.Interpolated?
      && e.pStar == Centroid(Weights(ps, v), ps)
      && e.qStar == Centroid(Weights(ps, v), qs)
      && e.mp == MomentP(Weights(ps, v), Sums.Centred(ps, e.pStar))
      && e.mq == MomentQ(Weights(ps, v), Sums.Centred(ps, e.pStar), qs, e.qStar)
      && Sums.SumPoints(Sums.Weighted(Weights(ps, v), Sums.Centred(ps, e.pStar))) == Vectors.Zero()
  {
    var w := Weights(ps, v);
    var pStar, qStar := Centroid(w, ps), Centroid(w, qs);
    var pHat := Sums.Centred(ps, pStar);
    var mp, mq := MomentP(w, pHat), MomentQ(w, pHat, qs, qStar);
    assert DeformAffine(ps, qs, v) == if Matrices.Det(mp) != 0.0
      then Affine(pStar, qStar, mp, mq, Matrices.Mul(Matrices.Inv(mp), mq))
      else Singular(pStar, qStar, mp, mq);
    CentredPointsBalance(w, ps);
  }

  /** Translation law up to M: when every target is its source moved by t,
      an interpolated result is v moved by t; otherwise q* is p* moved by t,
      every centred target equals its centred source, Mq is Mp, and M is
      the identity. */
  lemma TranslationLaw(ps: seq<Point>, qs: seq<Point>, v: Point, t: Point)
    requires |ps| == |qs| >= 1
    requires forall i :: 0 <= i < |ps| ==> qs[i] == Vectors.Add(ps[i], t)
    ensures DeformAffine(ps, qs, v).Interpolated? ==> DeformAffine(ps, qs, v).target == Vectors.Add(v, t)
    ensures !DeformAffine(ps, qs, v).Interpolated? ==>
      var e := DeformAffine(ps, qs, v);
      && e.qStar == Vectors.Add(e.pStar, t)
      && (forall i :: 0 <= i < |qs| ==> Vectors.Sub(qs[i], e.qStar) == Vectors.Sub(ps[i], e.pStar))
      && e.mq == e.mp
    ensures DeformAffine(ps, qs, v).Affine? ==> DeformAffine(ps, qs, v).m == Matrices.Identity()
  {
    var e := DeformAffine(ps, qs, v);
    if !e.Interpolated? {
      var w := Weights(ps, v);
      var pStar, qStar := Centroid(w, ps), Centroid(w, qs);
      var pHat := Sums.Centred(ps, pStar);
      assert qStar == Vectors.Add(pStar, t) by {
        assert qs == Sums.Translated(ps, t);
        Sums.WeightedSumTranslated(w, ps, t);
        TranslatedCentroid(Sums.SumReals(w), pStar, qStar, t);
      }
      assert forall i :: 0 <= i < |qs| ==> Vectors.Sub(qs[i], qStar) == pHat[i] by {
        forall i | 0 <= i < |qs|
          ensures Vectors.Sub(qs[i], qStar) == pHat[i]
        {
          Vectors.SubTranslated(ps[i], pStar, t);
        }
      }
      MomentQMatchesMomentP(w, pHat, qs, qStar);
      var mp := MomentP(w, pHat);
      assert e == if Matrices.Det(mp) != 0.0
        then Affine(pStar, qStar, mp, mp, Matrices.Mul(Matrices.Inv(mp), mp))
        else Singular(pStar, qStar, mp, mp);
    }
  }

  /** A centroid that solves total * q = total * p + total * t, for a
      non-zero total, is p + t. */
  lemma TranslatedCentroid(total: real, p: Point, q: Point, t: Point)
    requires total != 0.0
    requires Vectors.Scale(total, q) == Vectors.Add(Vectors.Scale(total, p), Vectors.Scale(total, t))
    ensures q == Vectors.Add(p, t)
  {
    Vectors.ScaleDistributes(total, p, t);
    ScaleCancels(total, q, Vectors.Add(p, t));
  }

  /** Scaling by a non-zero factor is injective. */
  lemma ScaleCancels(c: real, a: Point, b: Point)
    requires c != 0.0
    requires Vectors.Scale(c, a) == Vectors.Scale(c, b)
    ensures a == b
  {
    Vectors.ScaleScale(1.0 / c, c, a);
    Vectors.ScaleScale(1.0 / c, c, b);
    Reciprocal(c);
  }

  /** Identity law up to M: when every target is its source, an interpolated
      result is v itself; otherwise q* is p*, Mq is Mp and M is the identity. */
  lemma IdentityLaw(ps: seq<Point>, v: Point)
    requires |ps| >= 1
    ensures DeformAffine(ps, ps, v).Interpolated? ==> DeformAffine(ps, ps, v).target == v
    ensures !DeformAffine(ps, ps, v).Interpolated? ==>
      DeformAffine(ps, ps, v).qStar == DeformAffine(ps, ps, v).pStar
      && DeformAffine(ps, ps, v).mq == DeformAffine(ps, ps, v).mp
    ensures DeformAffine(ps, ps, v).Affine? ==> DeformAffine(ps, ps, v).m == Matrices.Identity()
  {
    TranslationLaw(ps, ps, v, Vectors.Zero());
  }

  /** When all control points are one point c, a query at c returns the first
      target, and any other query meets a singular Mp, so M does not exist. */
  lemma CoincidentControlsAreSingular(ps: seq<Point>, qs: seq<Point>, v: Point, c: Point)
    requires |ps| == |qs| >= 1
    requires forall i :: 0 <= i < |ps| ==> ps[i] == c
    ensures v == c ==> DeformAffine(ps, qs, v) == Interpolated(qs[0])
    ensures v != c ==> DeformAffine(ps, qs, v).Singular?
  {
    if v != c {
      var w := Weights(ps, v);
      var pStar, qStar := Centroid(w, ps), Centroid(w, qs);
      var pHat := Sums.Centred(ps, pStar);
      assert Matrices.Det(MomentP(w, pHat)) == 0.0 by {
        CentroidOfCoincident(w, ps, c);
        assert forall i :: 0 <= i < |pHat| ==> pHat[i] == Vectors.Zero();
        MomentPOfOrigins(w, pHat);
        Matrices.DetZero();
      }
      assert DeformAffine(ps, qs, v) == Singular(pStar, qStar, MomentP(w, pHat), MomentQ(w, pHat, qs, qStar));
    }
  }

  /** The weighted centroid of points that are all c is c. */
  lemma CentroidOfCoincident(w: seq<real>, ps: seq<Point>, c: Point)
    requires |w| == |ps|
    requires Sums.SumReals(w) != 0.0
    requires forall i :: 0 <= i < |ps| ==> ps[i] == c
    ensures Centroid(w, ps) == c
  {
    Sums.WeightedSumCentred(w, ps, c);
    var terms := Sums.Weighted(w, Sums.Centred(ps, c));
    forall i | 0 <= i < |terms|
      ensures terms[i] == Vectors.Zero()
    {
      Vectors.ScaleScale(w[i], 0.0, Vectors.Zero());
    }
    Sums.SumPointsOfZeros(terms);
    ScaleCancels(Sums.SumReals(w), Centroid(w, ps), c);
  }

  /** Mp of centred points that are all the origin is the zero matrix. */
  lemma MomentPOfOrigins(w: seq<real>, pHat: seq<Point>)
    requires |w| == |pHat|
    requires forall i :: 0 <= i < |pHat| ==> pHat[i] == Vectors.Zero()
    ensures MomentP(w, pHat) == Matrices.Zero()
  {
    var terms := MomentPTerms(w, pHat);
    forall i | 0 <= i < |terms|
      ensures terms[i] == Matrices.Zero()
    {
      Matrices.ScaleSymmetric(w[i], Matrices.Zero());
    }
    Sums.SumMatsOfZeros(terms);
  }
}
