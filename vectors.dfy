/** The 2D point helper of the deformation: a 2x1 column vector with zero, dot
    product, squared norm, the outer product with another point, addition,
    subtraction and scalar multiplication. Coordinates are reals. */
module Vectors {
  import Matrices

  datatype Point = Point(x: real, y: real)

  /** The origin, the starting value of the folds that sum points: it is a
      two-sided identity for Add. */
  function Zero(): (z: Point)
    ensures forall p :: Add(z, p) == p && Add(p, z) == p
  {
    Point(0.0, 0.0)
  }

  function Dot(a: Point, b: Point): real {
    a.x * b.x + a.y * b.y
  }

  /** The squared Euclidean norm: never negative, and zero exactly at the origin. */
  function SqrNorm(p: Point): (r: real)
    ensures r >= 0.0
    ensures r == 0.0 <==> p == Zero()
  {
    SquareSign(p.x);
    SquareSign(p.y);
    Product(p.x, p.x) + Product(p.y, p.y)
  }

  /** The product of two reals, kept behind a function so that the sign facts
      about squares below are facts about one term each. */
  function Product(s: real, t: real): real {
    s * t
  }

  /** A square is never negative, and positive away from zero. */
  lemma SquareSign(t: real)
    ensures Product(t, t) >= 0.0
    ensures t != 0.0 ==> Product(t, t) > 0.0
  {
    if t > 0.0 {
      PositiveProduct(t, t);
    } else if t < 0.0 {
      PositiveProduct(-t, -t);
    }
  }

  /** The product of two positive reals is positive. */
  lemma PositiveProduct(s: real, t: real)
    requires s > 0.0 && t > 0.0
    ensures Product(s, t) > 0.0
  {
  }

  /** The outer product a * b^T. */
  function TimesTranspose(a: Point, b: Point): Matrices.Mat2 {
    Matrices.Mat2(a.x * b.x, a.y * b.x, a.x * b.y, a.y * b.y)
  }

  function Add(a: Point, b: Point): Point {
    Point(a.x + b.x, a.y + b.y)
  }

  /** Subtraction undoes addition. */
  function Sub(a: Point, b: Point): (r: Point)
    ensures Add(r, b) == a
    ensures r == Zero() <==> a == b
  {
    Point(a.x - b.x, a.y - b.y)
  }

  /** Multiplication of both coordinates by the scalar c. */
  function Scale(c: real, p: Point): Point {
    Point(c * p.x, c * p.y)
  }

  /** The row vector p^T times the matrix m. An extension: the source has no
      such operation. It states what TimesTranspose computes, and it is the
      vector-times-matrix step of the projection, which the source leaves
      unwritten. */
  function RowTimes(p: Point, m: Matrices.Mat2): Point {
    Point(p.x * m.m11 + p.y * m.m21, p.x * m.m12 + p.y * m.m22)
  }

  /** The outer product applied to a row vector c gives (c . a) b^T: it has
      rank at most one, so its determinant is zero, its trace is a . b, and
      swapping its factors transposes it, so a * a^T is symmetric. */
  lemma OuterProduct(a: Point, b: Point, c: Point)
    ensures RowTimes(c, TimesTranspose(a, b)) == Scale(Dot(c, a), b)
    ensures Matrices.Det(TimesTranspose(a, b)) == 0.0
    ensures TimesTranspose(a, b).m11 + TimesTranspose(a, b).m22 == Dot(a, b)
    ensures TimesTranspose(b, a) == Matrices.Transpose(TimesTranspose(a, b))
    ensures Matrices.Symmetric(TimesTranspose(a, a))
  {
    RowColFactor(c.x, c.y, a.x, a.y, b.x);
    RowColFactor(c.x, c.y, a.x, a.y, b.y);
  }

  lemma RowColFactor(s1: real, s2: real, t1: real, t2: real, k: real)
    ensures s1 * (t1 * k) + s2 * (t2 * k) == (s1 * t1 + s2 * t2) * k
  {
  }

  /** The squared norm is the dot product of a point with itself. */
  lemma SqrNormIsDot(p: Point)
    ensures SqrNorm(p) == Dot(p, p)
  {
  }

  /** Scaling the left factor of an outer product scales the product: the
      two ways the source weights an outer product (lines 63 and 72) agree. */
  lemma TimesTransposeScaleLeft(w: real, a: Point, b: Point)
    ensures TimesTranspose(Scale(w, a), b) == Matrices.Scale(w, TimesTranspose(a, b))
  {
    ScaleLeftEntries(w, a, b);
  }

  /** The four coefficients of TimesTransposeScaleLeft, one by one. */
  lemma ScaleLeftEntries(w: real, a: Point, b: Point)
    ensures TimesTranspose(Scale(w, a), b).m11 == w * TimesTranspose(a, b).m11
    ensures TimesTranspose(Scale(w, a), b).m21 == w * TimesTranspose(a, b).m21
    ensures TimesTranspose(Scale(w, a), b).m12 == w * TimesTranspose(a, b).m12
    ensures TimesTranspose(Scale(w, a), b).m22 == w * TimesTranspose(a, b).m22
  {
    var wa, ab := Scale(w, a), TimesTranspose(a, b);
    ScaledFactor(w, wa.x, a.x, b.x, ab.m11);
    ScaledFactor(w, wa.y, a.y, b.x, ab.m21);
    ScaledFactor(w, wa.x, a.x, b.y, ab.m12);
    ScaledFactor(w, wa.y, a.y, b.y, ab.m22);
  }

  /** A factor s that is w times t gives a product s * u that is w times t * u. */
  lemma ScaledFactor(w: real, s: real, t: real, u: real, m: real)
    requires s == w * t && m == t * u
    ensures s * u == w * m
  {
  }

  /** Scaling a point by c scales its squared norm by c * c. */
  lemma SqrNormScale(c: real, p: Point)
    ensures SqrNorm(Scale(c, p)) == c * c * SqrNorm(p)
  {
  }

  /** Addition is commutative and associative, so a fold of Add from Zero
      is an ordinary sum whatever the grouping of its terms. */
  lemma AddCommutativeAssociative(a: Point, b: Point, c: Point)
    ensures Add(a, b) == Add(b, a)
    ensures Add(Add(a, b), c) == Add(a, Add(b, c))
  {
  }

  /** Scalar multiplication distributes over point addition and subtraction. */
  lemma ScaleDistributes(c: real, a: Point, b: Point)
    ensures Scale(c, Add(a, b)) == Add(Scale(c, a), Scale(c, b))
    ensures Scale(c, Sub(a, b)) == Sub(Scale(c, a), Scale(c, b))
  {
    var sa, sb := Scale(c, a), Scale(c, b);
    Distributes(c, a.x, b.x, sa.x, sb.x);
    Distributes(c, a.y, b.y, sa.y, sb.y);
  }

  /** c * (s + t) and c * (s - t) split into the products c * s and c * t. */
  lemma Distributes(c: real, s: real, t: real, cs: real, ct: real)
    requires cs == c * s && ct == c * t
    ensures c * (s + t) == cs + ct
    ensures c * (s - t) == cs - ct
  {
  }

  /** Scalar multiplication distributes over the addition of scalars. */
  lemma ScaleAddsScalars(c: real, d: real, p: Point)
    ensures Scale(c + d, p) == Add(Scale(c, p), Scale(d, p))
  {
    var cp, dp := Scale(c, p), Scale(d, p);
    Distributes(p.x, c, d, cp.x, dp.x);
    Distributes(p.y, c, d, cp.y, dp.y);
  }

  /** Scaling twice scales by the product, and scaling by one changes nothing. */
  lemma ScaleScale(c: real, d: real, p: Point)
    ensures Scale(c, Scale(d, p)) == Scale(c * d, p)
    ensures Scale(1.0, p) == p
  {
    var dp := Scale(d, p);
    ScaledFactor(c, c * d, d, p.x, dp.x);
    ScaledFactor(c, c * d, d, p.y, dp.y);
  }

  /** A difference does not change when both points move by the same offset. */
  lemma SubTranslated(a: Point, b: Point, t: Point)
    ensures Sub(Add(a, t), Add(b, t)) == Sub(a, b)
  {
  }
}
