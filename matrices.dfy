/** The 2x2 matrix helper of the deformation: zero, determinant, an inverse that
    does not check the determinant, addition, scaling and the row-by-column product.
    Coefficients are reals; the layout is

        | m11  m12 |
        | m21  m22 |
 */
module Matrices {

  datatype Mat2 = Mat2(m11: real, m21: real, m12: real, m22: real)

  /** The identity matrix; the source has none, it is used to state what Inv does. */
  function Identity(): Mat2 {
    Mat2(1.0, 0.0, 0.0, 1.0)
  }

  /** The transpose, which swaps m12 and m21. */
  function Transpose(m: Mat2): Mat2 {
    Mat2(m.m11, m.m12, m.m21, m.m22)
  }

  /** True if the matrix equals its transpose. */
  predicate Symmetric(m: Mat2) {
    Transpose(m) == m
  }

  /** The zero matrix, the starting value of the folds that sum matrices. */
  function Zero(): (z: Mat2)
    ensures Symmetric(z)
  {
    Mat2(0.0, 0.0, 0.0, 0.0)
  }

  /** The zero matrix is a two-sided identity for Add. */
  lemma AddZero(m: Mat2)
    ensures Add(Zero(), m) == m && Add(m, Zero()) == m
  {
  }

  function Det(m: Mat2): real {
    m.m11 * m.m22 - m.m21 * m.m12
  }

  function Add(a: Mat2, b: Mat2): Mat2 {
    Mat2(a.m11 + b.m11, a.m21 + b.m21, a.m12 + b.m12, a.m22 + b.m22)
  }

  /** Multiplication of every coefficient by the scalar c. */
  function Scale(c: real, m: Mat2): Mat2 {
    Mat2(c * m.m11, c * m.m21, c * m.m12, c * m.m22)
  }

  /** The row-by-column product a * b. */
  function Mul(a: Mat2, b: Mat2): Mat2 {
    Mat2(a.m11 * b.m11 + a.m12 * b.m21,
         a.m21 * b.m11 + a.m22 * b.m21,
         a.m11 * b.m12 + a.m12 * b.m22,
         a.m21 * b.m12 + a.m22 * b.m22)
  }

  /** The inverse (1/det) * | m22 -m12 ; -m21 m11 |. The source computes it
      whatever the determinant is; over the reals it is defined only for a
      non-zero determinant, and then it is a two-sided inverse. */
  function Inv(m: Mat2): (r: Mat2)
    requires Det(m) != 0.0
    ensures Mul(r, m) == Identity()
    ensures Mul(m, r) == Identity()
  {
    var d := Det(m);
    var k := 1.0 / d;
    assert k * d == 1.0;
    assert k * (m.m22 * m.m11 - m.m12 * m.m21) == 1.0;
    assert k * (m.m11 * m.m22 - m.m12 * m.m21) == 1.0;
    Scale(k, Mat2(m.m22, -m.m21, -m.m12, m.m11))
  }

  /** The determinant is multiplicative. */
  lemma DetMul(a: Mat2, b: Mat2)
    ensures Det(Mul(a, b)) == Det(a) * Det(b)
  {
  }

  /** Scaling a matrix by c scales its determinant by c * c. */
  lemma DetScale(c: real, m: Mat2)
    ensures Det(Scale(c, m)) == c * c * Det(m)
  {
  }

  /** Scaling keeps a symmetric matrix symmetric and the zero matrix zero. */
  lemma ScaleSymmetric(c: real, m: Mat2)
    ensures Symmetric(m) ==> Symmetric(Scale(c, m))
    ensures Scale(c, Zero()) == Zero()
  {
  }

  /** The zero matrix is singular. */
  lemma DetZero()
    ensures Det(Zero()) == 0.0
  {
  }

  lemma MulIdentity(m: Mat2)
    ensures Mul(Identity(), m) == m
    ensures Mul(m, Identity()) == m
  {
  }

  lemma MulAssociative(a: Mat2, b: Mat2, c: Mat2)
    ensures Mul(Mul(a, b), c) == Mul(a, Mul(b, c))
  {
    EntryAssociative(a.m11, a.m12, b, c.m11, c.m21);
    EntryAssociative(a.m21, a.m22, b, c.m11, c.m21);
    EntryAssociative(a.m11, a.m12, b, c.m12, c.m22);
    EntryAssociative(a.m21, a.m22, b, c.m12, c.m22);
  }

  /** The sum x1 * y1 + x2 * y2 of two products: one coefficient of a product. */
  function RowCol(x1: real, x2: real, y1: real, y2: real): real {
    x1 * y1 + x2 * y2
  }

  /** One coefficient of (a * b) * c equals the same coefficient of a * (b * c),
      for the row (x1, x2) of a and the column (y1, y2) of c. */
  lemma EntryAssociative(x1: real, x2: real, b: Mat2, y1: real, y2: real)
    ensures RowCol(RowCol(x1, x2, b.m11, b.m21), RowCol(x1, x2, b.m12, b.m22), y1, y2)
         == RowCol(x1, x2, RowCol(b.m11, b.m12, y1, y2), RowCol(b.m21, b.m22, y1, y2))
  {
  }

  /** Addition is commutative and associative, so a fold of Add from Zero
      is an ordinary sum whatever the order of the terms. */
  lemma AddCommutativeAssociative(a: Mat2, b: Mat2, c: Mat2)
    ensures Add(a, b) == Add(b, a)
    ensures Add(Add(a, b), c) == Add(a, Add(b, c))
  {
  }

  /** Scalar multiplication distributes over matrix addition. */
  lemma ScaleDistributesOverAdd(c: real, a: Mat2, b: Mat2)
    ensures Scale(c, Add(a, b)) == Add(Scale(c, a), Scale(c, b))
  {
    var l, r := Scale(c, Add(a, b)), Add(Scale(c, a), Scale(c, b));
    assert l.m11 == r.m11 && l.m21 == r.m21;
    assert l.m12 == r.m12 && l.m22 == r.m22;
  }

  /** Scalar multiplication distributes over the addition of scalars. */
  lemma ScaleAddsScalars(c: real, d: real, a: Mat2)
    ensures Scale(c + d, a) == Add(Scale(c, a), Scale(d, a))
  {
    var l, r := Scale(c + d, a), Add(Scale(c, a), Scale(d, a));
    assert l.m11 == r.m11 && l.m21 == r.m21;
    assert l.m12 == r.m12 && l.m22 == r.m22;
  }

  /** Once M = Inv(A) * B, M solves the linear system A * M = B. */
  lemma InvSolves(a: Mat2, b: Mat2)
    requires Det(a) != 0.0
    ensures Mul(a, Mul(Inv(a), b)) == b
  {
    MulAssociative(a, Inv(a), b);
    MulIdentity(b);
  }
}
