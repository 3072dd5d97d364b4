# Affine Moving Least Squares deformation, modelled in Dafny

This project models `deform_affine` from `src/lib.rs`. The function moves one query
point v according to a set of control points P and their targets Q. It uses the
affine Moving Least Squares deformation of Schaefer, McPhail and Warren, "Image
Deformation Using Moving Least Squares" (SIGGRAPH 2006), section 2.1. The model
also covers the two small value types the function is built on: the 2D `Point`
and the 2x2 matrix `Mat2`.

The function works in these steps:

1. It weights each control point by w_i = 1 / |p_i - v|^2.
2. If v coincides with a control point, it returns the target of the first such point.
3. Otherwise it computes the weighted centroids p\* and q\*, the centred points
   p_hat_i = p_i - p\*, and the matrices Mp = sum w_i p_hat_i p_hat_i^T and
   Mq = sum (w_i p_hat_i) q_hat_i^T.
4. Last, it computes M = Mp^-1 * Mq.

The source stops there: the projection of v through the affine map is an
unfinished `todo!()`. The model therefore also stops at M.

Scalars are Dafny `real`s, so every law below is exact algebra. The files are:

- `options.dfy`: the `Option` that `Iterator::position` returns.
- `matrices.dfy`: `Mat2` with zero, determinant, inverse, addition, scaling and product, and the laws of these operations.
- `vectors.dfy`: `Point` with zero, dot product, squared norm, outer product (`times_transpose`), addition, subtraction and scaling.
- `sums.dfy`: the `sum()` of the weights and the `fold(zero(), +)` over points and matrices. Each is a left fold over a sequence. The file also proves how weighted sums behave when every point is translated or centred.
- `deformation.dfy`: `deform_affine` up to M, as the function `DeformAffine`. It returns an `Estimate`, which is one of:
  - `Interpolated`, the target of a control point that coincides with v;
  - `Affine`, the centroids, Mp, Mq and M;
  - `Singular`, when Mp has determinant zero and so no inverse.

  The file also proves the translation law, the identity law and the degenerate-controls law.

## Model

| member | source | states |
|---|---|---|
| Vectors.Zero | src/lib.rs:95-97 | adding the origin on either side of any point gives that point back |
| Vectors.SqrNorm | src/lib.rs:105-107 | the squared norm is never negative, and it is zero exactly at the origin |
| Vectors.SqrNormIsDot | src/lib.rs:100-107 | `Dot`, the dot product (lines 100-102), of a point with itself is its squared norm `SqrNorm` (lines 105-107) |
| Vectors.OuterProduct | src/lib.rs:110-117 | `TimesTranspose` builds a b^T with the coefficients of lines 112-115 in the struct's field order: for a row vector c, c^T (a b^T) = (c . a) b^T; det(a b^T) = 0; the trace of a b^T is a . b; times_transpose(b, a) is the transpose of times_transpose(a, b); times_transpose(a, a) is symmetric (m12 = m21) |
| Vectors.TimesTransposeScaleLeft | src/lib.rs:63-72 | (w a) b^T = w (a b^T), so the term `(w * ph).times_transpose(qh)` of Mq has the form w_i p_hat_i q_hat_i^T |
| Vectors.Sub | src/lib.rs:139-147 | a - b plus b is a, and a - b is the origin exactly when a = b |
| Vectors.AddCommutativeAssociative | src/lib.rs:128-136 | `Add` on points adds coordinate-wise, so it is commutative and associative, and with `Zero` as identity the point folds are plain sums |
| Vectors.SubTranslated | src/lib.rs:139-147 | a difference does not change when both points move by the same offset |
| Vectors.ScaleDistributes | src/lib.rs:150-158 | scalar multiplication distributes over point addition and subtraction |
| Vectors.ScaleAddsScalars | src/lib.rs:150-158 | (c + d) p = c p + d p |
| Vectors.ScaleScale | src/lib.rs:150-158 | `Scale` multiplies both coordinates: c (d p) = (c d) p, and 1 p = p; ScaleDistributes and ScaleAddsScalars give its distributive laws |
| Vectors.SqrNormScale | src/lib.rs:105-107 | scaling a point by c scales its squared norm by c * c |
| Matrices.Zero | src/lib.rs:176-183 | the zero matrix is symmetric |
| Matrices.AddZero | src/lib.rs:176-213 | the zero matrix is a two-sided identity for matrix addition, so the matrix folds start from a neutral value |
| Matrices.AddCommutativeAssociative | src/lib.rs:203-213 | `Add` on matrices adds coefficient-wise, so it is commutative and associative, and with the zero matrix as identity (AddZero) the matrix folds are plain sums |
| Matrices.DetMul | src/lib.rs:186-188 | `Det` is m11 m22 - m21 m12, and it is multiplicative: det(a b) = det(a) det(b) for the product `Mul` |
| Matrices.DetScale | src/lib.rs:186-188 | det(c m) = c * c * det(m) |
| Matrices.DetZero | src/lib.rs:176-188 | the zero matrix has determinant zero |
| Matrices.ScaleSymmetric | src/lib.rs:216-226 | scaling keeps a symmetric matrix symmetric and the zero matrix zero |
| Matrices.ScaleDistributesOverAdd | src/lib.rs:203-226 | `Scale` multiplies every coefficient (lines 216-226), and it distributes over matrix addition |
| Matrices.ScaleAddsScalars | src/lib.rs:203-226 | (c + d) m = c m + d m |
| Matrices.Inv | src/lib.rs:190-199 | for a matrix with non-zero determinant, inv(m) * m and m * inv(m) are both the identity |
| Matrices.MulIdentity | src/lib.rs:229-239 | the identity matrix is a two-sided identity for the product |
| Matrices.MulAssociative | src/lib.rs:229-239 | `Mul`, the row-by-column product, is associative, with the identity matrix neutral on both sides (MulIdentity) |
| Matrices.InvSolves | src/lib.rs:76 | when det(a) is non-zero, M = inv(a) * b solves a * M = b |
| Sums.SumReals | src/lib.rs:27 | a sum of non-negative weights is non-negative, and a non-empty sum of positive weights is positive |
| Sums.SumMats | src/lib.rs:60-74 | the fold of matrix addition from zero keeps symmetry: a sum of symmetric matrices is symmetric |
| Sums.WeightedPrefix | src/lib.rs:39-51 | `Weighted`, the zip of weights and points into the terms w_i p_i (lines 40-42 and 48-50), keeps one term per point and commutes with taking a prefix, so the fold over the terms splits at any index |
| Sums.SumPointsConcat | src/lib.rs:43-51 | `SumPoints`, the fold of point addition from the origin at lines 43 and 51, splits over a concatenation: the fold of a + b is the fold of a plus the fold of b |
| Sums.WeightedSumTranslated | src/lib.rs:39-51 | when every point moves by t, the weighted sum moves by w_sum * t |
| Sums.WeightedSumCentred | src/lib.rs:39-58 | the weighted sum of the p_i - c is the weighted sum of the p_i less w_sum * c |
| Sums.Translated | src/lib.rs:128-147 | the translated points p_i + t give back the p_i when t is subtracted |
| Sums.Centred | src/lib.rs:55-58 | the centred points p_i - c give back the p_i when c is added |
| Sums.SumPointsOfZeros | src/lib.rs:43 | a fold of point addition over origins is the origin |
| Sums.SumMatsOfZeros | src/lib.rs:64 | a fold of matrix addition over zero matrices is the zero matrix |
| Deformation.SqrDist | src/lib.rs:21 | the squared distance to v is never negative, and it is zero exactly when the control point is v |
| Deformation.Weight | src/lib.rs:25 | away from v, a weight is positive and is the reciprocal of the squared distance |
| Deformation.Weights | src/lib.rs:26-27 | when v is no control point, there is one weight per control point, every weight is positive and the reciprocal of its squared distance, and w_sum is positive |
| Deformation.FirstCoincident | src/lib.rs:31-34 | the index found is that of a control point equal to v, with no earlier one equal to v; no index is found exactly when no control point is v |
| Deformation.Centroid | src/lib.rs:39-52 | the centroid c satisfies w_sum * c = sum w_i p_i, so it is the weighted mean |
| Deformation.MomentP | src/lib.rs:60-64 | Mp = sum w_i p_hat_i p_hat_i^T is symmetric |
| Deformation.MomentPTerms | src/lib.rs:60-63 | the mapped terms w_i p_hat_i p_hat_i^T of line 63 are one per centred point, and each is symmetric |
| Deformation.MomentPTermsSymmetric | src/lib.rs:63 | every weighted square w_i p_hat_i p_hat_i^T is symmetric |
| Deformation.MomentQTerms | src/lib.rs:66-73 | the mapped terms (w_i p_hat_i) q_hat_i^T of lines 70-73 are one per control point, and each equals w_i times the outer product p_hat_i q_hat_i^T |
| Deformation.WeightedOuterProducts | src/lib.rs:70-73 | for every i, (w_i p_hat_i) q_hat_i^T = w_i (p_hat_i q_hat_i^T) |
| Deformation.MomentQMatchesMomentP | src/lib.rs:60-74 | `MomentQ`, the matrix Mq folded at lines 66-74 from the terms `MomentQTerms` (w_i p_hat_i) q_hat_i^T of lines 70-73, equals Mp whenever every centred target q_i - q\* equals its centred source p_hat_i |
| Deformation.DeformAffine | src/lib.rs:14-76 | for as many targets as control points, and at least one of each: the result is an interpolation exactly when v is a control point, and then it is the target of the first control point equal to v. Otherwise Mp is symmetric. If det(Mp) is non-zero, M solves Mp * M = Mq; otherwise Mp is singular |
| Deformation.CentredPointsBalance | src/lib.rs:39-58 | for any weights with a non-zero sum, the weighted sum of the centred points p_hat_i = p_i - p\* is the origin |
| Deformation.DeformAffineBalance | src/lib.rs:39-74 | outside the interpolation branch, the p\* and q\* that DeformAffine returns are the weighted centroids of the control points and of their targets under the inverse squared distances to v, its Mp and Mq are the moments of the points centred on p\* and q\*, and the centred points p_i - p\* have weighted sum zero |
| Deformation.TranslationLaw | src/lib.rs:14-76 | if every q_i = p_i + t: an interpolated result is v + t. Otherwise q\* = p\* + t, every q_i - q\* equals p_i - p\*, Mq = Mp, and M is the identity when det(Mp) is non-zero |
| Deformation.IdentityLaw | src/lib.rs:14-76 | if Q = P: an interpolated result is v. Otherwise q\* = p\*, Mq = Mp, and M is the identity when det(Mp) is non-zero |
| Deformation.CoincidentControlsAreSingular | src/lib.rs:14-76 | if all control points are one point c: a query at c returns the first target, and any other query meets a singular Mp |
| Deformation.CentroidOfCoincident | src/lib.rs:39-44 | the weighted centroid of points that are all c is c |
| Deformation.MomentPOfOrigins | src/lib.rs:60-64 | Mp of centred points that are all the origin is the zero matrix |
| Deformation.TranslatedCentroid | src/lib.rs:44-52 | a centroid that solves w_sum * q = w_sum * p + w_sum * t, for a non-zero w_sum, is p + t |
| Deformation.ScaleCancels | src/lib.rs:44-52 | scaling a point by a non-zero factor is injective, so the division by w_sum is undone |
| Deformation.Rescale | src/lib.rs:44-52 | multiplying by 1 / w_sum and then by w_sum gives the point back |

## Left out

- IEEE-754 `f32` arithmetic is not modelled: rounding, overflow, underflow, and the propagation of NaN and infinities. Scalars are exact reals.
- Matrices.Inv: requires a non-zero determinant. The source computes `1.0 / det` whatever the determinant, and a singular matrix gives infinities or NaN. In DeformAffine that case is the separate `Singular` result, which carries Mp and Mq but no M.
- Deformation.DeformAffine: the coincidence test is modelled as "some control point equals v", and the first such index is taken.
  - The source tests `w_sum.is_infinite()` and then looks for the first infinite weight.
  - Over the reals a weight is "infinite" exactly when the squared distance is zero, and `SqrDist` proves that this happens exactly when the point equals v.
  - In `f32`, w_sum can also overflow with no single weight infinite. The `.expect` panic at line 34 is for that case and is not modelled.
- Deformation.DeformAffine: requires |P| = |Q| >= 1.
  - The source indexes `controls_q` with an index found in `controls_p`, and it pairs the weights with both lists by `zip`.
  - With unequal lengths, `zip` would silently truncate. With no control points, w_sum is zero and p\* is undefined.
- Deformation.Weights: is defined only outside the interpolation branch, where no weight is infinite. In that branch the source builds the weight list only to find an infinite entry, which FirstCoincident models.
- The `proximity_threshold` parameter (line 18) is not modelled, because the code never uses it.
- The projection of v is not modelled. The paper (section 2.1) gives it as (v - p\*) M + q\*, but the code stops at lines 79-80 with an unused `let vx_star: f32;` and `todo!()`. Here the model follows the code, so `DeformAffine` ends at M. `Vectors.RowTimes` and the first ensures of `Vectors.OuterProduct` (c^T (a b^T) = (c . a) b^T) are an extension beyond the source: the row-vector product that the projection would use, which the code never reaches.
- The `Vec` allocations of `w_all` and `p_hat` are not modelled; they are Dafny sequences.
- The `From<(f32, f32)>` conversion (lines 121-125) is not modelled. A tuple and a `Point` are the same value here.
