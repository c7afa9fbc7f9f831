# Square-matrix algebra of `matrix_stlin.py`, in Dafny

This project models the `Matrix` class of `matrix_stlin.py`. The class is a
small dense matrix type that accepts only square matrices. It supports:

- elementwise `+` and `-`;
- `*`, computed by the triple loop;
- `**` by binary exponentiation, where exponent -1 means the inverse;
- a determinant by cofactor expansion along row 0;
- an inverse by Gauss-Jordan elimination on the augmented matrix `[A | I]`;
- the static `identity(size)`.

Scalars are exact `real`s, so the algebraic identities the code relies on
hold exactly. Examples are `(A + B) - B == A` and `A * A^-1 == I`. Every
`ValueError` of the class becomes an `Err` of a `Result`. The error is
tagged `DimensionMismatch`, `NotInvertible` or `UnsupportedExponent`.

Files, one module each:

- `results.dfy` (`Results`): the `Result` and `Error` types.
- `vectors.dfy` (`Vectors`): rows as `seq<real>`, and `Dot`, the left-to-right
  sum the multiplication loop accumulates. It also holds the linearity facts
  that the row operations of the elimination need.
- `grids.dfy` (`Grids`): `seq<seq<real>>` grids, shapes, columns, `Product`,
  `Identity`, and the notions of inverse (`IsInverse`) and singular matrix
  (`Singular`: some non-zero vector is sent to zero).
- `matrix.dfy` (`Matrices`): the matrix object, construction, `identity`,
  `+`, `-` and `*` (a function `Mul`, and the loop method `Multiply` that
  computes it).
- `determinant.dfy` (`Determinants`): `determinant()` exactly as the code
  recurses.
- `elimination.dfy` (`Elimination`): the row operations of Gauss-Jordan and
  the invariants they preserve.
- `inverse.dfy` (`Inversion`): `inverse()` as an imperative method with loop
  invariants.
- `power.dfy` (`Powers`): `__pow__`.
- `examples.dfy` (`Instances`): the demo matrices and the corner cases.

How `inverse()` is proved correct. The elimination carries a ghost matrix S
alongside the augmented matrix G, with the invariant `S * G == [A | I]`:

- Every row operation on G is mirrored by the inverse column operation on S.
  A row swap is undone by a column swap, a row division by a column scaling,
  and a row subtraction by a column addition.
- Each row of G keeps the relation `left half == right half * A`.
- Columns `0 .. i-1` are unit columns after step i.

When the loop finishes, the left half is I. So `S == A`, and the right half
R satisfies both `A * R == I` and `R * A == I`.

When no pivot is found in column i, the vector with entries `-G[c][i]` above
row i, `1` at row i and `0` below is non-zero. The matrix sends it to zero,
so the matrix is singular and has no inverse.

Behaviour of the code that the model keeps:

- `determinant()` has only the 2 x 2 base case. A 1 x 1 matrix is expanded
  like a larger one: its only minor is 0 x 0, whose expansion is the empty
  sum. So the determinant of every 0 x 0 and 1 x 1 matrix is 0, and
  `inverse()` rejects every 1 x 1 matrix, even `[[5]]`, whose inverse
  `[[0.2]]` exists (`Instances.OneByOneQuirk`).
- The product of the demo matrices is
  `[[93, 88, 67], [21, 33, 5], [138, 146, 90]]`.
- The demo determinants are -63 and -48.
- `identity(size)` for a negative size yields the 0 x 0 matrix, as an empty
  `range` does.

## Model

| member | source | states |
|---|---|---|
| Matrices.New | matrix_stlin.py:2-10 | construction succeeds exactly when the row count equals the length of the first row (0 when there are no rows); success keeps the data and yields a square matrix, failure is a dimension error |
| Grids.Width | matrix_stlin.py:5 | no contract of its own: its body is the column count the constructor records, the length of the first row or 0 when there are no rows; `Matrices.New` and `Instances.EmptyAccepted` state what follows from it |
| Matrices.Matrix.Rows | matrix_stlin.py:4 | no contract of its own: its body is the number of rows of the data, the row count the constructor records; `Matrices.New` and the operator contracts state what follows from it |
| Matrices.Matrix.IsSquare | matrix_stlin.py:9-10 | no contract of its own: its body compares the row count with the column count; `Matrices.New` states that construction succeeds exactly when it holds |
| Instances.EmptyAccepted | matrix_stlin.py:4-7 | the empty list of rows is accepted as a 0 x 0 matrix |
| Instances.NonSquareRejected | matrix_stlin.py:6-7 | a 2 x 3 list of rows is refused with a dimension error |
| Matrices.IdentityMatrix | matrix_stlin.py:113-115 | `identity(size)` is a square matrix of that size (0 for a negative size) with 1 on the diagonal and 0 elsewhere |
| Matrices.Add | matrix_stlin.py:12-20 | addition fails exactly when rows or columns differ; otherwise the result has the operands' shape and entry (i, j) is the sum of the operands' entries |
| Matrices.Sub | matrix_stlin.py:22-30 | subtraction fails exactly when rows or columns differ; otherwise the result has the operands' shape and entry (i, j) is the difference of the operands' entries |
| Matrices.AddThenSubtract | matrix_stlin.py:12-30 | `(A + B) - B == A` whenever the sum is defined |
| Matrices.AddCommutative | matrix_stlin.py:12-20 | `A + B == B + A`, failures included |
| Matrices.SubtractSelf | matrix_stlin.py:22-30 | `A - A` is the zero matrix of A's size |
| Matrices.Mul | matrix_stlin.py:32-41 | multiplication fails exactly when the left operand's column count differs from the right operand's row count; otherwise the result is rows(A) x cols(B) and entry (i, j) is the sum over k of A[i][k] * B[k][j] |
| Matrices.Accumulate | matrix_stlin.py:39-40 | the innermost loop, starting from 0 and adding u[k] * v[k] for k = 0, 1, ..., ends with the dot product |
| Matrices.Multiply | matrix_stlin.py:32-41 | the zero-filled triple loop returns exactly the product (or the dimension error) that `Mul` defines |
| Matrices.MulIdentityRight | matrix_stlin.py:32-41 | `A * identity(cols(A)) == A` |
| Matrices.MulIdentityLeft | matrix_stlin.py:32-41 | `identity(rows(A)) * A == A` |
| Matrices.MulAssociative | matrix_stlin.py:32-41 | for matrices of one size, `(A * B) * C == A * (B * C)` and both products are defined |
| Instances.DemoProduct | matrix_stlin.py:122-126 | the product of the two demo matrices is `[[93, 88, 67], [21, 33, 5], [138, 146, 90]]` |
| Powers.Power | matrix_stlin.py:43-58 | exponent 0 gives the identity of A's size; a positive exponent k gives A multiplied by itself k times; -1 gives the outcome of `inverse()` (a two-sided inverse, or a not-invertible error when the determinant is 0 or A is singular); any exponent below -1 is an unsupported-exponent error |
| Powers.SquaringStep | matrix_stlin.py:51-55 | one pass of the squaring loop keeps `result * base^exponent` unchanged |
| Powers.PowAdd | matrix_stlin.py:51-55 | `A^j * A^k == A^(j+k)` |
| Powers.PowMul | matrix_stlin.py:51-55 | `(A^j)^k == A^(j*k)` |
| Powers.PowSquare | matrix_stlin.py:54-55 | the powers of `base * base` are the even powers of base |
| Powers.PowOne | matrix_stlin.py:49-53 | the first power of A is A |
| Determinants.DeterminantDegenerate | matrix_stlin.py:100-111 | the determinant of every 0 x 0 and every 1 x 1 matrix is 0, because only size 2 has a base case |
| Determinants.Determinant | matrix_stlin.py:95-111 | no contract of its own: its body is `Det` of the matrix's rows, the code's recursion (the shape check never fires on a square object); its properties are stated by `DeterminantDegenerate`, `TwoByTwoExpansionVanishes`, `DetIdentity`, `DetZeroRow`, `Instances.DeterminantThreeByThree` and the concrete lemmas in `Instances` |
| Determinants.Det | matrix_stlin.py:99-111 | no contract of its own: its body is the 2 x 2 formula at size 2 and the full expansion along row 0 at every other size; the lemmas listed for `Determinants.Determinant` state its properties |
| Determinants.Cofactors | matrix_stlin.py:104-110 | no contract of its own: its body is the loop's running sum of the first c terms, added from column 0 upwards starting at 0; `CofactorsFirstTermOnly` and `CofactorsZeroRow` state its properties |
| Determinants.CofactorTerm | matrix_stlin.py:110 | no contract of its own: its body is the sign of column c times the row-0 entry times the determinant of the minor |
| Determinants.TwoByTwoExpansionVanishes | matrix_stlin.py:100-111 | for every 2 x 2 matrix the code's general expansion along row 0 sums to 0, because both 1 x 1 minors get determinant 0, so the 2 x 2 base case is not an instance of the general step |
| Determinants.TwoByTwoIsCofactorExpansion | matrix_stlin.py:99-101 | the 2 x 2 formula `a00*a11 - a01*a10` is the first-row cofactor expansion in which a 1 x 1 minor counts as its entry |
| Determinants.Minor | matrix_stlin.py:106-109 | the minor of column c is (n-1) x (n-1); its row r is row r+1 of the matrix without column c |
| Determinants.DropColumn | matrix_stlin.py:107 | dropping column c shortens the row by one, keeping the entries before c and shifting those after it |
| Determinants.CofactorsFirstTermOnly | matrix_stlin.py:105-110 | when row 0 is zero after column 0, the expansion is its first term alone |
| Determinants.MinorOfIdentity | matrix_stlin.py:106-109 | the column-0 minor of the identity of size n is the identity of size n - 1 |
| Determinants.DetIdentity | matrix_stlin.py:95-111 | the identity of every size from 2 on has determinant 1 |
| Determinants.DetZeroRow | matrix_stlin.py:95-111 | a square matrix with a zero row has determinant 0 |
| Determinants.CofactorsZeroRow | matrix_stlin.py:104-111 | with a zero row, every partial sum of the expansion along row 0 is 0 |
| Determinants.DetAgrees | matrix_stlin.py:99-111 | for every square matrix of size 2 or more the code's determinant equals `RefDet`, the textbook expansion along row 0 whose 1 x 1 base case is the single entry: the 0 x 0 and 1 x 1 quirk does not reach larger sizes |
| Determinants.CofactorsAgree | matrix_stlin.py:104-110 | from size 3 on, every partial sum of the loop's expansion equals the partial sum of the textbook expansion, because every minor then has size 2 or more |
| Instances.DeterminantThreeByThree | matrix_stlin.py:100-111 | for 3 x 3 matrices the recursion gives the textbook six-term formula |
| Instances.DemoDeterminant | matrix_stlin.py:95-111 | the demo matrices have determinants -63 and -48 |
| Instances.TwoByTwoExample | matrix_stlin.py:100-101 | the determinant of `[[1, 2], [3, 4]]` is -2 |
| Instances.ZeroRowExample | matrix_stlin.py:104-111 | a 3 x 3 matrix with a zero middle row has determinant 0 |
| Instances.OneByOneQuirk | matrix_stlin.py:100-111 | `[[5]]` has determinant 0 although `[[0.2]]` is its two-sided inverse |
| Instances.InvALeftInverse | matrix_stlin.py:60-93 | the adjugate of the first demo operand divided by -63 is a left inverse of it |
| Instances.DemoInverse | matrix_stlin.py:60-93 | `inverse()` of the 3 x 3 first demo operand succeeds and returns exactly its adjugate divided by -63 |
| Inversion.Inverse | matrix_stlin.py:60-93 | determinant 0 (so every 0 x 0 and 1 x 1 matrix) gives a not-invertible error; every error is not-invertible and comes with determinant 0 or a singular matrix; every result is a square matrix of the same size that multiplies with A to the identity on both sides |
| Inversion.Eliminate | matrix_stlin.py:65-90 | the column loop either completes with every column of the left half a unit column and the tracking invariants intact, or stops at a missing pivot on a singular matrix |
| Inversion.FindPivot | matrix_stlin.py:72-76 | the search returns the first row below i with a non-zero entry in column i, or the size when there is none |
| Inversion.PlacePivot | matrix_stlin.py:72-76 | the swap keeps the elimination invariants, and afterwards a zero diagonal entry means column i is zero from row i down |
| Vectors.Swap | matrix_stlin.py:75 | the exchange keeps the length, puts entry j at position i and entry i at position j, and leaves every other entry unchanged |
| Inversion.ClearColumn | matrix_stlin.py:77-89 | the column is processed exactly when the divisor (the diagonal entry) is non-zero, and is otherwise left untouched for the not-invertible error; processing divides the pivot row and clears column i in every other row, so column i becomes a unit column while the earlier unit columns and the tracking invariants are kept |
| Inversion.InverseMultipliesToIdentity | matrix_stlin.py:92-93 | a two-sided inverse grid, wrapped as a matrix, multiplies with A to `identity(size)` in both orders |
| Elimination.AugmentStart | matrix_stlin.py:65-67 | `[A | I]` satisfies the row relation with no column processed, and the identity as tracking matrix multiplies to it |
| Elimination.Augment | matrix_stlin.py:65-67 | `[A | I]` is n x 2n; entry (k, c) is A's entry for c < n, and 1 exactly where c - n == k otherwise |
| Elimination.RightHalf | matrix_stlin.py:92 | the extracted matrix has the same row count, and each of its rows is the last n entries of the augmented row |
| Elimination.DivideRow | matrix_stlin.py:80-81 | every entry of row i is divided by d, and every other row is unchanged |
| Elimination.EliminateRow | matrix_stlin.py:87-89 | entry j of row k becomes its old value minus f times entry j of row i, and every other row is unchanged |
| Elimination.TracksSwap | matrix_stlin.py:75 | swapping rows i and j of G, together with columns i and j of S, leaves `S * G` unchanged |
| Elimination.TracksDivide | matrix_stlin.py:77-81 | dividing row i of G by the pivot, together with multiplying column i of S by it, leaves `S * G` unchanged |
| Elimination.TracksEliminate | matrix_stlin.py:87-89 | subtracting f times row i from row k of G, together with adding f times column k to column i of S, leaves `S * G` unchanged |
| Elimination.RowRelationSwap | matrix_stlin.py:75 | a row swap keeps every row's left half equal to its right half times A |
| Elimination.RowRelationDivide | matrix_stlin.py:80-81 | dividing a row keeps the row relation |
| Elimination.RowRelationEliminate | matrix_stlin.py:87-89 | subtracting a multiple of one row from another keeps the row relation |
| Elimination.UnitColumnsSwap | matrix_stlin.py:72-76 | swapping row i with a row below it keeps columns 0 .. i-1 unit columns |
| Elimination.UnitColumnsDivide | matrix_stlin.py:77-81 | dividing the pivot row keeps columns 0 .. i-1 unit columns and puts 1 on the diagonal |
| Elimination.UnitColumnsEliminate | matrix_stlin.py:84-89 | clearing entry (k, i) with the normalised pivot row keeps columns 0 .. i-1 unit columns and leaves 0 at (k, i) |
| Elimination.SolvedRowRelation | matrix_stlin.py:91-92 | once all columns are unit columns, the right half times A is the identity |
| Elimination.SolvedTracking | matrix_stlin.py:91-92 | once all columns are unit columns, A times the right half is the identity |
| Elimination.ProgressDone | matrix_stlin.py:91-92 | at the end of the loop the extracted right half is a two-sided inverse of A |
| Elimination.PivotFailureIsSingular | matrix_stlin.py:77-79 | when the divisor is still 0 after the search, A sends a non-zero vector to zero |
| Elimination.LeftHalfKillsNullVector | matrix_stlin.py:77-79 | with column i zero from row i down, the left half sends the null vector (built from column i) to zero |
| Grids.SingularHasNoInverse | matrix_stlin.py:77-79 | a singular matrix has no left inverse, so the not-invertible error on a failed pivot search is justified |
| Grids.InverseUnique | matrix_stlin.py:60-93 | a left and a right inverse of A coincide, so the returned inverse is the only one |
| Grids.ProductIdentityRight | matrix_stlin.py:113-115 | multiplying any grid by the identity on the right leaves it unchanged |
| Grids.ProductIdentityLeft | matrix_stlin.py:113-115 | multiplying any grid by the identity on the left leaves it unchanged |
| Grids.ProductAssociative | matrix_stlin.py:36-40 | the product of square grids is associative |
| Vectors.DotDivideBy | matrix_stlin.py:80-81 | dividing a row by d divides its dot product with any vector by d |
| Vectors.DotSubtractMultiple | matrix_stlin.py:88-89 | subtracting f times w from a row subtracts f times w's dot product |

## Left out

- `__repr__` and the `__main__` demo: these are printing and formatting only.
  The demo's two operands and their product are lemmas in `examples.dfy`
  (`DemoProduct`). Its later lines (`m+m`, `m-m`, the powers of the product
  and its product with its inverse) are covered by the general lemmas
  (`Add`, `SubtractSelf`, `Power`, `Inverse`), not by concrete values. The
  determinants and the inverse of the first operand (`DemoDeterminant`,
  `DemoInverse`) are extra examples that the demo itself does not compute.
- Floating-point rounding: scalars are exact reals. The code's `== 0`
  comparisons of a determinant and of a pivot are modelled as exact tests.
  With floats they can fail to detect near-singular matrices, and the
  inverse holds only approximately.
- Ragged lists of rows: every operation requires the rows to share one
  length (`Rectangular`). The code inspects only the first row.
- The text of the error messages: each failure is tagged by its kind only.
- The shape checks of `inverse()` and `determinant()` (`not
  self.is_square()`) are not modelled as error paths. A matrix object is
  always square, so they never fire.
- Mutation: the class never changes an operand in place (the augmented rows
  are fresh concatenations). Values are immutable here, so "operands are
  unchanged" holds by construction and is not stated.
- Inversion.Inverse: its contract does not promise success when the
  determinant is non-zero. This would need the product rule for
  determinants, which is not modelled. A failure past the determinant test
  is stated as "the matrix is singular", which by
  `Grids.SingularHasNoInverse` means it has no inverse.
- Powers.Power: for exponent -1 it states the same outcome as
  `Inversion.Inverse`, not equality with a function, because the inverse is
  computed by a method.
- `linearreg_stlin.py` is not part of this model. It is an independent
  least-squares utility over plain float lists: file input (lines 12-16),
  printing (lines 17 and 74-87) and square roots (lines 52-58). It does not
  use the `Matrix` class.
