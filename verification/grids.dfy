/** Matrices as sequences of rows: shapes, the matrix product, the identity,
    and the algebra of the product (units, associativity, linearity). */
module Grids {
  import opened Vectors

  type Grid = seq<seq<real>>

  /** The column count the constructor records: the length of the first
      row, or 0 when there are no rows. */
  function Width(g: Grid): nat
  {
    if |g| == 0 then 0 else |g[0]|
  }

  /** Every row is as long as the first one. */
  predicate Rectangular(g: Grid)
  {
    forall i | 0 <= i < |g| :: |g[i]| == Width(g)
  }

  /** g has r rows of c entries each. */
  predicate Shape(g: Grid, r: nat, c: nat)
  {
    |g| == r && forall i | 0 <= i < r :: |g[i]| == c
  }

  /** g is an n x n matrix. */
  predicate Square(g: Grid, n: nat)
    ensures Square(g, n) ==> Rectangular(g) && Width(g) == n
  {
    Shape(g, n, n)
  }

  function Col(g: Grid, j: nat): (v: Vector)
    requires forall i | 0 <= i < |g| :: j < |g[i]|
    ensures |v| == |g|
    ensures forall i | 0 <= i < |g| :: v[i] == g[i][j]
  {
    seq(|g|, i requires 0 <= i < |g| => g[i][j])
  }

  /** The row vector u times the |u| x c matrix g. */
  function VecMat(u: Vector, g: Grid, c: nat): (w: Vector)
    requires Shape(g, |u|, c)
    ensures |w| == c
    ensures forall j | 0 <= j < c :: w[j] == Dot(u, Col(g, j))
  {
    seq(c, j requires 0 <= j < c => Dot(u, Col(g, j)))
  }

  /** The matrix g times the column vector x. */
  function MatVec(g: Grid, x: Vector): (y: Vector)
    requires forall i | 0 <= i < |g| :: |g[i]| == |x|
    ensures |y| == |g|
    ensures forall i | 0 <= i < |g| :: y[i] == Dot(g[i], x)
  {
    seq(|g|, i requires 0 <= i < |g| => Dot(g[i], x))
  }

  /** The matrix product; row i of the result is row i of a times b, so
      entry (i, j) is the sum over k of a[i][k] * b[k][j]. */
  function Product(a: Grid, b: Grid): (p: Grid)
    requires Rectangular(b)
    requires forall i | 0 <= i < |a| :: |a[i]| == |b|
    ensures Shape(p, |a|, Width(b))
  {
    seq(|a|, i requires 0 <= i < |a| => VecMat(a[i], b, Width(b)))
  }

  /** The n x n identity: 1 on the diagonal, 0 elsewhere. */
  function Identity(n: nat): (e: Grid)
    ensures Square(e, n)
    ensures forall i | 0 <= i < n :: e[i] == Unit(n, i)
  {
    seq(n, i requires 0 <= i < n => Unit(n, i))
  }

  /** The n x n matrix of zeros. */
  function ZeroGrid(n: nat): (z: Grid)
    ensures Square(z, n)
    ensures forall i | 0 <= i < n :: z[i] == Zeros(n)
  {
    seq(n, _ => Zeros(n))
  }

  lemma {:induction false} ColOfIdentity(n: nat, j: nat)
    requires j < n
    ensures Col(Identity(n), j) == Unit(n, j)
  {
  }

  /** Multiplying a row vector by the identity gives it back. */
  lemma {:induction false} VecMatIdentity(u: Vector)
    ensures VecMat(u, Identity(|u|), |u|) == u
  {
    forall j | 0 <= j < |u|
      ensures VecMat(u, Identity(|u|), |u|)[j] == u[j]
    {
      ColOfIdentity(|u|, j);
      DotUnitRight(u, j);
    }
  }

  /** Unit row vector i times g selects row i of g. */
  lemma {:induction false} VecMatUnit(g: Grid, c: nat, i: nat)
    requires Shape(g, |g|, c) && i < |g|
    ensures VecMat(Unit(|g|, i), g, c) == g[i]
  {
    forall j | 0 <= j < c
      ensures VecMat(Unit(|g|, i), g, c)[j] == g[i][j]
    {
      DotUnitLeft(Col(g, j), i);
    }
  }

  /** The identity is a right unit of the product. */
  lemma {:induction false} ProductIdentityRight(a: Grid, n: nat)
    requires Shape(a, |a|, n)
    ensures Product(a, Identity(n)) == a
  {
    forall i | 0 <= i < |a|
      ensures Product(a, Identity(n))[i] == a[i]
    {
      VecMatIdentity(a[i]);
    }
  }

  /** The identity is a left unit of the product. */
  lemma {:induction false} ProductIdentityLeft(a: Grid)
    requires Rectangular(a)
    ensures Product(Identity(|a|), a) == a
  {
    forall i | 0 <= i < |a|
      ensures Product(Identity(|a|), a)[i] == a[i]
    {
      VecMatUnit(a, Width(a), i);
    }
  }

  /** (u g) . v == u . (g v): the sum over rows and the sum over columns may
      be taken in either order. */
  lemma {:induction false} DotVecMat(u: Vector, g: Grid, c: nat, v: Vector)
    requires Shape(g, |u|, c) && |v| == c
    ensures Dot(VecMat(u, g, c), v) == Dot(u, MatVec(g, v))
    decreases |u|
  {
    var n := |u|;
    if n == 0 {
      assert VecMat(u, g, c) == Zeros(c);
      DotSymmetric(Zeros(c), v);
      DotZerosRight(v);
    } else {
      DotVecMatLastRow(u, g, c, v);
      DotMatVecLastRow(u, g, v);
      DotVecMat(u[..n - 1], g[..n - 1], c, v);
    }
  }

  lemma {:induction false} DotVecMatLastRow(u: Vector, g: Grid, c: nat, v: Vector)
    requires Shape(g, |u|, c) && |v| == c && |u| > 0
    ensures Dot(VecMat(u, g, c), v)
         == Dot(VecMat(u[..|u| - 1], g[..|u| - 1], c), v) + u[|u| - 1] * Dot(g[|u| - 1], v)
  {
    var front := VecMat(u[..|u| - 1], g[..|u| - 1], c);
    VecMatSnoc(u, g, c);
    DotAddMultiple(front, u[|u| - 1], g[|u| - 1], v);
  }

  lemma {:induction false} DotMatVecLastRow(u: Vector, g: Grid, v: Vector)
    requires |g| == |u| > 0
    requires forall i | 0 <= i < |g| :: |g[i]| == |v|
    ensures Dot(u, MatVec(g, v))
         == Dot(u[..|u| - 1], MatVec(g[..|u| - 1], v)) + u[|u| - 1] * Dot(g[|u| - 1], v)
  {
    assert MatVec(g, v)[..|u| - 1] == MatVec(g[..|u| - 1], v);
  }

  /** Appending a row to g and an entry x to u adds x times that row to u g. */
  lemma {:induction false} VecMatSnoc(u: Vector, g: Grid, c: nat)
    requires Shape(g, |u|, c) && |u| > 0
    ensures VecMat(u, g, c)
         == SubtractMultiple(VecMat(u[..|u| - 1], g[..|u| - 1], c), -u[|u| - 1], g[|u| - 1])
  {
    var n := |u|;
    var u', g' := u[..n - 1], g[..n - 1];
    forall j | 0 <= j < c
      ensures VecMat(u, g, c)[j] == SubtractMultiple(VecMat(u', g', c), -u[n - 1], g[n - 1])[j]
    {
      assert Col(g, j)[..n - 1] == Col(g', j);
    }
  }

  /** Column j of a product is the left factor times column j of the right factor. */
  lemma {:induction false} ColOfProduct(a: Grid, b: Grid, j: nat)
    requires Rectangular(b) && j < Width(b)
    requires forall i | 0 <= i < |a| :: |a[i]| == |b|
    ensures Col(Product(a, b), j) == MatVec(a, Col(b, j))
  {
  }

  /** The product of square matrices is associative. */
  lemma {:induction false} ProductAssociative(a: Grid, b: Grid, c: Grid, n: nat)
    requires Square(a, n) && Square(b, n) && Square(c, n)
    ensures Product(Product(a, b), c) == Product(a, Product(b, c))
  {
    var ab, bc := Product(a, b), Product(b, c);
    forall i | 0 <= i < n
      ensures Product(ab, c)[i] == Product(a, bc)[i]
    {
      forall j | 0 <= j < n
        ensures Product(ab, c)[i][j] == Product(a, bc)[i][j]
      {
        DotVecMat(a[i], b, n, Col(c, j));
        ColOfProduct(b, c, j);
      }
    }
  }

  /** (a b) x == a (b x). */
  lemma {:induction false} MatVecProduct(a: Grid, b: Grid, x: Vector)
    requires Rectangular(b) && |x| == Width(b)
    requires forall i | 0 <= i < |a| :: |a[i]| == |b|
    ensures MatVec(Product(a, b), x) == MatVec(a, MatVec(b, x))
  {
    forall i | 0 <= i < |a|
      ensures MatVec(Product(a, b), x)[i] == MatVec(a, MatVec(b, x))[i]
    {
      DotVecMat(a[i], b, Width(b), x);
    }
  }

  /** The identity fixes every column vector. */
  lemma {:induction false} MatVecIdentity(x: Vector)
    ensures MatVec(Identity(|x|), x) == x
  {
    forall i | 0 <= i < |x|
      ensures MatVec(Identity(|x|), x)[i] == x[i]
    {
      DotUnitLeft(x, i);
    }
  }

  /** Every matrix maps the zero vector to the zero vector. */
  lemma {:induction false} MatVecZeros(g: Grid, n: nat)
    requires forall i | 0 <= i < |g| :: |g[i]| == n
    ensures MatVec(g, Zeros(n)) == Zeros(|g|)
  {
    forall i | 0 <= i < |g|
      ensures MatVec(g, Zeros(n))[i] == 0.0
    {
      DotZerosRight(g[i]);
    }
  }

  /** Dividing a row vector by d divides its product with g by d. */
  lemma {:induction false} VecMatDivideBy(u: Vector, d: real, g: Grid, c: nat)
    requires Shape(g, |u|, c) && d != 0.0
    ensures VecMat(DivideBy(u, d), g, c) == DivideBy(VecMat(u, g, c), d)
  {
    forall j | 0 <= j < c
      ensures VecMat(DivideBy(u, d), g, c)[j] == DivideBy(VecMat(u, g, c), d)[j]
    {
      DotDivideBy(u, d, Col(g, j));
    }
  }

  /** The product of a row vector with g is linear in the row vector. */
  lemma {:induction false} VecMatSubtractMultiple(u: Vector, f: real, w: Vector, g: Grid, c: nat)
    requires |u| == |w| && Shape(g, |u|, c)
    ensures VecMat(SubtractMultiple(u, f, w), g, c)
         == SubtractMultiple(VecMat(u, g, c), f, VecMat(w, g, c))
  {
    forall j | 0 <= j < c
      ensures VecMat(SubtractMultiple(u, f, w), g, c)[j]
           == SubtractMultiple(VecMat(u, g, c), f, VecMat(w, g, c))[j]
    {
      DotSubtractMultiple(u, f, w, Col(g, j));
    }
  }

  /** b is a two-sided inverse of the n x n matrix a. */
  predicate IsInverse(a: Grid, b: Grid, n: nat)
  {
    Square(a, n) && Square(b, n) && Product(a, b) == Identity(n) && Product(b, a) == Identity(n)
  }

  /** Some non-zero vector is mapped to zero. */
  ghost predicate Singular(g: Grid)
    requires Square(g, |g|)
  {
    exists x: Vector :: |x| == |g| && x != Zeros(|g|) && MatVec(g, x) == Zeros(|g|)
  }

  /** A singular matrix has no left inverse, so in particular no inverse. */
  lemma {:induction false} SingularHasNoInverse(a: Grid, b: Grid)
    requires Square(a, |a|) && Square(b, |a|) && Singular(a)
    ensures Product(b, a) != Identity(|a|)
  {
    var n := |a|;
    var x: Vector :| |x| == n && x != Zeros(n) && MatVec(a, x) == Zeros(n);
    if Product(b, a) == Identity(n) {
      MatVecIdentity(x);
      MatVecProduct(b, a, x);
      MatVecZeros(b, n);
      assert false;
    }
  }

  /** A left inverse and a right inverse of a square matrix coincide; in
      particular a matrix has at most one two-sided inverse. */
  lemma {:induction false} InverseUnique(a: Grid, b: Grid, c: Grid, n: nat)
    requires Square(a, n) && Square(b, n) && Square(c, n)
    requires Product(a, b) == Identity(n) && Product(c, a) == Identity(n)
    ensures b == c
  {
    ProductAssociative(c, a, b, n);
    ProductIdentityRight(c, n);
    ProductIdentityLeft(b);
  }
}
