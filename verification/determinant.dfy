/** The determinant of the matrix object: the explicit 2 x 2 formula, and
    otherwise cofactor expansion along row 0 with recursion on the minors. */
module Determinants {
  import opened Vectors
  import opened Grids
  import opened Matrices

  /** The sign of the term of column c: +1 for even c, -1 for odd c. */
  function Sign(c: nat): real
  {
    if c % 2 == 0 then 1.0 else -1.0
  }

  /** The row without its entry in column c. */
  function DropColumn(row: Vector, c: nat): (r: Vector)
    requires c < |row|
    ensures |r| == |row| - 1
    ensures forall k | 0 <= k < |r| :: r[k] == if k < c then row[k] else row[k + 1]
  {
    row[..c] + row[c + 1..]
  }

  /** The submatrix that leaves out row 0 and column c. */
  function Minor(g: Grid, c: nat): (m: Grid)
    requires Square(g, |g|) && c < |g|
    ensures Square(m, |g| - 1)
    ensures forall r | 0 <= r < |g| - 1 :: m[r] == DropColumn(g[r + 1], c)
  {
    seq(|g| - 1, r requires 0 <= r < |g| - 1 => DropColumn(g[r + 1], c))
  }

  /** The determinant as the code computes it. Only the size 2 has a base
      case: a 1 x 1 matrix is expanded like a larger one, its single minor is
      the 0 x 0 matrix, and an empty expansion sums to 0. */
  function Det(g: Grid): real
    requires Square(g, |g|)
    decreases |g|, 1, 0
  {
    if |g| == 2 then g[0][0] * g[1][1] - g[0][1] * g[1][0]
    else Cofactors(g, |g|)
  }

  /** The first c terms of the expansion along row 0, added up from column 0
      onwards as the loop adds them. */
  function Cofactors(g: Grid, c: nat): real
    requires Square(g, |g|) && c <= |g|
    decreases |g|, 0, c
  {
    if c == 0 then 0.0
    else Cofactors(g, c - 1) + CofactorTerm(g, c - 1)
  }

  /** The term of column c: the sign of c times the entry of row 0 times the
      determinant of the minor. */
  function CofactorTerm(g: Grid, c: nat): real
    requires Square(g, |g|) && c < |g|
    decreases |g|, 0, c
  {
    Sign(c) * g[0][c] * Det(Minor(g, c))
  }

  /** `determinant()` of a matrix object. The object is square, so the
      shape check before the computation always passes. */
  function Determinant(m: Matrix): real
    requires m.Valid()
  {
    Det(m.data)
  }

  /** The 0 x 0 and the 1 x 1 matrices both get determinant 0. */
  lemma {:induction false} DeterminantDegenerate(m: Matrix)
    requires m.Valid() && m.Rows() <= 1
    ensures Determinant(m) == 0.0
  {
    var g := m.data;
    if |g| == 1 {
      assert Minor(g, 0) == [];
      assert Det(Minor(g, 0)) == 0.0;
      assert Det(g) == Cofactors(g, 1) == Cofactors(g, 0) + CofactorTerm(g, 0);
      assert CofactorTerm(g, 0) == Sign(0) * g[0][0] * 0.0;
    } else {
      assert Det(g) == Cofactors(g, 0);
    }
  }

  /** The 2 x 2 formula is the expansion along row 0 in which each 1 x 1
      minor counts as its single entry. */
  lemma {:induction false} TwoByTwoIsCofactorExpansion(m: Matrix)
    requires m.Valid() && m.Rows() == 2
    ensures Determinant(m)
         == Sign(0) * m.data[0][0] * Minor(m.data, 0)[0][0]
          + Sign(1) * m.data[0][1] * Minor(m.data, 1)[0][0]
  {
  }

  /** The code's own expansion along row 0, applied at size 2, sums to 0,
      because both 1 x 1 minors get determinant 0 (`DeterminantDegenerate`);
      only the explicit 2 x 2 formula gives the 2 x 2 determinant. */
  lemma {:induction false} TwoByTwoExpansionVanishes(g: Grid)
    requires Square(g, 2)
    ensures Cofactors(g, 2) == 0.0
  {
    DeterminantDegenerate(Matrix(Minor(g, 0)));
    DeterminantDegenerate(Matrix(Minor(g, 1)));
    assert Cofactors(g, 2) == Cofactors(g, 1) + CofactorTerm(g, 1);
    assert Cofactors(g, 1) == Cofactors(g, 0) + CofactorTerm(g, 0);
  }

  /** A square matrix whose row 0 is zero after column 0 expands to its
      first term alone. */
  lemma {:induction false} CofactorsFirstTermOnly(g: Grid, c: nat)
    requires Square(g, |g|) && 1 <= c <= |g|
    requires forall k | 1 <= k < |g| :: g[0][k] == 0.0
    ensures Cofactors(g, c) == Cofactors(g, 1)
    decreases c
  {
    if c > 1 {
      CofactorsFirstTermOnly(g, c - 1);
    }
  }

  lemma {:induction false} MinorOfIdentity(n: nat)
    requires n >= 1
    ensures Minor(Identity(n), 0) == Identity(n - 1)
  {
    var m := Minor(Identity(n), 0);
    forall r | 0 <= r < n - 1
      ensures m[r] == Identity(n - 1)[r]
    {
    }
  }

  /** The identity of every size from 2 on has determinant 1. */
  lemma {:induction false} DetIdentity(n: nat)
    requires n >= 2
    ensures Det(Identity(n)) == 1.0
    decreases n
  {
    if n > 2 {
      var e := Identity(n);
      CofactorsFirstTermOnly(e, n);
      MinorOfIdentity(n);
      DetIdentity(n - 1);
      assert Cofactors(e, 1) == CofactorTerm(e, 0) == Sign(0) * 1.0 * Det(Identity(n - 1));
    }
  }

  /** A matrix with a zero row has determinant 0. */
  lemma {:induction false} DetZeroRow(g: Grid, r: nat)
    requires Square(g, |g|) && r < |g|
    requires g[r] == Zeros(|g|)
    ensures Det(g) == 0.0
    decreases |g|, 1, 0
  {
    var n := |g|;
    if n == 1 {
      DeterminantDegenerate(Matrix(g));
    } else if n == 2 {
      assert g[r][0] == 0.0 && g[r][1] == 0.0;
    } else {
      CofactorsZeroRow(g, r, n);
    }
  }

  /** Every term of the expansion vanishes when row r is zero: through the
      entry when r is row 0, through the minor otherwise. */
  lemma {:induction false} CofactorsZeroRow(g: Grid, r: nat, c: nat)
    requires Square(g, |g|) && r < |g| && c <= |g| && |g| >= 3
    requires g[r] == Zeros(|g|)
    ensures Cofactors(g, c) == 0.0
    decreases |g|, 0, c
  {
    if c > 0 {
      CofactorsZeroRow(g, r, c - 1);
      if r == 0 {
        assert g[0][c - 1] == 0.0;
      } else {
        var m := Minor(g, c - 1);
        assert m[r - 1] == Zeros(|g| - 1);
        DetZeroRow(m, r - 1);
      }
      assert CofactorTerm(g, c - 1) == 0.0;
    }
  }

  /** The textbook expansion along row 0, with the 1 x 1 base case the code
      lacks: a reference for what `Det` computes from size 2 on. */
  function RefDet(g: Grid): real
    requires Square(g, |g|) && |g| >= 1
    decreases |g|, 1, 0
  {
    if |g| == 1 then g[0][0] else RefCofactors(g, |g|)
  }

  /** The first c terms of the reference expansion. */
  function RefCofactors(g: Grid, c: nat): real
    requires Square(g, |g|) && |g| >= 2 && c <= |g|
    decreases |g|, 0, c
  {
    if c == 0 then 0.0
    else RefCofactors(g, c - 1) + RefTerm(g, c - 1)
  }

  /** The reference term of column c. */
  function RefTerm(g: Grid, c: nat): real
    requires Square(g, |g|) && |g| >= 2 && c < |g|
    decreases |g|, 0, c
  {
    Sign(c) * g[0][c] * RefDet(Minor(g, c))
  }

  /** The 0 x 0 and 1 x 1 quirk goes no further: from size 2 on, the code's
      determinant is the textbook expansion. */
  lemma {:induction false} DetAgrees(g: Grid)
    requires Square(g, |g|) && |g| >= 2
    ensures Det(g) == RefDet(g)
    decreases |g|, 1, 0
  {
    if |g| == 2 {
      assert RefDet(Minor(g, 0)) == g[1][1] && RefDet(Minor(g, 1)) == g[1][0];
      assert RefTerm(g, 0) == g[0][0] * g[1][1];
      assert RefTerm(g, 1) == -(g[0][1] * g[1][0]);
      assert RefCofactors(g, 1) == RefTerm(g, 0);
      assert RefDet(g) == RefCofactors(g, 1) + RefTerm(g, 1);
    } else {
      CofactorsAgree(g, |g|);
    }
  }

  /** From size 3 on, every partial sum of the code's expansion equals the
      reference one, because every minor has size 2 or more. */
  lemma {:induction false} CofactorsAgree(g: Grid, c: nat)
    requires Square(g, |g|) && |g| >= 3 && c <= |g|
    ensures Cofactors(g, c) == RefCofactors(g, c)
    decreases |g|, 0, c
  {
    if c > 0 {
      CofactorsAgree(g, c - 1);
      DetAgrees(Minor(g, c - 1));
      assert CofactorTerm(g, c - 1) == RefTerm(g, c - 1);
    }
  }
}
