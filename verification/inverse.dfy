/** `inverse()`: the determinant test, then Gauss-Jordan elimination on the
    augmented matrix [A | I], read off as the right half. */
module Inversion {
  import opened Vectors
  import opened Grids
  import opened Results
  import opened Matrices
  import opened Determinants
  import opened Elimination

  /** The search below the diagonal: the first row j after i whose entry in
      column i is non-zero, or n when there is none. */
  method FindPivot(g: Grid, n: nat, i: nat) returns (j: nat)
    requires Shape(g, n, 2 * n) && i < n
    ensures i < j <= n
    ensures forall q | i < q < j :: g[q][i] == 0.0
    ensures j < n ==> g[j][i] != 0.0
  {
    j := i + 1;
    while j < n && g[j][i] == 0.0
      invariant i < j <= n
      invariant forall q | i < q < j :: g[q][i] == 0.0
    {
      j := j + 1;
    }
  }

  /** The row exchange at the top of the outer loop: when the diagonal entry
      of column i is 0, the first row below it with a non-zero entry there
      takes its place. Afterwards the diagonal entry is 0 only when the whole
      column from row i down is 0. */
  method PlacePivot(g: Grid, n: nat, i: nat, ghost s: Grid, ghost a: Grid) returns (h: Grid, ghost t: Grid)
    requires Progress(g, s, a, i) && n == |a| && i < n
    ensures Progress(h, t, a, i)
    ensures h[i][i] == 0.0 ==> forall q | i <= q < n :: h[q][i] == 0.0
  {
    h, t := g, s;
    if g[i][i] == 0.0 {
      var j := FindPivot(g, n, i);
      if j < n {
        TracksSwap(s, g, 2 * n, i, j);
        RowRelationSwap(g, a, i, j);
        UnitColumnsSwap(g, n, i, j);
        h, t := Swap(g, i, j), SwapColumns(s, i, j);
      }
    }
  }

  /** The rest of the outer loop: the divisor is the diagonal entry of
      column i; when it is 0 the column has no pivot and nothing changes.
      Otherwise row i is divided by it, then every other row k loses
      its own entry in column i times row i, which leaves column i a unit
      column. */
  method ClearColumn(g: Grid, n: nat, i: nat, ghost s: Grid, ghost a: Grid)
    returns (h: Grid, ghost t: Grid, pivoted: bool)
    requires Progress(g, s, a, i) && n == |a| && i < n
    ensures pivoted <==> g[i][i] != 0.0
    ensures !pivoted ==> h == g
    ensures pivoted ==> Progress(h, t, a, i + 1)
    ensures pivoted ==> Shape(h, n, 2 * n) && h[i][i] == 1.0
    ensures pivoted ==> forall q | 0 <= q < n && q != i :: h[q][i] == 0.0
  {
    var divisor := g[i][i];
    if divisor == 0.0 {
      return g, s, false;
    }
    pivoted := true;
    TracksDivide(s, g, 2 * n, i, divisor);
    RowRelationDivide(g, a, i, divisor);
    UnitColumnsDivide(g, n, i);
    h, t := DivideRow(g, i, divisor), ScaleColumn(s, i, divisor);
    ghost var pivot := h[i];
    var k := 0;
    while k < n
      invariant 0 <= k <= n
      invariant Progress(h, t, a, i)
      invariant h[i] == pivot && pivot[i] == 1.0
      invariant forall q | 0 <= q < k && q != i :: h[q][i] == 0.0
    {
      if k != i {
        var factor := h[k][i];
        TracksEliminate(t, h, 2 * n, k, factor, i);
        RowRelationEliminate(h, a, k, factor, i);
        UnitColumnsEliminate(h, n, k, i);
        h, t := EliminateRow(h, k, factor, i), AddColumnMultiple(t, i, k, factor);
      }
      k := k + 1;
    }
  }

  /** b is a matrix object of the size of m, and multiplying it with m in
      either order gives the identity. */
  predicate InverseOf(m: Matrix, b: Matrix)
    requires m.Valid()
  {
    b.Valid() && b.Rows() == m.Rows() && IsInverse(m.data, b.data, m.Rows())
    && Mul(m, b) == Ok(IdentityMatrix(m.Rows())) && Mul(b, m) == Ok(IdentityMatrix(m.Rows()))
  }

  /** A two-sided inverse in the sense of the product is one in the sense of
      the multiplication operator. */
  lemma {:induction false} InverseMultipliesToIdentity(m: Matrix, b: Matrix)
    requires m.Valid() && IsInverse(m.data, b.data, m.Rows())
    ensures InverseOf(m, b)
  {
  }

  /** The elimination loop over the columns of [A | I]. It either finishes,
      leaving every column a unit column, or stops at a column with no
      pivot, in which case a is singular. */
  method Eliminate(a: Grid) returns (aug: Grid, ghost s: Grid, solved: bool)
    requires Square(a, |a|)
    ensures Shape(aug, |a|, 2 * |a|)
    ensures solved ==> UnitColumns(aug, |a|, |a|) && Progress(aug, s, a, |a|)
    ensures !solved ==> Singular(a)
  {
    var n := |a|;
    aug, s := Augment(a), Identity(n);
    ProgressStart(a);
    var i := 0;
    while i < n
      invariant 0 <= i <= n
      invariant Progress(aug, s, a, i)
    {
      var placed, next, pivoted;
      ghost var s1, s2;
      placed, s1 := PlacePivot(aug, n, i, s, a);
      next, s2, pivoted := ClearColumn(placed, n, i, s1, a);
      if !pivoted {
        PivotFailureIsSingular(s1, placed, a, i);
        return placed, s1, false;
      }
      aug, s := next, s2;
      i := i + 1;
    }
    solved := true;
  }

  /** The inverse, or `NotInvertible` when the determinant is 0 or no pivot
      is found. A result is a two-sided inverse; a failure past the
      determinant test comes with a non-zero vector the matrix sends to 0.
      Since the determinant of every 1 x 1 matrix is 0, no 1 x 1 matrix is
      inverted. */
  method Inverse(m: Matrix) returns (r: Result<Matrix>)
    requires m.Valid()
    ensures Determinant(m) == 0.0 ==> r == Err(NotInvertible)
    ensures m.Rows() <= 1 ==> r == Err(NotInvertible)
    ensures r.Err? ==> r.error == NotInvertible && (Determinant(m) == 0.0 || Singular(m.data))
    ensures r.Ok? ==> InverseOf(m, r.value)
  {
    if m.Rows() <= 1 {
      DeterminantDegenerate(m);
    }
    if Determinant(m) == 0.0 {
      return Err(NotInvertible);
    }
    var aug, s, solved := Eliminate(m.data);
    if !solved {
      return Err(NotInvertible);
    }
    ProgressDone(aug, s, m.data);
    var inverse := Matrix(RightHalf(aug, m.Rows()));
    InverseMultipliesToIdentity(m, inverse);
    r := Ok(inverse);
  }
}
