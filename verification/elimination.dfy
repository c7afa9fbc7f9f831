/** The row operations of Gauss-Jordan elimination on the augmented n x 2n
    matrix [A | I], and the three facts about them that make the result an
    inverse:
    - every row stays its right half times A (`RowRelation`);
    - some matrix S keeps S [left | right] == [A | I] (`Product(s, g) == Augment(a)`):
      S starts as the identity and each row operation is undone on S by the
      matching column operation;
    - the columns already processed are unit columns (`UnitColumns`). */
module Elimination {
  import opened Vectors
  import opened Grids

  /** The augmented matrix [A | I]: each row of a followed by the same row
      of the identity. */
  function Augment(a: Grid): (g: Grid)
    requires Square(a, |a|)
    ensures Shape(g, |a|, 2 * |a|)
    ensures forall k, c | 0 <= k < |a| && 0 <= c < 2 * |a| ::
              g[k][c] == if c < |a| then a[k][c] else if c - |a| == k then 1.0 else 0.0
  {
    seq(|a|, k requires 0 <= k < |a| => a[k] + Unit(|a|, k))
  }

  /** The first n entries of every row. */
  function LeftHalf(g: Grid, n: nat): (l: Grid)
    requires Shape(g, |g|, 2 * n)
    ensures Shape(l, |g|, n)
    ensures forall k | 0 <= k < |g| :: l[k] == g[k][..n]
  {
    seq(|g|, k requires 0 <= k < |g| => g[k][..n])
  }

  /** The last n entries of every row: where the inverse is read off. */
  function RightHalf(g: Grid, n: nat): (r: Grid)
    requires Shape(g, |g|, 2 * n)
    ensures Shape(r, |g|, n)
    ensures forall k | 0 <= k < |g| :: r[k] == g[k][n..]
  {
    seq(|g|, k requires 0 <= k < |g| => g[k][n..])
  }

  /** Row i divided by d; the other rows are left alone. */
  function DivideRow(g: Grid, i: nat, d: real): (h: Grid)
    requires i < |g| && d != 0.0
    ensures |h| == |g| && |h[i]| == |g[i]|
    ensures forall j | 0 <= j < |g[i]| :: h[i][j] == g[i][j] / d
    ensures forall k | 0 <= k < |g| && k != i :: h[k] == g[k]
  {
    g[i := DivideBy(g[i], d)]
  }

  /** f times row i subtracted from row k; the other rows are left alone. */
  function EliminateRow(g: Grid, k: nat, f: real, i: nat): (h: Grid)
    requires k < |g| && i < |g| && |g[k]| == |g[i]|
    ensures |h| == |g| && |h[k]| == |g[k]|
    ensures forall j | 0 <= j < |g[k]| :: h[k][j] == g[k][j] - f * g[i][j]
    ensures forall q | 0 <= q < |g| && q != k :: h[q] == g[q]
  {
    g[k := SubtractMultiple(g[k], f, g[i])]
  }

  /** Columns i and j exchanged: undoes `Swap(_, i, j)` from the right. */
  function SwapColumns(s: Grid, i: nat, j: nat): (t: Grid)
    requires forall a | 0 <= a < |s| :: i < |s[a]| && j < |s[a]|
    ensures |t| == |s|
    ensures forall a | 0 <= a < |s| :: t[a] == Swap(s[a], i, j)
  {
    seq(|s|, a requires 0 <= a < |s| => Swap(s[a], i, j))
  }

  /** Column i multiplied by d: undoes `DivideRow(_, i, d)` from the right. */
  function ScaleColumn(s: Grid, i: nat, d: real): (t: Grid)
    requires forall a | 0 <= a < |s| :: i < |s[a]|
    ensures |t| == |s|
    ensures forall a | 0 <= a < |s| :: t[a] == ScaleEntry(s[a], i, d)
  {
    seq(|s|, a requires 0 <= a < |s| => ScaleEntry(s[a], i, d))
  }

  /** f times column k added to column i: undoes `EliminateRow(_, k, f, i)`
      from the right. */
  function AddColumnMultiple(s: Grid, i: nat, k: nat, f: real): (t: Grid)
    requires forall a | 0 <= a < |s| :: i < |s[a]| && k < |s[a]|
    ensures |t| == |s|
    ensures forall a | 0 <= a < |s| :: t[a] == AddEntryMultiple(s[a], i, k, f)
  {
    seq(|s|, a requires 0 <= a < |s| => AddEntryMultiple(s[a], i, k, f))
  }

  /** Every row of g is its right half times a: the left half records what
      the right half does to a. */
  predicate RowRelation(g: Grid, a: Grid)
  {
    Square(a, |a|) && Shape(g, |a|, 2 * |a|)
    && forall k | 0 <= k < |g| :: g[k][..|a|] == VecMat(g[k][|a|..], a, |a|)
  }

  /** Columns 0 .. i - 1 of the n x 2n matrix g are the unit columns of the identity. */
  predicate UnitColumns(g: Grid, n: nat, i: nat)
  {
    Shape(g, n, 2 * n) && i <= n
    && forall k, c | 0 <= k < n && 0 <= c < i :: g[k][c] == if k == c then 1.0 else 0.0
  }

  /** The augmented matrix starts out in the relation, with no column processed. */
  lemma {:induction false} AugmentStart(a: Grid)
    requires Square(a, |a|)
    ensures RowRelation(Augment(a), a) && UnitColumns(Augment(a), |a|, 0)
    ensures Product(Identity(|a|), Augment(a)) == Augment(a)
  {
    var n, g := |a|, Augment(a);
    forall k | 0 <= k < n
      ensures g[k][..n] == VecMat(g[k][n..], a, n)
    {
      assert g[k][..n] == a[k];
      assert g[k][n..] == Unit(n, k);
      VecMatUnit(a, n, k);
    }
    ProductIdentityLeft(g);
  }

  // ---- The tracking matrix S --------------------------------------------

  lemma {:induction false} ColOfSwap(g: Grid, i: nat, j: nat, c: nat)
    requires i < |g| && j < |g| && forall k | 0 <= k < |g| :: c < |g[k]|
    ensures Col(Swap(g, i, j), c) == Swap(Col(g, c), i, j)
  {
    var x, y := Col(Swap(g, i, j), c), Swap(Col(g, c), i, j);
    assert forall k | 0 <= k < |g| :: x[k] == y[k];
  }

  lemma {:induction false} ColOfDivideRow(g: Grid, i: nat, d: real, c: nat)
    requires i < |g| && d != 0.0 && forall k | 0 <= k < |g| :: c < |g[k]|
    ensures Col(DivideRow(g, i, d), c) == DivideEntry(Col(g, c), i, d)
  {
    var x, y := Col(DivideRow(g, i, d), c), DivideEntry(Col(g, c), i, d);
    assert forall k | 0 <= k < |g| :: x[k] == y[k];
  }

  lemma {:induction false} ColOfEliminateRow(g: Grid, k: nat, f: real, i: nat, c: nat)
    requires k < |g| && i < |g| && |g[k]| == |g[i]|
    requires forall q | 0 <= q < |g| :: c < |g[q]|
    ensures Col(EliminateRow(g, k, f, i), c) == SubtractEntryMultiple(Col(g, c), k, f, i)
  {
    var x, y := Col(EliminateRow(g, k, f, i), c), SubtractEntryMultiple(Col(g, c), k, f, i);
    assert forall q | 0 <= q < |g| :: x[q] == y[q];
  }

  /** Swapping rows i and j of g and columns i and j of s leaves s g unchanged. */
  lemma {:induction false} TracksSwap(s: Grid, g: Grid, w: nat, i: nat, j: nat)
    requires Shape(g, |g|, w) && w > 0 && Shape(s, |s|, |g|) && i < |g| && j < |g|
    ensures Shape(Swap(g, i, j), |g|, w)
    ensures Product(SwapColumns(s, i, j), Swap(g, i, j)) == Product(s, g)
  {
    var s', g' := SwapColumns(s, i, j), Swap(g, i, j);
    forall a | 0 <= a < |s|
      ensures Product(s', g')[a] == Product(s, g)[a]
    {
      forall c | 0 <= c < w
        ensures Product(s', g')[a][c] == Product(s, g)[a][c]
      {
        ColOfSwap(g, i, j, c);
        DotSwap(s[a], Col(g, c), i, j);
      }
    }
  }

  /** Dividing row i of g by d and multiplying column i of s by d leaves s g unchanged. */
  lemma {:induction false} TracksDivide(s: Grid, g: Grid, w: nat, i: nat, d: real)
    requires Shape(g, |g|, w) && w > 0 && Shape(s, |s|, |g|) && i < |g| && d != 0.0
    ensures Shape(DivideRow(g, i, d), |g|, w)
    ensures Product(ScaleColumn(s, i, d), DivideRow(g, i, d)) == Product(s, g)
  {
    var s', g' := ScaleColumn(s, i, d), DivideRow(g, i, d);
    forall a | 0 <= a < |s|
      ensures Product(s', g')[a] == Product(s, g)[a]
    {
      forall c | 0 <= c < w
        ensures Product(s', g')[a][c] == Product(s, g)[a][c]
      {
        ColOfDivideRow(g, i, d, c);
        DotScalePair(s[a], Col(g, c), i, d);
      }
    }
  }

  /** Subtracting f times row i from row k of g and adding f times column k
      to column i of s leaves s g unchanged. */
  lemma {:induction false} TracksEliminate(s: Grid, g: Grid, w: nat, k: nat, f: real, i: nat)
    requires Shape(g, |g|, w) && w > 0 && Shape(s, |s|, |g|) && i < |g| && k < |g| && i != k
    ensures Shape(EliminateRow(g, k, f, i), |g|, w)
    ensures Product(AddColumnMultiple(s, i, k, f), EliminateRow(g, k, f, i)) == Product(s, g)
  {
    var s', g' := AddColumnMultiple(s, i, k, f), EliminateRow(g, k, f, i);
    forall a | 0 <= a < |s|
      ensures Product(s', g')[a] == Product(s, g)[a]
    {
      forall c | 0 <= c < w
        ensures Product(s', g')[a][c] == Product(s, g)[a][c]
      {
        ColOfEliminateRow(g, k, f, i, c);
        DotShear(s[a], Col(g, c), i, k, f);
      }
    }
  }

  // ---- The row relation ---------------------------------------------------

  lemma {:induction false} RowRelationSwap(g: Grid, a: Grid, i: nat, j: nat)
    requires RowRelation(g, a) && i < |g| && j < |g|
    ensures RowRelation(Swap(g, i, j), a)
  {
  }

  lemma {:induction false} RowRelationDivide(g: Grid, a: Grid, i: nat, d: real)
    requires RowRelation(g, a) && i < |g| && d != 0.0
    ensures RowRelation(DivideRow(g, i, d), a)
  {
    var n := |a|;
    DivideBySlices(g[i], d, n);
    VecMatDivideBy(g[i][n..], d, a, n);
  }

  lemma {:induction false} RowRelationEliminate(g: Grid, a: Grid, k: nat, f: real, i: nat)
    requires RowRelation(g, a) && k < |g| && i < |g|
    ensures RowRelation(EliminateRow(g, k, f, i), a)
  {
    var n := |a|;
    SubtractMultipleSlices(g[k], f, g[i], n);
    VecMatSubtractMultiple(g[k][n..], f, g[i][n..], a, n);
  }

  // ---- Unit columns -------------------------------------------------------

  /** Below the processed columns, rows i and j >= i are both zero there, so
      exchanging them keeps the processed columns. */
  lemma {:induction false} UnitColumnsSwap(g: Grid, n: nat, i: nat, j: nat)
    requires UnitColumns(g, n, i) && i <= j < n
    ensures UnitColumns(Swap(g, i, j), n, i)
  {
  }

  /** Dividing the pivot row by its pivot keeps the processed columns and puts
      1 in the pivot position. */
  lemma {:induction false} UnitColumnsDivide(g: Grid, n: nat, i: nat)
    requires UnitColumns(g, n, i) && i < n && g[i][i] != 0.0
    ensures UnitColumns(DivideRow(g, i, g[i][i]), n, i)
    ensures DivideRow(g, i, g[i][i])[i][i] == 1.0
  {
    var d := g[i][i];
    var g' := DivideRow(g, i, d);
    forall k, c | 0 <= k < n && 0 <= c < i
      ensures g'[k][c] == if k == c then 1.0 else 0.0
    {
      if k == i {
        assert g'[k][c] == 0.0 / d;
      }
    }
  }

  /** Subtracting a multiple of the pivot row keeps the processed columns,
      and with the factor `g[k][i]` it clears entry (k, i). */
  lemma {:induction false} UnitColumnsEliminate(g: Grid, n: nat, k: nat, i: nat)
    requires UnitColumns(g, n, i) && i < n && k < n && k != i && g[i][i] == 1.0
    ensures UnitColumns(EliminateRow(g, k, g[k][i], i), n, i)
    ensures EliminateRow(g, k, g[k][i], i)[k][i] == 0.0
  {
    var f := g[k][i];
    var g' := EliminateRow(g, k, f, i);
    forall q, c | 0 <= q < n && 0 <= c < i
      ensures g'[q][c] == if q == c then 1.0 else 0.0
    {
      if q == k {
        assert g[i][c] == 0.0;
        assert g'[q][c] == g[k][c] - f * 0.0;
      }
    }
    assert g'[k][i] == f - f * 1.0;
  }

  // ---- The finished elimination -------------------------------------------

  /** Once every column is a unit column, the right half is a left inverse of a. */
  lemma {:induction false} SolvedRowRelation(g: Grid, a: Grid)
    requires RowRelation(g, a) && UnitColumns(g, |a|, |a|)
    ensures Product(RightHalf(g, |a|), a) == Identity(|a|)
  {
    var n := |a|;
    var r := RightHalf(g, n);
    forall k | 0 <= k < n
      ensures Product(r, a)[k] == Identity(n)[k]
    {
      assert g[k][..n] == Unit(n, k);
    }
  }

  /** Once every column is a unit column, the left half is the identity. */
  lemma {:induction false} SolvedLeftHalf(g: Grid, n: nat)
    requires UnitColumns(g, n, n)
    ensures LeftHalf(g, n) == Identity(n)
  {
    var l := LeftHalf(g, n);
    forall k | 0 <= k < n
      ensures l[k] == Identity(n)[k]
    {
      assert l[k] == Unit(n, k);
    }
  }

  /** The tracking matrix times the right half of the augmented matrix is the
      identity. */
  lemma {:induction false} TrackedRightHalf(s: Grid, g: Grid, a: Grid)
    requires Square(a, |a|) && Square(s, |a|) && Shape(g, |a|, 2 * |a|)
    requires Product(s, g) == Augment(a)
    ensures Product(s, RightHalf(g, |a|)) == Identity(|a|)
  {
    var n := |a|;
    var r := RightHalf(g, n);
    forall y | 0 <= y < n
      ensures Product(s, r)[y] == Identity(n)[y]
    {
      forall c | 0 <= c < n
        ensures Product(s, r)[y][c] == Identity(n)[y][c]
      {
        assert Col(r, c) == Col(g, n + c);
        assert Product(s, g)[y][n + c] == Dot(s[y], Col(g, n + c));
      }
    }
  }

  /** Once every column is a unit column, S is a itself, and its tracking
      equation says that a times the right half is the identity. */
  lemma {:induction false} SolvedTracking(s: Grid, g: Grid, a: Grid)
    requires Square(a, |a|) && Square(s, |a|) && UnitColumns(g, |a|, |a|)
    requires Product(s, g) == Augment(a)
    ensures Product(a, RightHalf(g, |a|)) == Identity(|a|)
  {
    var n := |a|;
    SolvedLeftHalf(g, n);
    TrackedLeftHalf(s, g, a);
    ProductIdentityRight(s, n);
    TrackedRightHalf(s, g, a);
  }

  /** The state of the elimination after i columns: the invariants above
      together, for the augmented matrix g of a and the tracking matrix s. */
  predicate Progress(g: Grid, s: Grid, a: Grid, i: nat)
  {
    Square(a, |a|) && Square(s, |a|) && UnitColumns(g, |a|, i) && RowRelation(g, a)
    && Product(s, g) == Augment(a)
  }

  /** Elimination starts from [A | I] with S the identity. */
  lemma {:induction false} ProgressStart(a: Grid)
    requires Square(a, |a|)
    ensures Progress(Augment(a), Identity(|a|), a, 0)
  {
    AugmentStart(a);
  }

  /** After the last column the right half is a two-sided inverse. */
  lemma {:induction false} ProgressDone(g: Grid, s: Grid, a: Grid)
    requires Progress(g, s, a, |a|)
    ensures IsInverse(a, RightHalf(g, |a|), |a|)
  {
    SolvedRowRelation(g, a);
    SolvedTracking(s, g, a);
  }

  /** The column vector that cancels column i against the processed columns:
      -g[c][i] for c < i, 1 at i, 0 after. */
  function NullVector(g: Grid, n: nat, i: nat): (x: Vector)
    requires Shape(g, n, 2 * n) && i < n
    ensures |x| == n && x[i] == 1.0
    ensures forall c | 0 <= c < n :: x[c] == if c < i then -g[c][i] else if c == i then 1.0 else 0.0
  {
    seq(n, c requires 0 <= c < n => if c < i then -g[c][i] else if c == i then 1.0 else 0.0)
  }

  /** When no row from i on has a non-zero entry in column i, the left half
      maps the null vector to zero. */
  lemma {:induction false} LeftHalfKillsNullVector(g: Grid, n: nat, i: nat)
    requires UnitColumns(g, n, i) && i < n
    requires forall q | i <= q < n :: g[q][i] == 0.0
    ensures MatVec(LeftHalf(g, n), NullVector(g, n, i)) == Zeros(n)
  {
    forall k | 0 <= k < n
      ensures Dot(LeftHalf(g, n)[k], NullVector(g, n, i)) == 0.0
    {
      RowKillsNullVector(g, n, i, k);
    }
  }

  /** Row k of the left half is orthogonal to the null vector: for k < i its
      terms are 1 * -g[k][i] and g[k][i] * 1, and for k >= i every term is 0. */
  lemma {:induction false} RowKillsNullVector(g: Grid, n: nat, i: nat, k: nat)
    requires UnitColumns(g, n, i) && i < n && k < n
    requires forall q | i <= q < n :: g[q][i] == 0.0
    ensures Dot(g[k][..n], NullVector(g, n, i)) == 0.0
  {
    var u, x := g[k][..n], NullVector(g, n, i);
    if k < i {
      var x1 := x[k := 0.0];
      var x2 := x1[i := 0.0];
      assert forall c | 0 <= c < n :: u[c] * x2[c] == 0.0;
      DotOfVanishingTerms(u, x2);
      DotUpdateRight(u, x2, i, 1.0);
      assert x2[i := 1.0] == x1;
      DotUpdateRight(u, x1, k, -g[k][i]);
      assert x1[k := -g[k][i]] == x;
    } else {
      assert forall c | 0 <= c < n :: u[c] * x[c] == 0.0;
      DotOfVanishingTerms(u, x);
    }
  }

  /** The tracking matrix times the left half of the augmented matrix is a. */
  lemma {:induction false} TrackedLeftHalf(s: Grid, g: Grid, a: Grid)
    requires Square(a, |a|) && Square(s, |a|) && Shape(g, |a|, 2 * |a|)
    requires Product(s, g) == Augment(a)
    ensures Product(s, LeftHalf(g, |a|)) == a
  {
    var n := |a|;
    var l := LeftHalf(g, n);
    forall y | 0 <= y < n
      ensures Product(s, l)[y] == a[y]
    {
      forall c | 0 <= c < n
        ensures Product(s, l)[y][c] == a[y][c]
      {
        assert Col(l, c) == Col(g, c);
        assert Product(s, g)[y][c] == Dot(s[y], Col(g, c));
      }
    }
  }

  /** If elimination finds no pivot for column i, a is singular. */
  lemma {:induction false} PivotFailureIsSingular(s: Grid, g: Grid, a: Grid, i: nat)
    requires Square(a, |a|) && Square(s, |a|) && UnitColumns(g, |a|, i) && i < |a|
    requires Product(s, g) == Augment(a)
    requires forall q | i <= q < |a| :: g[q][i] == 0.0
    ensures Singular(a)
  {
    var n := |a|;
    var l, x := LeftHalf(g, n), NullVector(g, n, i);
    TrackedLeftHalf(s, g, a);
    LeftHalfKillsNullVector(g, n, i);
    MatVecProduct(s, l, x);
    MatVecZeros(s, n);
    assert x != Zeros(n) by { assert x[i] != Zeros(n)[i]; }
    assert |x| == n && x != Zeros(n) && MatVec(a, x) == Zeros(n);
  }
}
