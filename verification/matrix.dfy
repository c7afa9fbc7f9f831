/** The matrix object of `matrix_stlin.py`: construction with the square-shape
    check, the elementwise operators, multiplication and the identity. */
module Matrices {
  import opened Vectors
  import opened Grids
  import opened Results

  /** A matrix object. The row and column counts are not stored separately:
      they are derived from `data` exactly as the constructor derives them. */
  datatype Matrix = Matrix(data: Grid) {

    function Rows(): nat
    {
      |data|
    }

    /** The length of the first row, or 0 when there are no rows. */
    function Cols(): nat
    {
      Width(data)
    }

    predicate IsSquare()
    {
      Rows() == Cols()
    }

    /** What every object that construction lets through satisfies: its rows
        all have the same length (assumed of the input) and it is square. */
    predicate Valid()
      ensures Valid() ==> Square(data, Rows())
    {
      Rectangular(data) && IsSquare()
    }
  }

  /** Construction: accepts the data exactly when it has as many rows as
      columns, so the empty list is accepted as a 0 x 0 matrix. */
  function New(data: Grid): (r: Result<Matrix>)
    requires Rectangular(data)
    ensures r.Ok? <==> |data| == Width(data)
    ensures r.Ok? ==> r.value.data == data && r.value.Valid()
    ensures r.Err? ==> r.error == DimensionMismatch
  {
    var m := Matrix(data);
    if !m.IsSquare() then Err(DimensionMismatch) else Ok(m)
  }

  /** `identity(size)`: 1 on the diagonal, 0 elsewhere; a size below 1 gives
      the 0 x 0 matrix, as an empty range does. */
  function IdentityMatrix(size: int): (e: Matrix)
    ensures e.Valid() && e.Rows() == if size < 0 then 0 else size
    ensures forall i, j | 0 <= i < e.Rows() && 0 <= j < e.Rows() ::
              e.data[i][j] == if i == j then 1.0 else 0.0
  {
    Matrix(Identity(if size < 0 then 0 else size))
  }

  /** Entrywise sum; fails unless both operands have the same shape. */
  function Add(a: Matrix, b: Matrix): (r: Result<Matrix>)
    requires a.Valid() && b.Valid()
    ensures r.Err? <==> a.Rows() != b.Rows() || a.Cols() != b.Cols()
    ensures r.Err? ==> r.error == DimensionMismatch
    ensures r.Ok? ==> r.value.Valid() && r.value.Rows() == a.Rows()
    ensures r.Ok? ==> forall i, j | 0 <= i < a.Rows() && 0 <= j < a.Cols() ::
                        r.value.data[i][j] == a.data[i][j] + b.data[i][j]
  {
    if a.Rows() != b.Rows() || a.Cols() != b.Cols() then Err(DimensionMismatch)
    else
      var n := a.Rows();
      Ok(Matrix(seq(n, i requires 0 <= i < n =>
                  seq(n, j requires 0 <= j < n => a.data[i][j] + b.data[i][j]))))
  }

  /** Entrywise difference; fails unless both operands have the same shape. */
  function Sub(a: Matrix, b: Matrix): (r: Result<Matrix>)
    requires a.Valid() && b.Valid()
    ensures r.Err? <==> a.Rows() != b.Rows() || a.Cols() != b.Cols()
    ensures r.Err? ==> r.error == DimensionMismatch
    ensures r.Ok? ==> r.value.Valid() && r.value.Rows() == a.Rows()
    ensures r.Ok? ==> forall i, j | 0 <= i < a.Rows() && 0 <= j < a.Cols() ::
                        r.value.data[i][j] == a.data[i][j] - b.data[i][j]
  {
    if a.Rows() != b.Rows() || a.Cols() != b.Cols() then Err(DimensionMismatch)
    else
      var n := a.Rows();
      Ok(Matrix(seq(n, i requires 0 <= i < n =>
                  seq(n, j requires 0 <= j < n => a.data[i][j] - b.data[i][j]))))
  }

  /** Matrix product; fails unless the left operand has as many columns as
      the right operand has rows. Entry (i, j) is the sum over k of
      a[i][k] * b[k][j]. */
  function Mul(a: Matrix, b: Matrix): (r: Result<Matrix>)
    requires a.Valid() && b.Valid()
    ensures r.Err? <==> a.Cols() != b.Rows()
    ensures r.Err? ==> r.error == DimensionMismatch
    ensures r.Ok? ==> r.value.Valid() && r.value.Rows() == a.Rows() && r.value.Cols() == b.Cols()
    ensures r.Ok? ==> forall i, j | 0 <= i < a.Rows() && 0 <= j < b.Cols() ::
                        r.value.data[i][j] == Dot(a.data[i], Col(b.data, j))
  {
    if a.Cols() != b.Rows() then Err(DimensionMismatch)
    else Ok(Matrix(Product(a.data, b.data)))
  }

  /** The innermost loop of the multiplication operator: starting from the
      zero the result was filled with, add u[k] * v[k] for k = 0, 1, ... */
  method Accumulate(u: Vector, v: Vector) returns (acc: real)
    requires |u| == |v|
    ensures acc == Dot(u, v)
  {
    acc := 0.0;
    var k := 0;
    while k < |u|
      invariant 0 <= k <= |u|
      invariant acc == Dot(u[..k], v[..k])
    {
      assert u[..k + 1][..k] == u[..k] && v[..k + 1][..k] == v[..k];
      acc := acc + u[k] * v[k];
      k := k + 1;
    }
    assert u[..k] == u && v[..k] == v;
  }

  /** The triple loop of the multiplication operator: a zero-filled result
      whose entry (i, j) accumulates a[i][k] * b[k][j] for k = 0, 1, ...
      It computes exactly the product `Mul` defines. */
  method Multiply(a: Matrix, b: Matrix) returns (r: Result<Matrix>)
    requires a.Valid() && b.Valid()
    ensures r == Mul(a, b)
  {
    if a.Cols() != b.Rows() {
      return Err(DimensionMismatch);
    }
    var n, m := a.Rows(), b.Cols();
    ghost var p := Product(a.data, b.data);
    var result: Grid := seq(n, _ => Zeros(m));
    var i := 0;
    while i < n
      invariant 0 <= i <= n && Shape(result, n, m)
      invariant forall q | 0 <= q < i :: result[q] == p[q]
    {
      var j := 0;
      while j < m
        invariant 0 <= j <= m && Shape(result, n, m)
        invariant forall q | 0 <= q < i :: result[q] == p[q]
        invariant forall c | 0 <= c < j :: result[i][c] == p[i][c]
      {
        var entry := Accumulate(a.data[i], Col(b.data, j));
        result := result[i := result[i][j := entry]];
        j := j + 1;
      }
      assert result[i] == p[i];
      i := i + 1;
    }
    assert result == p;
    return Ok(Matrix(result));
  }

  /** Subtracting the right operand of a sum gives back the left operand. */
  lemma {:induction false} AddThenSubtract(a: Matrix, b: Matrix)
    requires a.Valid() && b.Valid() && Add(a, b).Ok?
    ensures Add(a, b).value.Valid()
    ensures Sub(Add(a, b).value, b) == Ok(a)
  {
    var s := Add(a, b).value;
    var d := Sub(s, b).value;
    forall i | 0 <= i < a.Rows()
      ensures d.data[i] == a.data[i]
    {
      assert forall j | 0 <= j < a.Cols() :: d.data[i][j] == a.data[i][j];
    }
    assert d.data == a.data;
  }

  /** Addition does not depend on the order of the operands. */
  lemma {:induction false} AddCommutative(a: Matrix, b: Matrix)
    requires a.Valid() && b.Valid()
    ensures Add(a, b) == Add(b, a)
  {
    if Add(a, b).Ok? {
      var x, y := Add(a, b).value, Add(b, a).value;
      forall i | 0 <= i < a.Rows()
        ensures x.data[i] == y.data[i]
      {
        assert forall j | 0 <= j < a.Cols() :: x.data[i][j] == y.data[i][j];
      }
      assert x.data == y.data;
    }
  }

  /** A matrix minus itself is the zero matrix of its size. */
  lemma {:induction false} SubtractSelf(a: Matrix)
    requires a.Valid()
    ensures Sub(a, a) == Ok(Matrix(ZeroGrid(a.Rows())))
  {
    var d := Sub(a, a).value;
    forall i | 0 <= i < a.Rows()
      ensures d.data[i] == ZeroGrid(a.Rows())[i]
    {
      assert forall j | 0 <= j < a.Cols() :: d.data[i][j] == 0.0;
    }
    assert d.data == ZeroGrid(a.Rows());
  }

  /** The identity of the matching size is a right unit of multiplication. */
  lemma {:induction false} MulIdentityRight(a: Matrix)
    requires a.Valid()
    ensures Mul(a, IdentityMatrix(a.Cols())) == Ok(a)
  {
    ProductIdentityRight(a.data, a.Rows());
  }

  /** The identity of the matching size is a left unit of multiplication. */
  lemma {:induction false} MulIdentityLeft(a: Matrix)
    requires a.Valid()
    ensures Mul(IdentityMatrix(a.Rows()), a) == Ok(a)
  {
    ProductIdentityLeft(a.data);
  }

  /** Multiplication of matrices of one size is associative. */
  lemma {:induction false} MulAssociative(a: Matrix, b: Matrix, c: Matrix)
    requires a.Valid() && b.Valid() && c.Valid()
    requires a.Rows() == b.Rows() == c.Rows()
    ensures Mul(a, b).Ok? && Mul(b, c).Ok?
    ensures Mul(Mul(a, b).value, c) == Mul(a, Mul(b, c).value)
  {
    ProductAssociative(a.data, b.data, c.data, a.Rows());
  }
}
