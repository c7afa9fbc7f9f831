/** Concrete instances: the demo matrices of the module, and the small cases
    where the class behaves in ways a reader might not expect. */
module Instances {
  import opened Vectors
  import opened Grids
  import opened Results
  import opened Matrices
  import opened Determinants
  import opened Inversion

  /** The first operand of the demo. */
  function DemoA(): (m: Matrix)
    ensures m.Valid() && m.Rows() == 3
  {
    Matrix([[8.0, 2.0, 3.0], [-3.0, 5.0, 6.0], [7.0, 8.0, 9.0]])
  }

  /** The second operand of the demo. */
  function DemoB(): (m: Matrix)
    ensures m.Valid() && m.Rows() == 3
  {
    Matrix([[9.0, 8.0, 7.0], [6.0, 9.0, 4.0], [3.0, 2.0, 1.0]])
  }

  /** A 2 x 3 list of rows is refused. */
  lemma {:induction false} NonSquareRejected()
    ensures New([[1.0, 2.0, 3.0], [4.0, 5.0, 6.0]]) == Err(DimensionMismatch)
  {
  }

  /** The empty list of rows is accepted as the 0 x 0 matrix. */
  lemma {:induction false} EmptyAccepted()
    ensures New([]) == Ok(Matrix([]))
    ensures Matrix([]).Rows() == 0 && Matrix([]).Cols() == 0
  {
  }

  /** The product of the demo operands. */
  lemma {:induction false} DemoProduct()
    ensures Mul(DemoA(), DemoB())
         == Ok(Matrix([[93.0, 88.0, 67.0], [21.0, 33.0, 5.0], [138.0, 146.0, 90.0]]))
  {
    var a, b := DemoA().data, DemoB().data;
    VecMatOfThree(a[0], b);
    VecMatOfThree(a[1], b);
    VecMatOfThree(a[2], b);
    assert Product(a, b) == [[93.0, 88.0, 67.0], [21.0, 33.0, 5.0], [138.0, 146.0, 90.0]];
  }

  /** A row of three times a 3 x 3 matrix, written out. */
  lemma {:induction false} VecMatOfThree(u: Vector, g: Grid)
    requires |u| == 3 && Square(g, 3)
    ensures VecMat(u, g, 3)
         == [u[0] * g[0][0] + u[1] * g[1][0] + u[2] * g[2][0],
             u[0] * g[0][1] + u[1] * g[1][1] + u[2] * g[2][1],
             u[0] * g[0][2] + u[1] * g[1][2] + u[2] * g[2][2]]
  {
    forall j | 0 <= j < 3
      ensures VecMat(u, g, 3)[j] == u[0] * g[0][j] + u[1] * g[1][j] + u[2] * g[2][j]
    {
      DotOfThree(u, Col(g, j));
    }
    var w := VecMat(u, g, 3);
    assert w[0] == u[0] * g[0][0] + u[1] * g[1][0] + u[2] * g[2][0];
    assert w[1] == u[0] * g[0][1] + u[1] * g[1][1] + u[2] * g[2][1];
    assert w[2] == u[0] * g[0][2] + u[1] * g[1][2] + u[2] * g[2][2];
    assert w == [w[0], w[1], w[2]];
  }

  lemma {:induction false} DotOfThree(u: Vector, v: Vector)
    requires |u| == |v| == 3
    ensures Dot(u, v) == u[0] * v[0] + u[1] * v[1] + u[2] * v[2]
  {
    assert Dot(u, v) == Dot(u[..2], v[..2]) + u[2] * v[2];
    assert Dot(u[..2], v[..2]) == Dot(u[..1], v[..1]) + u[1] * v[1] by {
      assert u[..2][..1] == u[..1] && v[..2][..1] == v[..1];
    }
    assert Dot(u[..1], v[..1]) == Dot(u[..0], v[..0]) + u[0] * v[0] by {
      assert u[..1][..0] == u[..0] && v[..1][..0] == v[..0];
    }
  }

  /** A 3 x 3 determinant, by expansion along row 0 with the 2 x 2 formula
      for the minors. */
  function Det3(g: Grid): real
    requires Square(g, 3)
  {
    g[0][0] * (g[1][1] * g[2][2] - g[1][2] * g[2][1])
    - g[0][1] * (g[1][0] * g[2][2] - g[1][2] * g[2][0])
    + g[0][2] * (g[1][0] * g[2][1] - g[1][1] * g[2][0])
  }

  /** For 3 x 3 matrices the recursion is the textbook expansion. */
  lemma {:induction false} DeterminantThreeByThree(m: Matrix)
    requires m.Valid() && m.Rows() == 3
    ensures Determinant(m) == Det3(m.data)
  {
    var g := m.data;
    var m0, m1, m2 := Minor(g, 0), Minor(g, 1), Minor(g, 2);
    assert m0[0] == [g[1][1], g[1][2]] && m0[1] == [g[2][1], g[2][2]];
    assert m1[0] == [g[1][0], g[1][2]] && m1[1] == [g[2][0], g[2][2]];
    assert m2[0] == [g[1][0], g[1][1]] && m2[1] == [g[2][0], g[2][1]];
    assert Det(m0) == g[1][1] * g[2][2] - g[1][2] * g[2][1];
    assert Det(m1) == g[1][0] * g[2][2] - g[1][2] * g[2][0];
    assert Det(m2) == g[1][0] * g[2][1] - g[1][1] * g[2][0];
    assert Det(g) == Cofactors(g, 3);
    assert Cofactors(g, 3) == Cofactors(g, 2) + CofactorTerm(g, 2);
    assert Cofactors(g, 2) == Cofactors(g, 1) + CofactorTerm(g, 1);
    assert Cofactors(g, 1) == Cofactors(g, 0) + CofactorTerm(g, 0);
  }

  /** The determinants of the demo operands: -63 for the first, -48 for the
      second. */
  lemma {:induction false} DemoDeterminant()
    ensures Determinant(DemoA()) == -63.0
    ensures Determinant(DemoB()) == -48.0
  {
    DeterminantThreeByThree(DemoA());
    DeterminantThreeByThree(DemoB());
  }

  /** Every 1 x 1 matrix has determinant 0, although a non-zero one has an
      inverse: [[5]] times [[0.2]] is the identity both ways round. */
  lemma {:induction false} OneByOneQuirk()
    ensures Determinant(Matrix([[5.0]])) == 0.0
    ensures IsInverse([[5.0]], [[0.2]], 1)
  {
    DeterminantDegenerate(Matrix([[5.0]]));
    var a, b := [[5.0]], [[0.2]];
    assert Dot(a[0], Col(b, 0)) == 1.0 by {
      assert Col(b, 0) == [0.2];
      assert a[0][..0] == [];
    }
    assert Dot(b[0], Col(a, 0)) == 1.0 by {
      assert Col(a, 0) == [5.0];
      assert b[0][..0] == [];
    }
    assert Identity(1)[0] == [1.0];
    assert Product(a, b)[0] == [1.0];
    assert Product(b, a)[0] == [1.0];
  }

  /** A 2 x 2 determinant by the explicit formula. */
  lemma {:induction false} TwoByTwoExample()
    ensures Determinant(Matrix([[1.0, 2.0], [3.0, 4.0]])) == -2.0
  {
  }

  /** A matrix with a zero row has determinant 0. */
  lemma {:induction false} ZeroRowExample()
    ensures Determinant(Matrix([[1.0, 2.0, 3.0], [0.0, 0.0, 0.0], [4.0, 5.0, 6.0]])) == 0.0
  {
    DetZeroRow([[1.0, 2.0, 3.0], [0.0, 0.0, 0.0], [4.0, 5.0, 6.0]], 1);
  }

  /** The inverse of the first demo operand: its adjugate divided by its
      determinant -63. */
  function InvA(): (g: Grid)
    ensures Square(g, 3)
  {
    [[1.0 / 21.0, -2.0 / 21.0, 1.0 / 21.0],
     [-23.0 / 21.0, -17.0 / 21.0, 19.0 / 21.0],
     [59.0 / 63.0, 50.0 / 63.0, -46.0 / 63.0]]
  }

  /** InvA is a left inverse of the first demo operand. */
  lemma {:induction false} InvALeftInverse()
    ensures Product(InvA(), DemoA().data) == Identity(3)
  {
    var b, a := InvA(), DemoA().data;
    VecMatOfThree(b[0], a);
    VecMatOfThree(b[1], a);
    VecMatOfThree(b[2], a);
    var e := Identity(3);
    assert e[0] == [1.0, 0.0, 0.0] && e[1] == [0.0, 1.0, 0.0] && e[2] == [0.0, 0.0, 1.0];
    assert Product(b, a) == [[1.0, 0.0, 0.0], [0.0, 1.0, 0.0], [0.0, 0.0, 1.0]];
  }

  /** Inverting the first demo operand succeeds and yields exactly InvA: the
      determinant is not 0, the matrix has a left inverse and so is not
      singular, and a two-sided inverse coincides with every left inverse. */
  method DemoInverse() returns (r: Result<Matrix>)
    ensures r == Ok(Matrix(InvA()))
  {
    var a := DemoA();
    r := Inverse(a);
    DemoDeterminant();
    InvALeftInverse();
    if r.Err? {
      if Singular(a.data) {
        SingularHasNoInverse(a.data, InvA());
      }
      assert false;
    }
    InverseUnique(a.data, r.value.data, InvA(), 3);
  }
}
