/** The power operator: -1 is the inverse, 0 the identity, and a positive
    exponent the repeated product, computed by squaring. */
module Powers {
  import opened Grids
  import opened Results
  import opened Matrices
  import opened Determinants
  import opened Inversion

  /** g multiplied by itself k times, one factor at a time from the left:
      g^0 is the identity, g^k is g^(k-1) g. */
  function Pow(g: Grid, n: nat, k: nat): (p: Grid)
    requires Square(g, n)
    ensures Square(p, n)
    decreases k
  {
    if k == 0 then Identity(n) else Product(Pow(g, n, k - 1), g)
  }

  lemma {:induction false} PowOne(g: Grid, n: nat)
    requires Square(g, n)
    ensures Pow(g, n, 1) == g
  {
    ProductIdentityLeft(g);
  }

  /** g^j g^k == g^(j+k). */
  lemma {:induction false} PowAdd(g: Grid, n: nat, j: nat, k: nat)
    requires Square(g, n)
    ensures Product(Pow(g, n, j), Pow(g, n, k)) == Pow(g, n, j + k)
    decreases k
  {
    if k == 0 {
      ProductIdentityRight(Pow(g, n, j), n);
    } else {
      PowAdd(g, n, j, k - 1);
      ProductAssociative(Pow(g, n, j), Pow(g, n, k - 1), g, n);
    }
  }

  /** (g^j)^k == g^(j k). */
  lemma {:induction false} PowMul(g: Grid, n: nat, j: nat, k: nat)
    requires Square(g, n)
    ensures Pow(Pow(g, n, j), n, k) == Pow(g, n, j * k)
    decreases k
  {
    if k > 0 {
      PowMul(g, n, j, k - 1);
      PowAdd(g, n, j * (k - 1), j);
      assert j * (k - 1) + j == j * k;
    }
  }

  /** Powers of the square g g are the even powers of g. */
  lemma {:induction false} PowSquare(g: Grid, n: nat, k: nat)
    requires Square(g, n)
    ensures Pow(Product(g, g), n, k) == Pow(g, n, 2 * k)
  {
    PowOne(g, n);
    assert Pow(g, n, 2) == Product(g, g);
    PowMul(g, n, 2, k);
  }

  /** One pass of the squaring loop keeps result * base^exponent fixed. */
  lemma {:induction false} SquaringStep(result: Grid, base: Grid, n: nat, e: nat)
    requires Square(result, n) && Square(base, n) && e > 0
    ensures Product(if e % 2 == 1 then Product(result, base) else result, Pow(Product(base, base), n, e / 2))
         == Product(result, Pow(base, n, e))
  {
    PowSquare(base, n, e / 2);
    if e % 2 == 1 {
      PowAdd(base, n, 1, e / 2 * 2);
      PowOne(base, n);
      ProductAssociative(result, base, Pow(base, n, e / 2 * 2), n);
    }
  }

  /** `m ** e`. The positive case multiplies by squaring: while the exponent
      is positive, an odd exponent multiplies the result by the base, the
      base is squared and the exponent halved. */
  method Power(m: Matrix, e: int) returns (r: Result<Matrix>)
    requires m.Valid()
    ensures e < -1 ==> r == Err(UnsupportedExponent)
    ensures e == 0 ==> r == Ok(IdentityMatrix(m.Rows()))
    ensures e > 0 ==> r == Ok(Matrix(Pow(m.data, m.Rows(), e)))
    ensures e == -1 ==> (Determinant(m) == 0.0 ==> r == Err(NotInvertible))
    ensures e == -1 && r.Err? ==> r.error == NotInvertible && (Determinant(m) == 0.0 || Singular(m.data))
    ensures e == -1 && r.Ok? ==> r.value.Valid() && IsInverse(m.data, r.value.data, m.Rows())
  {
    var n := m.Rows();
    if e == -1 {
      r := Inverse(m);
    } else if e == 0 {
      r := Ok(IdentityMatrix(n));
    } else if e > 0 {
      var result, base, exponent := IdentityMatrix(n), m, e;
      ProductIdentityLeft(Pow(m.data, n, e));
      while exponent > 0
        invariant result.Valid() && result.Rows() == n
        invariant base.Valid() && base.Rows() == n
        invariant exponent >= 0
        invariant Product(result.data, Pow(base.data, n, exponent)) == Pow(m.data, n, e)
      {
        SquaringStep(result.data, base.data, n, exponent);
        if exponent % 2 == 1 {
          result := Mul(result, base).value;
        }
        base := Mul(base, base).value;
        exponent := exponent / 2;
      }
      ProductIdentityRight(result.data, n);
      r := Ok(result);
    } else {
      r := Err(UnsupportedExponent);
    }
  }
}
