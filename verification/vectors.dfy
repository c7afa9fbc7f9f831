/** Rows and columns as sequences of reals, with the dot product every
    matrix operation is built from and the facts about it that the row
    operations of Gauss-Jordan elimination rely on. */
module Vectors {

  type Vector = seq<real>

  /** The sum u[0]*v[0] + u[1]*v[1] + ..., accumulated from index 0 upwards
      starting at 0, in the order the multiplication loop adds its terms. */
  function Dot(u: Vector, v: Vector): real
    requires |u| == |v|
    decreases |u|
  {
    if |u| == 0 then 0.0
    else Dot(u[..|u| - 1], v[..|v| - 1]) + u[|u| - 1] * v[|v| - 1]
  }

  function Zeros(n: nat): (z: Vector)
    ensures |z| == n
    ensures forall i | 0 <= i < n :: z[i] == 0.0
  {
    seq(n, _ => 0.0)
  }

  /** The vector with 1 at position p and 0 elsewhere: row p of the identity. */
  function Unit(n: nat, p: nat): (e: Vector)
    ensures |e| == n
    ensures forall i | 0 <= i < n :: e[i] == if i == p then 1.0 else 0.0
  {
    seq(n, i => if i == p then 1.0 else 0.0)
  }

  /** Every entry multiplied by t. */
  function Scale(u: Vector, t: real): (w: Vector)
    ensures |w| == |u|
    ensures forall j | 0 <= j < |u| :: w[j] == t * u[j]
  {
    seq(|u|, j requires 0 <= j < |u| => t * u[j])
  }

  /** Every entry divided by d, as the pivot row is divided by its pivot. */
  function DivideBy(u: Vector, d: real): (w: Vector)
    requires d != 0.0
    ensures |w| == |u|
    ensures forall j | 0 <= j < |u| :: w[j] == u[j] / d
  {
    seq(|u|, j requires 0 <= j < |u| => u[j] / d)
  }

  /** u - f*w entry by entry, as a multiple of the pivot row is taken off
      another row. */
  function SubtractMultiple(u: Vector, f: real, w: Vector): (x: Vector)
    requires |u| == |w|
    ensures |x| == |u|
    ensures forall j | 0 <= j < |u| :: x[j] == u[j] - f * w[j]
  {
    seq(|u|, j requires 0 <= j < |u| => u[j] - f * w[j])
  }

  /** u with the entries at positions i and j exchanged: entries of a row,
      or rows of a grid. */
  function Swap<T>(u: seq<T>, i: nat, j: nat): (w: seq<T>)
    requires i < |u| && j < |u|
    ensures |w| == |u| && w[i] == u[j] && w[j] == u[i]
    ensures forall k | 0 <= k < |u| && k != i && k != j :: w[k] == u[k]
  {
    u[i := u[j]][j := u[i]]
  }

  /** Changing one entry of the left operand changes the dot product by
      exactly that entry's new contribution. */
  lemma {:induction false} DotUpdateLeft(u: Vector, v: Vector, p: nat, y: real)
    requires |u| == |v| && p < |u|
    ensures Dot(u[p := y], v) == Dot(u, v) + (y - u[p]) * v[p]
    decreases |u|
  {
    var n := |u|;
    var u' := u[p := y];
    if p == n - 1 {
      assert u'[..n - 1] == u[..n - 1];
    } else {
      assert u'[..n - 1] == u[..n - 1][p := y];
      DotUpdateLeft(u[..n - 1], v[..n - 1], p, y);
    }
  }

  lemma {:induction false} DotSymmetric(u: Vector, v: Vector)
    requires |u| == |v|
    ensures Dot(u, v) == Dot(v, u)
    decreases |u|
  {
    if |u| > 0 {
      DotSymmetric(u[..|u| - 1], v[..|v| - 1]);
    }
  }

  lemma {:induction false} DotUpdateRight(u: Vector, v: Vector, p: nat, y: real)
    requires |u| == |v| && p < |v|
    ensures Dot(u, v[p := y]) == Dot(u, v) + u[p] * (y - v[p])
  {
    DotSymmetric(u, v[p := y]);
    DotUpdateLeft(v, u, p, y);
    DotSymmetric(u, v);
  }

  lemma {:induction false} DotZerosRight(u: Vector)
    ensures Dot(u, Zeros(|u|)) == 0.0
    decreases |u|
  {
    if |u| > 0 {
      assert Zeros(|u|)[..|u| - 1] == Zeros(|u| - 1);
      DotZerosRight(u[..|u| - 1]);
    }
  }

  /** A dot product whose every term vanishes is zero. */
  lemma {:induction false} DotOfVanishingTerms(u: Vector, v: Vector)
    requires |u| == |v|
    requires forall j | 0 <= j < |u| :: u[j] * v[j] == 0.0
    ensures Dot(u, v) == 0.0
    decreases |u|
  {
    if |u| > 0 {
      DotOfVanishingTerms(u[..|u| - 1], v[..|v| - 1]);
    }
  }

  /** Dotting with a unit vector selects one entry. */
  lemma {:induction false} DotUnitRight(u: Vector, p: nat)
    requires p < |u|
    ensures Dot(u, Unit(|u|, p)) == u[p]
  {
    var n := |u|;
    assert Unit(n, p) == Zeros(n)[p := 1.0];
    DotZerosRight(u);
    DotUpdateRight(u, Zeros(n), p, 1.0);
  }

  lemma {:induction false} DotUnitLeft(u: Vector, p: nat)
    requires p < |u|
    ensures Dot(Unit(|u|, p), u) == u[p]
  {
    DotUnitRight(u, p);
    DotSymmetric(u, Unit(|u|, p));
  }

  /** Dividing the left operand by d divides the dot product by d. */
  lemma {:induction false} DotDivideBy(u: Vector, d: real, v: Vector)
    requires |u| == |v| && d != 0.0
    ensures Dot(DivideBy(u, d), v) == Dot(u, v) / d
  {
    var w, t := DivideBy(u, d), 1.0 / d;
    forall j | 0 <= j < |u|
      ensures w[j] == t * u[j]
    {
      DivisionIsScaling(u[j], d);
    }
    DotScaled(w, u, t, v);
    DivisionIsScaling(Dot(u, v), d);
  }

  lemma DivisionIsScaling(a: real, d: real)
    requires d != 0.0
    ensures a / d == (1.0 / d) * a
  {
  }

  lemma ScaledTerm(f: real, a: real, b: real, c: real)
    ensures f * a + (f * b) * c == f * (a + b * c)
  {
  }

  lemma DifferenceTerm(a: real, b: real, c: real)
    ensures (a - b) * c == a * c - b * c
  {
  }

  /** A left operand that is f times w entry by entry gives f times the dot
      product of w. */
  lemma {:induction false} DotScaled(x: Vector, w: Vector, f: real, v: Vector)
    requires |x| == |w| == |v|
    requires forall j | 0 <= j < |x| :: x[j] == f * w[j]
    ensures Dot(x, v) == f * Dot(w, v)
    decreases |x|
  {
    var n := |x|;
    if n > 0 {
      var x', w', v' := x[..n - 1], w[..n - 1], v[..n - 1];
      assert forall j | 0 <= j < n - 1 :: x'[j] == f * w'[j];
      DotScaled(x', w', f, v');
      ScaledTerm(f, Dot(w', v'), w[n - 1], v[n - 1]);
    }
  }

  /** A left operand that is u - y entry by entry gives the difference of the
      dot products. */
  lemma {:induction false} DotDifference(x: Vector, u: Vector, y: Vector, v: Vector)
    requires |x| == |u| == |y| == |v|
    requires forall j | 0 <= j < |x| :: x[j] == u[j] - y[j]
    ensures Dot(x, v) == Dot(u, v) - Dot(y, v)
    decreases |x|
  {
    var n := |x|;
    if n > 0 {
      var x', u', y', v' := x[..n - 1], u[..n - 1], y[..n - 1], v[..n - 1];
      assert forall j | 0 <= j < n - 1 :: x'[j] == u'[j] - y'[j];
      DotDifference(x', u', y', v');
      DifferenceTerm(u[n - 1], y[n - 1], v[n - 1]);
    }
  }

  /** Dividing a row and then cutting it in two is cutting it and dividing both halves. */
  lemma {:induction false} DivideBySlices(u: Vector, d: real, n: nat)
    requires d != 0.0 && n <= |u|
    ensures DivideBy(u, d)[..n] == DivideBy(u[..n], d)
    ensures DivideBy(u, d)[n..] == DivideBy(u[n..], d)
  {
    var w := DivideBy(u, d);
    assert forall j | 0 <= j < n :: w[..n][j] == DivideBy(u[..n], d)[j];
    assert forall j | 0 <= j < |u| - n :: w[n..][j] == DivideBy(u[n..], d)[j];
  }

  /** Subtracting a multiple of a row and then cutting it in two is cutting
      both rows and subtracting half by half. */
  lemma {:induction false} SubtractMultipleSlices(u: Vector, f: real, w: Vector, n: nat)
    requires |u| == |w| && n <= |u|
    ensures SubtractMultiple(u, f, w)[..n] == SubtractMultiple(u[..n], f, w[..n])
    ensures SubtractMultiple(u, f, w)[n..] == SubtractMultiple(u[n..], f, w[n..])
  {
    var x := SubtractMultiple(u, f, w);
    assert forall j | 0 <= j < n :: x[..n][j] == SubtractMultiple(u[..n], f, w[..n])[j];
    assert forall j | 0 <= j < |u| - n :: x[n..][j] == SubtractMultiple(u[n..], f, w[n..])[j];
  }

  /** The dot product is linear in its left operand. */
  lemma {:induction false} DotSubtractMultiple(u: Vector, f: real, w: Vector, v: Vector)
    requires |u| == |w| == |v|
    ensures Dot(SubtractMultiple(u, f, w), v) == Dot(u, v) - f * Dot(w, v)
  {
    var y := Scale(w, f);
    DotDifference(SubtractMultiple(u, f, w), u, y, v);
    DotScaled(y, w, f, v);
  }

  /** Changing the entries at one position of both operands replaces that
      position's term of the dot product. */
  lemma {:induction false} DotUpdateBoth(u: Vector, v: Vector, p: nat, a: real, b: real)
    requires |u| == |v| && p < |u|
    ensures Dot(u[p := a], v[p := b]) == Dot(u, v) - u[p] * v[p] + a * b
    decreases |u|
  {
    var n := |u|;
    if p == n - 1 {
      assert u[p := a][..n - 1] == u[..n - 1];
      assert v[p := b][..n - 1] == v[..n - 1];
    } else {
      assert u[p := a][..n - 1] == u[..n - 1][p := a];
      assert v[p := b][..n - 1] == v[..n - 1][p := b];
      DotUpdateBoth(u[..n - 1], v[..n - 1], p, a, b);
    }
  }

  /** Subtracting -f times w adds f times w. */
  lemma {:induction false} DotAddMultiple(u: Vector, f: real, w: Vector, v: Vector)
    requires |u| == |w| == |v|
    ensures Dot(SubtractMultiple(u, -f, w), v) == Dot(u, v) + f * Dot(w, v)
  {
    DotSubtractMultiple(u, -f, w, v);
    NegatedFactor(Dot(u, v), f, Dot(w, v));
  }

  lemma NegatedFactor(a: real, x: real, b: real)
    ensures a - (-x) * b == a + x * b
  {
  }

  /** Exchanging the same two positions in both operands leaves the dot product unchanged. */
  lemma {:induction false} DotSwap(u: Vector, v: Vector, i: nat, j: nat)
    requires |u| == |v| && i < |u| && j < |u|
    ensures Dot(Swap(u, i, j), Swap(v, i, j)) == Dot(u, v)
  {
    if i != j {
      DotSwapDistinct(u, v, i, j);
    } else {
      assert Swap(u, i, j) == u && Swap(v, i, j) == v;
    }
  }

  lemma {:induction false} DotSwapDistinct(u: Vector, v: Vector, i: nat, j: nat)
    requires |u| == |v| && i < |u| && j < |u| && i != j
    ensures Dot(u[i := u[j]][j := u[i]], v[i := v[j]][j := v[i]]) == Dot(u, v)
  {
    var u1, v1 := u[i := u[j]], v[i := v[j]];
    var x, y := u[i], v[i];
    var a, b := u[j], v[j];
    assert Dot(u1, v1) == Dot(u, v) - x * y + a * b by { DotUpdateBoth(u, v, i, a, b); }
    assert Dot(u1[j := x], v1[j := y]) == Dot(u1, v1) - a * b + x * y by { DotUpdateBoth(u1, v1, j, x, y); }
  }

  /** Entry i multiplied by d. */
  function ScaleEntry(u: Vector, i: nat, d: real): (w: Vector)
    requires i < |u|
  {
    u[i := u[i] * d]
  }

  /** Entry i divided by d. */
  function DivideEntry(u: Vector, i: nat, d: real): (w: Vector)
    requires i < |u| && d != 0.0
  {
    u[i := u[i] / d]
  }

  /** f times entry k added to entry i. */
  function AddEntryMultiple(u: Vector, i: nat, k: nat, f: real): (w: Vector)
    requires i < |u| && k < |u|
  {
    u[i := u[i] + f * u[k]]
  }

  /** f times entry i subtracted from entry k. */
  function SubtractEntryMultiple(u: Vector, k: nat, f: real, i: nat): (w: Vector)
    requires i < |u| && k < |u|
  {
    u[k := u[k] - f * u[i]]
  }

  /** Multiplying position i of the left operand by d and dividing position i of
      the right operand by d leaves the dot product unchanged. */
  lemma {:induction false} DotScalePair(u: Vector, v: Vector, i: nat, d: real)
    requires |u| == |v| && i < |u| && d != 0.0
    ensures Dot(ScaleEntry(u, i, d), DivideEntry(v, i, d)) == Dot(u, v)
  {
    var v1 := v[i := v[i] / d];
    DotUpdateRight(u, v, i, v[i] / d);
    DotUpdateLeft(u, v1, i, u[i] * d);
    assert (u[i] * d - u[i]) * (v[i] / d) == u[i] * v[i] - u[i] * (v[i] / d);
  }

  /** Adding f times position k to position i of the left operand, while
      subtracting f times position i from position k of the right operand,
      leaves the dot product unchanged. */
  lemma {:induction false} DotShear(u: Vector, v: Vector, i: nat, k: nat, f: real)
    requires |u| == |v| && i < |u| && k < |u| && i != k
    ensures Dot(AddEntryMultiple(u, i, k, f), SubtractEntryMultiple(v, k, f, i)) == Dot(u, v)
  {
    var v1 := v[k := v[k] - f * v[i]];
    DotUpdateRight(u, v, k, v[k] - f * v[i]);
    DotUpdateLeft(u, v1, i, u[i] + f * u[k]);
  }
}
