/** Outcomes of the matrix operations. Every failure of the `Matrix` class is a
    `ValueError`; the model keeps the three situations apart by tag. */
module Results {

  /** Why an operation failed. */
  datatype Error =
    | DimensionMismatch   // non-square construction, or operand shapes that do not fit
    | NotInvertible       // zero determinant, or no non-zero pivot during elimination
    | UnsupportedExponent // a power below -1

  /** Either the matrix (or other value) an operation returns, or the error it raises. */
  datatype Result<+T> = Ok(value: T) | Err(error: Error)
}
