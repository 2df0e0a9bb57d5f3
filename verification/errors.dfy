/**
  The exceptions the matrix library throws, as values. A C++ `throw` becomes
  an `Err` carrying the exception class and its message; a normal return
  becomes `Ok`. `Result` supports Dafny's `:-` so that a thrown exception
  propagates out of the enclosing operation exactly as in the source.
 */
module Errors {

  /** The text of an exception: a fixed message, or the shape-bearing multiplication message. */
  datatype Message =
    | Text(text: string)
      /** "Matrix dimensions incompatible for multiplication: <aRows>x<aCols> * <bRows>x<bCols>" */
    | ShapeMismatch(aRows: int, aCols: int, bRows: int, bCols: int)

  /** The standard exception class thrown, with its message. */
  datatype Error =
    | InvalidArgument(msg: Message)  // std::invalid_argument
    | OutOfRange(msg: Message)       // std::out_of_range
    | LogicError(msg: Message)       // std::logic_error
    | LengthError(msg: Message)      // std::length_error, from std::vector's size constructor

  datatype Result<+T> = Ok(value: T) | Err(error: Error) {
    predicate IsFailure() {
      Err?
    }

    function PropagateFailure<U>(): Result<U>
      requires Err?
    {
      Err(error)
    }

    function Extract(): T
      requires Ok?
    {
      value
    }
  }

  const DimensionsMustBePositive := "Matrix dimensions must be positive"
  const IndexOutOfBounds := "Matrix index out of bounds"
  const IdentityMustBeSquare := "Identity matrix must be square"
  const AdditionMismatch := "Matrix dimensions must match for addition"
  const SubtractionMismatch := "Matrix dimensions must match for subtraction"
  const SubmatrixOutOfRange := "Submatrix bounds out of range"
  const DestinationOutOfRange := "Submatrix destination out of range"
  /** What std::vector(n) throws when n, converted to size_t, exceeds max_size() (the GNU libstdc++ wording). */
  const VectorTooLarge := "cannot create std::vector larger than max_size()"
  /** Matrix::INCOMPATIBLE_DIMENSIONS_MSG */
  const IncompatibleDimensions := "Incompatible dimensions for multiplication (A.cols != B.rows)"
}
