/**
  The dense Matrix value type: a rows x cols row-major buffer with
  bounds-checked element access, element-wise arithmetic, comparison,
  region copies and power-of-two padding.

  A C++ member function that mutates `*this` is modelled as a function or
  method returning the new value of `*this`.
 */
module Matrices {
  import opened Errors
  import opened Layout
  import opened Powers

  datatype Matrix = Matrix(rows: int, cols: int, data: seq<int>) {
    /** What every constructed matrix satisfies: positive dimensions and rows * cols entries. */
    predicate Valid() {
      rows > 0 && cols > 0 && |data| == rows * cols
    }

    /** Matrix::size */
    function Size(): int {
      rows * cols
    }
  }

  /** Element (i, j) of a valid matrix, for indices already known to be in range. */
  function Get(M: Matrix, i: int, j: int): int
    requires M.Valid() && 0 <= i < M.rows && 0 <= j < M.cols
  {
    Elem(M.data, M.rows, M.cols, i, j)
  }

  predicate SameDimensions(A: Matrix, B: Matrix) {
    A.rows == B.rows && A.cols == B.cols
  }

  predicate CanMultiply(A: Matrix, B: Matrix) {
    A.cols == B.rows
  }

  function Max(x: int, y: int): int {
    if x < y then y else x
  }

  /** Two valid matrices of the same shape are equal when every element agrees. */
  lemma Extensionality(A: Matrix, B: Matrix)
    requires A.Valid() && B.Valid() && SameDimensions(A, B)
    requires forall i, j :: 0 <= i < A.rows && 0 <= j < A.cols ==> Get(A, i, j) == Get(B, i, j)
    ensures A == B
  {
    forall i, j | 0 <= i < A.rows && 0 <= j < A.cols
      ensures Elem(A.data, A.rows, A.cols, i, j) == Elem(B.data, A.rows, A.cols, i, j)
    {
      assert Get(A, i, j) == Get(B, i, j);
    }
    EqualByEntries(A.data, B.data, A.rows, A.cols);
  }

  /**
    The member initializer `data_(rows * cols, 0.0)` runs before the body's
    positivity check: a negative element count becomes a size_t above
    max_size(), so std::vector throws length_error first.
   */
  predicate VectorRejects(rows: int, cols: int) {
    rows * cols < 0
  }

  /**
    Matrix(rows, cols): length_error when the element count is negative
    (dimensions of mixed sign), otherwise invalid_argument for a non-positive
    dimension, otherwise an all-zero rows x cols matrix.
   */
  function New(rows: int, cols: int): (r: Result<Matrix>)
    ensures r.Ok? <==> rows > 0 && cols > 0
    ensures VectorRejects(rows, cols) ==> r == Err(LengthError(Text(VectorTooLarge)))
    ensures r.Err? && !VectorRejects(rows, cols) ==> r.error == InvalidArgument(Text(DimensionsMustBePositive))
    ensures r.Ok? ==> r.value.Valid() && r.value.rows == rows && r.value.cols == cols
    ensures r.Ok? ==> forall i, j :: 0 <= i < rows && 0 <= j < cols ==> Get(r.value, i, j) == 0
  {
    if VectorRejects(rows, cols) then Err(LengthError(Text(VectorTooLarge)))
    else if rows <= 0 || cols <= 0 then Err(InvalidArgument(Text(DimensionsMustBePositive)))
    else
      var M := Matrix(rows, cols, Zeros(rows * cols));
      assert forall i, j :: 0 <= i < rows && 0 <= j < cols ==> Get(M, i, j) == 0 by {
        forall i, j | 0 <= i < rows && 0 <= j < cols
          ensures Get(M, i, j) == 0
        {
          IndexBound(i, j, rows, cols);
        }
      }
      Ok(M)
  }

  /**
    Which exception the constructor throws for non-positive dimensions: mixed
    signs overflow std::vector first, while two negative dimensions (a
    positive count) or a zero dimension reach the positivity check.
   */
  lemma ConstructorErrors()
    ensures New(-1, 2) == Err(LengthError(Text(VectorTooLarge)))
    ensures New(3, -4) == Err(LengthError(Text(VectorTooLarge)))
    ensures New(-1, -2) == Err(InvalidArgument(Text(DimensionsMustBePositive)))
    ensures New(-1, 0) == Err(InvalidArgument(Text(DimensionsMustBePositive)))
    ensures New(0, 5) == Err(InvalidArgument(Text(DimensionsMustBePositive)))
  {
  }

  /** operator()(i, j) const: out_of_range unless 0 <= i < rows and 0 <= j < cols; reads data[i * cols + j]. */
  function At(M: Matrix, i: int, j: int): (r: Result<int>)
    requires M.Valid()
    ensures r.Ok? <==> 0 <= i < M.rows && 0 <= j < M.cols
    ensures r.Err? ==> r.error == OutOfRange(Text(IndexOutOfBounds))
    ensures r.Ok? ==> 0 <= i * M.cols + j < M.Size() && r.value == M.data[i * M.cols + j]
  {
    if i < 0 || i >= M.rows || j < 0 || j >= M.cols then Err(OutOfRange(Text(IndexOutOfBounds)))
    else
      IndexBound(i, j, M.rows, M.cols);
      Ok(Get(M, i, j))
  }

  /** operator()(i, j) = v: out_of_range unless (i, j) is in range; writes that cell and no other. */
  function Set(M: Matrix, i: int, j: int, v: int): (r: Result<Matrix>)
    requires M.Valid()
    ensures r.Ok? <==> 0 <= i < M.rows && 0 <= j < M.cols
    ensures r.Err? ==> r.error == OutOfRange(Text(IndexOutOfBounds))
    ensures r.Ok? ==> r.value.Valid() && SameDimensions(r.value, M) && Get(r.value, i, j) == v
    ensures r.Ok? ==> forall i', j' :: 0 <= i' < M.rows && 0 <= j' < M.cols && (i' != i || j' != j) ==>
                        Get(r.value, i', j') == Get(M, i', j')
  {
    if i < 0 || i >= M.rows || j < 0 || j >= M.cols then Err(OutOfRange(Text(IndexOutOfBounds)))
    else
      ElemUpdate(M.data, M.rows, M.cols, i, j, v);
      Ok(M.(data := M.data[i * M.cols + j := v]))
  }

  /** initConstant(value): every element becomes value, the shape is kept. */
  function InitConstant(M: Matrix, value: int): (R: Matrix)
    requires M.Valid()
    ensures R.Valid() && SameDimensions(R, M)
    ensures forall i, j :: 0 <= i < M.rows && 0 <= j < M.cols ==> Get(R, i, j) == value
  {
    var R := M.(data := seq(|M.data|, _ => value));
    assert forall i, j :: 0 <= i < M.rows && 0 <= j < M.cols ==> Get(R, i, j) == value by {
      forall i, j | 0 <= i < M.rows && 0 <= j < M.cols
        ensures Get(R, i, j) == value
      {
        IndexBound(i, j, M.rows, M.cols);
      }
    }
    R
  }

  /** initZeros */
  function InitZeros(M: Matrix): (R: Matrix)
    requires M.Valid()
    ensures R.Valid() && SameDimensions(R, M)
    ensures forall i, j :: 0 <= i < M.rows && 0 <= j < M.cols ==> Get(R, i, j) == 0
  {
    InitConstant(M, 0)
  }

  /** initIdentity: logic_error on a non-square matrix; otherwise 1 on the diagonal and 0 elsewhere. */
  method InitIdentity(M: Matrix) returns (r: Result<Matrix>)
    requires M.Valid()
    ensures r.Ok? <==> M.rows == M.cols
    ensures r.Err? ==> r.error == LogicError(Text(IdentityMustBeSquare))
    ensures r.Ok? ==> r.value.Valid() && SameDimensions(r.value, M)
    ensures r.Ok? ==> forall i, j :: 0 <= i < M.rows && 0 <= j < M.cols ==> Get(r.value, i, j) == if i == j then 1 else 0
  {
    if M.rows != M.cols {
      return Err(LogicError(Text(IdentityMustBeSquare)));
    }
    var C := InitZeros(M);
    for i := 0 to M.rows
      invariant C.Valid() && SameDimensions(C, M)
      invariant forall i', j' :: 0 <= i' < M.rows && 0 <= j' < M.cols ==>
                  Get(C, i', j') == if i' == j' && i' < i then 1 else 0
    {
      C := Set(C, i, i, 1).value;
    }
    return Ok(C);
  }

  /** operator+: invalid_argument unless the shapes match; otherwise the element-wise sum. */
  function Add(A: Matrix, B: Matrix): (r: Result<Matrix>)
    requires A.Valid() && B.Valid()
    ensures r.Ok? <==> SameDimensions(A, B)
    ensures r.Err? ==> r.error == InvalidArgument(Text(AdditionMismatch))
    ensures r.Ok? ==> r.value.Valid() && SameDimensions(r.value, A)
    ensures r.Ok? ==> forall i, j :: 0 <= i < A.rows && 0 <= j < A.cols ==> Get(r.value, i, j) == Get(A, i, j) + Get(B, i, j)
  {
    if !SameDimensions(A, B) then Err(InvalidArgument(Text(AdditionMismatch)))
    else
      PlusElem(A.data, B.data, A.rows, A.cols);
      Ok(A.(data := Plus(A.data, B.data)))
  }

  /** operator-: invalid_argument unless the shapes match; otherwise the element-wise difference. */
  function Sub(A: Matrix, B: Matrix): (r: Result<Matrix>)
    requires A.Valid() && B.Valid()
    ensures r.Ok? <==> SameDimensions(A, B)
    ensures r.Err? ==> r.error == InvalidArgument(Text(SubtractionMismatch))
    ensures r.Ok? ==> r.value.Valid() && SameDimensions(r.value, A)
    ensures r.Ok? ==> forall i, j :: 0 <= i < A.rows && 0 <= j < A.cols ==> Get(r.value, i, j) == Get(A, i, j) - Get(B, i, j)
  {
    if !SameDimensions(A, B) then Err(InvalidArgument(Text(SubtractionMismatch)))
    else
      MinusElem(A.data, B.data, A.rows, A.cols);
      Ok(A.(data := Minus(A.data, B.data)))
  }

  /** operator*(scalar): every element multiplied by the scalar, the shape kept. */
  function Scale(A: Matrix, scalar: int): (R: Matrix)
    requires A.Valid()
    ensures R.Valid() && SameDimensions(R, A)
    ensures forall i, j :: 0 <= i < A.rows && 0 <= j < A.cols ==> Get(R, i, j) == Get(A, i, j) * scalar
  {
    var R := A.(data := seq(|A.data|, x requires 0 <= x < |A.data| => A.data[x] * scalar));
    assert forall i, j :: 0 <= i < A.rows && 0 <= j < A.cols ==> Get(R, i, j) == Get(A, i, j) * scalar by {
      forall i, j | 0 <= i < A.rows && 0 <= j < A.cols
        ensures Get(R, i, j) == Get(A, i, j) * scalar
      {
        IndexBound(i, j, A.rows, A.cols);
      }
    }
    R
  }

  /** operator+=: the shape check, then data[i] += other.data[i] for every i; same value as operator+. */
  method AddAssign(A: Matrix, B: Matrix) returns (r: Result<Matrix>)
    requires A.Valid() && B.Valid()
    ensures r == Add(A, B)
  {
    if !SameDimensions(A, B) {
      return Err(InvalidArgument(Text(AdditionMismatch)));
    }
    var d := A.data;
    for x := 0 to A.Size()
      invariant |d| == |A.data|
      invariant forall y :: 0 <= y < |d| ==> d[y] == if y < x then A.data[y] + B.data[y] else A.data[y]
    {
      d := d[x := d[x] + B.data[x]];
    }
    r := Ok(A.(data := d));
    assert d == Plus(A.data, B.data);
  }

  /** operator-=: the shape check, then data[i] -= other.data[i] for every i; same value as operator-. */
  method SubAssign(A: Matrix, B: Matrix) returns (r: Result<Matrix>)
    requires A.Valid() && B.Valid()
    ensures r == Sub(A, B)
  {
    if !SameDimensions(A, B) {
      return Err(InvalidArgument(Text(SubtractionMismatch)));
    }
    var d := A.data;
    for x := 0 to A.Size()
      invariant |d| == |A.data|
      invariant forall y :: 0 <= y < |d| ==> d[y] == if y < x then A.data[y] - B.data[y] else A.data[y]
    {
      d := d[x := d[x] - B.data[x]];
    }
    r := Ok(A.(data := d));
    assert d == Minus(A.data, B.data);
  }

  /** operator*=: every element multiplied in place; same value as operator*. */
  method ScaleAssign(A: Matrix, scalar: int) returns (R: Matrix)
    requires A.Valid()
    ensures R == Scale(A, scalar)
  {
    var d := A.data;
    for x := 0 to |d|
      invariant |d| == |A.data|
      invariant forall y :: 0 <= y < |d| ==> d[y] == if y < x then A.data[y] * scalar else A.data[y]
    {
      d := d[x := d[x] * scalar];
    }
    R := A.(data := d);
  }

  function Abs(x: int): int {
    if x < 0 then -x else x
  }

  /** The default tolerance of Matrix::equals, 1e-9. */
  const DefaultTolerance: real := 0.000000001

  /**
    equals(other, tolerance): false when the shapes differ; otherwise true
    exactly when every pair of corresponding elements differs by at most the
    tolerance. The loop stops at the first element out of tolerance.
   */
  method Equals(A: Matrix, B: Matrix, tolerance: real) returns (eq: bool)
    requires A.Valid() && B.Valid()
    ensures eq <==> SameDimensions(A, B) &&
                    forall i, j :: 0 <= i < A.rows && 0 <= j < A.cols ==> (Abs(Get(A, i, j) - Get(B, i, j)) as real) <= tolerance
  {
    if !SameDimensions(A, B) {
      return false;
    }
    for x := 0 to A.Size()
      invariant forall y :: 0 <= y < x ==> (Abs(A.data[y] - B.data[y]) as real) <= tolerance
    {
      if (Abs(A.data[x] - B.data[x]) as real) > tolerance {
        IndexSplit(x, A.rows, A.cols);
        assert Get(A, x / A.cols, x % A.cols) == A.data[x];
        return false;
      }
    }
    forall i, j | 0 <= i < A.rows && 0 <= j < A.cols
      ensures (Abs(Get(A, i, j) - Get(B, i, j)) as real) <= tolerance
    {
      IndexBound(i, j, A.rows, A.cols);
    }
    return true;
  }

  /**
    submatrix(rowStart, colStart, numRows, numCols): out_of_range when the
    region leaves the parent; an extent of mixed sign then fails with
    length_error and any other non-positive extent with invalid_argument, both
    in the constructor; otherwise the region copied out.
   */
  function Submatrix(M: Matrix, rowStart: int, colStart: int, numRows: int, numCols: int): (r: Result<Matrix>)
    requires M.Valid()
    ensures r.Ok? <==> 0 <= rowStart && 0 <= colStart && rowStart + numRows <= M.rows && colStart + numCols <= M.cols &&
                       numRows > 0 && numCols > 0
    ensures r.Err? ==> r.error == if rowStart < 0 || colStart < 0 || rowStart + numRows > M.rows || colStart + numCols > M.cols
                                  then OutOfRange(Text(SubmatrixOutOfRange))
                                  else if VectorRejects(numRows, numCols) then LengthError(Text(VectorTooLarge))
                                  else InvalidArgument(Text(DimensionsMustBePositive))
    ensures r.Ok? ==> r.value.Valid() && r.value.rows == numRows && r.value.cols == numCols
    ensures r.Ok? ==> forall i, j :: 0 <= i < numRows && 0 <= j < numCols ==> Get(r.value, i, j) == Get(M, rowStart + i, colStart + j)
  {
    if rowStart < 0 || colStart < 0 || rowStart + numRows > M.rows || colStart + numCols > M.cols then
      Err(OutOfRange(Text(SubmatrixOutOfRange)))
    else
      var sub :- New(numRows, numCols);
      Ok(sub.(data := Block(M.data, M.rows, M.cols, rowStart, colStart, numRows, numCols)))
  }

  /**
    copySubmatrix(src, rowOffset, colOffset): out_of_range when src does not
    fit at the offset; otherwise exactly the target region is overwritten with
    src and every other cell keeps its value.
   */
  function CopySubmatrix(M: Matrix, src: Matrix, rowOffset: int, colOffset: int): (r: Result<Matrix>)
    requires M.Valid() && src.Valid()
    ensures r.Ok? <==> 0 <= rowOffset && 0 <= colOffset && rowOffset + src.rows <= M.rows && colOffset + src.cols <= M.cols
    ensures r.Err? ==> r.error == OutOfRange(Text(DestinationOutOfRange))
    ensures r.Ok? ==> r.value.Valid() && SameDimensions(r.value, M)
    ensures r.Ok? ==> forall i, j :: 0 <= i < M.rows && 0 <= j < M.cols ==>
                        Get(r.value, i, j) == if rowOffset <= i < rowOffset + src.rows && colOffset <= j < colOffset + src.cols
                                              then Get(src, i - rowOffset, j - colOffset)
                                              else Get(M, i, j)
  {
    if rowOffset < 0 || colOffset < 0 || rowOffset + src.rows > M.rows || colOffset + src.cols > M.cols then
      Err(OutOfRange(Text(DestinationOutOfRange)))
    else
      var d := seq(|M.data|, x requires 0 <= x < |M.data| =>
        IndexSplit(x, M.rows, M.cols);
        var i, j := x / M.cols, x % M.cols;
        if rowOffset <= i < rowOffset + src.rows && colOffset <= j < colOffset + src.cols
        then Get(src, i - rowOffset, j - colOffset)
        else M.data[x]);
      var R := M.(data := d);
      assert forall i, j :: 0 <= i < M.rows && 0 <= j < M.cols ==>
               Get(R, i, j) == if rowOffset <= i < rowOffset + src.rows && colOffset <= j < colOffset + src.cols
                               then Get(src, i - rowOffset, j - colOffset)
                               else Get(M, i, j) by {
        forall i, j | 0 <= i < M.rows && 0 <= j < M.cols
          ensures Get(R, i, j) == if rowOffset <= i < rowOffset + src.rows && colOffset <= j < colOffset + src.cols
                                  then Get(src, i - rowOffset, j - colOffset)
                                  else Get(M, i, j)
        {
          IndexBound(i, j, M.rows, M.cols);
          IndexInverse(i, j, M.cols);
        }
      }
      Ok(R)
  }

  /** The side of the square that padToPowerOf2 produces. */
  function PadSize(M: Matrix): int {
    NextPowerOf2(Max(M.rows, M.cols))
  }

  /** A square matrix whose side is already a power of two needs no padding. */
  lemma PadSizeFixed(M: Matrix)
    ensures M.rows == M.cols && IsPow2(M.rows) ==> PadSize(M) == M.rows
  {
    if M.rows == M.cols && IsPow2(M.rows) {
      NextPowerOf2Fixed(M.rows);
    }
  }

  /**
    The s x s matrix that padToPowerOf2 builds for a target side s: a zeroed
    s x s matrix with M copied in at (0, 0).
   */
  function PadTo(M: Matrix, s: int): (P: Matrix)
    requires M.Valid() && M.rows <= s && M.cols <= s
    ensures P.Valid() && P.rows == s && P.cols == s
    ensures forall i, j :: 0 <= i < s && 0 <= j < s ==>
              Get(P, i, j) == if i < M.rows && j < M.cols then Get(M, i, j) else 0
  {
    var padded := InitZeros(New(s, s).value);
    CopySubmatrix(padded, M, 0, 0).value
  }

  /**
    padToPowerOf2: an s x s matrix, s = nextPowerOf2(max(rows, cols)), whose
    top-left block is the original and whose other cells are zero; a square
    matrix of power-of-two size is returned unchanged.
   */
  function PadToPowerOf2(M: Matrix): (P: Matrix)
    requires M.Valid()
    ensures P == PadTo(M, PadSize(M))
    ensures M.rows == M.cols && IsPow2(M.rows) ==> P == M
  {
    PadSizeFixed(M);
    var newSize := NextPowerOf2(Max(M.rows, M.cols));
    if newSize == M.rows && newSize == M.cols then
      Extensionality(M, PadTo(M, newSize));
      M
    else
      PadTo(M, newSize)
  }

  /** removePadding(origRows, origCols): the top-left origRows x origCols block. */
  function RemovePadding(M: Matrix, origRows: int, origCols: int): (r: Result<Matrix>)
    requires M.Valid()
    ensures r.Ok? <==> 0 < origRows <= M.rows && 0 < origCols <= M.cols
    ensures r.Ok? ==> r.value.Valid() && r.value.rows == origRows && r.value.cols == origCols
    ensures r.Ok? ==> forall i, j :: 0 <= i < origRows && 0 <= j < origCols ==> Get(r.value, i, j) == Get(M, i, j)
  {
    Submatrix(M, 0, 0, origRows, origCols)
  }

  /** Padding and then removing the padding gives back the original matrix. */
  lemma PadRoundTrip(A: Matrix)
    requires A.Valid()
    ensures RemovePadding(PadToPowerOf2(A), A.rows, A.cols) == Ok(A)
  {
    var r := RemovePadding(PadToPowerOf2(A), A.rows, A.cols);
    Extensionality(r.value, A);
  }
}
