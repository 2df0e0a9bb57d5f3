/**
  add and sub on flat size x size vectors: a SIMD loop over strides of
  `width` lanes while a whole stride fits, then a scalar loop for the rest.
  A vector step is modelled as its `width` lane-wise operations.
 */
module VectorOps {
  import opened Layout

  /** The element-wise operation: operator+ for add, operator- for sub. */
  datatype Op = AddOp | SubOp

  function Apply(op: Op, x: int, y: int): int {
    match op
    case AddOp => x + y
    case SubOp => x - y
  }

  /**
    The shared loop structure of add and sub: the first size * size entries
    of A and B combined lane by lane. Every index below size * size is
    written exactly once, first by the stride loop, then by the tail.
   */
  method Lanewise(op: Op, A: seq<int>, B: seq<int>, size: int, width: int) returns (C: seq<int>)
    requires 0 <= size && width > 0
    requires size * size <= |A| && size * size <= |B|
    ensures |C| == size * size
    ensures forall x :: 0 <= x < size * size ==> C[x] == Apply(op, A[x], B[x])
  {
    var total := size * size;
    C := Zeros(total);
    var i := 0;
    while i + width - 1 < total
      invariant 0 <= i <= total && |C| == total
      invariant forall x :: 0 <= x < total ==> C[x] == if x < i then Apply(op, A[x], B[x]) else 0
    {
      for lane := 0 to width
        invariant |C| == total
        invariant forall x :: 0 <= x < total ==> C[x] == if x < i + lane then Apply(op, A[x], B[x]) else 0
      {
        C := C[i + lane := Apply(op, A[i + lane], B[i + lane])];
      }
      i := i + width;
    }
    while i < total
      invariant 0 <= i <= total && |C| == total
      invariant forall x :: 0 <= x < total ==> C[x] == if x < i then Apply(op, A[x], B[x]) else 0
    {
      C := C[i := Apply(op, A[i], B[i])];
      i := i + 1;
    }
  }

  /** add(A, B, size): the element-wise sum of the leading size * size entries. */
  method Add(A: seq<int>, B: seq<int>, size: int, width: int) returns (C: seq<int>)
    requires 0 <= size && width > 0
    requires size * size <= |A| && size * size <= |B|
    ensures C == Plus(A[..size * size], B[..size * size])
  {
    C := Lanewise(AddOp, A, B, size, width);
  }

  /** sub(A, B, size): the element-wise difference of the leading size * size entries. */
  method Sub(A: seq<int>, B: seq<int>, size: int, width: int) returns (C: seq<int>)
    requires 0 <= size && width > 0
    requires size * size <= |A| && size * size <= |B|
    ensures C == Minus(A[..size * size], B[..size * size])
  {
    C := Lanewise(SubOp, A, B, size, width);
  }
}
