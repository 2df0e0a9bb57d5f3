/**
  Matrix::multiplyNaive: the shape check, then the i-k-j accumulation loops
  over a zero-initialised m x p result. The library has two definitions of
  it, in multiply_naive_sequential.cpp and multiply_naive.cpp, which carry
  the same kernel and differ only in the text of the shape error.
 */
module Naive {
  import opened Errors
  import opened Layout
  import opened LinAlg
  import opened Matrices

  /**
    Which invalid_argument message a definition throws on incompatible shapes:
    the fixed INCOMPATIBLE_DIMENSIONS_MSG, or the message naming both shapes.
   */
  datatype MessageStyle = ConstantMessage | ShapeMessage

  function IncompatibleError(style: MessageStyle, A: Matrix, B: Matrix): Error {
    match style
    case ConstantMessage => InvalidArgument(Text(IncompatibleDimensions))
    case ShapeMessage => InvalidArgument(ShapeMismatch(A.rows, A.cols, B.rows, B.cols))
  }

  /** The exact product of A (m x n) and B (n x p): every entry is the full inner product. */
  function Product(A: Matrix, B: Matrix): (C: Matrix)
    requires A.Valid() && B.Valid() && CanMultiply(A, B)
    ensures C.Valid() && C.rows == A.rows && C.cols == B.cols
    ensures forall i, j :: 0 <= i < A.rows && 0 <= j < B.cols ==>
              Get(C, i, j) == Dot(A.data, B.data, A.rows, A.cols, B.cols, i, j, A.cols)
  {
    Matrix(A.rows, B.cols, ProductSpec(A.data, B.data, A.rows, A.cols, B.cols))
  }

  /** What multiplyNaive returns or throws. */
  function NaiveProduct(style: MessageStyle, A: Matrix, B: Matrix): (r: Result<Matrix>)
    requires A.Valid() && B.Valid()
    ensures r.Ok? <==> CanMultiply(A, B)
    ensures r.Err? ==> r.error == IncompatibleError(style, A, B)
    ensures r.Ok? ==> r.value == Product(A, B)
  {
    if !CanMultiply(A, B) then Err(IncompatibleError(style, A, B)) else Ok(Product(A, B))
  }

  /** The innermost j loop for fixed i and k: C(i, j) += A(i, k) * B(k, j) for every j; other rows untouched. */
  method AccumulateRow(c: seq<int>, a: seq<int>, b: seq<int>, m: int, n: int, p: int, i: int, k: int) returns (c': seq<int>)
    requires 0 <= i < m && 0 <= k < n && 0 <= p
    requires |a| == m * n && |b| == n * p && |c| == m * p
    ensures |c'| == |c|
    ensures forall j :: 0 <= j < p ==> Elem(c', m, p, i, j) == Elem(c, m, p, i, j) + Elem(a, m, n, i, k) * Elem(b, n, p, k, j)
    ensures forall i', j :: 0 <= i' < m && i' != i && 0 <= j < p ==> Elem(c', m, p, i', j) == Elem(c, m, p, i', j)
  {
    var aik := Elem(a, m, n, i, k);
    c' := c;
    for j := 0 to p
      invariant |c'| == |c|
      invariant forall j' :: 0 <= j' < p ==>
                  Elem(c', m, p, i, j') == Elem(c, m, p, i, j') + (if j' < j then aik * Elem(b, n, p, k, j') else 0)
      invariant forall i', j' :: 0 <= i' < m && i' != i && 0 <= j' < p ==> Elem(c', m, p, i', j') == Elem(c, m, p, i', j')
    {
      var v := Elem(c', m, p, i, j) + aik * Elem(b, n, p, k, j);
      ElemUpdate(c', m, p, i, j, v);
      c' := c'[i * p + j := v];
    }
  }

  /** The k loop for one all-zero row i: it ends holding row i of the product; other rows untouched. */
  method RowProduct(c: seq<int>, a: seq<int>, b: seq<int>, m: int, n: int, p: int, i: int) returns (c': seq<int>)
    requires 0 <= i < m && 0 <= n && 0 <= p
    requires |a| == m * n && |b| == n * p && |c| == m * p
    requires forall j :: 0 <= j < p ==> Elem(c, m, p, i, j) == 0
    ensures |c'| == |c|
    ensures forall j :: 0 <= j < p ==> Elem(c', m, p, i, j) == Dot(a, b, m, n, p, i, j, n)
    ensures forall i', j :: 0 <= i' < m && i' != i && 0 <= j < p ==> Elem(c', m, p, i', j) == Elem(c, m, p, i', j)
  {
    c' := c;
    for k := 0 to n
      invariant |c'| == m * p
      invariant forall j :: 0 <= j < p ==> Elem(c', m, p, i, j) == Dot(a, b, m, n, p, i, j, k)
      invariant forall i', j :: 0 <= i' < m && i' != i && 0 <= j < p ==> Elem(c', m, p, i', j) == Elem(c, m, p, i', j)
    {
      c' := AccumulateRow(c', a, b, m, n, p, i, k);
    }
  }

  /** The i-k-j loops, accumulating into an all-zero m x p buffer, compute the product. */
  method IkjKernel(a: seq<int>, b: seq<int>, c0: seq<int>, m: int, n: int, p: int) returns (c: seq<int>)
    requires 0 <= m && 0 <= n && 0 <= p
    requires |a| == m * n && |b| == n * p && |c0| == m * p
    requires forall x :: 0 <= x < |c0| ==> c0[x] == 0
    ensures c == ProductSpec(a, b, m, n, p)
  {
    c := c0;
    forall i', j | 0 <= i' < m && 0 <= j < p
      ensures Elem(c, m, p, i', j) == 0
    {
      IndexBound(i', j, m, p);
    }
    for i := 0 to m
      invariant |c| == m * p
      invariant forall i', j :: 0 <= i' < m && 0 <= j < p ==>
                  Elem(c, m, p, i', j) == if i' < i then Dot(a, b, m, n, p, i', j, n) else 0
    {
      c := RowProduct(c, a, b, m, n, p, i);
    }
    EqualByEntries(c, ProductSpec(a, b, m, n, p), m, p);
  }

  /** multiply_naive_sequential.cpp: throws INCOMPATIBLE_DIMENSIONS_MSG on a shape mismatch. */
  method MultiplyNaiveSequential(A: Matrix, B: Matrix) returns (r: Result<Matrix>)
    requires A.Valid() && B.Valid()
    ensures r.Ok? <==> CanMultiply(A, B)
    ensures r.Err? ==> r.error == InvalidArgument(Text(IncompatibleDimensions))
    ensures r.Ok? ==> r.value == Product(A, B)
  {
    r := Multiply(ConstantMessage, A, B);
  }

  /** multiply_naive.cpp: the shape error names both operand shapes. */
  method MultiplyNaive(A: Matrix, B: Matrix) returns (r: Result<Matrix>)
    requires A.Valid() && B.Valid()
    ensures r.Ok? <==> CanMultiply(A, B)
    ensures r.Err? ==> r.error == InvalidArgument(ShapeMismatch(A.rows, A.cols, B.rows, B.cols))
    ensures r.Ok? ==> r.value == Product(A, B)
  {
    r := Multiply(ShapeMessage, A, B);
  }

  /** The body shared by both definitions. */
  method Multiply(style: MessageStyle, A: Matrix, B: Matrix) returns (r: Result<Matrix>)
    requires A.Valid() && B.Valid()
    ensures r == NaiveProduct(style, A, B)
  {
    if !CanMultiply(A, B) {
      return Err(IncompatibleError(style, A, B));
    }
    var C := New(A.rows, B.cols).value;
    C := InitZeros(C);
    assert forall x :: 0 <= x < |C.data| ==> C.data[x] == 0 by {
      forall x | 0 <= x < |C.data|
        ensures C.data[x] == 0
      {
        IndexSplit(x, C.rows, C.cols);
        assert C.data[x] == Get(C, x / C.cols, x % C.cols);
      }
    }
    var d := IkjKernel(A.data, B.data, C.data, A.rows, A.cols, B.cols);
    return Ok(C.(data := d));
  }

  /** The n x n identity matrix. */
  function Identity(n: int): (I: Matrix)
    requires n > 0
    ensures I.Valid() && I.rows == n && I.cols == n
    ensures forall i, j :: 0 <= i < n && 0 <= j < n ==> Get(I, i, j) == if i == j then 1 else 0
  {
    var I := Matrix(n, n, seq(n * n, x requires 0 <= x < n * n => if x / n == x % n then 1 else 0));
    assert forall i, j :: 0 <= i < n && 0 <= j < n ==> Get(I, i, j) == if i == j then 1 else 0 by {
      forall i, j | 0 <= i < n && 0 <= j < n
        ensures Get(I, i, j) == if i == j then 1 else 0
      {
        IndexBound(i, j, n, n);
        IndexInverse(i, j, n);
      }
    }
    I
  }

  /** The leading K terms of row i of the identity against column j pick out B(i, j) once K passes i. */
  lemma {:induction false} DotIdentityLeft(B: Matrix, i: int, j: int, K: int)
    requires B.Valid() && 0 <= i < B.rows && 0 <= j < B.cols && 0 <= K <= B.rows
    ensures Dot(Identity(B.rows).data, B.data, B.rows, B.rows, B.cols, i, j, K) == if i < K then Get(B, i, j) else 0
    decreases K
  {
    if K > 0 {
      DotIdentityLeft(B, i, j, K - 1);
      var I := Identity(B.rows);
      assert Elem(I.data, B.rows, B.rows, i, K - 1) == Get(I, i, K - 1);
      assert Elem(B.data, B.rows, B.cols, K - 1, j) == Get(B, K - 1, j);
    }
  }

  /** The trailing K terms of row i of A against column j of the identity pick out A(i, j) once K passes j. */
  lemma {:induction false} DotIdentityRight(A: Matrix, i: int, j: int, K: int)
    requires A.Valid() && 0 <= i < A.rows && 0 <= j < A.cols && 0 <= K <= A.cols
    ensures Dot(A.data, Identity(A.cols).data, A.rows, A.cols, A.cols, i, j, K) == if j < K then Get(A, i, j) else 0
    decreases K
  {
    if K > 0 {
      DotIdentityRight(A, i, j, K - 1);
      var I := Identity(A.cols);
      assert Elem(I.data, A.cols, A.cols, K - 1, j) == Get(I, K - 1, j);
      assert Elem(A.data, A.rows, A.cols, i, K - 1) == Get(A, i, K - 1);
    }
  }

  /** The identity is a two-sided unit of the product. */
  lemma IdentityLaws(A: Matrix)
    requires A.Valid()
    ensures Product(Identity(A.rows), A) == A
    ensures Product(A, Identity(A.cols)) == A
  {
    var L := Product(Identity(A.rows), A);
    forall i, j | 0 <= i < A.rows && 0 <= j < A.cols
      ensures Get(L, i, j) == Get(A, i, j)
    {
      DotIdentityLeft(A, i, j, A.rows);
    }
    Extensionality(L, A);
    var R := Product(A, Identity(A.cols));
    forall i, j | 0 <= i < A.rows && 0 <= j < A.cols
      ensures Get(R, i, j) == Get(A, i, j)
    {
      DotIdentityRight(A, i, j, A.cols);
    }
    Extensionality(R, A);
  }

  /** An inner product with an all-zero right factor is zero. */
  lemma {:induction false} DotZeroRight(a: seq<int>, b: seq<int>, m: int, n: int, p: int, i: int, j: int, K: int)
    requires m * n <= |a| && n * p <= |b| && 0 <= i < m && 0 <= j < p && 0 <= K <= n
    requires forall x :: 0 <= x < |b| ==> b[x] == 0
    ensures Dot(a, b, m, n, p, i, j, K) == 0
    decreases K
  {
    if K > 0 {
      DotZeroRight(a, b, m, n, p, i, j, K - 1);
      IndexBound(K - 1, j, n, p);
    }
  }

  /** Multiplying by an all-zero matrix gives the all-zero matrix of the product's shape. */
  lemma ZeroLaw(A: Matrix, B: Matrix)
    requires A.Valid() && B.Valid() && CanMultiply(A, B)
    requires forall x :: 0 <= x < |B.data| ==> B.data[x] == 0
    ensures Product(A, B) == Matrix(A.rows, B.cols, Zeros(A.rows * B.cols))
  {
    var C := Product(A, B);
    var Z := Matrix(A.rows, B.cols, Zeros(A.rows * B.cols));
    forall i, j | 0 <= i < A.rows && 0 <= j < B.cols
      ensures Get(C, i, j) == Get(Z, i, j)
    {
      DotZeroRight(A.data, B.data, A.rows, A.cols, B.cols, i, j, A.cols);
      IndexBound(i, j, A.rows, B.cols);
    }
    Extensionality(C, Z);
  }
}
