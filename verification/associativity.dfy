/**
  Associativity of the exact product, (A * B) * C == A * (B * C): the
  property the test suite checks for every kernel on random operands. Each
  entry of either side is the double sum of A(i, k) * B(k, l) * C(l, j);
  the two sides only sum it in opposite orders.
 */
module Associativity {
  import opened Layout
  import opened LinAlg
  import opened Matrices
  import opened Naive

  /** f(0) + f(1) + ... + f(N - 1). */
  function Sum(f: int -> int, N: int): int
    decreases N
  {
    if N <= 0 then 0 else Sum(f, N - 1) + f(N - 1)
  }

  /** Sums of functions that agree below N are equal. */
  lemma {:induction false} SumCongruent(f: int -> int, g: int -> int, N: int)
    requires forall x :: 0 <= x < N ==> f(x) == g(x)
    ensures Sum(f, N) == Sum(g, N)
    decreases N
  {
    if N > 0 {
      SumCongruent(f, g, N - 1);
    }
  }

  /** A sum of pointwise sums is the sum of the two sums. */
  lemma {:induction false} SumSplit(f: int -> int, g: int -> int, h: int -> int, N: int)
    requires forall x :: 0 <= x < N ==> h(x) == f(x) + g(x)
    ensures Sum(h, N) == Sum(f, N) + Sum(g, N)
    decreases N
  {
    if N > 0 {
      SumSplit(f, g, h, N - 1);
    }
  }

  /** A constant factor moves out of a sum. */
  lemma {:induction false} SumScale(c: int, f: int -> int, g: int -> int, N: int)
    requires forall x :: 0 <= x < N ==> g(x) == c * f(x)
    ensures Sum(g, N) == c * Sum(f, N)
    decreases N
  {
    if N > 0 {
      SumScale(c, f, g, N - 1);
      assert c * Sum(f, N) == c * Sum(f, N - 1) + c * f(N - 1) by {
        DistributeRight(c, Sum(f, N - 1), f(N - 1));
      }
    }
  }

  /** Row k of the table t, as a function of the column. */
  function Row(t: (int, int) -> int, k: int): int -> int {
    l => t(k, l)
  }

  /** Column l of the table t, as a function of the row. */
  function Column(t: (int, int) -> int, l: int): int -> int {
    k => t(k, l)
  }

  /** The row sums of t over columns below L. */
  function RowSums(t: (int, int) -> int, L: int): int -> int {
    k => Sum(Row(t, k), L)
  }

  /** The column sums of t over rows below K. */
  function ColumnSums(t: (int, int) -> int, K: int): int -> int {
    l => Sum(Column(t, l), K)
  }

  /** Summing a K x L table row by row or column by column gives the same total. */
  lemma {:induction false} SumSwap(t: (int, int) -> int, K: int, L: int)
    requires 0 <= K && 0 <= L
    ensures Sum(RowSums(t, L), K) == Sum(ColumnSums(t, K), L)
    decreases K
  {
    if K > 0 {
      SumSwap(t, K - 1, L);
      // Row K - 1 joins every column sum.
      SumSplit(ColumnSums(t, K - 1), Row(t, K - 1), ColumnSums(t, K), L);
    } else {
      ZeroSum(ColumnSums(t, K), L);
    }
  }

  lemma {:induction false} ZeroSum(f: int -> int, N: int)
    requires forall x :: 0 <= x < N ==> f(x) == 0
    ensures Sum(f, N) == 0
    decreases N
  {
    if N > 0 {
      ZeroSum(f, N - 1);
    }
  }

  /** Element (i, j) of the row-major rows x cols buffer s, or 0 outside it. */
  function Entry(s: seq<int>, rows: int, cols: int, i: int, j: int): int
    requires rows * cols <= |s|
  {
    if 0 <= i < rows && 0 <= j < cols then Elem(s, rows, cols, i, j) else 0
  }

  /** The terms A(i, t) * B(t, j) of an inner product, as a function of t. */
  function Terms(a: seq<int>, b: seq<int>, m: int, n: int, p: int, i: int, j: int): int -> int
    requires m * n <= |a| && n * p <= |b|
  {
    t => Entry(a, m, n, i, t) * Entry(b, n, p, t, j)
  }

  /** The inner product is the sum of its terms. */
  lemma {:induction false} DotIsSum(a: seq<int>, b: seq<int>, m: int, n: int, p: int, i: int, j: int, K: int)
    requires m * n <= |a| && n * p <= |b| && 0 <= i < m && 0 <= j < p && 0 <= K <= n
    ensures Dot(a, b, m, n, p, i, j, K) == Sum(Terms(a, b, m, n, p, i, j), K)
    decreases K
  {
    if K > 0 {
      DotIsSum(a, b, m, n, p, i, j, K - 1);
    }
  }

  /** The term A(i, k) * B(k, l) * C(l, j) of both sides of the associative law. */
  function Term(a: seq<int>, b: seq<int>, c: seq<int>, m: int, n: int, q: int, p: int, i: int, j: int): (int, int) -> int
    requires m * n <= |a| && n * q <= |b| && q * p <= |c|
  {
    (k, l) => Entry(a, m, n, i, k) * Entry(b, n, q, k, l) * Entry(c, q, p, l, j)
  }

  lemma Regroup(x: int, y: int, z: int)
    ensures x * y * z == z * (x * y) && x * y * z == x * (y * z)
  {
  }

  /** Entry (i, j) of (A * B) * C sums the terms column of B by column of B. */
  lemma LeftNested(a: seq<int>, b: seq<int>, c: seq<int>, m: int, n: int, q: int, p: int, i: int, j: int)
    requires 0 <= m && 0 <= n && 0 <= q && 0 <= p
    requires |a| == m * n && |b| == n * q && |c| == q * p && 0 <= i < m && 0 <= j < p
    ensures Dot(ProductSpec(a, b, m, n, q), c, m, q, p, i, j, q) == Sum(ColumnSums(Term(a, b, c, m, n, q, p, i, j), n), q)
  {
    var ab := ProductSpec(a, b, m, n, q);
    var t := Term(a, b, c, m, n, q, p, i, j);
    DotIsSum(ab, c, m, q, p, i, j, q);
    forall l | 0 <= l < q
      ensures Terms(ab, c, m, q, p, i, j)(l) == ColumnSums(t, n)(l)
    {
      var cl := Entry(c, q, p, l, j);
      var f := Terms(a, b, m, n, q, i, l);
      DotIsSum(a, b, m, n, q, i, l, n);
      assert Entry(ab, m, q, i, l) == Sum(f, n);
      forall k | 0 <= k < n
        ensures Column(t, l)(k) == cl * f(k)
      {
        Regroup(Entry(a, m, n, i, k), Entry(b, n, q, k, l), cl);
      }
      SumScale(cl, f, Column(t, l), n);
    }
    SumCongruent(Terms(ab, c, m, q, p, i, j), ColumnSums(t, n), q);
  }

  /** Entry (i, j) of A * (B * C) sums the terms row of B by row of B. */
  lemma RightNested(a: seq<int>, b: seq<int>, c: seq<int>, m: int, n: int, q: int, p: int, i: int, j: int)
    requires 0 <= m && 0 <= n && 0 <= q && 0 <= p
    requires |a| == m * n && |b| == n * q && |c| == q * p && 0 <= i < m && 0 <= j < p
    ensures Dot(a, ProductSpec(b, c, n, q, p), m, n, p, i, j, n) == Sum(RowSums(Term(a, b, c, m, n, q, p, i, j), q), n)
  {
    var bc := ProductSpec(b, c, n, q, p);
    var t := Term(a, b, c, m, n, q, p, i, j);
    DotIsSum(a, bc, m, n, p, i, j, n);
    forall k | 0 <= k < n
      ensures Terms(a, bc, m, n, p, i, j)(k) == RowSums(t, q)(k)
    {
      var ak := Entry(a, m, n, i, k);
      var f := Terms(b, c, n, q, p, k, j);
      DotIsSum(b, c, n, q, p, k, j, q);
      assert Entry(bc, n, p, k, j) == Sum(f, q);
      forall l | 0 <= l < q
        ensures Row(t, k)(l) == ak * f(l)
      {
        Regroup(ak, Entry(b, n, q, k, l), Entry(c, q, p, l, j));
      }
      SumScale(ak, f, Row(t, k), q);
    }
    SumCongruent(Terms(a, bc, m, n, p, i, j), RowSums(t, q), n);
  }

  /** The associative law on buffers: an m x n, an n x q and a q x p operand. */
  lemma ProductAssociative(a: seq<int>, b: seq<int>, c: seq<int>, m: int, n: int, q: int, p: int)
    requires 0 <= m && 0 <= n && 0 <= q && 0 <= p
    requires |a| == m * n && |b| == n * q && |c| == q * p
    ensures ProductSpec(ProductSpec(a, b, m, n, q), c, m, q, p) == ProductSpec(a, ProductSpec(b, c, n, q, p), m, n, p)
  {
    var left := ProductSpec(ProductSpec(a, b, m, n, q), c, m, q, p);
    var right := ProductSpec(a, ProductSpec(b, c, n, q, p), m, n, p);
    forall i, j | 0 <= i < m && 0 <= j < p
      ensures Elem(left, m, p, i, j) == Elem(right, m, p, i, j)
    {
      LeftNested(a, b, c, m, n, q, p, i, j);
      RightNested(a, b, c, m, n, q, p, i, j);
      SumSwap(Term(a, b, c, m, n, q, p, i, j), n, q);
    }
    EqualByEntries(left, right, m, p);
  }

  /** (A * B) * C == A * (B * C) for matrices whose shapes chain. */
  lemma Associative(A: Matrix, B: Matrix, C: Matrix)
    requires A.Valid() && B.Valid() && C.Valid() && CanMultiply(A, B) && CanMultiply(B, C)
    ensures Product(Product(A, B), C) == Product(A, Product(B, C))
  {
    ProductAssociative(A.data, B.data, C.data, A.rows, A.cols, B.cols, C.cols);
  }
}
