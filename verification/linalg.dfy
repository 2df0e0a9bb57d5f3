/**
  The exact-arithmetic meaning of a matrix product on row-major buffers.
  `Dot` is the inner product of row i of A (m x n) with column j of B
  (n x p), accumulated over t = 0, 1, ..., K-1 in that order; `ProductSpec`
  is the m x p buffer of all full inner products. Every multiplication
  kernel of the model is proved to agree with `ProductSpec`.
 */
module LinAlg {
  import opened Layout

  /** Sum over t < K of A(i, t) * B(t, j). */
  function Dot(a: seq<int>, b: seq<int>, m: int, n: int, p: int, i: int, j: int, K: int): int
    requires m * n <= |a| && n * p <= |b|
    requires 0 <= i < m && 0 <= j < p && 0 <= K <= n
    decreases K
  {
    if K == 0 then 0
    else Dot(a, b, m, n, p, i, j, K - 1) + Elem(a, m, n, i, K - 1) * Elem(b, n, p, K - 1, j)
  }

  /** The m x p product of the m x n matrix held in a and the n x p matrix held in b. */
  function ProductSpec(a: seq<int>, b: seq<int>, m: int, n: int, p: int): (c: seq<int>)
    requires 0 <= m && 0 <= n && 0 <= p
    requires m * n <= |a| && n * p <= |b|
    ensures |c| == m * p
    ensures forall i, j :: 0 <= i < m && 0 <= j < p ==> Elem(c, m, p, i, j) == Dot(a, b, m, n, p, i, j, n)
  {
    var c := seq(m * p, x requires 0 <= x < m * p =>
      IndexSplit(x, m, p);
      Dot(a, b, m, n, p, x / p, x % p, n));
    assert forall i, j :: 0 <= i < m && 0 <= j < p ==> Elem(c, m, p, i, j) == Dot(a, b, m, n, p, i, j, n) by {
      forall i, j | 0 <= i < m && 0 <= j < p
        ensures Elem(c, m, p, i, j) == Dot(a, b, m, n, p, i, j, n)
      {
        IndexBound(i, j, m, p);
        IndexInverse(i, j, p);
      }
    }
    c
  }

  /** Inner products agree when both operand pairs agree on the terms summed. */
  lemma {:induction false} DotCongruent(a: seq<int>, b: seq<int>, m: int, n: int, p: int, i: int, j: int,
                                        a': seq<int>, b': seq<int>, m': int, n': int, p': int, i': int, j': int, K: int)
    requires m * n <= |a| && n * p <= |b| && 0 <= i < m && 0 <= j < p && 0 <= K <= n
    requires m' * n' <= |a'| && n' * p' <= |b'| && 0 <= i' < m' && 0 <= j' < p' && K <= n'
    requires forall t :: 0 <= t < K ==> Elem(a, m, n, i, t) == Elem(a', m', n', i', t)
    requires forall t :: 0 <= t < K ==> Elem(b, n, p, t, j) == Elem(b', n', p', t, j')
    ensures Dot(a, b, m, n, p, i, j, K) == Dot(a', b', m', n', p', i', j', K)
    decreases K
  {
    if K > 0 {
      var x, x' := Elem(a, m, n, i, K - 1), Elem(a', m', n', i', K - 1);
      var y, y' := Elem(b, n, p, K - 1, j), Elem(b', n', p', K - 1, j');
      assert x == x' && y == y';
      DotCongruent(a, b, m, n, p, i, j, a', b', m', n', p', i', j', K - 1);
      assert Dot(a, b, m, n, p, i, j, K) == Dot(a, b, m, n, p, i, j, K - 1) + x * y;
      assert Dot(a', b', m', n', p', i', j', K) == Dot(a', b', m', n', p', i', j', K - 1) + x' * y';
    }
  }

  /** Terms whose left factor is zero add nothing: the sum stops growing after K0. */
  lemma {:induction false} DotZeroTail(a: seq<int>, b: seq<int>, m: int, n: int, p: int, i: int, j: int, K0: int, K: int)
    requires m * n <= |a| && n * p <= |b| && 0 <= i < m && 0 <= j < p && 0 <= K0 <= K <= n
    requires forall t :: K0 <= t < n ==> Elem(a, m, n, i, t) == 0
    ensures Dot(a, b, m, n, p, i, j, K) == Dot(a, b, m, n, p, i, j, K0)
    decreases K
  {
    if K > K0 {
      DotZeroTail(a, b, m, n, p, i, j, K0, K - 1);
      assert Elem(a, m, n, i, K - 1) == 0;
    }
  }

  /** Left distributivity over element-wise sums. */
  lemma {:induction false} DotPlusLeft(a: seq<int>, a': seq<int>, b: seq<int>, m: int, n: int, p: int, i: int, j: int, K: int)
    requires |a| == |a'| == m * n && n * p <= |b|
    requires 0 <= i < m && 0 <= j < p && 0 <= K <= n
    ensures Dot(Plus(a, a'), b, m, n, p, i, j, K) == Dot(a, b, m, n, p, i, j, K) + Dot(a', b, m, n, p, i, j, K)
    decreases K
  {
    if K > 0 {
      DotPlusLeft(a, a', b, m, n, p, i, j, K - 1);
      PlusElem(a, a', m, n);
      var x, y, z := Elem(a, m, n, i, K - 1), Elem(a', m, n, i, K - 1), Elem(b, n, p, K - 1, j);
      assert Elem(Plus(a, a'), m, n, i, K - 1) == x + y;
      DistributeLeft(x, y, z);
    }
  }

  /** Left distributivity over element-wise differences. */
  lemma {:induction false} DotMinusLeft(a: seq<int>, a': seq<int>, b: seq<int>, m: int, n: int, p: int, i: int, j: int, K: int)
    requires |a| == |a'| == m * n && n * p <= |b|
    requires 0 <= i < m && 0 <= j < p && 0 <= K <= n
    ensures Dot(Minus(a, a'), b, m, n, p, i, j, K) == Dot(a, b, m, n, p, i, j, K) - Dot(a', b, m, n, p, i, j, K)
    decreases K
  {
    if K > 0 {
      DotMinusLeft(a, a', b, m, n, p, i, j, K - 1);
      MinusElem(a, a', m, n);
      var x, y, z := Elem(a, m, n, i, K - 1), Elem(a', m, n, i, K - 1), Elem(b, n, p, K - 1, j);
      assert Elem(Minus(a, a'), m, n, i, K - 1) == x - y;
      DistributeLeft(x, y, z);
    }
  }

  /** Right distributivity over element-wise sums. */
  lemma {:induction false} DotPlusRight(a: seq<int>, b: seq<int>, b': seq<int>, m: int, n: int, p: int, i: int, j: int, K: int)
    requires m * n <= |a| && |b| == |b'| == n * p
    requires 0 <= i < m && 0 <= j < p && 0 <= K <= n
    ensures Dot(a, Plus(b, b'), m, n, p, i, j, K) == Dot(a, b, m, n, p, i, j, K) + Dot(a, b', m, n, p, i, j, K)
    decreases K
  {
    if K > 0 {
      DotPlusRight(a, b, b', m, n, p, i, j, K - 1);
      PlusElem(b, b', n, p);
      var x, y, z := Elem(b, n, p, K - 1, j), Elem(b', n, p, K - 1, j), Elem(a, m, n, i, K - 1);
      assert Elem(Plus(b, b'), n, p, K - 1, j) == x + y;
      DistributeRight(z, x, y);
    }
  }

  /** Right distributivity over element-wise differences. */
  lemma {:induction false} DotMinusRight(a: seq<int>, b: seq<int>, b': seq<int>, m: int, n: int, p: int, i: int, j: int, K: int)
    requires m * n <= |a| && |b| == |b'| == n * p
    requires 0 <= i < m && 0 <= j < p && 0 <= K <= n
    ensures Dot(a, Minus(b, b'), m, n, p, i, j, K) == Dot(a, b, m, n, p, i, j, K) - Dot(a, b', m, n, p, i, j, K)
    decreases K
  {
    if K > 0 {
      DotMinusRight(a, b, b', m, n, p, i, j, K - 1);
      MinusElem(b, b', n, p);
      var x, y, z := Elem(b, n, p, K - 1, j), Elem(b', n, p, K - 1, j), Elem(a, m, n, i, K - 1);
      assert Elem(Minus(b, b'), n, p, K - 1, j) == x - y;
      DistributeRight(z, x, y);
    }
  }

  /**
    Block decomposition of an inner product: the terms k0 <= t < k0 + T of
    the (r0 + i, c0 + j) inner product are the first T terms of the (i, j)
    inner product of the nr x kk block of A at (r0, k0) with the kk x nc
    block of B at (k0, c0).
   */
  lemma {:induction false} DotShift(a: seq<int>, b: seq<int>, m: int, n: int, p: int,
                                    r0: int, k0: int, c0: int, nr: int, kk: int, nc: int, i: int, j: int, T: int)
    requires m * n <= |a| && n * p <= |b|
    requires 0 <= r0 && 0 <= k0 && 0 <= c0 && r0 + nr <= m && k0 + kk <= n && c0 + nc <= p
    requires 0 <= i < nr && 0 <= j < nc && 0 <= T <= kk
    ensures Dot(a, b, m, n, p, r0 + i, c0 + j, k0 + T) ==
            Dot(a, b, m, n, p, r0 + i, c0 + j, k0) +
            Dot(Block(a, m, n, r0, k0, nr, kk), Block(b, n, p, k0, c0, kk, nc), nr, kk, nc, i, j, T)
    decreases T
  {
    if T > 0 {
      DotShift(a, b, m, n, p, r0, k0, c0, nr, kk, nc, i, j, T - 1);
      var A', B' := Block(a, m, n, r0, k0, nr, kk), Block(b, n, p, k0, c0, kk, nc);
      assert Elem(A', nr, kk, i, T - 1) == Elem(a, m, n, r0 + i, k0 + T - 1);
      assert Elem(B', kk, nc, T - 1, j) == Elem(b, n, p, k0 + T - 1, c0 + j);
    }
  }

  /**
    The (r, c) quadrant of the product of two 2h x 2h matrices is the sum of
    the products of the matching quadrants: C_rc = A_r0 * B_0c + A_r1 * B_1c.
   */
  lemma DotQuadrant(a: seq<int>, b: seq<int>, h: int, r: int, c: int, i: int, j: int)
    requires 0 < h && (2 * h) * (2 * h) <= |a| && (2 * h) * (2 * h) <= |b|
    requires 0 <= r <= 1 && 0 <= c <= 1 && 0 <= i < h && 0 <= j < h
    ensures Dot(a, b, 2 * h, 2 * h, 2 * h, r * h + i, c * h + j, 2 * h) ==
            Dot(Block(a, 2 * h, 2 * h, r * h, 0, h, h), Block(b, 2 * h, 2 * h, 0, c * h, h, h), h, h, h, i, j, h) +
            Dot(Block(a, 2 * h, 2 * h, r * h, h, h, h), Block(b, 2 * h, 2 * h, h, c * h, h, h), h, h, h, i, j, h)
  {
    var N := 2 * h;
    DotShift(a, b, N, N, N, r * h, 0, c * h, h, h, h, i, j, h);
    DotShift(a, b, N, N, N, r * h, h, c * h, h, h, h, i, j, h);
  }
}
