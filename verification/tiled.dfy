/**
  multiply(A, B, m, n, p): the cache-blocked kernel on flat row-major
  buffers. The i, k and j ranges are cut into tiles of 64; inside a tile the
  j loop runs in SIMD strides of `width` lanes followed by a scalar tail.
  One SIMD vector step is modelled as its `width` lane-wise updates, which
  is what it computes in exact arithmetic.
 */
module Tiled {
  import opened Layout
  import opened LinAlg

  /** BS: the side of a cache tile. */
  const BlockSize := 64

  /** Entry (i, j) of c is entry (i, j) of base, plus A(i, k) * B(k, j) when i is `row` and lo <= j < hi. */
  ghost predicate RowAdded(c: seq<int>, base: seq<int>, a: seq<int>, b: seq<int>, m: int, n: int, p: int,
                           row: int, k: int, lo: int, hi: int)
    requires 0 <= row < m && 0 <= k < n && 0 <= p
    requires |a| == m * n && |b| == n * p && |c| == m * p && |base| == m * p
  {
    forall i, j :: 0 <= i < m && 0 <= j < p ==>
      Elem(c, m, p, i, j) == Elem(base, m, p, i, j) + (if i == row && lo <= j < hi then Elem(a, m, n, row, k) * Elem(b, n, p, k, j) else 0)
  }

  /**
    C(i, j) += A(i, k) * B(k, j) for j0 <= j < j1: the vector loop while a
    full stride of `width` lanes fits, then the scalar loop for the rest.
   */
  method RowSegment(c: seq<int>, a: seq<int>, b: seq<int>, m: int, n: int, p: int,
                    i: int, k: int, j0: int, j1: int, width: int) returns (c': seq<int>)
    requires 0 <= i < m && 0 <= k < n && 0 <= j0 <= j1 <= p && width > 0
    requires |a| == m * n && |b| == n * p && |c| == m * p
    ensures |c'| == |c|
    ensures RowAdded(c', c, a, b, m, n, p, i, k, j0, j1)
  {
    var aik := Elem(a, m, n, i, k);
    c' := c;
    var j := j0;
    while j + width - 1 < j1
      invariant j0 <= j <= j1
      invariant |c'| == |c|
      invariant RowAdded(c', c, a, b, m, n, p, i, k, j0, j)
    {
      for lane := 0 to width
        invariant |c'| == |c|
        invariant RowAdded(c', c, a, b, m, n, p, i, k, j0, j + lane)
      {
        var v := Elem(c', m, p, i, j + lane) + aik * Elem(b, n, p, k, j + lane);
        ElemUpdate(c', m, p, i, j + lane, v);
        c' := c'[i * p + (j + lane) := v];
      }
      j := j + width;
    }
    while j < j1
      invariant j0 <= j <= j1
      invariant |c'| == |c|
      invariant RowAdded(c', c, a, b, m, n, p, i, k, j0, j)
    {
      var v := Elem(c', m, p, i, j) + aik * Elem(b, n, p, k, j);
      ElemUpdate(c', m, p, i, j, v);
      c' := c'[i * p + j := v];
      j := j + 1;
    }
  }

  /**
    Entry (i, j) of c is entry (i, j) of base plus, inside the tile
    [i0, i1) x [j0, j1), the inner-product terms k0 <= t < kOf(i) — written
    as the difference of two prefix sums.
   */
  ghost predicate TileAdded(c: seq<int>, base: seq<int>, a: seq<int>, b: seq<int>, m: int, n: int, p: int,
                            i0: int, i1: int, k0: int, j0: int, j1: int, row: int, kRow: int, kDone: int)
    requires 0 <= k0 <= kRow <= n && k0 <= kDone <= n && 0 <= m && 0 <= p
    requires |a| == m * n && |b| == n * p && |c| == m * p && |base| == m * p
  {
    forall i, j :: 0 <= i < m && 0 <= j < p ==>
      Elem(c, m, p, i, j) == Elem(base, m, p, i, j) +
        (if i0 <= i < i1 && j0 <= j < j1
         then (if i < row then Dot(a, b, m, n, p, i, j, kDone) else if i == row then Dot(a, b, m, n, p, i, j, kRow) else Dot(a, b, m, n, p, i, j, k0))
              - Dot(a, b, m, n, p, i, j, k0)
         else 0)
  }

  /** One tile: for i0 <= i < i1 and k0 <= k < k1, the row segment j0 <= j < j1 gains A(i, k) * B(k, j). */
  method Tile(c: seq<int>, a: seq<int>, b: seq<int>, m: int, n: int, p: int,
              i0: int, i1: int, k0: int, k1: int, j0: int, j1: int, width: int) returns (c': seq<int>)
    requires 0 <= i0 <= i1 <= m && 0 <= k0 <= k1 <= n && 0 <= j0 <= j1 <= p && width > 0
    requires |a| == m * n && |b| == n * p && |c| == m * p
    ensures |c'| == |c|
    ensures TileAdded(c', c, a, b, m, n, p, i0, i1, k0, j0, j1, i1, k0, k1)
  {
    c' := c;
    for i := i0 to i1
      invariant |c'| == |c|
      invariant TileAdded(c', c, a, b, m, n, p, i0, i1, k0, j0, j1, i, k0, k1)
    {
      for k := k0 to k1
        invariant |c'| == |c|
        invariant TileAdded(c', c, a, b, m, n, p, i0, i1, k0, j0, j1, i, k, k1)
      {
        var before := c';
        c' := RowSegment(c', a, b, m, n, p, i, k, j0, j1, width);
        assert TileAdded(c', c, a, b, m, n, p, i0, i1, k0, j0, j1, i, k + 1, k1) by {
          forall i', j | 0 <= i' < m && 0 <= j < p
            ensures Elem(c', m, p, i', j) == Elem(c, m, p, i', j) +
              (if i0 <= i' < i1 && j0 <= j < j1
               then (if i' < i then Dot(a, b, m, n, p, i', j, k1) else if i' == i then Dot(a, b, m, n, p, i', j, k + 1) else Dot(a, b, m, n, p, i', j, k0))
                    - Dot(a, b, m, n, p, i', j, k0)
               else 0)
          {
            assert Elem(c', m, p, i', j) == Elem(before, m, p, i', j) +
              (if i' == i && j0 <= j < j1 then Elem(a, m, n, i, k) * Elem(b, n, p, k, j) else 0);
          }
        }
      }
    }
  }

  /**
    The j0 loop for one band of rows [i0, i1) and one k-slab [k0, k1): every
    row of the band goes from the inner products over t < k0 to those over
    t < k1; rows outside the band are untouched.
   */
  method Slab(c: seq<int>, a: seq<int>, b: seq<int>, m: int, n: int, p: int,
              i0: int, i1: int, k0: int, k1: int, width: int) returns (c': seq<int>)
    requires 0 <= i0 <= i1 <= m && 0 <= k0 <= k1 <= n && 0 <= p && width > 0
    requires |a| == m * n && |b| == n * p && |c| == m * p
    requires forall i, j :: i0 <= i < i1 && 0 <= j < p ==> Elem(c, m, p, i, j) == Dot(a, b, m, n, p, i, j, k0)
    ensures |c'| == |c|
    ensures forall i, j :: 0 <= i < m && 0 <= j < p ==>
              Elem(c', m, p, i, j) == if i0 <= i < i1 then Dot(a, b, m, n, p, i, j, k1) else Elem(c, m, p, i, j)
  {
    c' := c;
    var j0 := 0;
    while j0 < p
      invariant 0 <= j0 && |c'| == m * p
      invariant forall i, j :: 0 <= i < m && 0 <= j < p ==>
                  Elem(c', m, p, i, j) == if i0 <= i < i1 then Dot(a, b, m, n, p, i, j, if j < j0 then k1 else k0)
                                          else Elem(c, m, p, i, j)
    {
      var j1 := Min(j0 + BlockSize, p);
      c' := Tile(c', a, b, m, n, p, i0, i1, k0, k1, j0, j1, width);
      j0 := j0 + BlockSize;
    }
  }

  /**
    The k0 loop for one band of rows [i0, i1) whose entries start at zero:
    every row of the band ends as the full inner products, rows outside the
    band are untouched.
   */
  method Band(c: seq<int>, a: seq<int>, b: seq<int>, m: int, n: int, p: int,
              i0: int, i1: int, width: int) returns (c': seq<int>)
    requires 0 <= i0 <= i1 <= m && 0 <= n && 0 <= p && width > 0
    requires |a| == m * n && |b| == n * p && |c| == m * p
    requires forall i, j :: i0 <= i < i1 && 0 <= j < p ==> Elem(c, m, p, i, j) == 0
    ensures |c'| == |c|
    ensures forall i, j :: 0 <= i < m && 0 <= j < p ==>
              Elem(c', m, p, i, j) == if i0 <= i < i1 then Dot(a, b, m, n, p, i, j, n) else Elem(c, m, p, i, j)
  {
    c' := c;
    var k0 := 0;
    while k0 < n
      invariant 0 <= k0 && |c'| == m * p
      invariant forall i, j :: 0 <= i < m && 0 <= j < p ==>
                  Elem(c', m, p, i, j) == if i0 <= i < i1 then Dot(a, b, m, n, p, i, j, Min(k0, n))
                                          else Elem(c, m, p, i, j)
    {
      var k1 := Min(k0 + BlockSize, n);
      c' := Slab(c', a, b, m, n, p, i0, i1, k0, k1, width);
      k0 := k0 + BlockSize;
    }
  }

  /**
    The whole kernel: all-zero C, then the tiles in i0, k0, j0 order. Every
    entry of the result is the full inner product.
   */
  method Multiply(a: seq<int>, b: seq<int>, m: int, n: int, p: int, width: int) returns (c: seq<int>)
    requires 0 <= m && 0 <= n && 0 <= p && width > 0
    requires |a| == m * n && |b| == n * p
    ensures c == ProductSpec(a, b, m, n, p)
  {
    c := Zeros(m * p);
    forall i, j | 0 <= i < m && 0 <= j < p
      ensures Elem(c, m, p, i, j) == 0
    {
      IndexBound(i, j, m, p);
    }
    var i0 := 0;
    while i0 < m
      invariant 0 <= i0 && |c| == m * p
      invariant forall i, j :: 0 <= i < m && 0 <= j < p ==>
                  Elem(c, m, p, i, j) == if i < i0 then Dot(a, b, m, n, p, i, j, n) else 0
    {
      var i1 := Min(i0 + BlockSize, m);
      c := Band(c, a, b, m, n, p, i0, i1, width);
      i0 := i0 + BlockSize;
    }
    EqualByEntries(c, ProductSpec(a, b, m, n, p), m, p);
  }
}
