/**
  multiplyHybrid: the block-row distribution of C = A * B over `worldSize`
  ranks. Rank r owns counts[r] consecutive rows of A starting at row
  displs[r]; the first rows % worldSize ranks take one extra row. Each rank
  forms its rows of C with the ikj kernel, and gathering the local blocks
  at displs[r] * B.cols rebuilds the full product.

  The scatter, broadcast and all-gather are modelled by their effect on the
  flat buffers: rank r reads the contiguous slice of A's data the scatter
  hands it, and the gather concatenates the local results in rank order.
 */
module RowPartition {
  import opened Errors
  import opened Layout
  import opened LinAlg
  import opened Matrices
  import opened Naive

  /** counts[r]: the rows rank r owns. */
  function Count(rows: int, size: int, r: int): (c: int)
    requires 0 <= rows && 0 < size
    ensures rows / size <= c <= rows / size + 1
  {
    if r < rows % size then rows / size + 1 else rows / size
  }

  /** displs[r]: the first row rank r owns. */
  function Displ(rows: int, size: int, r: int): int
    requires 0 <= rows && 0 < size && 0 <= r
    decreases r
  {
    if r == 0 then 0 else Displ(rows, size, r - 1) + Count(rows, size, r - 1)
  }

  /** The running sum of counts has the closed form r * base + min(r, rem). */
  lemma {:induction false} DisplClosedForm(rows: int, size: int, r: int)
    requires 0 <= rows && 0 < size && 0 <= r
    ensures Displ(rows, size, r) == r * (rows / size) + Min(r, rows % size)
  {
    if r > 0 {
      DisplClosedForm(rows, size, r - 1);
      assert r * (rows / size) == (r - 1) * (rows / size) + rows / size;
    }
  }

  /** The counts add up to the number of rows. */
  lemma DisplTotal(rows: int, size: int)
    requires 0 <= rows && 0 < size
    ensures Displ(rows, size, size) == rows
  {
    DisplClosedForm(rows, size, size);
    DivMod(rows, size);
  }

  /** Euclidean division of a row count among `size` ranks. */
  lemma DivMod(rows: int, size: int)
    requires 0 <= rows && 0 < size
    ensures 0 <= rows / size && 0 <= rows % size < size
    ensures rows == size * (rows / size) + rows % size
  {
  }

  /** Rank r's block [displs[r], displs[r] + counts[r]) lies inside [0, rows). */
  lemma BlockInRange(rows: int, size: int, r: int)
    requires 0 <= rows && 0 < size && 0 <= r < size
    ensures 0 <= Displ(rows, size, r) <= Displ(rows, size, r) + Count(rows, size, r) <= rows
  {
    DivMod(rows, size);
    var base, rem := rows / size, rows % size;
    DisplClosedForm(rows, size, r + 1);
    DisplClosedForm(rows, size, r);
    MulMonotone(r + 1, size, base);
    MulMonotone(0, r, base);
    assert Displ(rows, size, r + 1) == Displ(rows, size, r) + Count(rows, size, r);
    assert Displ(rows, size, r + 1) <= size * base + rem;
  }

  predicate InBlock(rows: int, size: int, r: int, i: int)
    requires 0 <= rows && 0 < size && 0 <= r
  {
    Displ(rows, size, r) <= i < Displ(rows, size, r) + Count(rows, size, r)
  }

  /** Later blocks start where earlier ones have ended. */
  lemma {:induction false} BlocksOrdered(rows: int, size: int, r1: int, r2: int)
    requires 0 <= rows && 0 < size && 0 <= r1 < r2
    ensures Displ(rows, size, r1) + Count(rows, size, r1) <= Displ(rows, size, r2)
    decreases r2
  {
    if r1 < r2 - 1 {
      BlocksOrdered(rows, size, r1, r2 - 1);
    }
  }

  /** A row at or beyond displs[r] is owned by rank r or a later one. */
  lemma {:induction false} OwnerFrom(rows: int, size: int, i: int, r: int) returns (o: int)
    requires 0 <= rows && 0 < size && 0 <= r <= size && Displ(rows, size, r) <= i < rows
    ensures r <= o < size && InBlock(rows, size, o, i)
    decreases size - r
  {
    DisplTotal(rows, size);
    assert r < size;
    if i < Displ(rows, size, r) + Count(rows, size, r) {
      o := r;
    } else {
      o := OwnerFrom(rows, size, i, r + 1);
    }
  }

  /** Every row of A belongs to exactly one rank's block. */
  lemma EveryRowOnce(rows: int, size: int, i: int)
    requires 0 <= rows && 0 < size && 0 <= i < rows
    ensures exists r :: 0 <= r < size && InBlock(rows, size, r, i)
    ensures forall r1, r2 :: 0 <= r1 < size && 0 <= r2 < size && InBlock(rows, size, r1, i) && InBlock(rows, size, r2, i) ==> r1 == r2
  {
    var o := OwnerFrom(rows, size, i, 0);
    forall r1, r2 | 0 <= r1 < size && 0 <= r2 < size && InBlock(rows, size, r1, i) && InBlock(rows, size, r2, i)
      ensures r1 == r2
    {
      if r1 < r2 {
        BlocksOrdered(rows, size, r1, r2);
      } else if r2 < r1 {
        BlocksOrdered(rows, size, r2, r1);
      }
    }
  }

  /** The counts/displs loop of multiplyHybrid. */
  method Partition(rows: int, size: int) returns (counts: seq<int>, displs: seq<int>)
    requires 0 <= rows && 0 < size
    ensures |counts| == size && |displs| == size
    ensures forall r :: 0 <= r < size ==> counts[r] == Count(rows, size, r) && displs[r] == Displ(rows, size, r)
    ensures forall r :: 0 <= r < size ==> displs[r] == r * (rows / size) + Min(r, rows % size)
    ensures forall r1, r2 :: 0 <= r1 < size && 0 <= r2 < size ==> counts[r1] <= counts[r2] + 1
    ensures displs[0] == 0 && displs[size - 1] + counts[size - 1] == rows
  {
    var base := rows / size;
    var rem := rows % size;
    counts, displs := [], [];
    for r := 0 to size
      invariant |counts| == r && |displs| == r
      invariant forall t :: 0 <= t < r ==> counts[t] == Count(rows, size, t)
      invariant forall t :: 0 <= t < r ==> displs[t] == Displ(rows, size, t)
    {
      var cnt := if r < rem then base + 1 else base;
      var d := if r == 0 then 0 else displs[r - 1] + counts[r - 1];
      assert cnt == Count(rows, size, r) && d == Displ(rows, size, r);
      counts, displs := counts + [cnt], displs + [d];
      assert counts[r] == cnt && displs[r] == d;
    }
    PartitionFacts(rows, size);
  }

  /** The closed form of every offset, the balance of the counts, and the last block ending at `rows`. */
  lemma PartitionFacts(rows: int, size: int)
    requires 0 <= rows && 0 < size
    ensures forall r :: 0 <= r < size ==> Displ(rows, size, r) == r * (rows / size) + Min(r, rows % size)
    ensures forall r1, r2 :: 0 <= r1 < size && 0 <= r2 < size ==> Count(rows, size, r1) <= Count(rows, size, r2) + 1
    ensures Displ(rows, size, 0) == 0 && Displ(rows, size, size - 1) + Count(rows, size, size - 1) == rows
  {
    forall r | 0 <= r < size
      ensures Displ(rows, size, r) == r * (rows / size) + Min(r, rows % size)
    {
      DisplClosedForm(rows, size, r);
    }
    DisplTotal(rows, size);
    assert Displ(rows, size, size) == Displ(rows, size, size - 1) + Count(rows, size, size - 1);
  }

  /**
    sendcounts/senddispls (width A.cols) and recvcounts/recvdispls (width
    B.cols): row counts and offsets scaled to elements. The element blocks
    are contiguous, in rank order, and end at rows * width.
   */
  method ElementBlocks(rows: int, size: int, counts: seq<int>, displs: seq<int>, width: int)
    returns (elemCounts: seq<int>, elemDispls: seq<int>)
    requires 0 <= rows && 0 < size && 0 <= width && |counts| == size && |displs| == size
    requires forall r :: 0 <= r < size ==> counts[r] == Count(rows, size, r) && displs[r] == Displ(rows, size, r)
    ensures |elemCounts| == size && |elemDispls| == size
    ensures forall r :: 0 <= r < size ==> elemCounts[r] == counts[r] * width && elemDispls[r] == displs[r] * width
    ensures elemDispls[0] == 0
    ensures forall r :: 0 <= r < size - 1 ==> elemDispls[r + 1] == elemDispls[r] + elemCounts[r]
    ensures elemDispls[size - 1] + elemCounts[size - 1] == rows * width
  {
    elemCounts, elemDispls := [], [];
    for r := 0 to size
      invariant |elemCounts| == r && |elemDispls| == r
      invariant forall t :: 0 <= t < r ==> elemCounts[t] == counts[t] * width && elemDispls[t] == displs[t] * width
    {
      elemCounts, elemDispls := elemCounts + [counts[r] * width], elemDispls + [displs[r] * width];
    }
    ScaledBlocks(rows, size, width);
  }

  /** Row blocks scaled by `width` elements stay contiguous and end at rows * width. */
  lemma ScaledBlocks(rows: int, size: int, width: int)
    requires 0 <= rows && 0 < size
    ensures forall r :: 0 <= r < size - 1 ==>
              Displ(rows, size, r + 1) * width == Displ(rows, size, r) * width + Count(rows, size, r) * width
    ensures Displ(rows, size, size - 1) * width + Count(rows, size, size - 1) * width == rows * width
  {
    forall r | 0 <= r < size - 1
      ensures Displ(rows, size, r + 1) * width == Displ(rows, size, r) * width + Count(rows, size, r) * width
    {
      var d, c := Displ(rows, size, r), Count(rows, size, r);
      assert Displ(rows, size, r + 1) == d + c;
      DistributeLeft(d, c, width);
    }
    var d, c := Displ(rows, size, size - 1), Count(rows, size, size - 1);
    DisplTotal(rows, size);
    assert rows == d + c;
    DistributeLeft(d, c, width);
  }

  /** The row initialisation of the local loop: row i of the m x p buffer set to zero, other rows untouched. */
  method ZeroRow(c: seq<int>, m: int, p: int, i: int) returns (c': seq<int>)
    requires 0 <= i < m && 0 <= p && |c| == m * p
    ensures |c'| == |c|
    ensures forall j :: 0 <= j < p ==> Elem(c', m, p, i, j) == 0
    ensures forall i', j :: 0 <= i' < m && i' != i && 0 <= j < p ==> Elem(c', m, p, i', j) == Elem(c, m, p, i', j)
  {
    c' := c;
    for j := 0 to p
      invariant |c'| == |c|
      invariant forall j' :: 0 <= j' < j ==> Elem(c', m, p, i, j') == 0
      invariant forall i', j' :: 0 <= i' < m && i' != i && 0 <= j' < p ==> Elem(c', m, p, i', j') == Elem(c, m, p, i', j')
    {
      ElemUpdate(c', m, p, i, j, 0);
      ghost var prev := c';
      c' := c'[i * p + j := 0];
      forall j' | 0 <= j' < j + 1
        ensures Elem(c', m, p, i, j') == 0
      {
        if j' < j {
          assert Elem(c', m, p, i, j') == Elem(prev, m, p, i, j');
        }
      }
    }
  }

  /** The OpenMP loop of one rank: each local row is zeroed, then accumulated in ikj order. */
  method LocalRows(aLocal: seq<int>, b: seq<int>, myRows: int, n: int, p: int) returns (cLocal: seq<int>)
    requires 0 <= myRows && 0 <= n && 0 <= p && |aLocal| == myRows * n && |b| == n * p
    ensures cLocal == ProductSpec(aLocal, b, myRows, n, p)
  {
    cLocal := Zeros(myRows * p);
    forall i', j | 0 <= i' < myRows && 0 <= j < p
      ensures Elem(cLocal, myRows, p, i', j) == 0
    {
      IndexBound(i', j, myRows, p);
    }
    for i := 0 to myRows
      invariant |cLocal| == myRows * p
      invariant forall i', j :: 0 <= i' < myRows && 0 <= j < p ==>
                  Elem(cLocal, myRows, p, i', j) == if i' < i then Dot(aLocal, b, myRows, n, p, i', j, n) else 0
    {
      cLocal := ZeroRow(cLocal, myRows, p, i);
      cLocal := RowProduct(cLocal, aLocal, b, myRows, n, p, i);
    }
    EqualByEntries(cLocal, ProductSpec(aLocal, b, myRows, n, p), myRows, p);
  }

  /** Rows [r0, r0 + k) of an m x n row-major buffer: one contiguous slice. */
  function RowsOf(a: seq<int>, m: int, n: int, r0: int, k: int): (s: seq<int>)
    requires 0 <= r0 && 0 <= k && r0 + k <= m && 0 <= n && |a| == m * n
    ensures |s| == k * n
  {
    MulMonotone(0, r0, n);
    MulMonotone(r0, r0 + k, n);
    MulMonotone(r0 + k, m, n);
    a[r0 * n .. (r0 + k) * n]
  }

  /** The scatter's slice [r0 * n, r0 * n + k * n) is rows [r0, r0 + k). */
  lemma ScatterSlice(a: seq<int>, m: int, n: int, r0: int, k: int)
    requires 0 <= r0 && 0 <= k && r0 + k <= m && 0 <= n && |a| == m * n
    ensures 0 <= r0 * n <= r0 * n + k * n <= |a|
    ensures a[r0 * n .. r0 * n + k * n] == RowsOf(a, m, n, r0, k)
  {
    MulMonotone(0, r0, n);
    MulMonotone(r0 + k, m, n);
    DistributeLeft(r0, k, n);
  }

  /** Entry (i, t) of rows [r0, r0 + k) is entry (r0 + i, t) of the buffer. */
  lemma RowsOfElem(a: seq<int>, m: int, n: int, r0: int, k: int, i: int, t: int)
    requires 0 <= r0 && 0 <= k && r0 + k <= m && 0 <= n && |a| == m * n && 0 <= i < k && 0 <= t < n
    ensures Elem(RowsOf(a, m, n, r0, k), k, n, i, t) == Elem(a, m, n, r0 + i, t)
  {
    MulMonotone(0, r0, n);
    IndexBound(i, t, k, n);
    IndexBound(r0 + i, t, m, n);
    assert (r0 + i) * n + t == r0 * n + (i * n + t);
  }

  /** The product of a block of rows of A is the same block of rows of A * B. */
  lemma RowSliceProduct(a: seq<int>, b: seq<int>, m: int, n: int, p: int, r0: int, k: int)
    requires 0 <= n && 0 <= p && 0 <= r0 && 0 <= k && r0 + k <= m && |a| == m * n && |b| == n * p
    ensures ProductSpec(RowsOf(a, m, n, r0, k), b, k, n, p) == RowsOf(ProductSpec(a, b, m, n, p), m, p, r0, k)
  {
    var slice := RowsOf(a, m, n, r0, k);
    var P := ProductSpec(a, b, m, n, p);
    var lhs := ProductSpec(slice, b, k, n, p);
    var rhs := RowsOf(P, m, p, r0, k);
    forall i, j | 0 <= i < k && 0 <= j < p
      ensures Elem(lhs, k, p, i, j) == Elem(rhs, k, p, i, j)
    {
      forall t | 0 <= t < n
        ensures Elem(slice, k, n, i, t) == Elem(a, m, n, r0 + i, t)
      {
        RowsOfElem(a, m, n, r0, k, i, t);
      }
      DotCongruent(slice, b, k, n, p, i, j, a, b, m, n, p, r0 + i, j, n);
      RowsOfElem(P, m, p, r0, k, i, j);
    }
    EqualByEntries(lhs, rhs, k, p);
  }

  /** Appending rows [d, d + c) to rows [0, d) gives rows [0, d + c). */
  lemma GatherStep(P: seq<int>, m: int, p: int, d: int, c: int)
    requires 0 <= d && 0 <= c && d + c <= m && 0 <= p && |P| == m * p
    ensures RowsOf(P, m, p, 0, d) + RowsOf(P, m, p, d, c) == RowsOf(P, m, p, 0, d + c)
  {
    MulMonotone(0, d, p);
    MulMonotone(d, d + c, p);
    MulMonotone(d + c, m, p);
  }

  /**
    Every rank multiplies the rows the scatter gives it by B; the all-gather
    places rank r's block at recvdispls[r], which is where the blocks of the
    earlier ranks end.
   */
  method ScatterComputeGather(a: seq<int>, b: seq<int>, m: int, n: int, p: int, worldSize: int,
                              counts: seq<int>, displs: seq<int>,
                              sendCounts: seq<int>, sendDispls: seq<int>, recvDispls: seq<int>) returns (full: seq<int>)
    requires 0 <= m && 0 <= n && 0 <= p && 0 < worldSize && |a| == m * n && |b| == n * p
    requires |counts| == worldSize && |displs| == worldSize
    requires |sendCounts| == worldSize && |sendDispls| == worldSize && |recvDispls| == worldSize
    requires forall r :: 0 <= r < worldSize ==> counts[r] == Count(m, worldSize, r) && displs[r] == Displ(m, worldSize, r)
    requires forall r :: 0 <= r < worldSize ==> sendCounts[r] == counts[r] * n && sendDispls[r] == displs[r] * n
    requires forall r :: 0 <= r < worldSize ==> recvDispls[r] == displs[r] * p
    ensures full == ProductSpec(a, b, m, n, p)
  {
    ghost var P := ProductSpec(a, b, m, n, p);
    full := [];
    for rank := 0 to worldSize
      invariant 0 <= Displ(m, worldSize, rank) <= m
      invariant full == RowsOf(P, m, p, 0, Displ(m, worldSize, rank))
    {
      var d, c := displs[rank], counts[rank];
      RankBlock(a, b, m, n, p, worldSize, rank);
      assert sendDispls[rank] == d * n && sendCounts[rank] == c * n;
      var aLocal := a[sendDispls[rank] .. sendDispls[rank] + sendCounts[rank]];
      assert aLocal == RowsOf(a, m, n, d, c);
      var cLocal := LocalRows(aLocal, b, c, n, p);
      assert cLocal == RowsOf(P, m, p, d, c);
      assert |full| == recvDispls[rank];
      full := full + cLocal;
      assert full == RowsOf(P, m, p, 0, d + c);
    }
    DisplTotal(m, worldSize);
  }

  /**
    Rank r's share: the scatter's slice of A is its rows [d, d + c), their
    product with B is the same rows of A * B, and the gather appends them
    right after the rows of the earlier ranks, at offset d * p.
   */
  lemma RankBlock(a: seq<int>, b: seq<int>, m: int, n: int, p: int, worldSize: int, rank: int)
    requires 0 <= m && 0 <= n && 0 <= p && 0 <= rank < worldSize && |a| == m * n && |b| == n * p
    ensures var d, c := Displ(m, worldSize, rank), Count(m, worldSize, rank);
            && 0 <= d && 0 <= c && d + c <= m && Displ(m, worldSize, rank + 1) == d + c
            && 0 <= d * n <= d * n + c * n <= |a|
            && a[d * n .. d * n + c * n] == RowsOf(a, m, n, d, c)
            && ProductSpec(RowsOf(a, m, n, d, c), b, c, n, p) == RowsOf(ProductSpec(a, b, m, n, p), m, p, d, c)
            && |RowsOf(ProductSpec(a, b, m, n, p), m, p, 0, d)| == d * p
            && RowsOf(ProductSpec(a, b, m, n, p), m, p, 0, d) + RowsOf(ProductSpec(a, b, m, n, p), m, p, d, c)
               == RowsOf(ProductSpec(a, b, m, n, p), m, p, 0, d + c)
  {
    var d, c := Displ(m, worldSize, rank), Count(m, worldSize, rank);
    BlockInRange(m, worldSize, rank);
    ScatterSlice(a, m, n, d, c);
    RowSliceProduct(a, b, m, n, p, d, c);
    GatherStep(ProductSpec(a, b, m, n, p), m, p, d, c);
  }

  /**
    multiplyHybrid over `worldSize` ranks: the dimension check, then each
    rank's slice of A multiplied by B, gathered in rank order.
   */
  method MultiplyHybrid(A: Matrix, B: Matrix, worldSize: int) returns (r: Result<Matrix>)
    requires A.Valid() && B.Valid() && worldSize > 0
    ensures r == NaiveProduct(ConstantMessage, A, B)
  {
    if !CanMultiply(A, B) {
      return Err(InvalidArgument(Text(IncompatibleDimensions)));
    }
    var m, n, p := A.rows, A.cols, B.cols;
    var counts, displs := Partition(m, worldSize);
    var sendCounts, sendDispls := ElementBlocks(m, worldSize, counts, displs, n);
    var recvCounts, recvDispls := ElementBlocks(m, worldSize, counts, displs, p);
    var full := ScatterComputeGather(A.data, B.data, m, n, p, worldSize, counts, displs, sendCounts, sendDispls, recvDispls);
    r := Ok(Matrix(m, p, full));
  }
}
