/**
  Row-major flat storage of a dense matrix: element (i, j) of a rows x cols
  matrix lives at index i * cols + j of a flat buffer. This module holds the
  index arithmetic, element access, rectangular blocks and element-wise
  sums and differences that every other module is built from.
 */
module Layout {

  /** The flat index of (i, j) lies inside a rows x cols buffer. */
  lemma IndexBound(i: int, j: int, rows: int, cols: int)
    requires 0 <= i < rows && 0 <= j < cols
    ensures 0 <= i * cols + j < rows * cols
  {
    assert i * cols + j < (i + 1) * cols;
    assert (i + 1) * cols <= rows * cols by {
      MulMonotone(i + 1, rows, cols);
    }
  }

  lemma MulMonotone(a: int, b: int, c: int)
    requires a <= b && 0 <= c
    ensures a * c <= b * c
  {
    assert b * c - a * c == (b - a) * c;
  }

  lemma DistributeLeft(x: int, y: int, z: int)
    ensures (x + y) * z == x * z + y * z && (x - y) * z == x * z - y * z
  {
  }

  lemma DistributeRight(z: int, x: int, y: int)
    ensures z * (x + y) == z * x + z * y && z * (x - y) == z * x - z * y
  {
  }

  function Min(x: int, y: int): int {
    if x < y then x else y
  }

  /** Division by the row length recovers the row and column of a flat index. */
  lemma IndexInverse(i: int, j: int, cols: int)
    requires 0 <= i && 0 <= j < cols
    ensures (i * cols + j) / cols == i
    ensures (i * cols + j) % cols == j
  {
    var x := i * cols + j;
    var q, r := x / cols, x % cols;
    assert x == q * cols + r && 0 <= r < cols;
    if q > i {
      MulMonotone(i + 1, q, cols);
      assert false;
    } else if q < i {
      MulMonotone(q + 1, i, cols);
      assert false;
    }
  }

  /** Every index of a rows x cols buffer is the flat index of one (row, column) pair. */
  lemma IndexSplit(x: int, rows: int, cols: int)
    requires 0 <= rows && 0 <= x < rows * cols
    ensures cols > 0
    ensures 0 <= x / cols < rows && 0 <= x % cols < cols
    ensures x == (x / cols) * cols + x % cols
  {
    assert x == (x / cols) * cols + x % cols;
    if x / cols >= rows {
      MulMonotone(rows, x / cols, cols);
      assert false;
    }
  }

  /** Element (i, j) of a row-major buffer holding at least rows x cols entries. */
  function Elem(s: seq<int>, rows: int, cols: int, i: int, j: int): int
    requires rows * cols <= |s|
    requires 0 <= i < rows && 0 <= j < cols
  {
    IndexBound(i, j, rows, cols);
    s[i * cols + j]
  }

  /** Two buffers of the same shape are equal when they agree on every (i, j). */
  lemma EqualByEntries(s: seq<int>, t: seq<int>, rows: int, cols: int)
    requires 0 <= rows && |s| == rows * cols && |t| == rows * cols
    requires forall i, j :: 0 <= i < rows && 0 <= j < cols ==> Elem(s, rows, cols, i, j) == Elem(t, rows, cols, i, j)
    ensures s == t
  {
    forall x | 0 <= x < |s|
      ensures s[x] == t[x]
    {
      IndexSplit(x, rows, cols);
      var i, j := x / cols, x % cols;
      assert Elem(s, rows, cols, i, j) == Elem(t, rows, cols, i, j);
    }
  }

  /** Writing one cell changes exactly that cell. */
  lemma ElemUpdate(s: seq<int>, rows: int, cols: int, i: int, j: int, v: int)
    requires |s| == rows * cols
    requires 0 <= i < rows && 0 <= j < cols
    ensures 0 <= i * cols + j < |s|
    ensures Elem(s[i * cols + j := v], rows, cols, i, j) == v
    ensures forall i', j' :: 0 <= i' < rows && 0 <= j' < cols && (i' != i || j' != j) ==>
              Elem(s[i * cols + j := v], rows, cols, i', j') == Elem(s, rows, cols, i', j')
  {
    IndexBound(i, j, rows, cols);
    forall i', j' | 0 <= i' < rows && 0 <= j' < cols && (i' != i || j' != j)
      ensures Elem(s[i * cols + j := v], rows, cols, i', j') == Elem(s, rows, cols, i', j')
    {
      IndexBound(i', j', rows, cols);
      if i' * cols + j' == i * cols + j {
        IndexInverse(i, j, cols);
        IndexInverse(i', j', cols);
        assert false;
      }
    }
  }

  /** A buffer of n zeros. */
  function Zeros(n: nat): (z: seq<int>)
    ensures |z| == n && forall x :: 0 <= x < n ==> z[x] == 0
  {
    seq(n, _ => 0)
  }

  /** Element-wise sum of two equally long buffers. */
  function Plus(s: seq<int>, t: seq<int>): (u: seq<int>)
    requires |s| == |t|
    ensures |u| == |s| && forall x :: 0 <= x < |s| ==> u[x] == s[x] + t[x]
  {
    seq(|s|, x requires 0 <= x < |s| => s[x] + t[x])
  }

  /** Element-wise difference of two equally long buffers. */
  function Minus(s: seq<int>, t: seq<int>): (u: seq<int>)
    requires |s| == |t|
    ensures |u| == |s| && forall x :: 0 <= x < |s| ==> u[x] == s[x] - t[x]
  {
    seq(|s|, x requires 0 <= x < |s| => s[x] - t[x])
  }

  lemma PlusElem(s: seq<int>, t: seq<int>, rows: int, cols: int)
    requires |s| == |t| == rows * cols
    ensures forall i, j :: 0 <= i < rows && 0 <= j < cols ==>
              Elem(Plus(s, t), rows, cols, i, j) == Elem(s, rows, cols, i, j) + Elem(t, rows, cols, i, j)
  {
    forall i, j | 0 <= i < rows && 0 <= j < cols
      ensures Elem(Plus(s, t), rows, cols, i, j) == Elem(s, rows, cols, i, j) + Elem(t, rows, cols, i, j)
    {
      IndexBound(i, j, rows, cols);
    }
  }

  lemma MinusElem(s: seq<int>, t: seq<int>, rows: int, cols: int)
    requires |s| == |t| == rows * cols
    ensures forall i, j :: 0 <= i < rows && 0 <= j < cols ==>
              Elem(Minus(s, t), rows, cols, i, j) == Elem(s, rows, cols, i, j) - Elem(t, rows, cols, i, j)
  {
    forall i, j | 0 <= i < rows && 0 <= j < cols
      ensures Elem(Minus(s, t), rows, cols, i, j) == Elem(s, rows, cols, i, j) - Elem(t, rows, cols, i, j)
    {
      IndexBound(i, j, rows, cols);
    }
  }

  /**
    The nr x nc block of a rows x cols buffer whose top-left corner is
    (r0, c0), copied into a buffer of its own.
   */
  function Block(s: seq<int>, rows: int, cols: int, r0: int, c0: int, nr: int, nc: int): (b: seq<int>)
    requires rows * cols <= |s|
    requires 0 <= r0 && 0 <= c0 && 0 <= nr && 0 <= nc && r0 + nr <= rows && c0 + nc <= cols
    ensures |b| == nr * nc
    ensures forall i, j :: 0 <= i < nr && 0 <= j < nc ==> Elem(b, nr, nc, i, j) == Elem(s, rows, cols, r0 + i, c0 + j)
  {
    var b := seq(nr * nc, x requires 0 <= x < nr * nc =>
      IndexSplit(x, nr, nc);
      Elem(s, rows, cols, r0 + x / nc, c0 + x % nc));
    assert forall i, j :: 0 <= i < nr && 0 <= j < nc ==> Elem(b, nr, nc, i, j) == Elem(s, rows, cols, r0 + i, c0 + j) by {
      forall i, j | 0 <= i < nr && 0 <= j < nc
        ensures Elem(b, nr, nc, i, j) == Elem(s, rows, cols, r0 + i, c0 + j)
      {
        IndexBound(i, j, nr, nc);
        IndexInverse(i, j, nc);
      }
    }
    b
  }
}
