/**
  strassen(A, B, m, n, p): Strassen's algorithm on flat row-major vectors.
  Below or at THRESHOLD, or for non-square operands, it returns the tiled
  `multiply`; otherwise it takes h = m / 2, copies out four h x h quadrants
  of each operand, recurses on the seven products, recombines with add and
  sub and writes the four quadrants into a fresh, zeroed m x m vector.

  For odd m the quadrants cover only the top-left 2h x 2h corner, so the
  last row and column of the result are never written. The switch
  `guardOdd` adds odd m to the fallback condition; false is the code as
  written.

  THRESHOLD is a compile-time constant of the build that is not part of
  this model; it is the parameter `threshold`, assumed positive.
 */
module StrassenFlat {
  import opened Layout
  import opened LinAlg
  import opened StrassenAlgebra
  import Tiled
  import VectorOps

  /**
    The m x m buffer holding c11, c12, c21, c22 as the quadrants of its
    top-left 2h x 2h corner, and zero everywhere else.
   */
  function Place(m: int, h: int, c11: seq<int>, c12: seq<int>, c21: seq<int>, c22: seq<int>): (c: seq<int>)
    requires 0 <= h && 2 * h <= m
    requires |c11| == h * h && |c12| == h * h && |c21| == h * h && |c22| == h * h
    ensures |c| == m * m
    ensures forall i, j :: 0 <= i < m && 0 <= j < m ==>
              Elem(c, m, m, i, j) == PlacedAt(m, h, c11, c12, c21, c22, i, j)
  {
    var c := seq(m * m, x requires 0 <= x < m * m =>
      IndexSplit(x, m, m);
      PlacedAt(m, h, c11, c12, c21, c22, x / m, x % m));
    assert forall i, j :: 0 <= i < m && 0 <= j < m ==> Elem(c, m, m, i, j) == PlacedAt(m, h, c11, c12, c21, c22, i, j) by {
      forall i, j | 0 <= i < m && 0 <= j < m
        ensures Elem(c, m, m, i, j) == PlacedAt(m, h, c11, c12, c21, c22, i, j)
      {
        IndexBound(i, j, m, m);
        IndexInverse(i, j, m);
      }
    }
    c
  }

  /** What `Place` holds at (i, j). */
  function PlacedAt(m: int, h: int, c11: seq<int>, c12: seq<int>, c21: seq<int>, c22: seq<int>, i: int, j: int): int
    requires 0 <= h && 2 * h <= m && 0 <= i < m && 0 <= j < m
    requires |c11| == h * h && |c12| == h * h && |c21| == h * h && |c22| == h * h
  {
    if i < h && j < h then Elem(c11, h, h, i, j)
    else if i < h && j < 2 * h then Elem(c12, h, h, i, j - h)
    else if h <= i < 2 * h && j < h then Elem(c21, h, h, i - h, j)
    else if h <= i < 2 * h && j < 2 * h then Elem(c22, h, h, i - h, j - h)
    else 0
  }

  /** Every size reached by halving m while it exceeds the threshold is even. */
  predicate HalvesEvenly(m: int, threshold: int)
    decreases m
  {
    m <= threshold || (m > 1 && m % 2 == 0 && HalvesEvenly(m / 2, threshold))
  }

  /** Whether strassen falls back to multiply for these dimensions. */
  predicate FallsBack(m: int, n: int, p: int, threshold: int, guardOdd: bool) {
    m <= threshold || m != n || n != p || (guardOdd && m % 2 == 1)
  }

  /** The value strassen returns, as a recursive definition over exact products. */
  function StrassenValue(a: seq<int>, b: seq<int>, m: int, n: int, p: int, threshold: int, guardOdd: bool): (c: seq<int>)
    requires threshold > 0 && 0 <= m && 0 <= n && 0 <= p && |a| == m * n && |b| == n * p
    ensures |c| == m * p
    decreases m
  {
    if FallsBack(m, n, p, threshold, guardOdd) then ProductSpec(a, b, m, n, p)
    else
      var h := m / 2;
      var a11, a12, a21, a22 := Corner(a, m, h, 0, 0), Corner(a, m, h, 0, 1), Corner(a, m, h, 1, 0), Corner(a, m, h, 1, 1);
      var b11, b12, b21, b22 := Corner(b, m, h, 0, 0), Corner(b, m, h, 0, 1), Corner(b, m, h, 1, 0), Corner(b, m, h, 1, 1);
      var m1 := StrassenValue(Plus(a11, a22), Plus(b11, b22), h, h, h, threshold, guardOdd);
      var m2 := StrassenValue(Plus(a21, a22), b11, h, h, h, threshold, guardOdd);
      var m3 := StrassenValue(a11, Minus(b12, b22), h, h, h, threshold, guardOdd);
      var m4 := StrassenValue(a22, Minus(b21, b11), h, h, h, threshold, guardOdd);
      var m5 := StrassenValue(Plus(a11, a12), b22, h, h, h, threshold, guardOdd);
      var m6 := StrassenValue(Minus(a21, a11), Plus(b11, b12), h, h, h, threshold, guardOdd);
      var m7 := StrassenValue(Minus(a12, a22), Plus(b21, b22), h, h, h, threshold, guardOdd);
      Place(m, h, Combine11(m1, m4, m5, m7), Plus(m3, m5), Plus(m2, m4), Combine22(m1, m2, m3, m6))
  }

  /** C11 = add(sub(add(M1, M4), M5), M7) */
  function Combine11(m1: seq<int>, m4: seq<int>, m5: seq<int>, m7: seq<int>): (c: seq<int>)
    requires |m1| == |m4| == |m5| == |m7|
    ensures |c| == |m1| && forall x :: 0 <= x < |c| ==> c[x] == m1[x] + m4[x] - m5[x] + m7[x]
  {
    Plus(Minus(Plus(m1, m4), m5), m7)
  }

  /** C22 = add(sub(add(M1, M3), M2), M6) */
  function Combine22(m1: seq<int>, m2: seq<int>, m3: seq<int>, m6: seq<int>): (c: seq<int>)
    requires |m1| == |m2| == |m3| == |m6|
    ensures |c| == |m1| && forall x :: 0 <= x < |c| ==> c[x] == m1[x] + m3[x] - m2[x] + m6[x]
  {
    Plus(Minus(Plus(m1, m3), m2), m6)
  }

  /** Placing the four recombinations of m1..m7 into a 2h x 2h buffer is Strassen's assembly. */
  lemma PlaceAssembled(h: int, m1: seq<int>, m2: seq<int>, m3: seq<int>, m4: seq<int>, m5: seq<int>, m6: seq<int>, m7: seq<int>)
    requires 0 <= h
    requires |m1| == |m2| == |m3| == |m4| == |m5| == |m6| == |m7| == h * h
    ensures Assembled(Place(2 * h, h, Combine11(m1, m4, m5, m7), Plus(m3, m5), Plus(m2, m4), Combine22(m1, m2, m3, m6)),
                      h, m1, m2, m3, m4, m5, m6, m7)
  {
    var c := Place(2 * h, h, Combine11(m1, m4, m5, m7), Plus(m3, m5), Plus(m2, m4), Combine22(m1, m2, m3, m6));
    forall i, j | 0 <= i < h && 0 <= j < h
      ensures && Elem(c, 2 * h, 2 * h, i, j) == Elem(m1, h, h, i, j) + Elem(m4, h, h, i, j) - Elem(m5, h, h, i, j) + Elem(m7, h, h, i, j)
              && Elem(c, 2 * h, 2 * h, i, h + j) == Elem(m3, h, h, i, j) + Elem(m5, h, h, i, j)
              && Elem(c, 2 * h, 2 * h, h + i, j) == Elem(m2, h, h, i, j) + Elem(m4, h, h, i, j)
              && Elem(c, 2 * h, 2 * h, h + i, h + j) == Elem(m1, h, h, i, j) - Elem(m2, h, h, i, j) + Elem(m3, h, h, i, j) + Elem(m6, h, h, i, j)
    {
      IndexBound(i, j, h, h);
    }
  }

  /**
    When every halving above the threshold is even (or the odd case falls
    back), the recursion returns the exact product.
   */
  lemma {:induction false} StrassenValueCorrect(a: seq<int>, b: seq<int>, m: int, n: int, p: int, threshold: int, guardOdd: bool)
    requires threshold > 0 && 0 <= m && 0 <= n && 0 <= p && |a| == m * n && |b| == n * p
    requires guardOdd || m != n || n != p || HalvesEvenly(m, threshold)
    ensures StrassenValue(a, b, m, n, p, threshold, guardOdd) == ProductSpec(a, b, m, n, p)
    decreases m
  {
    if !FallsBack(m, n, p, threshold, guardOdd) {
      var h := m / 2;
      assert m == 2 * h && 0 < h;
      var a11, a12, a21, a22 := Corner(a, m, h, 0, 0), Corner(a, m, h, 0, 1), Corner(a, m, h, 1, 0), Corner(a, m, h, 1, 1);
      var b11, b12, b21, b22 := Corner(b, m, h, 0, 0), Corner(b, m, h, 0, 1), Corner(b, m, h, 1, 0), Corner(b, m, h, 1, 1);
      StrassenValueCorrect(Plus(a11, a22), Plus(b11, b22), h, h, h, threshold, guardOdd);
      StrassenValueCorrect(Plus(a21, a22), b11, h, h, h, threshold, guardOdd);
      StrassenValueCorrect(a11, Minus(b12, b22), h, h, h, threshold, guardOdd);
      StrassenValueCorrect(a22, Minus(b21, b11), h, h, h, threshold, guardOdd);
      StrassenValueCorrect(Plus(a11, a12), b22, h, h, h, threshold, guardOdd);
      StrassenValueCorrect(Minus(a21, a11), Plus(b11, b12), h, h, h, threshold, guardOdd);
      StrassenValueCorrect(Minus(a12, a22), Plus(b21, b22), h, h, h, threshold, guardOdd);
      var m1 := Mul(Plus(a11, a22), Plus(b11, b22), h);
      var m2 := Mul(Plus(a21, a22), b11, h);
      var m3 := Mul(a11, Minus(b12, b22), h);
      var m4 := Mul(a22, Minus(b21, b11), h);
      var m5 := Mul(Plus(a11, a12), b22, h);
      var m6 := Mul(Minus(a21, a11), Plus(b11, b12), h);
      var m7 := Mul(Minus(a12, a22), Plus(b21, b22), h);
      assert SevenProducts(a, b, h, m1, m2, m3, m4, m5, m6, m7);
      PlaceAssembled(h, m1, m2, m3, m4, m5, m6, m7);
      StrassenStep(a, b, h, m1, m2, m3, m4, m5, m6, m7,
                   Place(m, h, Combine11(m1, m4, m5, m7), Plus(m3, m5), Plus(m2, m4), Combine22(m1, m2, m3, m6)));
    }
  }

  /** As written, for odd square m above the threshold the last row and column of the result are zero. */
  lemma StrassenOddEdgeZero(a: seq<int>, b: seq<int>, m: int, threshold: int)
    requires threshold > 0 && threshold < m && m % 2 == 1 && |a| == m * m && |b| == m * m
    ensures var c := StrassenValue(a, b, m, m, m, threshold, false);
            forall i, j :: 0 <= i < m && 0 <= j < m && (i == m - 1 || j == m - 1) ==> Elem(c, m, m, i, j) == 0
  {
  }

  /** The 3 x 3 identity, row-major. */
  function Identity3(): seq<int> {
    [1, 0, 0, 0, 1, 0, 0, 0, 1]
  }

  /**
    With threshold 1, squaring the 3 x 3 identity through strassen leaves
    entry (2, 2) at 0, where the product has 1.
   */
  lemma StrassenOddCounterexample()
    ensures Elem(ProductSpec(Identity3(), Identity3(), 3, 3, 3), 3, 3, 2, 2) == 1
    ensures Elem(StrassenValue(Identity3(), Identity3(), 3, 3, 3, 1, false), 3, 3, 2, 2) == 0
    ensures StrassenValue(Identity3(), Identity3(), 3, 3, 3, 1, false) != ProductSpec(Identity3(), Identity3(), 3, 3, 3)
  {
    var I := Identity3();
    assert Dot(I, I, 3, 3, 3, 2, 2, 1) == 0;
    assert Dot(I, I, 3, 3, 3, 2, 2, 2) == 0;
    assert Dot(I, I, 3, 3, 3, 2, 2, 3) == 1;
    StrassenOddEdgeZero(I, I, 3, 1);
  }

  /** With odd sizes added to the fallback, strassen is the exact product for every input. */
  lemma GuardedStrassenCorrect(a: seq<int>, b: seq<int>, m: int, n: int, p: int, threshold: int)
    requires threshold > 0 && 0 <= m && 0 <= n && 0 <= p && |a| == m * n && |b| == n * p
    ensures StrassenValue(a, b, m, n, p, threshold, true) == ProductSpec(a, b, m, n, p)
  {
    StrassenValueCorrect(a, b, m, n, p, threshold, true);
  }

  /**
    The quadrant q of X at offset (r0, c0) holds its source entries for the
    cells before (i, j), row by row, and zero after.
   */
  ghost predicate Filled(q: seq<int>, X: seq<int>, m: int, h: int, r0: int, c0: int, i: int, j: int)
    requires 0 <= h && 2 * h <= m && |X| == m * m && 0 <= r0 <= h && 0 <= c0 <= h
  {
    && |q| == h * h
    && forall i', j' :: 0 <= i' < h && 0 <= j' < h ==>
         Elem(q, h, h, i', j') == if Before(i', j', i, j) then Elem(X, m, m, r0 + i', c0 + j') else 0
  }

  lemma FilledStep(q: seq<int>, X: seq<int>, m: int, h: int, r0: int, c0: int, i: int, j: int)
    requires 0 <= h && 2 * h <= m && |X| == m * m && 0 <= r0 <= h && 0 <= c0 <= h
    requires 0 <= i < h && 0 <= j < h && Filled(q, X, m, h, r0, c0, i, j)
    ensures 0 <= i * h + j < h * h
    ensures Filled(q[i * h + j := Elem(X, m, m, r0 + i, c0 + j)], X, m, h, r0, c0, i, j + 1)
  {
    var v := Elem(X, m, m, r0 + i, c0 + j);
    ElemUpdate(q, h, h, i, j, v);
    var q' := q[i * h + j := v];
    forall i', j' | 0 <= i' < h && 0 <= j' < h
      ensures Elem(q', h, h, i', j') == if Before(i', j', i, j + 1) then Elem(X, m, m, r0 + i', c0 + j') else 0
    {
      if i' != i || j' != j {
        assert Elem(q', h, h, i', j') == Elem(q, h, h, i', j');
      }
    }
  }

  /** The copy loop of strassen for one operand: the four h x h quadrants of the m x m buffer X. */
  method CopyQuadrants(X: seq<int>, m: int, h: int) returns (q11: seq<int>, q12: seq<int>, q21: seq<int>, q22: seq<int>)
    requires 0 <= h && 2 * h <= m && |X| == m * m
    ensures q11 == Corner(X, m, h, 0, 0) && q12 == Corner(X, m, h, 0, 1)
    ensures q21 == Corner(X, m, h, 1, 0) && q22 == Corner(X, m, h, 1, 1)
  {
    q11, q12, q21, q22 := Zeros(h * h), Zeros(h * h), Zeros(h * h), Zeros(h * h);
    forall i', j' | 0 <= i' < h && 0 <= j' < h
      ensures Elem(q11, h, h, i', j') == 0 && Elem(q12, h, h, i', j') == 0
      ensures Elem(q21, h, h, i', j') == 0 && Elem(q22, h, h, i', j') == 0
    {
      IndexBound(i', j', h, h);
    }
    for i := 0 to h
      invariant Filled(q11, X, m, h, 0, 0, i, 0) && Filled(q12, X, m, h, 0, h, i, 0)
      invariant Filled(q21, X, m, h, h, 0, i, 0) && Filled(q22, X, m, h, h, h, i, 0)
    {
      for j := 0 to h
        invariant Filled(q11, X, m, h, 0, 0, i, j) && Filled(q12, X, m, h, 0, h, i, j)
        invariant Filled(q21, X, m, h, h, 0, i, j) && Filled(q22, X, m, h, h, h, i, j)
      {
        FilledStep(q11, X, m, h, 0, 0, i, j);
        FilledStep(q12, X, m, h, 0, h, i, j);
        FilledStep(q21, X, m, h, h, 0, i, j);
        FilledStep(q22, X, m, h, h, h, i, j);
        q11 := q11[i * h + j := Elem(X, m, m, i, j)];
        q12 := q12[i * h + j := Elem(X, m, m, i, j + h)];
        q21 := q21[i * h + j := Elem(X, m, m, i + h, j)];
        q22 := q22[i * h + j := Elem(X, m, m, i + h, j + h)];
      }
    }
    EqualByEntries(q11, Corner(X, m, h, 0, 0), h, h);
    EqualByEntries(q12, Corner(X, m, h, 0, 1), h, h);
    EqualByEntries(q21, Corner(X, m, h, 1, 0), h, h);
    EqualByEntries(q22, Corner(X, m, h, 1, 1), h, h);
  }

  /** Quadrant cell (i', j') comes before (i, j) in the row-by-row order of the assembly loop. */
  predicate Before(i': int, j': int, i: int, j: int) {
    i' < i || (i' == i && j' < j)
  }

  /** The m x m result holds the placed quadrant entries for the cells written before (i, j), and zero elsewhere. */
  ghost predicate Written(C: seq<int>, m: int, h: int, c11: seq<int>, c12: seq<int>, c21: seq<int>, c22: seq<int>, i: int, j: int)
    requires 0 <= h && 2 * h <= m
    requires |c11| == h * h && |c12| == h * h && |c21| == h * h && |c22| == h * h
  {
    && |C| == m * m
    && forall I, J :: 0 <= I < m && 0 <= J < m ==>
         Elem(C, m, m, I, J) ==
           if I < 2 * h && J < 2 * h && Before(if I < h then I else I - h, if J < h then J else J - h, i, j)
           then PlacedAt(m, h, c11, c12, c21, c22, I, J) else 0
  }

  lemma WrittenStep(C: seq<int>, m: int, h: int, c11: seq<int>, c12: seq<int>, c21: seq<int>, c22: seq<int>, i: int, j: int)
    requires 0 <= h && 2 * h <= m
    requires |c11| == h * h && |c12| == h * h && |c21| == h * h && |c22| == h * h
    requires 0 <= i < h && 0 <= j < h && Written(C, m, h, c11, c12, c21, c22, i, j)
    ensures 0 <= i * m + j < m * m && 0 <= i * m + j + h < m * m
    ensures 0 <= (i + h) * m + j < m * m && 0 <= (i + h) * m + j + h < m * m
    ensures Written(C[i * m + j := Elem(c11, h, h, i, j)]
                     [i * m + j + h := Elem(c12, h, h, i, j)]
                     [(i + h) * m + j := Elem(c21, h, h, i, j)]
                     [(i + h) * m + j + h := Elem(c22, h, h, i, j)],
                    m, h, c11, c12, c21, c22, i, j + 1)
  {
    ElemUpdate(C, m, m, i, j, Elem(c11, h, h, i, j));
    var C1 := C[i * m + j := Elem(c11, h, h, i, j)];
    ElemUpdate(C1, m, m, i, j + h, Elem(c12, h, h, i, j));
    var C2 := C1[i * m + (j + h) := Elem(c12, h, h, i, j)];
    ElemUpdate(C2, m, m, i + h, j, Elem(c21, h, h, i, j));
    var C3 := C2[(i + h) * m + j := Elem(c21, h, h, i, j)];
    ElemUpdate(C3, m, m, i + h, j + h, Elem(c22, h, h, i, j));
    var C4 := C3[(i + h) * m + (j + h) := Elem(c22, h, h, i, j)];
    assert i * m + j + h == i * m + (j + h);
    assert (i + h) * m + j + h == (i + h) * m + (j + h);
    forall I, J | 0 <= I < m && 0 <= J < m
      ensures Elem(C4, m, m, I, J) ==
                if I < 2 * h && J < 2 * h && Before(if I < h then I else I - h, if J < h then J else J - h, i, j + 1)
                then PlacedAt(m, h, c11, c12, c21, c22, I, J) else 0
    {
      var i', j' := if I < h then I else I - h, if J < h then J else J - h;
      if I < 2 * h && J < 2 * h && i' == i && j' == j {
      } else {
        assert Elem(C4, m, m, I, J) == Elem(C, m, m, I, J);
      }
    }
  }

  /** The assembly loop of strassen: a zeroed m x m vector receiving the four quadrants. */
  method AssembleQuadrants(m: int, h: int, c11: seq<int>, c12: seq<int>, c21: seq<int>, c22: seq<int>) returns (C: seq<int>)
    requires 0 <= h && 2 * h <= m
    requires |c11| == h * h && |c12| == h * h && |c21| == h * h && |c22| == h * h
    ensures C == Place(m, h, c11, c12, c21, c22)
  {
    C := Zeros(m * m);
    forall I, J | 0 <= I < m && 0 <= J < m
      ensures Elem(C, m, m, I, J) == 0
    {
      IndexBound(I, J, m, m);
    }
    for i := 0 to h
      invariant Written(C, m, h, c11, c12, c21, c22, i, 0)
    {
      for j := 0 to h
        invariant Written(C, m, h, c11, c12, c21, c22, i, j)
      {
        WrittenStep(C, m, h, c11, c12, c21, c22, i, j);
        C := C[i * m + j := Elem(c11, h, h, i, j)];
        C := C[i * m + j + h := Elem(c12, h, h, i, j)];
        C := C[(i + h) * m + j := Elem(c21, h, h, i, j)];
        C := C[(i + h) * m + j + h := Elem(c22, h, h, i, j)];
      }
    }
    EqualByEntries(C, Place(m, h, c11, c12, c21, c22), m, m);
  }

  /**
    The four combinations of strassen, each evaluated left to right with the
    vectorised add and sub: C11 = M1 + M4 - M5 + M7, C12 = M3 + M5,
    C21 = M2 + M4, C22 = M1 + M3 - M2 + M6.
   */
  method CombineProducts(m1: seq<int>, m2: seq<int>, m3: seq<int>, m4: seq<int>, m5: seq<int>, m6: seq<int>, m7: seq<int>,
                         h: int, width: int) returns (c11: seq<int>, c12: seq<int>, c21: seq<int>, c22: seq<int>)
    requires 0 <= h && width > 0
    requires |m1| == |m2| == |m3| == |m4| == |m5| == |m6| == |m7| == h * h
    ensures c11 == Combine11(m1, m4, m5, m7) && c12 == Plus(m3, m5)
    ensures c21 == Plus(m2, m4) && c22 == Combine22(m1, m2, m3, m6)
  {
    assert m1[..h * h] == m1 && m2[..h * h] == m2 && m3[..h * h] == m3 && m4[..h * h] == m4;
    assert m5[..h * h] == m5 && m6[..h * h] == m6 && m7[..h * h] == m7;
    c11 := VectorOps.Add(m1, m4, h, width);
    assert c11[..h * h] == c11;
    c11 := VectorOps.Sub(c11, m5, h, width);
    assert c11[..h * h] == c11;
    c11 := VectorOps.Add(c11, m7, h, width);
    c12 := VectorOps.Add(m3, m5, h, width);
    c21 := VectorOps.Add(m2, m4, h, width);
    c22 := VectorOps.Add(m1, m3, h, width);
    assert c22[..h * h] == c22;
    c22 := VectorOps.Sub(c22, m2, h, width);
    assert c22[..h * h] == c22;
    c22 := VectorOps.Add(c22, m6, h, width);
  }

  /**
    strassen with the fallback condition chosen by `guardOdd`: the tiled
    multiply below the threshold, else seven recursive calls on quadrant
    sums and differences built with the vectorised add and sub.
   */
  method StrassenWith(a: seq<int>, b: seq<int>, m: int, n: int, p: int, threshold: int, width: int, guardOdd: bool)
    returns (c: seq<int>)
    requires threshold > 0 && width > 0 && 0 <= m && 0 <= n && 0 <= p && |a| == m * n && |b| == n * p
    ensures c == StrassenValue(a, b, m, n, p, threshold, guardOdd)
    decreases m
  {
    if FallsBack(m, n, p, threshold, guardOdd) {
      c := Tiled.Multiply(a, b, m, n, p, width);
      return;
    }
    var h := m / 2;
    var a11, a12, a21, a22 := CopyQuadrants(a, m, h);
    var b11, b12, b21, b22 := CopyQuadrants(b, m, h);
    assert a11[..h * h] == a11 && a12[..h * h] == a12 && a21[..h * h] == a21 && a22[..h * h] == a22;
    assert b11[..h * h] == b11 && b12[..h * h] == b12 && b21[..h * h] == b21 && b22[..h * h] == b22;
    var x, y;
    x := VectorOps.Add(a11, a22, h, width);
    y := VectorOps.Add(b11, b22, h, width);
    var m1 := StrassenWith(x, y, h, h, h, threshold, width, guardOdd);
    x := VectorOps.Add(a21, a22, h, width);
    var m2 := StrassenWith(x, b11, h, h, h, threshold, width, guardOdd);
    y := VectorOps.Sub(b12, b22, h, width);
    var m3 := StrassenWith(a11, y, h, h, h, threshold, width, guardOdd);
    y := VectorOps.Sub(b21, b11, h, width);
    var m4 := StrassenWith(a22, y, h, h, h, threshold, width, guardOdd);
    x := VectorOps.Add(a11, a12, h, width);
    var m5 := StrassenWith(x, b22, h, h, h, threshold, width, guardOdd);
    x := VectorOps.Sub(a21, a11, h, width);
    y := VectorOps.Add(b11, b12, h, width);
    var m6 := StrassenWith(x, y, h, h, h, threshold, width, guardOdd);
    x := VectorOps.Sub(a12, a22, h, width);
    y := VectorOps.Add(b21, b22, h, width);
    var m7 := StrassenWith(x, y, h, h, h, threshold, width, guardOdd);
    var c11, c12, c21, c22 := CombineProducts(m1, m2, m3, m4, m5, m6, m7, h, width);
    c := AssembleQuadrants(m, h, c11, c12, c21, c22);
  }

  /**
    strassen as written. The result is the exact product whenever the
    operands are not square, or every halving above the threshold is even;
    for an odd square size above the threshold the last row and column are
    left at zero.
   */
  method Strassen(a: seq<int>, b: seq<int>, m: int, n: int, p: int, threshold: int, width: int) returns (c: seq<int>)
    requires threshold > 0 && width > 0 && 0 <= m && 0 <= n && 0 <= p && |a| == m * n && |b| == n * p
    ensures |c| == m * p
    ensures m != n || n != p || HalvesEvenly(m, threshold) ==> c == ProductSpec(a, b, m, n, p)
    ensures m == n == p && threshold < m && m % 2 == 1 ==>
              forall i, j :: 0 <= i < m && 0 <= j < m && (i == m - 1 || j == m - 1) ==> Elem(c, m, m, i, j) == 0
  {
    c := StrassenWith(a, b, m, n, p, threshold, width, false);
    if m != n || n != p || HalvesEvenly(m, threshold) {
      StrassenValueCorrect(a, b, m, n, p, threshold, false);
    }
    if m == n == p && threshold < m && m % 2 == 1 {
      StrassenOddEdgeZero(a, b, m, threshold);
    }
  }

  /** strassen with odd sizes sent to the fallback: the exact product for all inputs. */
  method StrassenGuarded(a: seq<int>, b: seq<int>, m: int, n: int, p: int, threshold: int, width: int) returns (c: seq<int>)
    requires threshold > 0 && width > 0 && 0 <= m && 0 <= n && 0 <= p && |a| == m * n && |b| == n * p
    ensures c == ProductSpec(a, b, m, n, p)
  {
    c := StrassenWith(a, b, m, n, p, threshold, width, true);
    GuardedStrassenCorrect(a, b, m, n, p, threshold);
  }
}
