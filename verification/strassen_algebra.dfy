/**
  The algebra behind one level of Strassen's algorithm, on flat row-major
  buffers. A 2h x 2h operand splits into four h x h quadrants; the seven
  products M1..M7 of quadrant sums and differences, recombined as
    C11 = M1 + M4 - M5 + M7,   C12 = M3 + M5,
    C21 = M2 + M4,             C22 = M1 - M2 + M3 + M6,
  give the four quadrants of the full product. Every Strassen variant of
  the model (the Matrix one, the flat one and the seven-rank one) reduces
  its recursive step to `StrassenStep`.
 */
module StrassenAlgebra {
  import opened Layout
  import opened LinAlg

  /** X_rc: the h x h block of an m x m buffer at (r * h, c * h). */
  function Corner(s: seq<int>, m: int, h: int, r: int, c: int): (q: seq<int>)
    requires 0 <= h && 2 * h <= m && |s| == m * m && 0 <= r <= 1 && 0 <= c <= 1
    ensures |q| == h * h
    ensures forall i, j :: 0 <= i < h && 0 <= j < h ==> Elem(q, h, h, i, j) == Elem(s, m, m, r * h + i, c * h + j)
  {
    Block(s, m, m, r * h, c * h, h, h)
  }

  /** The (r, c) quadrant, r, c in {0, 1}, of a 2h x 2h buffer: the corner block of side h. */
  function Quad(s: seq<int>, h: int, r: int, c: int): (q: seq<int>)
    requires 0 <= h && |s| == (2 * h) * (2 * h) && 0 <= r <= 1 && 0 <= c <= 1
    ensures |q| == h * h
    ensures forall i, j :: 0 <= i < h && 0 <= j < h ==> Elem(q, h, h, i, j) == Elem(s, 2 * h, 2 * h, r * h + i, c * h + j)
  {
    Corner(s, 2 * h, h, r, c)
  }

  /** The h x h product. */
  function Mul(x: seq<int>, y: seq<int>, h: int): (z: seq<int>)
    requires 0 <= h && |x| == h * h && |y| == h * h
    ensures |z| == h * h
  {
    ProductSpec(x, y, h, h, h)
  }

  /** m1..m7 are Strassen's seven products of the quadrants of a and b. */
  ghost predicate SevenProducts(a: seq<int>, b: seq<int>, h: int,
                                m1: seq<int>, m2: seq<int>, m3: seq<int>, m4: seq<int>,
                                m5: seq<int>, m6: seq<int>, m7: seq<int>)
    requires 0 <= h && |a| == (2 * h) * (2 * h) && |b| == (2 * h) * (2 * h)
  {
    var a11, a12, a21, a22 := Quad(a, h, 0, 0), Quad(a, h, 0, 1), Quad(a, h, 1, 0), Quad(a, h, 1, 1);
    var b11, b12, b21, b22 := Quad(b, h, 0, 0), Quad(b, h, 0, 1), Quad(b, h, 1, 0), Quad(b, h, 1, 1);
    && m1 == Mul(Plus(a11, a22), Plus(b11, b22), h)
    && m2 == Mul(Plus(a21, a22), b11, h)
    && m3 == Mul(a11, Minus(b12, b22), h)
    && m4 == Mul(a22, Minus(b21, b11), h)
    && m5 == Mul(Plus(a11, a12), b22, h)
    && m6 == Mul(Minus(a21, a11), Plus(b11, b12), h)
    && m7 == Mul(Minus(a12, a22), Plus(b21, b22), h)
  }

  /** c is the 2h x 2h buffer whose quadrants hold Strassen's four combinations of m1..m7. */
  ghost predicate Assembled(c: seq<int>, h: int,
                            m1: seq<int>, m2: seq<int>, m3: seq<int>, m4: seq<int>,
                            m5: seq<int>, m6: seq<int>, m7: seq<int>)
    requires 0 <= h
    requires |m1| == |m2| == |m3| == |m4| == |m5| == |m6| == |m7| == h * h
  {
    && |c| == (2 * h) * (2 * h)
    && forall i, j :: 0 <= i < h && 0 <= j < h ==>
         && Elem(c, 2 * h, 2 * h, i, j) == Elem(m1, h, h, i, j) + Elem(m4, h, h, i, j) - Elem(m5, h, h, i, j) + Elem(m7, h, h, i, j)
         && Elem(c, 2 * h, 2 * h, i, h + j) == Elem(m3, h, h, i, j) + Elem(m5, h, h, i, j)
         && Elem(c, 2 * h, 2 * h, h + i, j) == Elem(m2, h, h, i, j) + Elem(m4, h, h, i, j)
         && Elem(c, 2 * h, 2 * h, h + i, h + j) == Elem(m1, h, h, i, j) - Elem(m2, h, h, i, j) + Elem(m3, h, h, i, j) + Elem(m6, h, h, i, j)
  }

  /**
    Entry (i, j) of the seven products, recombined, equals entry (i, j) of
    the block products A_r0 * B_0c + A_r1 * B_1c for each of the four quadrants.
   */
  lemma SevenProductsEntry(a11: seq<int>, a12: seq<int>, a21: seq<int>, a22: seq<int>,
                           b11: seq<int>, b12: seq<int>, b21: seq<int>, b22: seq<int>, h: int, i: int, j: int)
    requires 0 <= i < h && 0 <= j < h
    requires |a11| == |a12| == |a21| == |a22| == h * h
    requires |b11| == |b12| == |b21| == |b22| == h * h
    ensures var m1 := Dot(Plus(a11, a22), Plus(b11, b22), h, h, h, i, j, h);
            var m2 := Dot(Plus(a21, a22), b11, h, h, h, i, j, h);
            var m3 := Dot(a11, Minus(b12, b22), h, h, h, i, j, h);
            var m4 := Dot(a22, Minus(b21, b11), h, h, h, i, j, h);
            var m5 := Dot(Plus(a11, a12), b22, h, h, h, i, j, h);
            var m6 := Dot(Minus(a21, a11), Plus(b11, b12), h, h, h, i, j, h);
            var m7 := Dot(Minus(a12, a22), Plus(b21, b22), h, h, h, i, j, h);
            && m1 + m4 - m5 + m7 == Dot(a11, b11, h, h, h, i, j, h) + Dot(a12, b21, h, h, h, i, j, h)
            && m3 + m5 == Dot(a11, b12, h, h, h, i, j, h) + Dot(a12, b22, h, h, h, i, j, h)
            && m2 + m4 == Dot(a21, b11, h, h, h, i, j, h) + Dot(a22, b21, h, h, h, i, j, h)
            && m1 - m2 + m3 + m6 == Dot(a21, b12, h, h, h, i, j, h) + Dot(a22, b22, h, h, h, i, j, h)
  {
    // M1 = (A11 + A22)(B11 + B22)
    DotPlusLeft(a11, a22, Plus(b11, b22), h, h, h, i, j, h);
    DotPlusRight(a11, b11, b22, h, h, h, i, j, h);
    DotPlusRight(a22, b11, b22, h, h, h, i, j, h);
    // M2 = (A21 + A22) B11
    DotPlusLeft(a21, a22, b11, h, h, h, i, j, h);
    // M3 = A11 (B12 - B22)
    DotMinusRight(a11, b12, b22, h, h, h, i, j, h);
    // M4 = A22 (B21 - B11)
    DotMinusRight(a22, b21, b11, h, h, h, i, j, h);
    // M5 = (A11 + A12) B22
    DotPlusLeft(a11, a12, b22, h, h, h, i, j, h);
    // M6 = (A21 - A11)(B11 + B12)
    DotMinusLeft(a21, a11, Plus(b11, b12), h, h, h, i, j, h);
    DotPlusRight(a21, b11, b12, h, h, h, i, j, h);
    DotPlusRight(a11, b11, b12, h, h, h, i, j, h);
    // M7 = (A12 - A22)(B21 + B22)
    DotMinusLeft(a12, a22, Plus(b21, b22), h, h, h, i, j, h);
    DotPlusRight(a12, b21, b22, h, h, h, i, j, h);
    DotPlusRight(a22, b21, b22, h, h, h, i, j, h);
  }

  /** Entry (i, j) of each recombination of the seven products is the matching sum of two quadrant products. */
  lemma SevenEntries(a: seq<int>, b: seq<int>, h: int,
                     m1: seq<int>, m2: seq<int>, m3: seq<int>, m4: seq<int>,
                     m5: seq<int>, m6: seq<int>, m7: seq<int>, i: int, j: int)
    requires 0 < h && |a| == (2 * h) * (2 * h) && |b| == (2 * h) * (2 * h)
    requires SevenProducts(a, b, h, m1, m2, m3, m4, m5, m6, m7)
    requires 0 <= i < h && 0 <= j < h
    ensures Elem(m1, h, h, i, j) + Elem(m4, h, h, i, j) - Elem(m5, h, h, i, j) + Elem(m7, h, h, i, j) ==
            Dot(Quad(a, h, 0, 0), Quad(b, h, 0, 0), h, h, h, i, j, h) + Dot(Quad(a, h, 0, 1), Quad(b, h, 1, 0), h, h, h, i, j, h)
    ensures Elem(m3, h, h, i, j) + Elem(m5, h, h, i, j) ==
            Dot(Quad(a, h, 0, 0), Quad(b, h, 0, 1), h, h, h, i, j, h) + Dot(Quad(a, h, 0, 1), Quad(b, h, 1, 1), h, h, h, i, j, h)
    ensures Elem(m2, h, h, i, j) + Elem(m4, h, h, i, j) ==
            Dot(Quad(a, h, 1, 0), Quad(b, h, 0, 0), h, h, h, i, j, h) + Dot(Quad(a, h, 1, 1), Quad(b, h, 1, 0), h, h, h, i, j, h)
    ensures Elem(m1, h, h, i, j) - Elem(m2, h, h, i, j) + Elem(m3, h, h, i, j) + Elem(m6, h, h, i, j) ==
            Dot(Quad(a, h, 1, 0), Quad(b, h, 0, 1), h, h, h, i, j, h) + Dot(Quad(a, h, 1, 1), Quad(b, h, 1, 1), h, h, h, i, j, h)
  {
    var a11, a12, a21, a22 := Quad(a, h, 0, 0), Quad(a, h, 0, 1), Quad(a, h, 1, 0), Quad(a, h, 1, 1);
    var b11, b12, b21, b22 := Quad(b, h, 0, 0), Quad(b, h, 0, 1), Quad(b, h, 1, 0), Quad(b, h, 1, 1);
    SevenProductsEntry(a11, a12, a21, a22, b11, b12, b21, b22, h, i, j);
  }

  /** Entry (I, J) of the assembled buffer is entry (I, J) of the product. */
  lemma StepEntry(a: seq<int>, b: seq<int>, h: int,
                  m1: seq<int>, m2: seq<int>, m3: seq<int>, m4: seq<int>,
                  m5: seq<int>, m6: seq<int>, m7: seq<int>, c: seq<int>, I: int, J: int)
    requires 0 < h && |a| == (2 * h) * (2 * h) && |b| == (2 * h) * (2 * h)
    requires SevenProducts(a, b, h, m1, m2, m3, m4, m5, m6, m7)
    requires Assembled(c, h, m1, m2, m3, m4, m5, m6, m7)
    requires 0 <= I < 2 * h && 0 <= J < 2 * h
    ensures Elem(c, 2 * h, 2 * h, I, J) == Dot(a, b, 2 * h, 2 * h, 2 * h, I, J, 2 * h)
  {
    var N := 2 * h;
    if I < h && J < h {
      assert Elem(c, N, N, I, J) == Elem(m1, h, h, I, J) + Elem(m4, h, h, I, J) - Elem(m5, h, h, I, J) + Elem(m7, h, h, I, J);
      SevenEntries(a, b, h, m1, m2, m3, m4, m5, m6, m7, I, J);
      QuadDot(a, b, h, 0, 0, I, J, I, J);
    } else if I < h {
      var j := J - h;
      assert Elem(c, N, N, I, J) == Elem(c, N, N, I, h + j) == Elem(m3, h, h, I, j) + Elem(m5, h, h, I, j);
      SevenEntries(a, b, h, m1, m2, m3, m4, m5, m6, m7, I, j);
      QuadDot(a, b, h, 0, 1, I, J, I, j);
    } else if J < h {
      var i := I - h;
      assert Elem(c, N, N, I, J) == Elem(c, N, N, h + i, J) == Elem(m2, h, h, i, J) + Elem(m4, h, h, i, J);
      SevenEntries(a, b, h, m1, m2, m3, m4, m5, m6, m7, i, J);
      QuadDot(a, b, h, 1, 0, I, J, i, J);
    } else {
      var i, j := I - h, J - h;
      assert Elem(c, N, N, I, J) == Elem(c, N, N, h + i, h + j)
             == Elem(m1, h, h, i, j) - Elem(m2, h, h, i, j) + Elem(m3, h, h, i, j) + Elem(m6, h, h, i, j);
      SevenEntries(a, b, h, m1, m2, m3, m4, m5, m6, m7, i, j);
      QuadDot(a, b, h, 1, 1, I, J, i, j);
    }
  }

  /**
    Entry (I, J) of the product, at offset (i, j) in quadrant (r, c), is the
    sum of the two quadrant products that feed that quadrant.
   */
  lemma QuadDot(a: seq<int>, b: seq<int>, h: int, r: int, c: int, I: int, J: int, i: int, j: int)
    requires 0 < h && |a| == (2 * h) * (2 * h) && |b| == (2 * h) * (2 * h)
    requires 0 <= r <= 1 && 0 <= c <= 1 && 0 <= i < h && 0 <= j < h && I == r * h + i && J == c * h + j
    ensures Dot(a, b, 2 * h, 2 * h, 2 * h, I, J, 2 * h) ==
            Dot(Quad(a, h, r, 0), Quad(b, h, 0, c), h, h, h, i, j, h) +
            Dot(Quad(a, h, r, 1), Quad(b, h, 1, c), h, h, h, i, j, h)
  {
    DotQuadrant(a, b, h, r, c, i, j);
    assert Quad(a, h, r, 0) == Block(a, 2 * h, 2 * h, r * h, 0, h, h);
    assert Quad(b, h, 0, c) == Block(b, 2 * h, 2 * h, 0, c * h, h, h);
  }

  /**
    One level of Strassen's algorithm is exact: a 2h x 2h buffer assembled
    from the recombined seven products of the quadrants of a and b is the
    product of a and b.
   */
  lemma StrassenStep(a: seq<int>, b: seq<int>, h: int,
                     m1: seq<int>, m2: seq<int>, m3: seq<int>, m4: seq<int>,
                     m5: seq<int>, m6: seq<int>, m7: seq<int>, c: seq<int>)
    requires 0 < h && |a| == (2 * h) * (2 * h) && |b| == (2 * h) * (2 * h)
    requires SevenProducts(a, b, h, m1, m2, m3, m4, m5, m6, m7)
    requires Assembled(c, h, m1, m2, m3, m4, m5, m6, m7)
    ensures c == ProductSpec(a, b, 2 * h, 2 * h, 2 * h)
  {
    var N := 2 * h;
    var a11, a12, a21, a22 := Quad(a, h, 0, 0), Quad(a, h, 0, 1), Quad(a, h, 1, 0), Quad(a, h, 1, 1);
    var b11, b12, b21, b22 := Quad(b, h, 0, 0), Quad(b, h, 0, 1), Quad(b, h, 1, 0), Quad(b, h, 1, 1);
    var P := ProductSpec(a, b, N, N, N);
    forall I, J | 0 <= I < N && 0 <= J < N
      ensures Elem(c, N, N, I, J) == Elem(P, N, N, I, J)
    {
      StepEntry(a, b, h, m1, m2, m3, m4, m5, m6, m7, c, I, J);
    }
    EqualByEntries(c, P, N, N);
  }
}
