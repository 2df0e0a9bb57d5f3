/**
  The fixed inputs of the repository's test suite, stated as facts about
  the model: each lemma pins one test's operands and expected result.
 */
module TestCases {
  import opened Errors
  import opened Layout
  import opened LinAlg
  import opened Matrices
  import opened Naive
  import StrassenFlat

  /** The 2x2 case: [[1, 2], [3, 4]] * [[5, 6], [7, 8]] == [[19, 22], [43, 50]], in both message styles. */
  lemma TwoByTwo(style: MessageStyle)
    ensures NaiveProduct(style, Matrix(2, 2, [1, 2, 3, 4]), Matrix(2, 2, [5, 6, 7, 8])) == Ok(Matrix(2, 2, [19, 22, 43, 50]))
  {
    var a, b := [1, 2, 3, 4], [5, 6, 7, 8];
    var c := ProductSpec(a, b, 2, 2, 2);
    assert Dot(a, b, 2, 2, 2, 0, 0, 2) == 19;
    assert Dot(a, b, 2, 2, 2, 0, 1, 2) == 22;
    assert Dot(a, b, 2, 2, 2, 1, 0, 2) == 43;
    assert Dot(a, b, 2, 2, 2, 1, 1, 2) == 50;
    assert c == [c[0], c[1], c[2], c[3]];
    assert Elem(c, 2, 2, 0, 0) == c[0] && Elem(c, 2, 2, 0, 1) == c[1];
    assert Elem(c, 2, 2, 1, 0) == c[2] && Elem(c, 2, 2, 1, 1) == c[3];
  }

  /** The non-square case: a 2x3 matrix of 1..6 times a 3x2 matrix of 7..12 is [[58, 64], [139, 154]]. */
  lemma NonSquare(style: MessageStyle)
    ensures NaiveProduct(style, Matrix(2, 3, [1, 2, 3, 4, 5, 6]), Matrix(3, 2, [7, 8, 9, 10, 11, 12]))
            == Ok(Matrix(2, 2, [58, 64, 139, 154]))
  {
    var a, b := [1, 2, 3, 4, 5, 6], [7, 8, 9, 10, 11, 12];
    var c := ProductSpec(a, b, 2, 3, 2);
    assert Dot(a, b, 2, 3, 2, 0, 0, 3) == 58;
    assert Dot(a, b, 2, 3, 2, 0, 1, 3) == 64;
    assert Dot(a, b, 2, 3, 2, 1, 0, 3) == 139;
    assert Dot(a, b, 2, 3, 2, 1, 1, 3) == 154;
    assert c == [c[0], c[1], c[2], c[3]];
    assert Elem(c, 2, 2, 0, 0) == c[0] && Elem(c, 2, 2, 0, 1) == c[1];
    assert Elem(c, 2, 2, 1, 0) == c[2] && Elem(c, 2, 2, 1, 1) == c[3];
  }

  /** The flat-buffer case: a column [1, 2] times a row [1, 2, 3] is the 2x3 outer product. */
  lemma OuterProduct()
    ensures ProductSpec([1, 2], [1, 2, 3], 2, 1, 3) == [1, 2, 3, 2, 4, 6]
  {
    var a, b := [1, 2], [1, 2, 3];
    var c := ProductSpec(a, b, 2, 1, 3);
    forall i, j | 0 <= i < 2 && 0 <= j < 3
      ensures Elem(c, 2, 3, i, j) == Elem([1, 2, 3, 2, 4, 6], 2, 3, i, j)
    {
      assert Dot(a, b, 2, 1, 3, i, j, 1) == Elem(a, 2, 1, i, 0) * Elem(b, 1, 3, 0, j);
    }
    EqualByEntries(c, [1, 2, 3, 2, 4, 6], 2, 3);
  }

  /** The zero case: a 3x2 matrix of 1..6 times the 2x4 zero matrix is the 3x4 zero matrix. */
  lemma ZeroOperand()
    ensures ProductSpec([1, 2, 3, 4, 5, 6], Zeros(8), 3, 2, 4) == Zeros(12)
  {
    var a, b := [1, 2, 3, 4, 5, 6], Zeros(8);
    var c := ProductSpec(a, b, 3, 2, 4);
    forall i, j | 0 <= i < 3 && 0 <= j < 4
      ensures Elem(c, 3, 4, i, j) == Elem(Zeros(12), 3, 4, i, j)
    {
      IndexBound(i, j, 3, 4);
      assert Elem(b, 2, 4, 0, j) == 0 && Elem(b, 2, 4, 1, j) == 0;
      assert Dot(a, b, 3, 2, 4, i, j, 2) == 0;
    }
    EqualByEntries(c, Zeros(12), 3, 4);
  }

  /** The identity case: a 3x3 matrix of 1..9 times the 3x3 identity is itself. */
  lemma RightIdentity()
    ensures ProductSpec([1, 2, 3, 4, 5, 6, 7, 8, 9], Identity(3).data, 3, 3, 3) == [1, 2, 3, 4, 5, 6, 7, 8, 9]
  {
    var A := Matrix(3, 3, [1, 2, 3, 4, 5, 6, 7, 8, 9]);
    IdentityLaws(A);
    assert Product(A, Identity(3)) == A;
  }

  /** The Strassen case: the 2x1 by 1x3 product is not square, so strassen falls back to the blocked kernel. */
  lemma StrassenOuterProduct(threshold: int)
    requires threshold > 0
    ensures StrassenFlat.StrassenValue([1, 2], [1, 2, 3], 2, 1, 3, threshold, false) == [1, 2, 3, 2, 4, 6]
  {
    OuterProduct();
  }
}
