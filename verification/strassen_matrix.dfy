/**
  Matrix::multiplyStrassen: pad both operands to a power-of-two square, fall
  back to multiplyNaive at or below a side of 128, otherwise split into
  quadrants, recurse on Strassen's seven products, recombine, reassemble and
  strip the padding. Every library call keeps its exception: a `:-` step
  propagates an `Err` exactly where the C++ call would throw.

  The source pads A and B separately, each to the power of two above its own
  larger side. The model carries a switch `common`: false is the code as
  written, true pads both operands to one common side (the power of two
  above the largest of the three dimensions).
 */
module StrassenMatrix {
  import opened Errors
  import opened Layout
  import opened LinAlg
  import opened Powers
  import opened Matrices
  import opened Naive
  import opened StrassenAlgebra

  /** STRASSEN_THRESHOLD: sides at or below this go to multiplyNaive. */
  const StrassenThreshold := 128

  datatype Quadrants = Quadrants(q11: Matrix, q12: Matrix, q21: Matrix, q22: Matrix)

  predicate QuadrantsOfSide(Q: Quadrants, k: int) {
    && Q.q11.Valid() && Q.q11.rows == k && Q.q11.cols == k
    && Q.q12.Valid() && Q.q12.rows == k && Q.q12.cols == k
    && Q.q21.Valid() && Q.q21.rows == k && Q.q21.cols == k
    && Q.q22.Valid() && Q.q22.rows == k && Q.q22.cols == k
  }

  /** The side both operands are padded to: per operand as written, or one common side. */
  function PaddedSide(common: bool, A: Matrix, B: Matrix): int {
    if common then NextPowerOf2(Max(Max(A.rows, A.cols), B.cols)) else PadSize(A)
  }

  /** The four submatrix(.., k, k) calls that split a padded operand, in the source's order. */
  function Split(X: Matrix, k: int): (r: Result<Quadrants>)
    requires X.Valid() && k > 0
    ensures r.Ok? <==> 2 * k <= X.rows && 2 * k <= X.cols
    ensures r.Err? ==> r.error == OutOfRange(Text(SubmatrixOutOfRange))
    ensures r.Ok? ==> QuadrantsOfSide(r.value, k)
    ensures r.Ok? && X.rows == 2 * k && X.cols == 2 * k ==>
              && r.value.q11.data == Quad(X.data, k, 0, 0) && r.value.q12.data == Quad(X.data, k, 0, 1)
              && r.value.q21.data == Quad(X.data, k, 1, 0) && r.value.q22.data == Quad(X.data, k, 1, 1)
  {
    var q11 :- Submatrix(X, 0, 0, k, k);
    var q12 :- Submatrix(X, 0, k, k, k);
    var q21 :- Submatrix(X, k, 0, k, k);
    var q22 := Submatrix(X, k, k, k, k).value;
    Ok(Quadrants(q11, q12, q21, q22))
  }

  /**
    C11 = M1 + M4 - M5 + M7, C12 = M3 + M5, C21 = M2 + M4,
    C22 = M1 - M2 + M3 + M6, each evaluated left to right with operator+ and
    operator-; none of them throws, the seven products sharing one shape.
   */
  function Combine(M1: Matrix, M2: Matrix, M3: Matrix, M4: Matrix, M5: Matrix, M6: Matrix, M7: Matrix): (C: Quadrants)
    requires M1.Valid() && M2.Valid() && M3.Valid() && M4.Valid() && M5.Valid() && M6.Valid() && M7.Valid()
    requires SameDimensions(M1, M2) && SameDimensions(M1, M3) && SameDimensions(M1, M4) &&
             SameDimensions(M1, M5) && SameDimensions(M1, M6) && SameDimensions(M1, M7)
    ensures && C.q11.Valid() && SameDimensions(C.q11, M1) && C.q12.Valid() && SameDimensions(C.q12, M1)
            && C.q21.Valid() && SameDimensions(C.q21, M1) && C.q22.Valid() && SameDimensions(C.q22, M1)
    ensures forall i, j :: 0 <= i < M1.rows && 0 <= j < M1.cols ==>
              && Get(C.q11, i, j) == Get(M1, i, j) + Get(M4, i, j) - Get(M5, i, j) + Get(M7, i, j)
              && Get(C.q12, i, j) == Get(M3, i, j) + Get(M5, i, j)
              && Get(C.q21, i, j) == Get(M2, i, j) + Get(M4, i, j)
              && Get(C.q22, i, j) == Get(M1, i, j) - Get(M2, i, j) + Get(M3, i, j) + Get(M6, i, j)
  {
    var c11 := Add(Sub(Add(M1, M4).value, M5).value, M7).value;
    var c12 := Add(M3, M5).value;
    var c21 := Add(M2, M4).value;
    var c22 := Add(Add(Sub(M1, M2).value, M3).value, M6).value;
    Quadrants(c11, c12, c21, c22)
  }

  /**
    Matrix C_padded(n, n) followed by the four copySubmatrix calls that place
    C11, C12, C21 and C22 at (0, 0), (0, k), (k, 0) and (k, k); none of them
    throws.
   */
  function Assemble(n: int, k: int, C: Quadrants): (P: Matrix)
    requires 0 < k && n == 2 * k && QuadrantsOfSide(C, k)
    ensures P.Valid() && P.rows == n && P.cols == n
    ensures forall i, j :: 0 <= i < k && 0 <= j < k ==>
              && Get(P, i, j) == Get(C.q11, i, j)
              && Get(P, i, k + j) == Get(C.q12, i, j)
              && Get(P, k + i, j) == Get(C.q21, i, j)
              && Get(P, k + i, k + j) == Get(C.q22, i, j)
  {
    var P0 := New(n, n).value;
    var P1 := CopySubmatrix(P0, C.q11, 0, 0).value;
    var P2 := CopySubmatrix(P1, C.q12, 0, k).value;
    var P3 := CopySubmatrix(P2, C.q21, k, 0).value;
    CopySubmatrix(P3, C.q22, k, k).value
  }

  /**
    multiplyStrassen with the padding rule chosen by `common`: the shape
    check, the padding, the naive product at or below the threshold or the
    recursive case above it, and the final removePadding. The measure is the
    largest of the three dimensions; the recursive case works on quadrants
    of half the padded side, below it.
   */
  function StrassenWith(style: MessageStyle, common: bool, A: Matrix, B: Matrix): (r: Result<Matrix>)
    requires A.Valid() && B.Valid()
    ensures !CanMultiply(A, B) ==> r == Err(IncompatibleError(style, A, B))
    ensures r.Ok? ==> r.value.Valid() && r.value.rows == A.rows && r.value.cols == B.cols
    decreases Max(Max(A.rows, A.cols), B.cols), 1
  {
    if !CanMultiply(A, B) then Err(IncompatibleError(style, A, B))
    else
      var Ap := if common then PadTo(A, PaddedSide(common, A, B)) else PadToPowerOf2(A);
      var Bp := if common then PadTo(B, PaddedSide(common, A, B)) else PadToPowerOf2(B);
      var n := Ap.rows;
      var Cp :- if n <= StrassenThreshold then NaiveProduct(style, Ap, Bp) else Halves(style, common, Ap, Bp);
      RemovePadding(Cp, A.rows, B.cols)
  }

  /**
    The recursive case on the padded operands, with n = Ap.rows and k = n / 2:
    split both operands into k x k quadrants, the seven recursive products,
    Combine, and Assemble into an n x n matrix. A quadrant of Bp out of range
    (Bp padded smaller than Ap) is the out_of_range error of submatrix.
   */
  function Halves(style: MessageStyle, common: bool, Ap: Matrix, Bp: Matrix): (r: Result<Matrix>)
    requires Ap.Valid() && Bp.Valid() && Ap.rows == Ap.cols && Ap.rows >= 2 && Ap.rows % 2 == 0
    ensures r.Ok? ==> r.value.Valid() && r.value.rows == Ap.rows && r.value.cols == Ap.rows
    decreases Ap.rows / 2, 2
  {
    var n := Ap.rows;
    var k := n / 2;
    var qa := Split(Ap, k).value;
    var qb :- Split(Bp, k);
    var M1 :- StrassenWith(style, common, Add(qa.q11, qa.q22).value, Add(qb.q11, qb.q22).value);
    var M2 :- StrassenWith(style, common, Add(qa.q21, qa.q22).value, qb.q11);
    var M3 :- StrassenWith(style, common, qa.q11, Sub(qb.q12, qb.q22).value);
    var M4 :- StrassenWith(style, common, qa.q22, Sub(qb.q21, qb.q11).value);
    var M5 :- StrassenWith(style, common, Add(qa.q11, qa.q12).value, qb.q22);
    var M6 :- StrassenWith(style, common, Sub(qa.q21, qa.q11).value, Add(qb.q11, qb.q12).value);
    var M7 :- StrassenWith(style, common, Sub(qa.q12, qa.q22).value, Add(qb.q21, qb.q22).value);
    Ok(Assemble(n, k, Combine(M1, M2, M3, M4, M5, M6, M7)))
  }

  /** Matrix::multiplyStrassen as written: each operand padded to its own power-of-two side. */
  function MultiplyStrassen(style: MessageStyle, A: Matrix, B: Matrix): (r: Result<Matrix>)
    requires A.Valid() && B.Valid()
    ensures !CanMultiply(A, B) ==> r == Err(IncompatibleError(style, A, B))
    ensures r.Ok? ==> r.value.Valid() && r.value.rows == A.rows && r.value.cols == B.cols
  {
    StrassenWith(style, false, A, B)
  }

  /** multiplyStrassen with both operands padded to one common power-of-two side. */
  function MultiplyStrassenCommonPad(style: MessageStyle, A: Matrix, B: Matrix): (r: Result<Matrix>)
    requires A.Valid() && B.Valid()
    ensures !CanMultiply(A, B) ==> r == Err(IncompatibleError(style, A, B))
    ensures r.Ok? ==> r.value.Valid() && r.value.rows == A.rows && r.value.cols == B.cols
  {
    StrassenWith(style, true, A, B)
  }

  /** Multiplying zero-padded operands and cutting the m x p corner back out gives the product. */
  lemma PadProduct(A: Matrix, B: Matrix, s: int)
    requires A.Valid() && B.Valid() && CanMultiply(A, B)
    requires A.rows <= s && A.cols <= s && B.cols <= s
    ensures RemovePadding(Product(PadTo(A, s), PadTo(B, s)), A.rows, B.cols) == Ok(Product(A, B))
  {
    var Ap, Bp := PadTo(A, s), PadTo(B, s);
    var R := RemovePadding(Product(Ap, Bp), A.rows, B.cols).value;
    forall i, j | 0 <= i < A.rows && 0 <= j < B.cols
      ensures Get(R, i, j) == Get(Product(A, B), i, j)
    {
      forall t | A.cols <= t < s
        ensures Elem(Ap.data, s, s, i, t) == 0
      {
        assert Get(Ap, i, t) == 0;
      }
      DotZeroTail(Ap.data, Bp.data, s, s, s, i, j, A.cols, s);
      forall t | 0 <= t < A.cols
        ensures Elem(Ap.data, s, s, i, t) == Elem(A.data, A.rows, A.cols, i, t)
      {
        assert Get(Ap, i, t) == Get(A, i, t);
      }
      forall t | 0 <= t < A.cols
        ensures Elem(Bp.data, s, s, t, j) == Elem(B.data, B.rows, B.cols, t, j)
      {
        assert Get(Bp, t, j) == Get(B, t, j);
      }
      DotCongruent(Ap.data, Bp.data, s, s, s, i, j, A.data, B.data, A.rows, A.cols, B.cols, i, j, A.cols);
    }
    Extensionality(R, Product(A, B));
  }

  /** A power of two above 1 is twice a power of two. */
  lemma HalvePow2(n: int)
    requires IsPow2(n) && n > 1
    ensures n == 2 * (n / 2) && IsPow2(n / 2) && n / 2 > 0
  {
  }

  /** The seven recursive products of the Matrix quadrants are Strassen's seven products of the buffers. */
  lemma SplitProducts(X: Matrix, Y: Matrix, k: int)
    requires X.Valid() && Y.Valid() && 0 < k
    requires X.rows == 2 * k && X.cols == 2 * k && Y.rows == 2 * k && Y.cols == 2 * k
    ensures var qa, qb := Split(X, k).value, Split(Y, k).value;
            SevenProducts(X.data, Y.data, k,
              Product(Add(qa.q11, qa.q22).value, Add(qb.q11, qb.q22).value).data,
              Product(Add(qa.q21, qa.q22).value, qb.q11).data,
              Product(qa.q11, Sub(qb.q12, qb.q22).value).data,
              Product(qa.q22, Sub(qb.q21, qb.q11).value).data,
              Product(Add(qa.q11, qa.q12).value, qb.q22).data,
              Product(Sub(qa.q21, qa.q11).value, Add(qb.q11, qb.q12).value).data,
              Product(Sub(qa.q12, qa.q22).value, Add(qb.q21, qb.q22).value).data)
  {
    var qa, qb := Split(X, k).value, Split(Y, k).value;
    assert qa.q11.data == Quad(X.data, k, 0, 0) && qa.q12.data == Quad(X.data, k, 0, 1);
    assert qa.q21.data == Quad(X.data, k, 1, 0) && qa.q22.data == Quad(X.data, k, 1, 1);
    assert qb.q11.data == Quad(Y.data, k, 0, 0) && qb.q12.data == Quad(Y.data, k, 0, 1);
    assert qb.q21.data == Quad(Y.data, k, 1, 0) && qb.q22.data == Quad(Y.data, k, 1, 1);
  }

  /** Combine followed by Assemble lays out Strassen's four combinations as the quadrants of a 2k x 2k buffer. */
  lemma CombineAssembled(k: int, M1: Matrix, M2: Matrix, M3: Matrix, M4: Matrix, M5: Matrix, M6: Matrix, M7: Matrix)
    requires 0 < k
    requires M1.Valid() && M1.rows == k && M1.cols == k && M2.Valid() && M2.rows == k && M2.cols == k
    requires M3.Valid() && M3.rows == k && M3.cols == k && M4.Valid() && M4.rows == k && M4.cols == k
    requires M5.Valid() && M5.rows == k && M5.cols == k && M6.Valid() && M6.rows == k && M6.cols == k
    requires M7.Valid() && M7.rows == k && M7.cols == k
    ensures Assembled(Assemble(2 * k, k, Combine(M1, M2, M3, M4, M5, M6, M7)).data, k,
                      M1.data, M2.data, M3.data, M4.data, M5.data, M6.data, M7.data)
  {
    var C := Combine(M1, M2, M3, M4, M5, M6, M7);
    var P := Assemble(2 * k, k, C);
    forall i, j | 0 <= i < k && 0 <= j < k
      ensures && Elem(P.data, 2 * k, 2 * k, i, j) == Get(M1, i, j) + Get(M4, i, j) - Get(M5, i, j) + Get(M7, i, j)
              && Elem(P.data, 2 * k, 2 * k, i, k + j) == Get(M3, i, j) + Get(M5, i, j)
              && Elem(P.data, 2 * k, 2 * k, k + i, j) == Get(M2, i, j) + Get(M4, i, j)
              && Elem(P.data, 2 * k, 2 * k, k + i, k + j) == Get(M1, i, j) - Get(M2, i, j) + Get(M3, i, j) + Get(M6, i, j)
    {
      assert Get(P, i, j) == Get(C.q11, i, j);
      assert Get(P, i, k + j) == Get(C.q12, i, j);
      assert Get(P, k + i, j) == Get(C.q21, i, j);
      assert Get(P, k + i, k + j) == Get(C.q22, i, j);
    }
  }

  /**
    Strassen's recursion is exact whenever both operands are padded to the
    same side: the result is the product, or the shape error when A.cols != B.rows.
    The shape error comes before any padding, so it holds for every
    incompatible pair whatever the two pads are.
   */
  lemma {:induction false} StrassenCorrect(style: MessageStyle, common: bool, A: Matrix, B: Matrix)
    requires A.Valid() && B.Valid()
    requires common || !CanMultiply(A, B) || PadSize(A) == PadSize(B)
    ensures StrassenWith(style, common, A, B) == NaiveProduct(style, A, B)
    decreases Max(Max(A.rows, A.cols), B.cols), 1
  {
    if !CanMultiply(A, B) {
      return;
    }
    var s := PaddedSide(common, A, B);
    assert A.rows <= s && A.cols <= s && B.cols <= s;
    var Ap := if common then PadTo(A, s) else PadToPowerOf2(A);
    var Bp := if common then PadTo(B, s) else PadToPowerOf2(B);
    assert Ap == PadTo(A, s) && Bp == PadTo(B, s);
    PadProduct(A, B, s);
    if s > StrassenThreshold {
      HalvePow2(s);
      HalvesCorrect(style, common, Ap, Bp);
    }
  }

  /** On two n x n operands, n a power of two above 1, the recursive case returns their product. */
  lemma {:induction false} HalvesCorrect(style: MessageStyle, common: bool, X: Matrix, Y: Matrix)
    requires X.Valid() && Y.Valid() && X.rows == X.cols && Y.rows == X.rows && Y.cols == X.rows
    requires IsPow2(X.rows) && X.rows > 1
    ensures X.rows % 2 == 0 && Halves(style, common, X, Y) == Ok(Product(X, Y))
    decreases X.rows / 2, 3
  {
    HalvePow2(X.rows);
    var k := X.rows / 2;
    SevenCorrect(style, common, Split(X, k).value, Split(Y, k).value, k);
    StrassenLevel(X, Y, k);
  }

  /** The seven recursive calls on k x k quadrants, k a power of two, return the seven exact products. */
  lemma {:induction false} SevenCorrect(style: MessageStyle, common: bool, qa: Quadrants, qb: Quadrants, k: int)
    requires QuadrantsOfSide(qa, k) && QuadrantsOfSide(qb, k) && IsPow2(k)
    ensures OperandsOk(qa, qb, k)
    ensures StrassenWith(style, common, Add(qa.q11, qa.q22).value, Add(qb.q11, qb.q22).value)
            == Ok(Product(Add(qa.q11, qa.q22).value, Add(qb.q11, qb.q22).value))
    ensures StrassenWith(style, common, Add(qa.q21, qa.q22).value, qb.q11) == Ok(Product(Add(qa.q21, qa.q22).value, qb.q11))
    ensures StrassenWith(style, common, qa.q11, Sub(qb.q12, qb.q22).value) == Ok(Product(qa.q11, Sub(qb.q12, qb.q22).value))
    ensures StrassenWith(style, common, qa.q22, Sub(qb.q21, qb.q11).value) == Ok(Product(qa.q22, Sub(qb.q21, qb.q11).value))
    ensures StrassenWith(style, common, Add(qa.q11, qa.q12).value, qb.q22) == Ok(Product(Add(qa.q11, qa.q12).value, qb.q22))
    ensures StrassenWith(style, common, Sub(qa.q21, qa.q11).value, Add(qb.q11, qb.q12).value)
            == Ok(Product(Sub(qa.q21, qa.q11).value, Add(qb.q11, qb.q12).value))
    ensures StrassenWith(style, common, Sub(qa.q12, qa.q22).value, Add(qb.q21, qb.q22).value)
            == Ok(Product(Sub(qa.q12, qa.q22).value, Add(qb.q21, qb.q22).value))
    decreases k, 2
  {
    OperandsDefined(qa, qb, k);
    NextPowerOf2Fixed(k);
    StrassenCorrect(style, common, Add(qa.q11, qa.q22).value, Add(qb.q11, qb.q22).value);
    StrassenCorrect(style, common, Add(qa.q21, qa.q22).value, qb.q11);
    StrassenCorrect(style, common, qa.q11, Sub(qb.q12, qb.q22).value);
    StrassenCorrect(style, common, qa.q22, Sub(qb.q21, qb.q11).value);
    StrassenCorrect(style, common, Add(qa.q11, qa.q12).value, qb.q22);
    StrassenCorrect(style, common, Sub(qa.q21, qa.q11).value, Add(qb.q11, qb.q12).value);
    StrassenCorrect(style, common, Sub(qa.q12, qa.q22).value, Add(qb.q21, qb.q22).value);
  }

  /** The ten quadrant sums and differences the seven products use are all defined. */
  predicate OperandsOk(qa: Quadrants, qb: Quadrants, k: int)
    requires QuadrantsOfSide(qa, k) && QuadrantsOfSide(qb, k)
  {
    && Add(qa.q11, qa.q22).Ok? && Add(qb.q11, qb.q22).Ok? && Add(qa.q21, qa.q22).Ok?
    && Sub(qb.q12, qb.q22).Ok? && Sub(qb.q21, qb.q11).Ok? && Add(qa.q11, qa.q12).Ok?
    && Sub(qa.q21, qa.q11).Ok? && Add(qb.q11, qb.q12).Ok? && Sub(qa.q12, qa.q22).Ok? && Add(qb.q21, qb.q22).Ok?
  }

  /** The sums and differences of quadrants that feed the seven products are all defined, k x k. */
  lemma OperandsDefined(qa: Quadrants, qb: Quadrants, k: int)
    requires QuadrantsOfSide(qa, k) && QuadrantsOfSide(qb, k)
    ensures Add(qa.q11, qa.q22).Ok? && Add(qb.q11, qb.q22).Ok? && Add(qa.q21, qa.q22).Ok?
    ensures Sub(qb.q12, qb.q22).Ok? && Sub(qb.q21, qb.q11).Ok? && Add(qa.q11, qa.q12).Ok?
    ensures Sub(qa.q21, qa.q11).Ok? && Add(qb.q11, qb.q12).Ok? && Sub(qa.q12, qa.q22).Ok? && Add(qb.q21, qb.q22).Ok?
    ensures var Q := Quadrants(Add(qa.q11, qa.q22).value, Add(qb.q11, qb.q22).value, Add(qa.q21, qa.q22).value, Sub(qb.q12, qb.q22).value);
            QuadrantsOfSide(Q, k)
    ensures var Q := Quadrants(Sub(qb.q21, qb.q11).value, Add(qa.q11, qa.q12).value, Sub(qa.q21, qa.q11).value, Add(qb.q11, qb.q12).value);
            QuadrantsOfSide(Q, k)
    ensures Sub(qa.q12, qa.q22).value.Valid() && Sub(qa.q12, qa.q22).value.rows == k && Sub(qa.q12, qa.q22).value.cols == k
    ensures Add(qb.q21, qb.q22).value.Valid() && Add(qb.q21, qb.q22).value.rows == k && Add(qb.q21, qb.q22).value.cols == k
  {
  }

  /**
    One level of the recursion with exact products in place of the recursive
    calls: splitting, the seven products, Combine and Assemble rebuild the
    product of the two 2k x 2k operands.
   */
  lemma StrassenLevel(X: Matrix, Y: Matrix, k: int)
    requires X.Valid() && Y.Valid() && 0 < k
    requires X.rows == 2 * k && X.cols == 2 * k && Y.rows == 2 * k && Y.cols == 2 * k
    ensures var qa, qb := Split(X, k).value, Split(Y, k).value;
            Assemble(2 * k, k, Combine(
              Product(Add(qa.q11, qa.q22).value, Add(qb.q11, qb.q22).value),
              Product(Add(qa.q21, qa.q22).value, qb.q11),
              Product(qa.q11, Sub(qb.q12, qb.q22).value),
              Product(qa.q22, Sub(qb.q21, qb.q11).value),
              Product(Add(qa.q11, qa.q12).value, qb.q22),
              Product(Sub(qa.q21, qa.q11).value, Add(qb.q11, qb.q12).value),
              Product(Sub(qa.q12, qa.q22).value, Add(qb.q21, qb.q22).value))) == Product(X, Y)
  {
    var qa, qb := Split(X, k).value, Split(Y, k).value;
    var M1 := Product(Add(qa.q11, qa.q22).value, Add(qb.q11, qb.q22).value);
    var M2 := Product(Add(qa.q21, qa.q22).value, qb.q11);
    var M3 := Product(qa.q11, Sub(qb.q12, qb.q22).value);
    var M4 := Product(qa.q22, Sub(qb.q21, qb.q11).value);
    var M5 := Product(Add(qa.q11, qa.q12).value, qb.q22);
    var M6 := Product(Sub(qa.q21, qa.q11).value, Add(qb.q11, qb.q12).value);
    var M7 := Product(Sub(qa.q12, qa.q22).value, Add(qb.q21, qb.q22).value);
    var Cp := Assemble(2 * k, k, Combine(M1, M2, M3, M4, M5, M6, M7));
    SplitProducts(X, Y, k);
    CombineAssembled(k, M1, M2, M3, M4, M5, M6, M7);
    StrassenStep(X.data, Y.data, k, M1.data, M2.data, M3.data, M4.data, M5.data, M6.data, M7.data, Cp.data);
  }

  /**
    As written, multiplyStrassen throws for every compatible pair whose
    operands pad to different sides: at or below the threshold the inner
    multiplyNaive rejects the padded shapes; above it a quadrant of the
    smaller padded B, or the final removePadding, is out of range.
   */
  lemma StrassenPadMismatch(style: MessageStyle, A: Matrix, B: Matrix)
    requires A.Valid() && B.Valid() && CanMultiply(A, B)
    requires PadSize(A) != PadSize(B)
    ensures MultiplyStrassen(style, A, B).Err?
  {
    var sA, sB := PadSize(A), PadSize(B);
    var Ap, Bp := PadToPowerOf2(A), PadToPowerOf2(B);
    assert Ap.rows == sA && Ap.cols == sA && Bp.rows == sB && Bp.cols == sB;
    var Cp := if sA <= StrassenThreshold then NaiveProduct(style, Ap, Bp) else Halves(style, false, Ap, Bp);
    assert MultiplyStrassen(style, A, B) == if Cp.Err? then Err(Cp.error) else RemovePadding(Cp.value, A.rows, B.cols);
    if sB > sA {
      if B.cols <= sA {
        NextPowerOf2Least(Max(B.rows, B.cols), sA);
        assert false;
      }
    } else if sA > StrassenThreshold {
      assert Split(Bp, sA / 2).Err?;
    }
  }

  /**
    The smallest instance: a 1 x 1 times a 1 x 2 matrix. A pads to 1 x 1 and
    B to 2 x 2, so the inner multiplyNaive sees a 1 x 1 times a 2 x 2.
   */
  lemma StrassenMismatchExample()
    ensures var A, B := Matrix(1, 1, [2]), Matrix(1, 2, [3, 4]);
            && CanMultiply(A, B) && Product(A, B) == Matrix(1, 2, [6, 8])
            && MultiplyStrassen(ConstantMessage, A, B) == Err(InvalidArgument(Text(IncompatibleDimensions)))
            && MultiplyStrassen(ShapeMessage, A, B) == Err(InvalidArgument(ShapeMismatch(1, 1, 2, 2)))
  {
    var A, B := Matrix(1, 1, [2]), Matrix(1, 2, [3, 4]);
    assert PadSize(A) == 1;
    assert !IsPow2(3);
    assert PadSize(B) == 2;
    var P := Product(A, B);
    assert Get(P, 0, 0) == 6 && Get(P, 0, 1) == 8;
    Extensionality(P, Matrix(1, 2, [6, 8]));
  }

  /**
    With one common padded side, Strassen's recursion returns the exact
    product for every compatible pair and the shape error otherwise.
   */
  lemma CommonPadCorrect(style: MessageStyle, A: Matrix, B: Matrix)
    requires A.Valid() && B.Valid()
    ensures MultiplyStrassenCommonPad(style, A, B) == NaiveProduct(style, A, B)
  {
    StrassenCorrect(style, true, A, B);
  }

  /** A 2 x 3 times a 2 x 5 matrix pads to sides 4 and 8, and throws the shape error before padding. */
  lemma StrassenIncompatibleExample(style: MessageStyle)
    ensures var A, B := Matrix(2, 3, Zeros(6)), Matrix(2, 5, Zeros(10));
            && PadSize(A) != PadSize(B)
            && MultiplyStrassen(style, A, B) == Err(IncompatibleError(style, A, B))
  {
  }

  /**
    As written, multiplyStrassen agrees with multiplyNaive whenever both
    operands pad to the same side, and on every pair of incompatible shapes.
   */
  lemma StrassenAgreesWhenPadsMatch(style: MessageStyle, A: Matrix, B: Matrix)
    requires A.Valid() && B.Valid() && (!CanMultiply(A, B) || PadSize(A) == PadSize(B))
    ensures MultiplyStrassen(style, A, B) == NaiveProduct(style, A, B)
  {
    StrassenCorrect(style, false, A, B);
  }
}
