# A verified model of the matmul kernels

This project models the core of a C++ dense matrix-multiplication library in
Dafny. It proves that every kernel computes the exact product A * B on the
inputs where the source does. Where the source does not, it names the inputs
and proves what the code computes instead (see "## Findings"): the flat
`strassen` on odd sides, `multiplyStrassen` when the two operands pad to
different sides, and `strassen_hybrid` on non-square operands or with fewer
than seven ranks.
The library has the following parts:

- a `Matrix` class that stores its elements row-major in one flat buffer,
  with element access, initialisers, entrywise arithmetic, submatrix
  extraction and insertion, and power-of-two padding;
- two definitions of `Matrix::multiplyNaive`, the i-k-j naive kernel, in
  src/multiply_naive_sequential.cpp and src/multiply_naive.cpp, which
  differ only in their error message;
- the cache-blocked `multiply` on flat buffers, with 64 x 64 tiles and a
  SIMD inner loop, and the SIMD `add` and `sub` helpers;
- Strassen's algorithm in two forms:
  - on `Matrix`, with power-of-two padding and a threshold of 128;
  - on flat buffers (`strassen`), with a configurable `THRESHOLD`;
- `multiplyHybrid`, which splits the rows of A across MPI ranks, scatters
  them, multiplies the local rows and gathers the result;
- `strassen_hybrid`, which routes the quadrants to seven ranks (one per
  Strassen product), collects the products on rank 0 and assembles them.

Matrix elements are mathematical integers. Each correctness statement
therefore says the kernel's output is *equal* to the exact product
`LinAlg.ProductSpec`. That definition gives every entry (i, j) as the inner
product `Dot` of row i of A and column j of B. Errors the source throws are
`Errors.Result` values with the exception kind and message the source uses.

Modules, in dependency order:

| file | module | what it holds |
|---|---|---|
| errors.dfy | Errors | `Result`, the exception kinds, the source's messages |
| powers.dfy | Powers | `isPowerOf2` (with the `n & (n - 1)` trick) and `nextPowerOf2` |
| layout.dfy | Layout | row-major indexing, `Zeros`, entrywise `Plus` and `Minus`, rectangular `Block`s |
| linalg.dfy | LinAlg | `Dot`, `ProductSpec` and the algebra of inner products |
| matrix.dfy | Matrices | the `Matrix` class |
| naive.dfy | Naive | both naive kernels, and the identity and zero laws |
| tiled.dfy | Tiled | the blocked `multiply` |
| vector_ops.dfy | VectorOps | `add` and `sub` on flat buffers |
| row_partition.dfy | RowPartition | `multiplyHybrid` |
| strassen_algebra.dfy | StrassenAlgebra | why the seven products assemble into A * B |
| strassen_matrix.dfy | StrassenMatrix | `Matrix::multiplyStrassen` (both definitions) |
| strassen_flat.dfy | StrassenFlat | `strassen` on flat buffers |
| strassen_hybrid.dfy | StrassenHybrid | `strassen_hybrid` |
| associativity.dfy | Associativity | (A * B) * C == A * (B * C) |
| test_cases.dfy | TestCases | the fixed test inputs, as lemmas |

The two definitions of `Matrix::multiplyNaive` throw different messages for
a multiplication with mismatched shapes:

- src/multiply_naive_sequential.cpp uses the constant `INCOMPATIBLE_DIMENSIONS_MSG`;
- src/multiply_naive.cpp spells out both shapes.

`Naive.MessageStyle` selects between them. Every product-level contract
holds for both.

The two definitions of `Matrix::multiplyStrassen` check the shapes
themselves first, with the message of the `multiplyNaive` file of matching
name: src/multiply_strassen_sequential.cpp uses the constant, and
src/multiply_strassen.cpp spells out both shapes. Their base case then calls
`multiplyNaive`. `StrassenMatrix.StrassenWith` takes one style for both the
check and that call.

## Model

| member | source | states |
|---|---|---|
| Powers.LowestBitTrick | src/matrix.cpp:343-346 | for n > 0, `n & (n - 1)` is zero exactly when n is a power of two, with `&` defined bit by bit |
| Powers.IsPowerOf2 | src/matrix.cpp:343-346 | the result is true iff n is a positive power of two; non-positive n give false |
| Powers.NextPowerOf2 | src/matrix.cpp:348-359 | the result is a power of two; it is 1 for n <= 0, otherwise n <= result < 2n |
| Powers.NextPowerOf2Least | src/matrix.cpp:348-359 | the result is the least power of two that is at least n |
| Powers.NextPowerOf2Fixed | src/matrix.cpp:348-359 | a power of two is its own next power of two |
| Matrices.New | src/matrix.cpp:10-17 | construction succeeds iff both dimensions are positive; when rows * cols is negative, the buffer's `std::vector` constructor throws length_error before the check runs; otherwise a failure is invalid_argument with the constructor's message; a new matrix is all zeros |
| Matrices.ConstructorErrors | src/matrix.cpp:10-17 | dimensions of mixed sign (-1 x 2, 3 x -4) give length_error; two negative dimensions (their product is positive) or a zero dimension give invalid_argument |
| Matrices.At | src/matrix.cpp:59-75 | access succeeds iff (i, j) is in range, returning `data[i * cols + j]`; out of range gives out_of_range |
| Matrices.Set | src/matrix.cpp:59-66 | writing through a valid index changes exactly that element; an invalid index gives out_of_range |
| Matrices.InitConstant | src/matrix.cpp:106-109 | same shape, and every element equals the constant |
| Matrices.InitZeros | src/matrix.cpp:111-114 | same shape, and every element is 0 |
| Matrices.InitIdentity | src/matrix.cpp:92-104 | succeeds iff the matrix is square, and then has 1 on the diagonal and 0 elsewhere; a non-square matrix gives logic_error |
| Matrices.Add | src/matrix.cpp:120-133 | succeeds iff the shapes agree, and then every element is the sum of the operands' elements; otherwise invalid_argument with the addition message |
| Matrices.Sub | src/matrix.cpp:135-148 | as Add, with differences and the subtraction message |
| Matrices.Scale | src/matrix.cpp:150-158 | same shape, and every element is multiplied by the scalar |
| Matrices.AddAssign | src/matrix.cpp:160-172 | the in-place loop leaves exactly the value (or the error) of `operator+` |
| Matrices.SubAssign | src/matrix.cpp:174-186 | the in-place loop leaves exactly the value (or the error) of `operator-` |
| Matrices.ScaleAssign | src/matrix.cpp:188-195 | the in-place loop leaves exactly the value of `operator*(scalar)` |
| Matrices.Equals | src/matrix.cpp:211-226 | true iff the shapes agree and every pair of elements differs by at most the tolerance; the early exit does not change the answer |
| Matrices.Submatrix | src/matrix.cpp:281-298 | succeeds iff the block lies inside the matrix and has positive size; element (i, j) of the result is element (rowStart + i, colStart + j); errors come in the source's order: out_of_range for a block outside the matrix, then length_error when numRows * numCols is negative, then invalid_argument |
| Matrices.CopySubmatrix | src/matrix.cpp:300-315 | succeeds iff the source block fits at the offset; inside the block the elements come from the source, and every other element is unchanged |
| Matrices.PadTo | src/matrix.cpp:317-332 | an s x s matrix whose top-left block is the original and whose other elements are 0 |
| Matrices.PadToPowerOf2 | src/matrix.cpp:317-332 | pads to the next power of two above the larger dimension; a square power-of-two matrix is returned unchanged |
| Matrices.RemovePadding | src/matrix.cpp:334-337 | succeeds iff the requested size fits, and returns the top-left block |
| Matrices.PadRoundTrip | src/matrix.cpp:317-337 | removing the padding that padToPowerOf2 added gives back the original matrix |
| Matrices.PadSizeFixed | src/matrix.cpp:317-332 | a square matrix whose side is a power of two needs no padding |
| Naive.Product | src/multiply_naive_sequential.cpp:9-27 | the reference product the kernels must compute: an A.rows x B.cols matrix whose element (i, j) is the inner product of row i of A and column j of B, stored row-major |
| Naive.NaiveProduct | src/multiply_naive_sequential.cpp:2-30 | multiplication succeeds iff A.cols == B.rows, and then gives the exact product; otherwise invalid_argument with that definition's message |
| Naive.AccumulateRow | src/multiply_naive_sequential.cpp:19-26 | one pass of the j loop adds A(i, k) * B(k, j) to every element of row i and touches no other row |
| Naive.RowProduct | src/multiply_naive_sequential.cpp:17-27 | starting from a zero row i, the k loop leaves row i equal to row i of A * B; the other rows are unchanged |
| Naive.IkjKernel | src/multiply_naive_sequential.cpp:9-27 | the i-k-j loops on a zeroed buffer produce the exact product |
| Naive.MultiplyNaiveSequential | src/multiply_naive_sequential.cpp:2-30 | the product for compatible shapes; otherwise invalid_argument with the constant message |
| Naive.MultiplyNaive | src/multiply_naive.cpp:18-52 | the product for compatible shapes; otherwise invalid_argument naming both shapes |
| Naive.IdentityLaws | tests/test_cases.h:41-49 | I * A == A and A * I == A for the identities built by initIdentity |
| Naive.ZeroLaw | tests/test_cases.h:51-59 | A times a zero matrix is the zero matrix of the product's shape |
| Tiled.RowSegment | src/multiply.cpp:16-27 | the vector loop plus the scalar tail add A(i, k) * B(k, j) to exactly the entries j0 <= j < j1 of row i |
| Tiled.Tile | src/multiply.cpp:14-28 | one 64 x 64 x 64 tile adds the tile's partial products to exactly its rows and columns |
| Tiled.Slab | src/multiply.cpp:12-28 | a band of rows goes from partial inner products over k < k0 to those over k < k1; other rows are unchanged |
| Tiled.Band | src/multiply.cpp:12-28 | a zeroed band of rows goes to the full inner products; other rows are unchanged |
| Tiled.Multiply | src/multiply.cpp:3-31 | the blocked, vectorised kernel returns the exact product, for every vector width |
| VectorOps.Lanewise | src/utils.cpp:3-21 | the stride loop and the tail together write every index below size * size exactly once, with the lane operation |
| VectorOps.Add | src/utils.cpp:3-21 | the result is the entrywise sum of the first size * size entries of the two operands |
| VectorOps.Sub | src/utils.cpp:23-41 | the result is the entrywise difference of the first size * size entries |
| RowPartition.Count | src/multiply_hybrid.cpp:52-58 | every rank owns rows / size or rows / size + 1 rows |
| RowPartition.DisplClosedForm | src/multiply_hybrid.cpp:52-58 | the running-sum displacement of rank r is r * base + min(r, rem) |
| RowPartition.DisplTotal | src/multiply_hybrid.cpp:52-58 | the blocks of all ranks together cover exactly the rows of A |
| RowPartition.BlocksOrdered | src/multiply_hybrid.cpp:52-58 | the blocks of lower ranks end before those of higher ranks start |
| RowPartition.EveryRowOnce | src/multiply_hybrid.cpp:52-58 | every row belongs to exactly one rank's block |
| RowPartition.Partition | src/multiply_hybrid.cpp:52-58 | the loop computes the counts and displacements; they start at 0, tile the rows, and differ by at most one row |
| RowPartition.ElementBlocks | src/multiply_hybrid.cpp:62-66 | the element counts and displacements are the row ones times the row width, and tile the whole buffer |
| RowPartition.LocalRows | src/multiply_hybrid.cpp:102-116 | each rank's row loop computes the exact product of its rows of A with B |
| RowPartition.RowSliceProduct | src/multiply_hybrid.cpp:77-116 | multiplying a block of rows of A by B gives the same block of rows of A * B |
| RowPartition.ScatterSlice | src/multiply_hybrid.cpp:77-79 | the slice Scatterv sends to a rank is exactly that rank's rows of A |
| RowPartition.GatherStep | src/multiply_hybrid.cpp:118-129 | appending consecutive row blocks gives the combined row block, as Allgatherv does |
| RowPartition.ScatterComputeGather | src/multiply_hybrid.cpp:61-129 | scattering, computing locally and gathering in rank order rebuilds the exact product, for any number of ranks |
| RowPartition.MultiplyHybrid | src/multiply_hybrid.cpp:37-135 | for any number of ranks: the exact product for compatible shapes, and invalid_argument otherwise |
| StrassenAlgebra.Corner | src/strassen.cpp:15-27 | quadrant (r, c) of an m x m buffer, read with row stride m |
| StrassenAlgebra.Quad | src/strassen.cpp:15-27 | quadrant (r, c) of a 2h x 2h buffer holds the elements at offset (r * h, c * h) |
| StrassenAlgebra.SevenProductsEntry | src/strassen.cpp:29-40 | entrywise, the combinations M1+M4-M5+M7, M3+M5, M2+M4 and M1-M2+M3+M6 equal the block-product sums A11B11+A12B21 and so on |
| StrassenAlgebra.QuadDot | src/strassen.cpp:15-27 | an inner product of the full operands splits into the two quadrant inner products |
| StrassenAlgebra.StrassenStep | src/strassen.cpp:29-50 | if the seven products are correct and the quadrants are assembled as in the source, the result is the exact product |
| StrassenMatrix.Split | src/multiply_strassen_sequential.cpp:25-33 | the four submatrix calls succeed iff the matrix holds two k x k blocks per side, and then return its quadrants |
| StrassenMatrix.Combine | src/multiply_strassen_sequential.cpp:43-46 | C11..C22 are the source's combinations of M1..M7, element by element |
| StrassenMatrix.Assemble | src/multiply_strassen_sequential.cpp:48-52 | the four copySubmatrix calls place C11..C22 in the four quadrants of an n x n matrix |
| StrassenMatrix.CombineAssembled | src/multiply_strassen_sequential.cpp:43-52 | combining and assembling the matrices meets the assembly condition under which the seven products give A * B |
| StrassenMatrix.StrassenLevel | src/multiply_strassen_sequential.cpp:23-52 | one level of splitting, seven exact products, combining and assembling gives the exact product |
| StrassenMatrix.PadProduct | src/multiply_strassen_sequential.cpp:10-19 | multiplying zero-padded operands and removing the padding gives the unpadded product |
| StrassenMatrix.StrassenWith | src/multiply_strassen_sequential.cpp:3-55 | the shape error for every pair with A.cols != B.rows, before any padding; every success has the product's shape (rows of A, columns of B) |
| StrassenMatrix.StrassenCorrect | src/multiply_strassen_sequential.cpp:3-55 | for incompatible shapes, and whenever both operands pad to the same size, multiplyStrassen agrees with the naive product, including its error |
| StrassenMatrix.HalvesCorrect | src/multiply_strassen_sequential.cpp:23-54 | on a padded power-of-two pair above the threshold, the recursive case returns the exact product |
| StrassenMatrix.SevenCorrect | src/multiply_strassen_sequential.cpp:35-41 | each of the seven recursive calls succeeds and returns the exact product of its operands |
| StrassenMatrix.OperandsDefined | src/multiply_strassen_sequential.cpp:35-41 | every sum and difference of quadrants passed to the recursive calls succeeds, with k x k results |
| StrassenMatrix.MultiplyStrassen | src/multiply_strassen.cpp:29-108 | the shape error for every pair with A.cols != B.rows; every success has the product's shape |
| StrassenMatrix.StrassenIncompatibleExample | src/multiply_strassen.cpp:31-37 | a 2 x 3 times a 2 x 5 matrix pads to 4 and 8, and gets the shape error |
| StrassenMatrix.StrassenAgreesWhenPadsMatch | src/multiply_strassen.cpp:29-108 | for incompatible shapes, and when A and B pad to the same size, the result (or error) equals the naive kernel's |
| StrassenMatrix.StrassenPadMismatch | src/multiply_strassen_sequential.cpp:10-18 | when A and B pad to different sizes, multiplyStrassen fails even though the shapes are compatible |
| StrassenMatrix.StrassenMismatchExample | src/multiply_strassen_sequential.cpp:10-18 | 1x1 [2] times 1x2 [3, 4] has product [6, 8], but both definitions of multiplyStrassen throw |
| StrassenMatrix.MultiplyStrassenCommonPad | src/multiply_strassen_sequential.cpp:10-12 | padding both operands to one common side gives the shape error for incompatible shapes and a result of the product's shape otherwise |
| StrassenMatrix.CommonPadCorrect | src/multiply_strassen_sequential.cpp:3-55 | with a common padded side, Strassen agrees with the naive product for every pair of valid operands |
| StrassenFlat.Place | src/strassen.cpp:42-50 | the m x m result holds C11..C22 in its four h x h corners, and 0 in any odd last row and column |
| StrassenFlat.CopyQuadrants | src/strassen.cpp:15-27 | the copy loop fills the eight h x h buffers with the quadrants |
| StrassenFlat.AssembleQuadrants | src/strassen.cpp:42-50 | the write loop yields exactly the placed result |
| StrassenFlat.CombineProducts | src/strassen.cpp:37-40 | the add and sub calls compute C11..C22 from M1..M7 |
| StrassenFlat.StrassenValueCorrect | src/strassen.cpp:3-53 | when the recursion only halves even sides, strassen equals the exact product |
| StrassenFlat.StrassenWith | src/strassen.cpp:3-53 | the recursive method returns the recursive value for every threshold and vector width |
| StrassenFlat.Strassen | src/strassen.cpp:3-53 | the exact product whenever it falls back or every halving is even; for odd m above the threshold, the last row and column are 0 |
| StrassenFlat.StrassenOddEdgeZero | src/strassen.cpp:9 | for odd m above the threshold, the last row and column of the result are 0 |
| StrassenFlat.StrassenOddCounterexample | src/strassen.cpp:9 | the 3 x 3 identity squared with threshold 1 has entry (2, 2) equal to 0, where the product has 1 |
| StrassenFlat.GuardedStrassenCorrect | src/strassen.cpp:5-7 | with odd sides also sent to the blocked kernel, strassen equals the exact product for every input |
| StrassenFlat.StrassenGuarded | src/strassen.cpp:5-7 | the guarded method returns the exact product |
| StrassenHybrid.QuadrantEntry | src/strassen_hybrid.cpp:27-41 | entry (i, j) of quadrant (r, c) is the buffer's element at (r * h + i) * stride + c * h + j, which lies inside the buffer when rank 0's reads fit |
| StrassenHybrid.QuadrantOfSquare | src/strassen_hybrid.cpp:27-41 | on an m x m buffer read with stride m, each quadrant is the block quadrant at (r * h, c * h) |
| StrassenHybrid.SplitSquare | src/strassen_hybrid.cpp:12-41 | for square operands of side m, rank 0's eight quadrants are the block quadrants of A and of B |
| StrassenHybrid.SplitOfWindows | src/strassen_hybrid.cpp:12-41 | for even m, rank 0 splits the m x m windows it reads: A's first m * m entries, and B read with row stride n |
| StrassenHybrid.Outbox | src/strassen_hybrid.cpp:46-72 | every message rank 0 sends to a rank carries the quadrant its tag names, so a receive naming any tag sent to that rank finds that quadrant |
| StrassenHybrid.TakeNamed | src/strassen_hybrid.cpp:85-87 | a receive by tag on correctly labelled messages matches iff a message with that tag is pending, and then returns the quadrant the tag names and leaves the rest labelled |
| StrassenHybrid.ReceivesAreNamed | src/strassen_hybrid.cpp:79-161 | in whatever order a worker's receives come, if all of them match they return the quadrants their tags name |
| StrassenHybrid.InOrderDelivery | src/strassen_hybrid.cpp:46-161 | receiving by tag from messages sent in the same tag order returns every payload |
| StrassenHybrid.RoutingDelivers | src/strassen_hybrid.cpp:46-161 | each of ranks 1..6 receives exactly the tags rank 0 sends it (three for ranks 1-4, four for 5 and 6) and gets the matching quadrants |
| StrassenHybrid.WorkerComputesItsProduct | src/strassen_hybrid.cpp:79-166 | rank r (1..6) computes Strassen product M(r + 1) from what it receives |
| StrassenHybrid.BranchesAgree | src/strassen_hybrid.cpp:171-225 | the seven-rank exchange and the branch meant for fewer ranks both yield the seven Strassen products |
| StrassenHybrid.AssembledIsProduct | src/strassen_hybrid.cpp:229-258 | for even square operands, recombining and placing Strassen's seven products of the split gives A * B |
| StrassenHybrid.HybridResult | src/strassen_hybrid.cpp:4-262 | ranks from min(size, 7) up return an empty vector; for an active rank the run is undefined exactly when rank 0's copy loop reads outside A or B, and otherwise aborts exactly when there are fewer than seven ranks; a returned active result has m * m entries |
| StrassenHybrid.HybridReadsWindows | src/strassen_hybrid.cpp:12-261 | for even m and seven or more ranks, rank 0 returns the m x m product of A's first m * m entries and B read with row stride n |
| StrassenHybrid.HybridCorrect | src/strassen_hybrid.cpp:4-262 | with seven or more ranks and even square operands, rank 0 returns A * B; the other active ranks return zeros; idle ranks return nothing |
| StrassenHybrid.HybridOddEdgeZero | src/strassen_hybrid.cpp:11-258 | for odd m, rank 0's result has m * m entries and its last row and column are 0 |
| StrassenHybrid.HybridShapeMismatch | src/strassen_hybrid.cpp:4-227 | for m != p, rank 0 returns m * m entries where A * B has m * p; the guarded version returns A * B |
| StrassenHybrid.HybridShapeExample | src/strassen_hybrid.cpp:227 | a 2 x 2 times a 2 x 3 matrix gives 4 entries where A * B has 6 |
| StrassenHybrid.HybridStrideExample | src/strassen_hybrid.cpp:27-40 | A 2 x 3 and B 3 x 2 with A(0, 2) = B(2, 0) = 1: rank 0 returns 0 at (0, 0), where A * B has 1 |
| StrassenHybrid.FewRanksAbort | src/strassen_hybrid.cpp:46-72 | with fewer than seven ranks every active rank's run aborts; the guarded version's rank 0 returns A * B |
| StrassenHybrid.GuardedHybridResult | src/strassen_hybrid.cpp:4-262 | the corrected version: every rank returns; idle ranks an empty vector, the other active ranks zeros of the product's shape |
| StrassenHybrid.GuardedHybridCorrect | src/strassen_hybrid.cpp:4-262 | the corrected version's rank 0 returns A * B for every shape and any number of ranks |
| Associativity.ProductAssociative | tests/test_cases.h:82-99 | on flat buffers, (A * B) * C == A * (B * C) for every chain of shapes |
| Associativity.Associative | tests/test_cases.h:82-99 | (A * B) * C == A * (B * C) for matrices whose shapes chain |
| TestCases.TwoByTwo | tests/test_cases.h:22-39 | [[1, 2], [3, 4]] * [[5, 6], [7, 8]] == [[19, 22], [43, 50]] |
| TestCases.NonSquare | tests/test_cases.h:61-80 | the 2x3 by 3x2 product is [[58, 64], [139, 154]] |
| TestCases.OuterProduct | tests/test_serial.cpp:12-25 | the exact product of the column [1, 2] and the row [1, 2, 3] is [1, 2, 3, 2, 4, 6], the value the test expects of `multiply` (which equals the exact product by Tiled.Multiply) |
| TestCases.ZeroOperand | tests/test_serial.cpp:27-34 | the exact product of a 3x2 matrix of 1..6 and the 2x4 zero buffer is the 3x4 zero buffer, as the test expects of `multiply` |
| TestCases.RightIdentity | tests/test_serial.cpp:36-46 | the exact product of the 3x3 matrix of 1..9 and the identity is the matrix itself, as the test expects of `multiply` |
| TestCases.StrassenOuterProduct | tests/test_strassen.cpp:5-18 | a non-square strassen call falls back and returns the outer product |

## Left out

- Floating point: elements are integers, so every equality is exact. The source's `double` rounding is not modelled, and neither is the tolerance its tests allow.
- Matrices.Equals: the tolerance is a real and the differences are exact integers. The default tolerance is `Matrices.DefaultTolerance`, 1e-9 (include/matrix.h:227).
- MPI and OpenMP: the ranks are a parameter and the messages are a list of tagged payloads. Scatterv, Bcast, Allgatherv, Send and Recv are modelled by their effect on buffers. Timing, blocking and deadlock are not modelled, and neither is the OpenMP thread split, which does not change any result.
- SIMD: a vector of `simd_size` lanes is modelled as `width` lane-wise operations. The vector width is a parameter.
- The flat `strassen`'s `THRESHOLD` is a compile-time constant. It is a parameter here, and the proofs hold for every positive value.
- The length_error message is the wording of GNU libstdc++'s `std::vector`. The C++ standard leaves the text to the library.
- Integer overflow of `int`: sizes such as `rows * cols` are unbounded here. `nextPowerOf2` is modelled for all n, whereas the source would overflow above 2^30.
- `initRandom`, `print`, `operator<<`, `relativeError` and the timing code: randomness, output and floating-point error are outside the model.
- The copy and move constructors and assignments: values are immutable here, so they are identities.
- `Matrix operator*(double, const Matrix&)` (src/matrix.cpp:367-370) returns `m * scalar`, so `Matrices.Scale` covers it.
- The `size < 7` branch of `strassen_hybrid` (src/strassen_hybrid.cpp:188-225) cannot be reached as written, because rank 0 has already sent to a missing rank by then. It is modelled as the pure function `StrassenHybrid.Sequential`, which `StrassenHybrid.BranchesAgree` relates to the seven-rank branch and `StrassenHybrid.GuardedHybridResult` uses.
- The abort with fewer than seven ranks is the outcome `Aborted`. It rests on the MPI standard, version 3.1: section 3.2.3 restricts `dest` to the ranks of the communicator, and by section 8.3 the default handler of MPI_COMM_WORLD, MPI_ERRORS_ARE_FATAL, aborts every process on an error. The source installs no other handler. An MPI build that skips argument checks may behave otherwise.
- StrassenHybrid.HybridResult: a read outside A or B by rank 0's copy loop is undefined behaviour in C++. The model returns `Undefined` for that run and says nothing more about it. Negative m, n or p are excluded by its requires, although the source does not check them.
- The four-argument `add`, `sub` and `multiply_omp` used by `strassen_hybrid` are taken to compute exact sums, differences and products. `multiply_omp` is not part of this model.
- StrassenHybrid.HybridCorrect: states A * B only for even square operands and seven or more ranks, because the source computes it only there. The other cases are stated by `StrassenHybrid.HybridOddEdgeZero` (odd m: src/strassen_hybrid.cpp:11 halves m by truncation), `StrassenHybrid.HybridReadsWindows` and `StrassenHybrid.HybridShapeMismatch` (other shapes), and `StrassenHybrid.FewRanksAbort` (fewer ranks).
- Tiled.Multiply: requires exact buffer lengths `|a| == m * n` and `|b| == n * p`. The source reads only those prefixes, and callers always pass buffers of exactly that size.
- StrassenMatrix.StrassenWith, StrassenMatrix.MultiplyStrassen and StrassenMatrix.MultiplyStrassenCommonPad: their ensures give the shape error and the shape of a success, not its value. `StrassenMatrix.StrassenCorrect`, `StrassenMatrix.StrassenAgreesWhenPadsMatch` and `StrassenMatrix.CommonPadCorrect` fix the value wherever the pads agree or the padding is common. `StrassenMatrix.StrassenPadMismatch` states that compatible operands whose pads differ always fail.
- Which definition of `multiplyNaive` a `multiplyStrassen` calls depends on which files are linked together, which the sources do not fix. The model uses one message style for both.
- `multiply_mpi`, `strassen_mpi`, `strassen_omp`, `multiply_openmp` and `openmp.cpp` are other parallel drivers outside the modelled core. They are not part of this model.

## Findings

| source | as written | input that shows it | evidently intended | confidence | as-written member | corrected member |
|---|---|---|---|---|---|---|
| src/multiply_strassen_sequential.cpp:10-18 | A and B are each padded to the next power of two of their own larger dimension, and the base case multiplies the two padded matrices | A = 1x1 [2], B = 1x2 [3, 4]: A pads to 1x1 and B to 2x2, so `multiplyNaive` throws although A * B = [6, 8] | pad both operands to one common power of two covering A.rows, A.cols and B.cols | high, not executed | StrassenMatrix.StrassenMismatchExample | StrassenMatrix.CommonPadCorrect |
| src/strassen.cpp:9 | `h = m / 2` truncates, so for odd m above the threshold the last row and column of the result are never written and stay 0 | the 3x3 identity squared with THRESHOLD = 1 gives entry (2, 2) = 0 instead of 1 | send odd sides to the blocked kernel as well (or pad them) | high, not executed | StrassenFlat.StrassenOddCounterexample | StrassenFlat.GuardedStrassenCorrect |
| src/strassen_hybrid.cpp:27-40 | `strassen_hybrid` takes m, n and p unchecked. Rank 0 reads A with row stride m and B with row stride n, and returns m * m entries, so it multiplies the m x m windows it reads | A 2 x 3, B 3 x 2, with only A(0, 2) = B(2, 0) = 1: entry (0, 0) is 0 instead of 1; and a 2 x 2 times a 2 x 3 matrix gives 4 entries instead of 6 | require square operands, or fall back to the exact product for other shapes | high, not executed | StrassenHybrid.HybridStrideExample | StrassenHybrid.GuardedHybridCorrect |
| src/strassen_hybrid.cpp:46-72 | rank 0 sends to ranks 1..6 whatever the world size, so the branch for fewer than seven ranks (src/strassen_hybrid.cpp:188-225) is never reached | any run on 1 to 6 ranks: rank 0's send to rank `size` fails and the job aborts | send to the workers only when size >= 7 | medium, not executed | StrassenHybrid.FewRanksAbort | StrassenHybrid.GuardedHybridCorrect |

The same pattern appears in src/multiply_strassen.cpp:40-54, which
`StrassenMatrix.StrassenPadMismatch` states for every mismatched pair. The
truncated halving also appears in `strassen_hybrid` (src/strassen_hybrid.cpp:11),
which `StrassenHybrid.HybridOddEdgeZero` records.
