/**
  strassen_hybrid: one level of Strassen's algorithm spread over at most
  seven ranks. Rank 0 splits A and B into quadrants and sends each of ranks
  1..6 the quadrants its product needs, tagged by name; rank r computes
  M(r + 1); with seven or more ranks rank 0 collects M2..M7 in rank order.
  Rank 0 then recombines and assembles C; the other active ranks return a
  zeroed m x m vector, and ranks from min(size, 7) on return an empty one.

  The source takes m, n and p unchecked: rank 0 reads A with row stride m
  and B with row stride n and returns m x m entries, so its result is A * B
  only for square operands of even side. It also sends to ranks 1..6
  whatever the world size, so with fewer than seven ranks the job aborts
  before the branch meant for that case. `GuardedHybridResult` is the
  version with both checks in place.

  Message passing is modelled as a static table: the tags rank 0 sends to
  each rank, in order, and the tags that rank receives, in order, with a
  receive taking the earliest pending message that carries its tag. The
  4-argument add/sub and multiply_omp are taken to compute the exact sum,
  difference and product.
 */
module StrassenHybrid {
  import opened Layout
  import opened LinAlg
  import opened StrassenAlgebra
  import opened StrassenFlat

  /** TAG_A11 .. TAG_B22: the message tags naming the eight quadrants. */
  datatype Tag = TagA11 | TagA12 | TagA21 | TagA22 | TagB11 | TagB12 | TagB21 | TagB22

  /** Rank 0's eight h x h quadrants of A and B. */
  datatype Quadrants = Quadrants(a11: seq<int>, a12: seq<int>, a21: seq<int>, a22: seq<int>,
                                 b11: seq<int>, b12: seq<int>, b21: seq<int>, b22: seq<int>)
  {
    predicate OfSide(h: int) {
      && |a11| == h * h && |a12| == h * h && |a21| == h * h && |a22| == h * h
      && |b11| == h * h && |b12| == h * h && |b21| == h * h && |b22| == h * h
    }
  }

  /** The buffer a tag names. */
  function Payload(q: Quadrants, t: Tag): seq<int> {
    match t
    case TagA11 => q.a11
    case TagA12 => q.a12
    case TagA21 => q.a21
    case TagA22 => q.a22
    case TagB11 => q.b11
    case TagB12 => q.b12
    case TagB21 => q.b21
    case TagB22 => q.b22
  }

  /** The seven products, M1..M7. */
  datatype Products = Products(m1: seq<int>, m2: seq<int>, m3: seq<int>, m4: seq<int>,
                               m5: seq<int>, m6: seq<int>, m7: seq<int>)

  /**
    Rank 0's copy loop reads a buffer of row stride `stride` no further than
    index (2h - 1) * stride + 2h - 1, which must lie inside it.
   */
  predicate Fits(s: seq<int>, stride: int, h: int) {
    h == 0 || (2 * h - 1) * stride + 2 * h - 1 < |s|
  }

  /** Every element rank 0 copies lies inside A (row stride m) and B (row stride n), for h = m / 2. */
  predicate SplitInRange(A: seq<int>, B: seq<int>, m: int, n: int) {
    Fits(A, m, m / 2) && Fits(B, n, m / 2)
  }

  /** The index rank 0 reads for entry x of quadrant (r, c). */
  function Source(stride: int, h: int, r: int, c: int, x: int): (k: int)
    requires 0 <= h && 0 <= stride && 0 <= r <= 1 && 0 <= c <= 1 && 0 <= x < h * h
    ensures 0 <= k <= (2 * h - 1) * stride + 2 * h - 1
  {
    IndexSplit(x, h, h);
    MulMonotone(0, r * h + x / h, stride);
    MulMonotone(r * h + x / h, 2 * h - 1, stride);
    (r * h + x / h) * stride + c * h + x % h
  }

  /** Quadrant (r, c) as rank 0 copies it, entry by entry. */
  function Quadrant(s: seq<int>, stride: int, h: int, r: int, c: int): (q: seq<int>)
    requires 0 <= h && 0 <= stride && Fits(s, stride, h) && 0 <= r <= 1 && 0 <= c <= 1
    ensures |q| == h * h
  {
    seq(h * h, x requires 0 <= x < h * h => s[Source(stride, h, r, c, x)])
  }

  /** Entry (i, j) of quadrant (r, c) is s[(r * h + i) * stride + c * h + j]: row r * h + i, column c * h + j. */
  lemma QuadrantEntry(s: seq<int>, stride: int, h: int, r: int, c: int, i: int, j: int)
    requires 0 <= stride && Fits(s, stride, h) && 0 <= r <= 1 && 0 <= c <= 1 && 0 <= i < h && 0 <= j < h
    ensures 0 <= (r * h + i) * stride + c * h + j < |s|
    ensures Elem(Quadrant(s, stride, h, r, c), h, h, i, j) == s[(r * h + i) * stride + c * h + j]
  {
    IndexBound(i, j, h, h);
    IndexInverse(i, j, h);
    assert Source(stride, h, r, c, i * h + j) == (r * h + i) * stride + c * h + j;
  }

  /** A square buffer of side m holds every element its top-left 2h x 2h corner's quadrants read. */
  lemma SquareFits(s: seq<int>, m: int, h: int)
    requires 0 <= h && 2 * h <= m && |s| == m * m
    ensures Fits(s, m, h)
  {
    if h > 0 {
      MulMonotone(2 * h - 1, m - 1, m);
      assert (m - 1) * m == m * m - m;
    }
  }

  /** On a square buffer, reading with the buffer's own row stride gives the block quadrant. */
  lemma QuadrantOfSquare(s: seq<int>, m: int, h: int, r: int, c: int)
    requires 0 <= h && 2 * h <= m && |s| == m * m && 0 <= r <= 1 && 0 <= c <= 1
    ensures Fits(s, m, h)
    ensures Quadrant(s, m, h, r, c) == Corner(s, m, h, r, c)
  {
    SquareFits(s, m, h);
    var q, k := Quadrant(s, m, h, r, c), Corner(s, m, h, r, c);
    forall i, j | 0 <= i < h && 0 <= j < h
      ensures Elem(q, h, h, i, j) == Elem(k, h, h, i, j)
    {
      QuadrantEntry(s, m, h, r, c, i, j);
      ElemAt(s, m, m, r * h + i, c * h + j);
    }
    EqualByEntries(q, k, h, h);
  }

  /** Entry (i, j) of a rows x cols buffer is s[i * cols + j]. */
  lemma ElemAt(s: seq<int>, rows: int, cols: int, i: int, j: int)
    requires rows * cols <= |s| && 0 <= i < rows && 0 <= j < cols
    ensures 0 <= i * cols + j < |s|
    ensures Elem(s, rows, cols, i, j) == s[i * cols + j]
  {
    IndexBound(i, j, rows, cols);
  }

  /** The quadrants rank 0 extracts: A with row stride m, B with row stride n. */
  function StridedSplit(A: seq<int>, B: seq<int>, m: int, n: int, h: int): (q: Quadrants)
    requires 0 <= h && 0 <= m && 0 <= n && Fits(A, m, h) && Fits(B, n, h)
    ensures q.OfSide(h)
  {
    Quadrants(Quadrant(A, m, h, 0, 0), Quadrant(A, m, h, 0, 1), Quadrant(A, m, h, 1, 0), Quadrant(A, m, h, 1, 1),
              Quadrant(B, n, h, 0, 0), Quadrant(B, n, h, 0, 1), Quadrant(B, n, h, 1, 0), Quadrant(B, n, h, 1, 1))
  }

  /** For square operands of side m, the split is the four block quadrants of A and of B. */
  lemma SplitSquare(A: seq<int>, B: seq<int>, m: int, h: int)
    requires 0 <= h && 2 * h <= m && |A| == m * m && |B| == m * m
    ensures Fits(A, m, h) && Fits(B, m, h)
    ensures StridedSplit(A, B, m, m, h)
            == Quadrants(Corner(A, m, h, 0, 0), Corner(A, m, h, 0, 1), Corner(A, m, h, 1, 0), Corner(A, m, h, 1, 1),
                         Corner(B, m, h, 0, 0), Corner(B, m, h, 0, 1), Corner(B, m, h, 1, 0), Corner(B, m, h, 1, 1))
  {
    QuadrantOfSquare(A, m, h, 0, 0);
    QuadrantOfSquare(A, m, h, 0, 1);
    QuadrantOfSquare(A, m, h, 1, 0);
    QuadrantOfSquare(A, m, h, 1, 1);
    QuadrantOfSquare(B, m, h, 0, 0);
    QuadrantOfSquare(B, m, h, 0, 1);
    QuadrantOfSquare(B, m, h, 1, 0);
    QuadrantOfSquare(B, m, h, 1, 1);
  }

  /** The index of entry x of an m x m window read with row stride `stride`. */
  function WindowIndex(stride: int, m: int, x: int): (k: int)
    requires 0 <= m && 0 <= stride && 0 <= x < m * m
    ensures 0 <= k <= (m - 1) * stride + m - 1
  {
    IndexSplit(x, m, m);
    MulMonotone(0, x / m, stride);
    MulMonotone(x / m, m - 1, stride);
    (x / m) * stride + x % m
  }

  /** The m x m matrix a reader sees who takes s[i * stride + j] as entry (i, j). */
  function Window(s: seq<int>, stride: int, m: int): (w: seq<int>)
    requires 0 <= m && 0 <= stride && (m == 0 || (m - 1) * stride + m - 1 < |s|)
    ensures |w| == m * m
  {
    seq(m * m, x requires 0 <= x < m * m => s[WindowIndex(stride, m, x)])
  }

  lemma WindowEntry(s: seq<int>, stride: int, m: int, i: int, j: int)
    requires 0 <= stride && (m - 1) * stride + m - 1 < |s| && 0 <= i < m && 0 <= j < m
    ensures 0 <= i * stride + j < |s|
    ensures Elem(Window(s, stride, m), m, m, i, j) == s[i * stride + j]
  {
    IndexBound(i, j, m, m);
    IndexInverse(i, j, m);
    assert WindowIndex(stride, m, i * m + j) == i * stride + j;
  }

  /** Quadrant (r, c) read with row stride `stride` is quadrant (r, c) of the 2h x 2h window of that stride. */
  lemma QuadrantOfWindow(s: seq<int>, stride: int, h: int, r: int, c: int)
    requires 0 < h && 0 <= stride && Fits(s, stride, h) && 0 <= r <= 1 && 0 <= c <= 1
    ensures Fits(Window(s, stride, 2 * h), 2 * h, h)
    ensures Quadrant(s, stride, h, r, c) == Quadrant(Window(s, stride, 2 * h), 2 * h, h, r, c)
  {
    var w := Window(s, stride, 2 * h);
    SquareFits(w, 2 * h, h);
    var q, q' := Quadrant(s, stride, h, r, c), Quadrant(w, 2 * h, h, r, c);
    forall i, j | 0 <= i < h && 0 <= j < h
      ensures Elem(q, h, h, i, j) == Elem(q', h, h, i, j)
    {
      QuadrantEntry(s, stride, h, r, c, i, j);
      QuadrantEntry(w, 2 * h, h, r, c, i, j);
      WindowEntry(s, stride, 2 * h, r * h + i, c * h + j);
      ElemAt(w, 2 * h, 2 * h, r * h + i, c * h + j);
    }
    EqualByEntries(q, q', h, h);
  }

  /** For even m, rank 0's split of A and B is the split of the m x m windows it reads: A with stride m, B with stride n. */
  lemma SplitOfWindows(A: seq<int>, B: seq<int>, m: int, n: int)
    requires 0 < m && m % 2 == 0 && 0 <= n && SplitInRange(A, B, m, n)
    ensures Fits(Window(A, m, m), m, m / 2) && Fits(Window(B, n, m), m, m / 2)
    ensures StridedSplit(A, B, m, n, m / 2) == StridedSplit(Window(A, m, m), Window(B, n, m), m, m, m / 2)
  {
    var h := m / 2;
    QuadrantOfWindow(A, m, h, 0, 0);
    QuadrantOfWindow(A, m, h, 0, 1);
    QuadrantOfWindow(A, m, h, 1, 0);
    QuadrantOfWindow(A, m, h, 1, 1);
    QuadrantOfWindow(B, n, h, 0, 0);
    QuadrantOfWindow(B, n, h, 0, 1);
    QuadrantOfWindow(B, n, h, 1, 0);
    QuadrantOfWindow(B, n, h, 1, 1);
  }

  /** The tags of the buffers rank 0 sends to `dest`, in the order of its sends. */
  function SendSchedule(dest: int): seq<Tag> {
    if dest == 1 then [TagA21, TagA22, TagB11]
    else if dest == 2 then [TagA11, TagB12, TagB22]
    else if dest == 3 then [TagA22, TagB21, TagB11]
    else if dest == 4 then [TagA11, TagA12, TagB22]
    else if dest == 5 then [TagA21, TagA11, TagB11, TagB12]
    else if dest == 6 then [TagA12, TagA22, TagB21, TagB22]
    else []
  }

  /** The tags rank `rank` receives from rank 0, in the order of its receives. */
  function ReceiveSchedule(rank: int): seq<Tag> {
    if rank == 1 then [TagA21, TagA22, TagB11]
    else if rank == 2 then [TagA11, TagB12, TagB22]
    else if rank == 3 then [TagA22, TagB21, TagB11]
    else if rank == 4 then [TagA11, TagA12, TagB22]
    else if rank == 5 then [TagA21, TagA11, TagB11, TagB12]
    else if rank == 6 then [TagA12, TagA22, TagB21, TagB22]
    else []
  }

  datatype Message = Message(tag: Tag, payload: seq<int>)

  datatype Option<T> = None | Some(value: T)

  /** A receive with tag t: the earliest pending message carrying t, and the messages still pending after it. */
  function Take(ms: seq<Message>, t: Tag): Option<(seq<int>, seq<Message>)>
    decreases |ms|
  {
    if |ms| == 0 then None
    else if ms[0].tag == t then Some((ms[0].payload, ms[1..]))
    else match Take(ms[1..], t)
      case None => None
      case Some((x, rest)) => Some((x, [ms[0]] + rest))
  }

  /** Every pending message carries the buffer its tag names. */
  predicate Labelled(q: Quadrants, ms: seq<Message>) {
    forall i :: 0 <= i < |ms| ==> ms[i].payload == Payload(q, ms[i].tag)
  }

  /**
    A receive on labelled messages matches iff some message carries its tag;
    it then returns the buffer the tag names and leaves one message fewer,
    still labelled.
   */
  lemma {:induction false} TakeNamed(q: Quadrants, ms: seq<Message>, t: Tag)
    requires Labelled(q, ms)
    ensures Take(ms, t).Some? <==> exists i :: 0 <= i < |ms| && ms[i].tag == t
    ensures Take(ms, t).Some? ==> && Take(ms, t).value.0 == Payload(q, t)
                                  && |Take(ms, t).value.1| == |ms| - 1
                                  && Labelled(q, Take(ms, t).value.1)
    decreases |ms|
  {
    if |ms| > 0 {
      if ms[0].tag == t {
        assert ms[0].tag == t;
      } else {
        var tail := ms[1..];
        assert forall i :: 0 <= i < |tail| ==> tail[i] == ms[i + 1];
        TakeNamed(q, tail, t);
        if exists i :: 0 <= i < |ms| && ms[i].tag == t {
          var i :| 0 <= i < |ms| && ms[i].tag == t;
          assert tail[i - 1].tag == t;
        }
        if Take(tail, t).Some? {
          var rest := Take(tail, t).value.1;
          assert Take(ms, t).value.1 == [ms[0]] + rest;
        }
      }
    }
  }

  /** Whatever order they come in, receives on labelled messages that all match return the buffers their tags name. */
  lemma {:induction false} ReceivesAreNamed(q: Quadrants, ms: seq<Message>, tags: seq<Tag>)
    requires Labelled(q, ms)
    ensures ReceiveAll(ms, tags).Some? ==> ReceiveAll(ms, tags).value == Payloads(q, tags)
    decreases |tags|
  {
    if |tags| > 0 {
      TakeNamed(q, ms, tags[0]);
      if Take(ms, tags[0]).Some? {
        ReceivesAreNamed(q, Take(ms, tags[0]).value.1, tags[1..]);
        assert Payloads(q, tags) == [Payload(q, tags[0])] + Payloads(q, tags[1..]);
      }
    }
  }

  /**
    The messages rank 0 sends to `dest`, in order. They are labelled, and a
    receive naming any tag rank 0 sends there finds a message, carrying the
    quadrant that tag names.
   */
  function Outbox(q: Quadrants, dest: int): (ms: seq<Message>)
    ensures |ms| == |SendSchedule(dest)| && Labelled(q, ms)
    ensures forall t :: t in SendSchedule(dest) ==> Take(ms, t).Some? && Take(ms, t).value.0 == Payload(q, t)
  {
    var sent := SendSchedule(dest);
    var ms := seq(|sent|, i requires 0 <= i < |sent| => Message(sent[i], Payload(q, sent[i])));
    EachSentTagMatches(q, ms, sent);
    ms
  }

  /** On labelled messages whose tags are `sent`, a receive naming any tag of `sent` finds the buffer it names. */
  lemma EachSentTagMatches(q: Quadrants, ms: seq<Message>, sent: seq<Tag>)
    requires |ms| == |sent| && Labelled(q, ms) && forall i :: 0 <= i < |ms| ==> ms[i].tag == sent[i]
    ensures forall t :: t in sent ==> Take(ms, t).Some? && Take(ms, t).value.0 == Payload(q, t)
  {
    forall t | t in sent
      ensures Take(ms, t).Some? && Take(ms, t).value.0 == Payload(q, t)
    {
      var i :| 0 <= i < |sent| && sent[i] == t;
      assert ms[i].tag == t;
      TakeNamed(q, ms, t);
    }
  }

  /** A sequence of receives, in order; None when one of them has no message to match. */
  function ReceiveAll(ms: seq<Message>, tags: seq<Tag>): Option<seq<seq<int>>>
    decreases |tags|
  {
    if |tags| == 0 then Some([])
    else match Take(ms, tags[0])
      case None => None
      case Some((x, rest)) =>
        match ReceiveAll(rest, tags[1..])
        case None => None
        case Some(xs) => Some([x] + xs)
  }

  /** The buffers the named tags stand for. */
  function Payloads(q: Quadrants, tags: seq<Tag>): (xs: seq<seq<int>>)
    ensures |xs| == |tags| && forall i :: 0 <= i < |tags| ==> xs[i] == Payload(q, tags[i])
  {
    seq(|tags|, i requires 0 <= i < |tags| => Payload(q, tags[i]))
  }

  /** When the receives name the tags in the order they were sent, each receives the buffer sent under its tag. */
  lemma {:induction false} InOrderDelivery(q: Quadrants, sent: seq<Tag>)
    ensures ReceiveAll(seq(|sent|, i requires 0 <= i < |sent| => Message(sent[i], Payload(q, sent[i]))), sent)
            == Some(Payloads(q, sent))
    decreases |sent|
  {
    var ms := seq(|sent|, i requires 0 <= i < |sent| => Message(sent[i], Payload(q, sent[i])));
    if |sent| > 0 {
      var tail := sent[1..];
      assert ms[1..] == seq(|tail|, i requires 0 <= i < |tail| => Message(tail[i], Payload(q, tail[i])));
      InOrderDelivery(q, tail);
      assert Payloads(q, sent) == [Payload(q, sent[0])] + Payloads(q, tail);
    }
  }

  /**
    Every worker rank receives exactly the quadrants rank 0 sends it, named
    by their tags: ranks 1..4 receive three buffers and ranks 5 and 6 four.
   */
  lemma RoutingDelivers(q: Quadrants, rank: int)
    requires 1 <= rank <= 6
    ensures SendSchedule(rank) == ReceiveSchedule(rank)
    ensures |ReceiveSchedule(rank)| == if rank <= 4 then 3 else 4
    ensures ReceiveAll(Outbox(q, rank), ReceiveSchedule(rank)) == Some(Payloads(q, ReceiveSchedule(rank)))
  {
    var sent := SendSchedule(rank);
    assert Outbox(q, rank) == seq(|sent|, i requires 0 <= i < |sent| => Message(sent[i], Payload(q, sent[i])));
    InOrderDelivery(q, sent);
  }

  /** What worker rank `rank` multiplies, from the buffers it received in order. */
  function WorkerProduct(rank: int, d: seq<seq<int>>, h: int): (M: seq<int>)
    requires 1 <= rank <= 6 && 0 <= h
    requires |d| == |ReceiveSchedule(rank)| && forall i :: 0 <= i < |d| ==> |d[i]| == h * h
    ensures |M| == h * h
  {
    if rank == 1 then Mul(Plus(d[0], d[1]), d[2], h)
    else if rank == 2 then Mul(d[0], Minus(d[1], d[2]), h)
    else if rank == 3 then Mul(d[0], Minus(d[1], d[2]), h)
    else if rank == 4 then Mul(Plus(d[0], d[1]), d[2], h)
    else if rank == 5 then Mul(Minus(d[0], d[1]), Plus(d[2], d[3]), h)
    else Mul(Minus(d[0], d[1]), Plus(d[2], d[3]), h)
  }

  /** Strassen's seven products of rank 0's quadrants. */
  function Canonical(q: Quadrants, h: int): (P: Products)
    requires 0 <= h && q.OfSide(h)
  {
    Products(Mul(Plus(q.a11, q.a22), Plus(q.b11, q.b22), h),
             Mul(Plus(q.a21, q.a22), q.b11, h),
             Mul(q.a11, Minus(q.b12, q.b22), h),
             Mul(q.a22, Minus(q.b21, q.b11), h),
             Mul(Plus(q.a11, q.a12), q.b22, h),
             Mul(Minus(q.a21, q.a11), Plus(q.b11, q.b12), h),
             Mul(Minus(q.a12, q.a22), Plus(q.b21, q.b22), h))
  }

  /** M(k), k in 1..7, of a set of products. */
  function Nth(P: Products, k: int): seq<int> {
    if k == 1 then P.m1 else if k == 2 then P.m2 else if k == 3 then P.m3 else if k == 4 then P.m4
    else if k == 5 then P.m5 else if k == 6 then P.m6 else P.m7
  }

  /** The product rank r (1..6) sends back: its formula applied to the buffers its receives return. */
  function WorkerResult(q: Quadrants, h: int, rank: int): (M: seq<int>)
    requires 0 <= h && q.OfSide(h) && 1 <= rank <= 6
    ensures |M| == h * h
  {
    RoutingDelivers(q, rank);
    WorkerProduct(rank, ReceiveAll(Outbox(q, rank), ReceiveSchedule(rank)).value, h)
  }

  /** Rank r computes exactly M(r + 1), from the quadrants it was sent. */
  lemma WorkerComputesItsProduct(q: Quadrants, h: int, rank: int)
    requires 0 <= h && q.OfSide(h) && 1 <= rank <= 6
    ensures WorkerResult(q, h, rank) == Nth(Canonical(q, h), rank + 1)
  {
    RoutingDelivers(q, rank);
    var d := Payloads(q, ReceiveSchedule(rank));
    if rank == 1 {
      assert d[0] == q.a21 && d[1] == q.a22 && d[2] == q.b11;
    } else if rank == 2 {
      assert d[0] == q.a11 && d[1] == q.b12 && d[2] == q.b22;
    } else if rank == 3 {
      assert d[0] == q.a22 && d[1] == q.b21 && d[2] == q.b11;
    } else if rank == 4 {
      assert d[0] == q.a11 && d[1] == q.a12 && d[2] == q.b22;
    } else if rank == 5 {
      assert d[0] == q.a21 && d[1] == q.a11 && d[2] == q.b11 && d[3] == q.b12;
    } else {
      assert d[0] == q.a12 && d[1] == q.a22 && d[2] == q.b21 && d[3] == q.b22;
    }
  }

  /** With seven or more ranks: rank 0's own M1, then the results of ranks 1..6, received in rank order. */
  function Exchanged(q: Quadrants, h: int): Products
    requires 0 <= h && q.OfSide(h)
  {
    Products(Mul(Plus(q.a11, q.a22), Plus(q.b11, q.b22), h),
             WorkerResult(q, h, 1), WorkerResult(q, h, 2), WorkerResult(q, h, 3),
             WorkerResult(q, h, 4), WorkerResult(q, h, 5), WorkerResult(q, h, 6))
  }

  /** The branch for fewer than seven ranks: rank 0 evaluates the seven products itself, reusing op1 and op2. */
  function Sequential(q: Quadrants, h: int): Products
    requires 0 <= h && q.OfSide(h)
  {
    var op1 := Plus(q.a11, q.a22);
    var op2 := Plus(q.b11, q.b22);
    var M1 := Mul(op1, op2, h);
    var op1 := Plus(q.a21, q.a22);
    var M2 := Mul(op1, q.b11, h);
    var op2 := Minus(q.b12, q.b22);
    var M3 := Mul(q.a11, op2, h);
    var op2 := Minus(q.b21, q.b11);
    var M4 := Mul(q.a22, op2, h);
    var op1 := Plus(q.a11, q.a12);
    var M5 := Mul(op1, q.b22, h);
    var op1 := Minus(q.a21, q.a11);
    var op2 := Plus(q.b11, q.b12);
    var M6 := Mul(op1, op2, h);
    var op1 := Minus(q.a12, q.a22);
    var op2 := Plus(q.b21, q.b22);
    var M7 := Mul(op1, op2, h);
    Products(M1, M2, M3, M4, M5, M6, M7)
  }

  /** The distributed and the single-rank branch hand rank 0 the same seven products, Strassen's. */
  lemma BranchesAgree(q: Quadrants, h: int)
    requires 0 <= h && q.OfSide(h)
    ensures Exchanged(q, h) == Canonical(q, h)
    ensures Sequential(q, h) == Canonical(q, h)
  {
    WorkerComputesItsProduct(q, h, 1);
    WorkerComputesItsProduct(q, h, 2);
    WorkerComputesItsProduct(q, h, 3);
    WorkerComputesItsProduct(q, h, 4);
    WorkerComputesItsProduct(q, h, 5);
    WorkerComputesItsProduct(q, h, 6);
  }

  /** The seven products rank 0 combines, for a world of `size` ranks. */
  function Collected(q: Quadrants, h: int, size: int): Products
    requires 0 <= h && q.OfSide(h)
  {
    if size >= 7 then Exchanged(q, h) else Sequential(q, h)
  }

  /** Rank 0's result: the recombined products placed into a zeroed m x m vector. */
  function Assembled0(m: int, h: int, P: Products): (C: seq<int>)
    requires 0 <= h && 2 * h <= m
    requires |P.m1| == |P.m2| == |P.m3| == |P.m4| == |P.m5| == |P.m6| == |P.m7| == h * h
    ensures |C| == m * m
  {
    Place(m, h, Combine11(P.m1, P.m4, P.m5, P.m7), Plus(P.m3, P.m5), Plus(P.m2, P.m4), Combine22(P.m1, P.m2, P.m3, P.m6))
  }

  /** For even square operands, recombining Strassen's products of the split gives A * B. */
  lemma AssembledIsProduct(A: seq<int>, B: seq<int>, m: int)
    requires 0 <= m && m % 2 == 0 && |A| == m * m && |B| == m * m
    ensures SplitInRange(A, B, m, m)
    ensures Assembled0(m, m / 2, Canonical(StridedSplit(A, B, m, m, m / 2), m / 2)) == ProductSpec(A, B, m, m, m)
  {
    var h := m / 2;
    SplitSquare(A, B, m, h);
    var P := Canonical(StridedSplit(A, B, m, m, h), h);
    if h == 0 {
      assert Assembled0(m, h, P) == [] == ProductSpec(A, B, m, m, m);
    } else {
      assert SevenProducts(A, B, h, P.m1, P.m2, P.m3, P.m4, P.m5, P.m6, P.m7);
      PlaceAssembled(h, P.m1, P.m2, P.m3, P.m4, P.m5, P.m6, P.m7);
      StrassenStep(A, B, h, P.m1, P.m2, P.m3, P.m4, P.m5, P.m6, P.m7, Assembled0(m, h, P));
    }
  }

  /**
    How a run ends for one rank: it returns a vector, the job is aborted,
    or rank 0 has read outside A or B and the behaviour is undefined.
   */
  datatype Outcome = Returned(C: seq<int>) | Aborted | Undefined

  /**
    strassen_hybrid on rank `rank` of `size`, for A of m x n and B of n x p
    entries, which the source takes unchecked. Idle ranks return an empty
    vector before anything else. Rank 0's copy loop reads A with row stride
    m and B with row stride n; a read outside either is undefined. Rank 0
    then sends to ranks 1..6 whatever the world size, so with fewer than
    seven ranks it addresses a rank that does not exist, and the default
    error handler of MPI_COMM_WORLD aborts the job. Otherwise the other
    active ranks return a zeroed m x m vector and rank 0 the assembled one.
   */
  function HybridResult(A: seq<int>, B: seq<int>, m: int, n: int, p: int, rank: int, size: int): (r: Outcome)
    requires 0 <= m && 0 <= n && 0 <= p && 0 <= rank < size
    requires |A| == m * n && |B| == n * p
    ensures rank >= Min(size, 7) ==> r == Returned([])
    ensures rank < Min(size, 7) ==> (r.Undefined? <==> !SplitInRange(A, B, m, n))
    ensures rank < Min(size, 7) && SplitInRange(A, B, m, n) ==> (r.Aborted? <==> size < 7)
    ensures r.Returned? && rank < Min(size, 7) ==> |r.C| == m * m
  {
    if rank >= Min(size, 7) then Returned([])
    else if !SplitInRange(A, B, m, n) then Undefined
    else if size < 7 then Aborted
    else if rank != 0 then Returned(Zeros(m * m))
    else
      var h := m / 2;
      Returned(Assembled0(m, h, Exchanged(StridedSplit(A, B, m, n, h), h)))
  }

  /**
    For even m with seven or more ranks, rank 0 returns the product of the
    m x m matrices it reads: A's first m * m entries taken as m x m, and
    B read with row stride n. It is A * B only when those are A and B.
   */
  lemma HybridReadsWindows(A: seq<int>, B: seq<int>, m: int, n: int, p: int, size: int)
    requires 0 <= m && m % 2 == 0 && 0 <= n && 0 <= p && 7 <= size && |A| == m * n && |B| == n * p
    requires SplitInRange(A, B, m, n)
    ensures m == 0 || (m - 1) * n + m - 1 < |B|
    ensures HybridResult(A, B, m, n, p, 0, size) == Returned(ProductSpec(Window(A, m, m), Window(B, n, m), m, m, m))
  {
    if m > 0 {
      var h := m / 2;
      var X, Y := Window(A, m, m), Window(B, n, m);
      var q := StridedSplit(A, B, m, n, h);
      assert HybridResult(A, B, m, n, p, 0, size) == Returned(Assembled0(m, h, Exchanged(q, h)));
      SplitOfWindows(A, B, m, n);
      assert q == StridedSplit(X, Y, m, m, h);
      BranchesAgree(q, h);
      AssembledIsProduct(X, Y, m);
    }
  }

  /**
    With seven or more ranks and even square operands, rank 0 returns the
    product A * B; every other active rank returns zeros, and idle ranks
    nothing.
   */
  lemma HybridCorrect(A: seq<int>, B: seq<int>, m: int, rank: int, size: int)
    requires 0 <= m && 0 <= rank < size && |A| == m * m && |B| == m * m
    ensures 7 <= size && rank == 0 && m % 2 == 0 ==> HybridResult(A, B, m, m, m, rank, size) == Returned(ProductSpec(A, B, m, m, m))
    ensures 7 <= size && 0 < rank < 7 ==> HybridResult(A, B, m, m, m, rank, size) == Returned(Zeros(m * m))
    ensures rank >= 7 ==> HybridResult(A, B, m, m, m, rank, size) == Returned([])
  {
    SplitSquare(A, B, m, m / 2);
    if 7 <= size && rank == 0 && m % 2 == 0 {
      var h := m / 2;
      BranchesAgree(StridedSplit(A, B, m, m, h), h);
      AssembledIsProduct(A, B, m);
    }
  }

  /** For odd m, the last row and column of rank 0's result are never written and stay zero. */
  lemma HybridOddEdgeZero(A: seq<int>, B: seq<int>, m: int, n: int, p: int, size: int)
    requires 0 < m && m % 2 == 1 && 0 <= n && 0 <= p && 7 <= size && |A| == m * n && |B| == n * p
    requires SplitInRange(A, B, m, n)
    ensures var r := HybridResult(A, B, m, n, p, 0, size);
            && r.Returned? && |r.C| == m * m
            && forall i, j :: 0 <= i < m && 0 <= j < m && (i == m - 1 || j == m - 1) ==> Elem(r.C, m, m, i, j) == 0
  {
  }

  /**
    strassen_hybrid with the checks its callers evidently rely on: rank 0
    multiplies directly unless the operands are square of even side, and
    sends to the workers only when all seven ranks exist, computing the
    seven products itself otherwise. The other active ranks return zeros
    of the result's shape.
   */
  function GuardedHybridResult(A: seq<int>, B: seq<int>, m: int, n: int, p: int, rank: int, size: int): (r: Outcome)
    requires 0 <= m && 0 <= n && 0 <= p && 0 <= rank < size
    requires |A| == m * n && |B| == n * p
    ensures r.Returned?
    ensures rank >= Min(size, 7) ==> r.C == []
    ensures 0 < rank < Min(size, 7) ==> r.C == Zeros(m * p)
  {
    if rank >= Min(size, 7) then Returned([])
    else if rank != 0 then Returned(Zeros(m * p))
    else if m != n || n != p || m % 2 == 1 then Returned(ProductSpec(A, B, m, n, p))
    else
      var h := m / 2;
      SplitSquare(A, B, m, h);
      Returned(Assembled0(m, h, Collected(StridedSplit(A, B, m, m, h), h, size)))
  }

  /** The guarded version's rank 0 returns A * B for every shape and every number of ranks. */
  lemma GuardedHybridCorrect(A: seq<int>, B: seq<int>, m: int, n: int, p: int, size: int)
    requires 0 <= m && 0 <= n && 0 <= p && 1 <= size && |A| == m * n && |B| == n * p
    ensures GuardedHybridResult(A, B, m, n, p, 0, size) == Returned(ProductSpec(A, B, m, n, p))
  {
    if m == n == p && m % 2 == 0 {
      var h := m / 2;
      SplitSquare(A, B, m, h);
      BranchesAgree(StridedSplit(A, B, m, m, h), h);
      AssembledIsProduct(A, B, m);
    }
  }

  /**
    When m differs from p, rank 0 of the source returns m x m entries where
    A * B has m x p, while the guarded version returns the product.
   */
  lemma HybridShapeMismatch(A: seq<int>, B: seq<int>, m: int, n: int, p: int, size: int)
    requires 0 < m && 0 <= n && 0 <= p && m != p && 7 <= size && |A| == m * n && |B| == n * p
    requires SplitInRange(A, B, m, n)
    ensures var r := HybridResult(A, B, m, n, p, 0, size);
            r.Returned? && |r.C| == m * m && |r.C| != |ProductSpec(A, B, m, n, p)|
    ensures GuardedHybridResult(A, B, m, n, p, 0, size) == Returned(ProductSpec(A, B, m, n, p))
  {
    GuardedHybridCorrect(A, B, m, n, p, size);
    SideProductsDiffer(m, p);
  }

  lemma SideProductsDiffer(m: int, p: int)
    requires 0 < m && 0 <= p && m != p
    ensures m * m != m * p
  {
    if p > m {
      MulMonotone(1, p - m, m);
      assert m * p - m * m == (p - m) * m;
    } else {
      MulMonotone(1, m - p, m);
      assert m * m - m * p == (m - p) * m;
    }
  }

  /** The smallest instance: a 2 x 2 times a 2 x 3 matrix gives 4 entries instead of 6. */
  lemma HybridShapeExample()
    ensures var r := HybridResult([1, 2, 3, 4], [1, 2, 3, 4, 5, 6], 2, 2, 3, 0, 7);
            r.Returned? && |r.C| == 4 && |ProductSpec([1, 2, 3, 4], [1, 2, 3, 4, 5, 6], 2, 2, 3)| == 6
  {
    HybridShapeMismatch([1, 2, 3, 4], [1, 2, 3, 4, 5, 6], 2, 2, 3, 7);
  }

  /**
    A 2 x 3 times a 3 x 2 matrix (m = p = 2, n = 3) whose only non-zero
    entries are A(0, 2) = B(2, 0) = 1: entry (0, 0) of A * B is 1, but rank
    0 reads A(0, 2) as its A21 and B with row stride 3, and returns 0 there.
   */
  lemma HybridStrideExample()
    ensures var r := HybridResult([0, 0, 1, 0, 0, 0], [0, 0, 0, 0, 1, 0], 2, 3, 2, 0, 7);
            && r.Returned? && |r.C| == 4 && Elem(r.C, 2, 2, 0, 0) == 0
            && Elem(ProductSpec([0, 0, 1, 0, 0, 0], [0, 0, 0, 0, 1, 0], 2, 3, 2), 2, 2, 0, 0) == 1
  {
    var A, B := [0, 0, 1, 0, 0, 0], [0, 0, 0, 0, 1, 0];
    HybridReadsWindows(A, B, 2, 3, 2, 7);
    StrideExampleWindows(A, B);
    StrideExampleProduct(A, B);
  }

  /** When A's first two entries are 0, so is entry (0, 0) of the product of the windows rank 0 reads. */
  lemma StrideExampleWindows(A: seq<int>, B: seq<int>)
    requires |A| == 6 && |B| == 6 && A[0] == 0 && A[1] == 0
    ensures Elem(ProductSpec(Window(A, 2, 2), Window(B, 3, 2), 2, 2, 2), 2, 2, 0, 0) == 0
  {
    var X, Y := Window(A, 2, 2), Window(B, 3, 2);
    WindowEntry(A, 2, 2, 0, 0);
    WindowEntry(A, 2, 2, 0, 1);
    assert Elem(X, 2, 2, 0, 0) == 0;
    assert Elem(X, 2, 2, 0, 1) == 0;
    TopLeftOfSquareProduct(X, Y);
  }

  /** Entry (0, 0) of a 2 x 2 product is a row-by-column sum of two terms. */
  lemma TopLeftOfSquareProduct(X: seq<int>, Y: seq<int>)
    requires |X| == 4 && |Y| == 4
    ensures Elem(ProductSpec(X, Y, 2, 2, 2), 2, 2, 0, 0) == Elem(X, 2, 2, 0, 0) * Elem(Y, 2, 2, 0, 0) + Elem(X, 2, 2, 0, 1) * Elem(Y, 2, 2, 1, 0)
  {
    assert Dot(X, Y, 2, 2, 2, 0, 0, 1) == Dot(X, Y, 2, 2, 2, 0, 0, 0) + Elem(X, 2, 2, 0, 0) * Elem(Y, 2, 2, 0, 0);
  }

  /** Entry (0, 0) of A * B in the example. */
  lemma StrideExampleProduct(A: seq<int>, B: seq<int>)
    requires A == [0, 0, 1, 0, 0, 0] && B == [0, 0, 0, 0, 1, 0]
    ensures Elem(ProductSpec(A, B, 2, 3, 2), 2, 2, 0, 0) == 1
  {
    ElemAt(A, 2, 3, 0, 0);
    ElemAt(A, 2, 3, 0, 1);
    ElemAt(A, 2, 3, 0, 2);
    ElemAt(B, 3, 2, 0, 0);
    ElemAt(B, 3, 2, 1, 0);
    ElemAt(B, 3, 2, 2, 0);
    assert Dot(A, B, 2, 3, 2, 0, 0, 1) == Dot(A, B, 2, 3, 2, 0, 0, 0) + Elem(A, 2, 3, 0, 0) * Elem(B, 3, 2, 0, 0);
    assert Dot(A, B, 2, 3, 2, 0, 0, 2) == Dot(A, B, 2, 3, 2, 0, 0, 1) + Elem(A, 2, 3, 0, 1) * Elem(B, 3, 2, 1, 0);
    assert Dot(A, B, 2, 3, 2, 0, 0, 3) == Dot(A, B, 2, 3, 2, 0, 0, 2) + Elem(A, 2, 3, 0, 2) * Elem(B, 3, 2, 2, 0);
  }

  /**
    With fewer than seven ranks every active rank's run is aborted, whatever
    the operands, while the guarded version's rank 0 returns A * B.
   */
  lemma FewRanksAbort(A: seq<int>, B: seq<int>, m: int, n: int, p: int, size: int)
    requires 0 <= m && 0 <= n && 0 <= p && 1 <= size < 7 && |A| == m * n && |B| == n * p
    requires SplitInRange(A, B, m, n)
    ensures forall rank :: 0 <= rank < size ==> HybridResult(A, B, m, n, p, rank, size) == Aborted
    ensures GuardedHybridResult(A, B, m, n, p, 0, size) == Returned(ProductSpec(A, B, m, n, p))
  {
    GuardedHybridCorrect(A, B, m, n, p, size);
  }
}
