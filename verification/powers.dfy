/**
  Powers of two, as used to pad operands for Strassen's algorithm:
  Matrix::isPowerOf2 (a bit trick) and Matrix::nextPowerOf2 (a doubling loop).
 */
module Powers {

  /** n is 2^k for some k >= 0. */
  predicate IsPow2(n: int)
    decreases if n > 0 then n else 0
  {
    n == 1 || (n > 1 && n % 2 == 0 && IsPow2(n / 2))
  }

  /**
    Bitwise AND of two non-negative integers, computed bit by bit from the
    least significant bit; this is `&` on non-negative two's-complement ints.
   */
  function BitAnd(x: nat, y: nat): nat
  {
    if x == 0 || y == 0 then 0
    else 2 * BitAnd(x / 2, y / 2) + (if x % 2 == 1 && y % 2 == 1 then 1 else 0)
  }

  lemma {:induction false} BitAndSelf(x: nat)
    ensures BitAnd(x, x) == x
  {
    if x > 0 {
      BitAndSelf(x / 2);
    }
  }

  /** n & (n - 1) clears the lowest set bit of n, so it is zero exactly for powers of two. */
  lemma {:induction false} LowestBitTrick(n: int)
    requires n > 0
    ensures BitAnd(n, n - 1) == 0 <==> IsPow2(n)
  {
    if n > 1 {
      var q := n / 2;
      if n % 2 == 0 {
        assert (n - 1) / 2 == q - 1 && (n - 1) % 2 == 1;
        assert BitAnd(n, n - 1) == 2 * BitAnd(q, q - 1);
        LowestBitTrick(q);
      } else {
        assert (n - 1) / 2 == q && (n - 1) % 2 == 0;
        BitAndSelf(q);
        assert BitAnd(n, n - 1) == 2 * q;
      }
    }
  }

  /** Matrix::isPowerOf2: n > 0 && (n & (n - 1)) == 0. */
  function IsPowerOf2(n: int): (b: bool)
    ensures b <==> IsPow2(n)
  {
    if n > 0 then LowestBitTrick(n); BitAnd(n, n - 1) == 0 else false
  }

  /** The loop `while (power < n) power *= 2;` of Matrix::nextPowerOf2, from a given power. */
  function Doubling(power: int, n: int): (r: int)
    requires IsPow2(power) && power < 2 * n
    ensures IsPow2(r) && n <= r < 2 * n
    ensures power >= n ==> r == power
    decreases n - power
  {
    if power < n then Doubling(2 * power, n) else power
  }

  /**
    Matrix::nextPowerOf2: 1 for n <= 0, otherwise the least power of two
    that is at least n. Every value of `power` stays below 2n, so for
    n <= 2^30 the source's int never overflows.
   */
  function NextPowerOf2(n: int): (r: int)
    ensures IsPow2(r)
    ensures n <= 0 ==> r == 1
    ensures n >= 1 ==> n <= r < 2 * n
  {
    if n <= 0 then 1 else Doubling(1, n)
  }

  /** Of two powers of two, the smaller is at most half the larger. */
  lemma {:induction false} Pow2Gap(p: int, q: int)
    requires IsPow2(p) && IsPow2(q) && p < q
    ensures 2 * p <= q
    decreases q
  {
    if p > 1 {
      Pow2Gap(p / 2, q / 2);
    }
  }

  /** nextPowerOf2(n) is the least power of two not below n. */
  lemma NextPowerOf2Least(n: int, q: int)
    requires IsPow2(q) && n <= q
    ensures NextPowerOf2(n) <= q
  {
    var r := NextPowerOf2(n);
    if q < r {
      Pow2Gap(q, r);
    }
  }

  /** A power of two is its own next power of two. */
  lemma NextPowerOf2Fixed(n: int)
    requires IsPow2(n)
    ensures NextPowerOf2(n) == n
  {
    NextPowerOf2Least(n, n);
  }
}
