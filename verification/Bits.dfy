/** Bitwise operators on natural numbers, and powers of two. */
module Bits {

  function Pow2(n: nat): (r: nat)
    ensures r > 0
  {
    if n == 0 then 1 else 2 * Pow2(n - 1)
  }

  lemma {:induction false} Pow2Mono(m: nat, n: nat)
    requires m <= n
    ensures Pow2(m) <= Pow2(n)
  {
    if m < n { Pow2Mono(m, n - 1); }
  }

  /** `a & b` */
  function And(a: nat, b: nat): nat {
    if a == 0 || b == 0 then 0
    else 2 * And(a / 2, b / 2) + (if a % 2 == 1 && b % 2 == 1 then 1 else 0)
  }

  /** `a | b` */
  function Or(a: nat, b: nat): nat
    decreases a + b
  {
    if a == 0 then b else if b == 0 then a
    else 2 * Or(a / 2, b / 2) + (if a % 2 == 1 || b % 2 == 1 then 1 else 0)
  }

  /** Division, with what defines it. */
  function Quot(x: nat, m: nat): (q: nat)
    requires m > 0
    ensures m * q <= x < m * q + m
  {
    if x < m then 0 else 1 + Quot(x - m, m)
  }

  lemma QuotIsDiv(x: nat, m: nat)
    requires m > 0
    ensures Quot(x, m) == x / m
  {
    ModIs(x, m, Quot(x, m), x - m * Quot(x, m));
  }

  lemma QuotUnique(x: nat, m: nat, q: nat)
    requires m > 0 && m * q <= x < m * q + m
    ensures Quot(x, m) == q
  {
    QuotIsDiv(x, m);
    ModIs(x, m, q, x - m * q);
  }

  /** `n >> k` */
  function Shr(n: nat, k: nat): nat {
    if k == 0 then n else Shr(n / 2, k - 1)
  }

  /** The k lowest bits of n. */
  function LowBits(n: nat, k: nat): nat {
    if k == 0 then 0 else n % 2 + 2 * LowBits(n / 2, k - 1)
  }

  /** A number is its high bits, shifted, and its low bits. */
  lemma {:induction false} ShrSplit(n: nat, k: nat)
    ensures n == Pow2(k) * Shr(n, k) + LowBits(n, k) && LowBits(n, k) < Pow2(k)
  {
    if k > 0 {
      ShrSplit(n / 2, k - 1);
      MulAssoc(2, Pow2(k - 1), Shr(n / 2, k - 1));
    }
  }

  /** The lowest set bit of a number. */
  function LowBit(n: nat): (r: nat)
    requires n > 0
    ensures 1 <= r <= n
  {
    if n % 2 == 1 then 1 else 2 * LowBit(n / 2)
  }

  /** `n & (n - 1)` clears the lowest set bit and no other. */
  lemma {:induction false} AndPredecessor(n: nat)
    requires n > 0
    ensures And(n, n - 1) == n - LowBit(n)
  {
    if n % 2 == 1 {
      AndSelf(n / 2);
    } else {
      AndPredecessor(n / 2);
      assert (n - 1) / 2 == n / 2 - 1;
    }
  }

  lemma {:induction false} AndSelf(m: nat)
    ensures And(m, m) == m
  {
    if m != 0 { AndSelf(m / 2); }
  }

  /** Testing one bit of a number below 2^(k+1). */
  lemma {:induction false} AndTopBit(a: nat, k: nat)
    requires a < Pow2(k + 1)
    ensures And(a, Pow2(k)) != 0 <==> a >= Pow2(k)
  {
    if k > 0 && a > 0 {
      AndTopBit(a / 2, k - 1);
      assert Pow2(k) == 2 * Pow2(k - 1) && Pow2(k) / 2 == Pow2(k - 1);
    } else if k == 0 {
      assert Pow2(1) == 2;
    }
  }

  /** `|` of numbers that share no bit is their sum. */
  lemma {:induction false} OrDisjoint(q: nat, b: nat, k: nat)
    requires b < Pow2(k)
    ensures Or(Pow2(k) * q, b) == Pow2(k) * q + b && Or(b, Pow2(k) * q) == Pow2(k) * q + b
    decreases k
  {
    if k > 0 {
      OrDisjoint(q, b / 2, k - 1);
      MulAssoc(2, Pow2(k - 1), q);
      var a := Pow2(k - 1) * q;
      assert Pow2(k) * q == 2 * a && (2 * a) / 2 == a && (2 * a) % 2 == 0;
    }
  }

  // ---------------------------------------------------------------------------------------
  // Products

  lemma MulAssoc(x: int, y: int, z: int)
    ensures x * (y * z) == (x * y) * z
  {
  }

  lemma MulMono(x: nat, y: nat, z: nat)
    requires x <= y
    ensures x * z <= y * z && z * x <= z * y
  {
  }

  lemma Distribute(x: int, y: int, z: int)
    ensures x * (y + z) == x * y + x * z && (y + z) * x == y * x + z * x
  {
  }

  /** Scaling the high and low part of a number by p, where p times the split point is m. */
  lemma ScaleSplit(d: nat, p: nat, q: nat, lo: nat, hi: nat, m: nat)
    requires d == q * hi + lo && lo < q && p * q == m && p > 0
    ensures p * lo + m * hi == d * p && p * lo < m && (d * p) % m == p * lo
  {
    Distribute(p, q * hi, lo);
    MulAssoc(p, q, hi);
    assert d * p == p * d;
    MulMono(lo + 1, q, p);
    Distribute(p, lo, 1);
    ModIs(d * p, m, hi, p * lo);
  }

  /** What is left of x after a multiple of m is x modulo m. */
  lemma ModIs(x: int, m: nat, q: int, r: int)
    requires m > 0 && x == r + m * q && 0 <= r < m
    ensures x % m == r && x / m == q
  {
    var k := q - x / m;
    assert m * k == x % m - r;
    if k != 0 {
      FarFromZero(m, k);
    }
  }

  lemma FarFromZero(m: nat, k: int)
    requires k != 0
    ensures m * k >= m || m * k + m <= 0
  {
    if k >= 1 { MulMono(1, k, m); } else { MulMono(1, -k, m); }
  }
}
