/** The checksum detects any three errors in a window of 1023 symbols. Remainders are evaluated at three
    consecutive powers of the primitive element of GF(1024), which are roots of the generator; errors
    that go unnoticed satisfy three equations that have no solution. */
module Bech32Errors {
  import opened Bech32
  import Bits
  import opened Bech32Field

  // ----- The order of the primitive element -----

  lemma {:induction false} TimesLinear(n: nat, a: bv32, b: bv32)
    ensures Times(n, Xor(a, b)) == Xor(Times(n, a), Times(n, b))
  {
    if n > 0 {
      TimesLinear(n - 1, a, b);
      ApplyLinear(E1, Times(n - 1, a), Times(n - 1, b));
    }
  }

  lemma OneInjective(v: bv32)
    requires Small(v) && Apply(E1, v) == 0
    ensures v == 0
  {
    Chained(E1, v);
  }

  lemma {:induction false} TimesInjective(n: nat, v: bv32)
    requires Small(v) && Times(n, v) == 0
    ensures v == 0
  {
    if n > 0 {
      TimesSmall(n - 1, v);
      OneInjective(Times(n - 1, v));
      TimesInjective(n - 1, v);
    }
  }

  lemma SameXor(a: bv32, b: bv32)
    ensures Xor(a, b) == 0 <==> a == b
  {}

  lemma TimesCancel(n: nat, a: bv32, b: bv32)
    requires Small(a) && Small(b) && Times(n, a) == Times(n, b)
    ensures a == b
  {
    TimesLinear(n, a, b);
    SameXor(Times(n, a), Times(n, b));
    XorSmall(a, b);
    TimesInjective(n, Xor(a, b));
    SameXor(a, b);
  }

  predicate Fixed(n: nat, v: bv32) {
    Times(n, v) == v
  }

  lemma FixedDifference(m: nat, n: nat, v: bv32)
    requires Small(v) && n <= m && Fixed(m, v) && Fixed(n, v)
    ensures Fixed(m - n, v)
  {
    TimesAdd(n, m - n, v);
    TimesSmall(m - n, v);
    TimesCancel(n, Times(m - n, v), v);
  }

  lemma {:induction false} FixedMultiple(n: nat, k: nat, v: bv32)
    requires Fixed(n, v)
    ensures Fixed(n * k, v)
    decreases k
  {
    if k > 0 {
      FixedMultiple(n, k - 1, v);
      TimesAdd(n, n * (k - 1), v);
      assert n * k == n + n * (k - 1);
    }
  }

  /** Two powers that fix an element have a common divisor that fixes it. */
  lemma {:induction false} FixedDivisor(m: nat, n: nat, v: bv32) returns (g: nat, p: nat, q: nat)
    requires Small(v) && m > 0 && n > 0 && Fixed(m, v) && Fixed(n, v)
    ensures m == g * p && n == g * q && Fixed(g, v)
    decreases m + n
  {
    if m == n {
      g, p, q := m, 1, 1;
    } else if m > n {
      FixedDifference(m, n, v);
      g, p, q := FixedDivisor(m - n, n, v);
      Bits.Distribute(g, p, q);
      p := p + q;
    } else {
      FixedDifference(n, m, v);
      g, p, q := FixedDivisor(m, n - m, v);
      Bits.Distribute(g, p, q);
      q := p + q;
    }
  }

  lemma SmallDivisor(s: nat, k: nat)
    requires s * k == 1023 && s <= 31
    ensures s == 1 || s == 3 || s == 11 || s == 31
  {
    if s > 3 && s != 11 && s != 31 { NotDivisor(s, k); }
  }

  lemma NotDivisor(s: nat, k: nat)
    requires 3 < s < 31 && s != 11
    ensures s * k != 1023
  {
    if s < 11 {
      assert s == 4 || s == 5 || s == 6 || s == 7 || s == 8 || s == 9 || s == 10;
    } else if s < 21 {
      assert s == 12 || s == 13 || s == 14 || s == 15 || s == 16 || s == 17 || s == 18 || s == 19 || s == 20;
    } else {
      assert s == 21 || s == 22 || s == 23 || s == 24 || s == 25 || s == 26 || s == 27 || s == 28 || s == 29 || s == 30;
    }
  }

  /** A proper divisor of 1023 divides 33, 93 or 341. */
  lemma ProperDivisor(g: nat, q: nat) returns (k: nat)
    requires g * q == 1023 && q > 1
    ensures g * k == 33 || g * k == 93 || g * k == 341
  {
    if q <= 31 {
      SmallDivisor(q, g);
      k := 1;
    } else {
      SmallerFactor(g, q);
      SmallDivisor(g, q);
      k := if g == 1 then 33 else if g == 3 then 11 else 3;
    }
  }

  lemma SmallerFactor(g: nat, q: nat)
    requires g * q == 1023 && q > 31
    ensures g <= 31
  {
    if g > 31 { AtLeast(g, q, 32, 32); }
  }

  lemma AtLeast(x: nat, y: nat, a: nat, b: nat)
    requires x >= a && y >= b
    ensures x * y >= a * b
  {
    assert x * y >= a * y >= a * b;
  }

  lemma FixedByAll(v: bv32)
    requires Small(v)
    ensures Fixed(1023, v)
  {
    Power1023();
    Chained(E1023, v);
    Identity(v);
  }

  lemma Identity(v: bv32)
    requires Small(v)
    ensures Chain(E1023, v) == v
  {}

  lemma NotBy33(v: bv32)
    requires Small(v) && Fixed(33, v)
    ensures v == 0
  {
    Power33();
    Chained(E33, v);
  }

  lemma NotBy93(v: bv32)
    requires Small(v) && Fixed(93, v)
    ensures v == 0
  {
    Power93();
    Chained(E93, v);
  }

  lemma NotBy341(v: bv32)
    requires Small(v) && Fixed(341, v)
    ensures v == 0
  {
    Power341();
    Chained(E341, v);
  }

  /** The primitive element has order 1023: no lower power fixes an element other than 0. */
  lemma Order(n: nat, v: bv32)
    requires Small(v) && 0 < n < 1023 && Fixed(n, v)
    ensures v == 0
  {
    FixedByAll(v);
    var g, p, q := FixedDivisor(n, 1023, v);
    ProperFactor(g, p, q, n);
    var k := ProperDivisor(g, q);
    FixedMultiple(g, k, v);
    if g * k == 33 { NotBy33(v); } else if g * k == 93 { NotBy93(v); } else { NotBy341(v); }
  }

  lemma ProperFactor(g: nat, p: nat, q: nat, n: nat)
    requires n == g * p && 1023 == g * q && 0 < n < 1023
    ensures q > 1
  {
    if q == 1 && p > 0 { AtLeast(g, p, 1023, 1); }
  }

  // ----- Three equations without a solution -----

  lemma FirstTwo(a: bv32, b: bv32, d: bv32, a': bv32, b': bv32)
    requires Xor(Xor(a, b), d) == 0 && Xor(Xor(a', b'), d) == 0
    ensures Xor(a', a) == Xor(b', b)
  {
    SameXor(Xor(a, b), d);
    SameXor(Xor(a', b'), d);
    SameXor(Xor(a', b'), Xor(a, b));
    Shuffle(a', b', a, b);
    SameXor(Xor(a', a), Xor(b', b));
  }

  lemma LastIsZero(d: bv32)
    requires Xor(Xor(0, 0), d) == 0
    ensures d == 0
  {}

  /** The equations for the differences a, b and d of three symbols, p and q symbols before the last. */
  ghost predicate Unnoticed(m: nat, a: bv32, b: bv32, d: bv32, p: nat, q: nat) {
    Xor(Xor(Times(m * p, a), Times(m * q, b)), d) == 0
  }

  lemma NextPower(m: nat, p: nat, a: bv32)
    ensures Times((m + 1) * p, a) == Times(p, Times(m * p, a))
  {
    TimesAdd(p, m * p, a);
    assert (m + 1) * p == p + m * p;
  }

  lemma NoSolution(a: bv32, b: bv32, d: bv32, p: nat, q: nat)
    requires Small(a) && Small(b) && 0 < q < p < 1023
    requires Unnoticed(997, a, b, d, p, q) && Unnoticed(998, a, b, d, p, q) && Unnoticed(999, a, b, d, p, q)
    ensures a == 0 && b == 0 && d == 0
  {
    var u, v := Times(997 * p, a), Times(997 * q, b);
    NextPower(997, p, a);
    NextPower(997, q, b);
    NextPower(998, p, a);
    NextPower(998, q, b);
    TimesSmall(997 * p, a);
    TimesSmall(997 * q, b);
    Shifted(u, v, d, p, q);
    TimesInjective(997 * p, a);
    TimesInjective(997 * q, b);
    LastIsZero(d);
  }

  lemma {:induction false} Shifted(u: bv32, v: bv32, d: bv32, p: nat, q: nat)
    requires Small(u) && Small(v) && 0 < q < p < 1023
    requires Xor(Xor(u, v), d) == 0 && Xor(Xor(Times(p, u), Times(q, v)), d) == 0
    requires Xor(Xor(Times(p, Times(p, u)), Times(q, Times(q, v))), d) == 0
    ensures u == 0 && v == 0
  {
    var u1, v1 := Times(p, u), Times(q, v);
    FirstTwo(u, v, d, u1, v1);
    FirstTwo(u1, v1, d, Times(p, u1), Times(q, v1));
    TimesLinear(p, u1, u);
    TimesLinear(q, v1, v);
    TimesSmall(p, u);
    XorSmall(u1, u);
    SameImage(Xor(u1, u), p, q);
    SameXor(u1, u);
    SameXor(v1, v);
    Order(p, u);
    Order(q, v);
  }

  /** Different powers have different products with an element other than 0. */
  lemma SameImage(t: bv32, p: nat, q: nat)
    requires Small(t) && q < p < 1023 && Times(p, t) == Times(q, t)
    ensures t == 0
  {
    TimesAdd(q, p - q, t);
    TimesSmall(p - q, t);
    TimesCancel(q, Times(p - q, t), t);
    Order(p - q, t);
  }

  // ----- Evaluating remainders -----

  /** The polynomial whose n lowest coefficients are the groups of c, at the point whose multiplication
      is r. */
  function Value(r: seq<bv32>, c: bv32, n: nat): bv32
    requires |r| == 10
  {
    if n == 0 then 0 else Xor(Apply(r, Value(r, Right(c), n - 1)), Low(c))
  }

  function Low(c: bv32): bv32 { c & 31 }

  function Iterate(r: seq<bv32>, n: nat, v: bv32): bv32
    requires |r| == 10
  {
    if n == 0 then v else Apply(r, Iterate(r, n - 1, v))
  }

  lemma GroupsLinear(a: bv32, b: bv32)
    ensures Right(Xor(a, b)) == Xor(Right(a), Right(b)) && Low(Xor(a, b)) == Xor(Low(a), Low(b))
  {}

  lemma {:induction false} ValueLinear(r: seq<bv32>, a: bv32, b: bv32, n: nat)
    requires |r| == 10
    ensures Value(r, Xor(a, b), n) == Xor(Value(r, a, n), Value(r, b, n))
  {
    if n > 0 {
      GroupsLinear(a, b);
      ValueLinear(r, Right(a), Right(b), n - 1);
      HornerLinear(r, Value(r, Right(a), n - 1), Value(r, Right(b), n - 1), Low(a), Low(b));
      ValueUnfolds(r, Xor(a, b), n);
      ValueUnfolds(r, a, n);
      ValueUnfolds(r, b, n);
    } else {
      XorSelf(0);
    }
  }

  lemma ValueUnfolds(r: seq<bv32>, c: bv32, n: nat)
    requires |r| == 10 && n > 0
    ensures Value(r, c, n) == Xor(Apply(r, Value(r, Right(c), n - 1)), Low(c))
  {}

  /** A step of the evaluation is linear in the value so far and the coefficient. */
  lemma HornerLinear(r: seq<bv32>, v: bv32, w: bv32, x: bv32, y: bv32)
    requires |r| == 10
    ensures Xor(Apply(r, Xor(v, w)), Xor(x, y)) == Xor(Xor(Apply(r, v), x), Xor(Apply(r, w), y))
  {
    ApplyLinear(r, v, w);
    Gather(Apply(r, Xor(v, w)), Apply(r, v), Apply(r, w), Xor(x, y), x, y);
  }

  lemma ValueZero(r: seq<bv32>, n: nat)
    requires |r| == 10
    ensures Value(r, 0, n) == 0
  {
    XorSelf(0);
    ValueLinear(r, 0, 0, n);
    XorSelf(Value(r, 0, n));
  }

  lemma {:induction false} IterateLinear(r: seq<bv32>, n: nat, a: bv32, b: bv32)
    requires |r| == 10
    ensures Iterate(r, n, Xor(a, b)) == Xor(Iterate(r, n, a), Iterate(r, n, b))
  {
    if n > 0 {
      IterateLinear(r, n - 1, a, b);
      ApplyLinear(r, Iterate(r, n - 1, a), Iterate(r, n - 1, b));
    }
  }

  lemma {:induction false} IterateAdd(r: seq<bv32>, m: nat, n: nat, v: bv32)
    requires |r| == 10
    ensures Iterate(r, m + n, v) == Iterate(r, m, Iterate(r, n, v))
  {
    if m > 0 { IterateAdd(r, m - 1, n, v); }
  }

  lemma {:induction false} IteratePower(r: seq<bv32>, m: nat, n: nat, v: bv32)
    requires IsPower(r, m) && Small(v)
    ensures Iterate(r, n, v) == Times(m * n, v)
    decreases n
  {
    if n > 0 {
      IteratePower(r, m, n - 1, v);
      TimesSmall(m * (n - 1), v);
      TimesAdd(m, m * (n - 1), v);
      assert m * n == m + m * (n - 1);
    }
  }

  lemma {:induction false} ValueOfPart(r: seq<bv32>, m: seq<bv32>, w: seq<bv32>, v: bv32, n: nat)
    requires |r| == 10 && n <= |m| == |w| <= 10 && forall i :: 0 <= i < |m| ==> w[i] == Value(r, m[i], 6)
    ensures Value(r, Part(m, v, n), 6) == Part(w, v, n)
  {
    ValueZero(r, 6);
    if n > 0 {
      ValueOfPart(r, m, w, v, n - 1);
      ValueLinear(r, Part(m, v, n - 1), Pick(v, Bit(n - 1), m[n - 1]), 6);
    }
  }

  lemma IterateZero(r: seq<bv32>, n: nat)
    requires |r| == 10
    ensures Iterate(r, n, 0) == 0
  {
    XorSelf(0);
    IterateLinear(r, n, 0, 0);
    XorSelf(Iterate(r, n, 0));
  }

  lemma {:induction false} IterateOfPart(r: seq<bv32>, m: seq<bv32>, w: seq<bv32>, v: bv32, n: nat)
    requires |r| == 10 && n <= |m| == |w| <= 10 && forall i :: 0 <= i < |m| ==> w[i] == Iterate(r, 6, m[i])
    ensures Iterate(r, 6, Part(m, v, n)) == Part(w, v, n)
  {
    IterateZero(r, 6);
    if n > 0 {
      IterateOfPart(r, m, w, v, n - 1);
      IterateLinear(r, 6, Part(m, v, n - 1), Pick(v, Bit(n - 1), m[n - 1]));
    }
  }

  // ----- The roots of the generator -----

  /** At a root, x^6 mod g(x) has the value of x^6. */
  ghost predicate IsRoot(r: seq<bv32>) {
    |r| == 10 && forall h :: h < 32 ==> Value(r, Reduce(h), 6) == Iterate(r, 6, h)
  }

  const REDUCED: seq<bv32> := [K1, K2, K4, K8, K16]
  const UNITS: seq<bv32> := [1, 2, 4, 8, 16]

  lemma FiveParts(m: seq<bv32>, h: bv32)
    requires |m| == 5
    ensures Part(m, h, 5) == Xor(Xor(Xor(Xor(Pick(h, 1, m[0]), Pick(h, 2, m[1])), Pick(h, 4, m[2])), Pick(h, 8, m[3])), Pick(h, 16, m[4]))
  {
    ZeroXor(Pick(h, 1, m[0]));
    assert Part(m, h, 1) == Pick(h, 1, m[0]);
    assert Part(m, h, 2) == Xor(Part(m, h, 1), Pick(h, 2, m[1]));
    assert Part(m, h, 3) == Xor(Part(m, h, 2), Pick(h, 4, m[2]));
    assert Part(m, h, 4) == Xor(Part(m, h, 3), Pick(h, 8, m[3]));
    assert Part(m, h, 5) == Xor(Part(m, h, 4), Pick(h, 16, m[4]));
  }

  lemma UnitsSum(h: bv32)
    requires h < 32
    ensures Part(UNITS, h, 5) == h
  {
    FiveParts(UNITS, h);
  }

  lemma Appended(c: bv32, v: bv32)
    requires c < 0x2000000 && v < 32
    ensures Right(Xor(Shift(c), v)) == c && Low(Xor(Shift(c), v)) == v
  {}

  lemma ValueAppended(r: seq<bv32>, c: bv32, v: bv32, n: nat)
    requires |r| == 10 && c < 0x2000000 && v < 32
    ensures Value(r, Xor(Shift(c), v), n + 1) == Xor(Apply(r, Value(r, c, n)), v)
  {
    Appended(c, v);
  }

  /** The words whose groups are the first 0 to 6 of the coefficients g. */
  predicate Prefixes(c: seq<bv32>, g: seq<bv32>) {
    && |c| == 7 && |g| == 6 && c[0] == 0
    && forall n :: 0 <= n < 6 ==> c[n] < 0x2000000 && g[n] < 32 && c[n + 1] == Xor(Shift(c[n]), g[n])
  }

  lemma ValueNext(r: seq<bv32>, c: seq<bv32>, g: seq<bv32>, n: nat)
    requires |r| == 10 && Prefixes(c, g) && n < 6
    ensures Value(r, c[n + 1], n + 1) == Xor(Apply(r, Value(r, c[n], n)), g[n]) && g[n] < 32
  {
    assert c[n] < 0x2000000 && g[n] < 32 && c[n + 1] == Xor(Shift(c[n]), g[n]);
    ValueAppended(r, c[n], g[n], n);
  }

  /** The values of the polynomial with 0 to 6 coefficients. */
  predicate Horner(r: seq<bv32>, g: seq<bv32>, s: seq<bv32>) {
    |r| == 10 && |g| == 6 && |s| == 7 && s[0] == 0 && forall n :: 0 <= n < 6 ==> s[n + 1] == Xor(Apply(r, s[n]), g[n])
  }

  /** The images of v under 0 to 6 applications. */
  predicate Images(r: seq<bv32>, v: bv32, s: seq<bv32>) {
    |r| == 10 && |s| == 7 && s[0] == v && forall n :: 0 <= n < 6 ==> s[n + 1] == Apply(r, s[n])
  }

  lemma {:induction false} HornerValue(r: seq<bv32>, c: seq<bv32>, g: seq<bv32>, s: seq<bv32>, n: nat)
    requires Horner(r, g, s) && Prefixes(c, g) && n <= 6
    ensures Value(r, c[n], n) == s[n]
  {
    if n > 0 {
      HornerValue(r, c, g, s, n - 1);
      assert s[n - 1 + 1] == Xor(Apply(r, s[n - 1]), g[n - 1]);
      ValueNext(r, c, g, n - 1);
    }
  }

  lemma {:induction false} ImagesIterate(r: seq<bv32>, v: bv32, s: seq<bv32>, n: nat)
    requires Images(r, v, s) && n <= 6
    ensures Iterate(r, n, v) == s[n]
  {
    if n > 0 {
      ImagesIterate(r, v, s, n - 1);
      assert s[n - 1 + 1] == Apply(r, s[n - 1]);
    }
  }

  /** A unit whose multiple of x^6 mod g(x) has the value of that multiple of x^6. */
  ghost predicate RightUnit(r: seq<bv32>, i: nat)
    requires |r| == 10 && i < 5
  {
    Value(r, REDUCED[i], 6) == Iterate(r, 6, UNITS[i])
  }

  /** It is enough to look at the five units. */
  lemma RootFromUnits(r: seq<bv32>)
    requires |r| == 10 && RightUnit(r, 0) && RightUnit(r, 1) && RightUnit(r, 2) && RightUnit(r, 3) && RightUnit(r, 4)
    ensures IsRoot(r)
  {
    var w := seq(5, i requires 0 <= i < 5 => Iterate(r, 6, UNITS[i]));
    forall i | 0 <= i < 5 ensures w[i] == Value(r, REDUCED[i], 6) {
      assert RightUnit(r, i);
    }
    forall h | h < 32 ensures Value(r, Reduce(h), 6) == Iterate(r, 6, h) {
      FiveParts(REDUCED, h);
      UnitsSum(h);
      ValueOfPart(r, REDUCED, w, h, 5);
      IterateOfPart(r, UNITS, w, h, 5);
    }
  }

  lemma UnitIsRight(r: seq<bv32>, i: nat, c: seq<bv32>, g: seq<bv32>, s: seq<bv32>, w: seq<bv32>)
    requires i < 5 && Prefixes(c, g) && c[6] == REDUCED[i] && Horner(r, g, s) && Images(r, UNITS[i], w) && s[6] == w[6]
    ensures RightUnit(r, i)
  {
    HornerValue(r, c, g, s, 6);
    ImagesIterate(r, UNITS[i], w, 6);
  }

  // The coefficients of x^6 mod g(x) and of its multiples by {2}, {4}, {8} and {16}.
  const G1: seq<bv32> := [29, 22, 20, 21, 29, 18]
  const C1: seq<bv32> := [0, 0x1d, 0x3b6, 0x76d4, 0xeda95, 0x1db52bd, 0x3b6a57b2]
  const G2: seq<bv32> := [19, 5, 1, 3, 19, 13]
  const C2: seq<bv32> := [0, 0x13, 0x265, 0x4ca1, 0x99423, 0x1328473, 0x26508e6d]
  const G4: seq<bv32> := [15, 10, 2, 6, 15, 26]
  const C4: seq<bv32> := [0, 0xf, 0x1ea, 0x3d42, 0x7a846, 0xf508cf, 0x1ea119fa]
  const G8: seq<bv32> := [30, 20, 4, 12, 30, 29]
  const C8: seq<bv32> := [0, 0x1e, 0x3d4, 0x7a84, 0xf508c, 0x1ea119e, 0x3d4233dd]
  const G16: seq<bv32> := [21, 1, 8, 24, 21, 19]
  const C16: seq<bv32> := [0, 0x15, 0x2a1, 0x5428, 0xa8518, 0x150a315, 0x2a1462b3]

  lemma Word1()
    ensures Prefixes(C1, G1) && C1[6] == K1
  {}

  lemma Word2()
    ensures Prefixes(C2, G2) && C2[6] == K2
  {}

  lemma Word4()
    ensures Prefixes(C4, G4) && C4[6] == K4
  {}

  lemma Word8()
    ensures Prefixes(C8, G8) && C8[6] == K8
  {}

  lemma Word16()
    ensures Prefixes(C16, G16) && C16[6] == K16
  {}

  // ----- Multiples in GF(32) -----

  /** Multiplication by {2} in GF(32). */
  function Double(g: bv32): bv32 {
    Xor(g << 1, if g & 16 != 0 then 41 else 0)
  }

  lemma DoubleIsPower(g: bv32)
    requires g < 32
    ensures Times(99, g) == Double(g) && Double(g) < 32
  {
    Power99();
    Chained(E99, g);
    DoubleChain(g);
  }

  lemma DoubleChain(g: bv32)
    requires g < 32
    ensures Chain(E99, g) == Double(g) && Double(g) < 32
  {}

  lemma PowersCommute(r: seq<bv32>, m: nat, n: nat, v: bv32)
    requires IsPower(r, m) && Small(v)
    ensures Apply(r, Times(n, v)) == Times(n, Apply(r, v))
  {
    TimesSmall(n, v);
    TimesAdd(m, n, v);
    TimesAdd(n, m, v);
  }

  predicate Doubles(g: seq<bv32>, h: seq<bv32>) {
    |g| == |h| == 6 && forall n :: 0 <= n < 6 ==> h[n] == Double(g[n])
  }

  lemma DigitSmall(g: bv32)
    requires g < 32
    ensures Small(g)
  {}

  lemma DoubleStep(r: seq<bv32>, m: nat, v: bv32, g: bv32)
    requires IsPower(r, m) && AllSmall(r) && Small(v) && g < 32
    ensures Small(Xor(Apply(r, v), g)) && Xor(Apply(r, Times(99, v)), Double(g)) == Times(99, Xor(Apply(r, v), g))
  {
    ApplySmall(r, v);
    DigitSmall(g);
    XorSmall(Apply(r, v), g);
    TimesLinear(99, Apply(r, v), g);
    PowersCommute(r, m, 99, v);
    DoubleIsPower(g);
  }

  lemma TimesZero(n: nat)
    ensures Times(n, 0) == 0
  {
    XorSelf(0);
    TimesLinear(n, 0, 0);
    XorSelf(Times(n, 0));
  }

  /** Doubling the coefficients doubles the value. */
  lemma {:induction false} ValueDoubles(r: seq<bv32>, m: nat, c: seq<bv32>, g: seq<bv32>, d: seq<bv32>, h: seq<bv32>, n: nat)
    requires IsPower(r, m) && AllSmall(r) && Prefixes(c, g) && Prefixes(d, h) && Doubles(g, h) && n <= 6
    ensures Small(Value(r, c[n], n)) && Value(r, d[n], n) == Times(99, Value(r, c[n], n))
  {
    if n == 0 {
      TimesZero(99);
    } else {
      ValueDoubles(r, m, c, g, d, h, n - 1);
      ValueNext(r, c, g, n - 1);
      ValueNext(r, d, h, n - 1);
      assert h[n - 1] == Double(g[n - 1]);
      DoubleStep(r, m, Value(r, c[n - 1], n - 1), g[n - 1]);
    }
  }

  lemma {:induction false} IterateCommutes(r: seq<bv32>, m: nat, n: nat, k: nat, v: bv32)
    requires IsPower(r, m) && AllSmall(r) && Small(v)
    ensures Small(Iterate(r, n, v)) && Iterate(r, n, Times(k, v)) == Times(k, Iterate(r, n, v))
  {
    if n > 0 {
      IterateCommutes(r, m, n - 1, k, v);
      PowersCommute(r, m, k, Iterate(r, n - 1, v));
      ApplySmall(r, Iterate(r, n - 1, v));
    }
  }

  /** If a unit is right, so is its double. */
  lemma NextUnit(r: seq<bv32>, m: nat, i: nat, c: seq<bv32>, g: seq<bv32>, d: seq<bv32>, h: seq<bv32>)
    requires IsPower(r, m) && AllSmall(r) && i < 4 && Prefixes(c, g) && Prefixes(d, h) && Doubles(g, h) && RightUnit(r, i)
    requires c[6] == REDUCED[i] && d[6] == REDUCED[i + 1]
    ensures RightUnit(r, i + 1)
  {
    ValueDoubles(r, m, c, g, d, h, 6);
    UnitDoubles(i);
    IterateCommutes(r, m, 6, 99, UNITS[i]);
  }

  lemma UnitDoubles(i: nat)
    requires i < 4
    ensures Small(UNITS[i]) && Times(99, UNITS[i]) == UNITS[i + 1]
  {
    DoubleIsPower(UNITS[i]);
  }

  lemma Unit2(r: seq<bv32>, m: nat)
    requires IsPower(r, m) && AllSmall(r) && RightUnit(r, 0)
    ensures RightUnit(r, 1)
  {
    Word1();
    Word2();
    WordsDouble2();
    NextUnit(r, m, 0, C1, G1, C2, G2);
  }

  lemma WordsDouble2()
    ensures Doubles(G1, G2)
  {}

  lemma Unit4(r: seq<bv32>, m: nat)
    requires IsPower(r, m) && AllSmall(r) && RightUnit(r, 1)
    ensures RightUnit(r, 2)
  {
    Word2();
    Word4();
    WordsDouble4();
    NextUnit(r, m, 1, C2, G2, C4, G4);
  }

  lemma WordsDouble4()
    ensures Doubles(G2, G4)
  {}

  lemma Unit8(r: seq<bv32>, m: nat)
    requires IsPower(r, m) && AllSmall(r) && RightUnit(r, 2)
    ensures RightUnit(r, 3)
  {
    Word4();
    Word8();
    WordsDouble8();
    NextUnit(r, m, 2, C4, G4, C8, G8);
  }

  lemma WordsDouble8()
    ensures Doubles(G4, G8)
  {}

  lemma Unit16(r: seq<bv32>, m: nat)
    requires IsPower(r, m) && AllSmall(r) && RightUnit(r, 3)
    ensures RightUnit(r, 4)
  {
    Word8();
    Word16();
    WordsDouble16();
    NextUnit(r, m, 3, C8, G8, C16, G16);
  }

  lemma WordsDouble16()
    ensures Doubles(G8, G16)
  {}

  /** It is enough to look at the first unit. */
  lemma RootFromFirst(r: seq<bv32>, m: nat)
    requires IsPower(r, m) && AllSmall(r) && RightUnit(r, 0)
    ensures IsRoot(r)
  {
    Unit2(r, m);
    Unit4(r, m);
    Unit8(r, m);
    Unit16(r, m);
    RootFromUnits(r);
  }

  const H997: seq<bv32> := [0, 29, 399, 446, 402, 46, 757]
  const P997: seq<bv32> := [1, 445, 873, 847, 982, 116, 757]

  lemma Horner997()
    ensures Horner(E997, G1, H997)
  {
    forall n | 0 <= n < 6 ensures H997[n + 1] == Xor(Apply(E997, H997[n]), G1[n]) { Chained(E997, H997[n]); }
  }

  lemma Images997()
    ensures Images(E997, 1, P997)
  {
    forall n | 0 <= n < 6 ensures P997[n + 1] == Apply(E997, P997[n]) { Chained(E997, P997[n]); }
  }

  lemma First997()
    ensures RightUnit(E997, 0)
  {
    Horner997();
    Images997();
    Word1();
    UnitIsRight(E997, 0, C1, G1, H997, P997);
  }

  lemma Root997()
    ensures IsPower(E997, 997) && IsRoot(E997)
  {
    First997();
    Power997();
    SmallColumns();
    RootFromFirst(E997, 997);
  }

  const H998: seq<bv32> := [0, 29, 452, 918, 844, 374, 986]
  const P998: seq<bv32> := [1, 101, 136, 883, 931, 602, 986]

  lemma Horner998()
    ensures Horner(E998, G1, H998)
  {
    forall n | 0 <= n < 6 ensures H998[n + 1] == Xor(Apply(E998, H998[n]), G1[n]) { Chained(E998, H998[n]); }
  }

  lemma Images998()
    ensures Images(E998, 1, P998)
  {
    forall n | 0 <= n < 6 ensures P998[n + 1] == Apply(E998, P998[n]) { Chained(E998, P998[n]); }
  }

  lemma First998()
    ensures RightUnit(E998, 0)
  {
    Horner998();
    Images998();
    Word1();
    UnitIsRight(E998, 0, C1, G1, H998, P998);
  }

  lemma Root998()
    ensures IsPower(E998, 998) && IsRoot(E998)
  {
    First998();
    Power998();
    SmallColumns();
    RootFromFirst(E998, 998);
  }

  const H999: seq<bv32> := [0, 29, 739, 739, 738, 314, 161]
  const P999: seq<bv32> := [1, 976, 345, 710, 81, 66, 161]

  lemma Horner999()
    ensures Horner(E999, G1, H999)
  {
    forall n | 0 <= n < 6 ensures H999[n + 1] == Xor(Apply(E999, H999[n]), G1[n]) { Chained(E999, H999[n]); }
  }

  lemma Images999()
    ensures Images(E999, 1, P999)
  {
    forall n | 0 <= n < 6 ensures P999[n + 1] == Apply(E999, P999[n]) { Chained(E999, P999[n]); }
  }

  lemma First999()
    ensures RightUnit(E999, 0)
  {
    Horner999();
    Images999();
    Word1();
    UnitIsRight(E999, 0, C1, G1, H999, P999);
  }

  lemma Root999()
    ensures IsPower(E999, 999) && IsRoot(E999)
  {
    First999();
    Power999();
    SmallColumns();
    RootFromFirst(E999, 999);
  }

  // ----- One symbol more -----

  function Tail(c: bv32): bv32 { c & 0x1ffffff }

  lemma RightShort(c: bv32, n: nat)
    requires 0 < n <= 6 && c < Limit(n)
    ensures Right(c) < Limit(n - 1)
  {}

  /** Leading zero coefficients do not matter. */
  lemma {:induction false} ValueShort(r: seq<bv32>, c: bv32, n: nat)
    requires |r| == 10 && n <= 6 && c < Limit(n)
    ensures Value(r, c, n + 1) == Value(r, c, n)
    decreases n
  {
    if n == 0 {
      ValueZero(r, 1);
    } else {
      RightShort(c, n);
      ValueShort(r, Right(c), n - 1);
    }
  }

  lemma ShiftGrows(c: bv32, n: nat)
    requires n < 6 && c < Limit(n)
    ensures Shift(c) < Limit(n + 1)
  {}

  /** The coefficient h of x^n. */
  function Monomial(h: bv32, n: nat): bv32 {
    if n == 0 then h else Shift(Monomial(h, n - 1))
  }

  lemma {:induction false} MonomialShort(h: bv32, n: nat)
    requires h < 32 && n <= 5
    ensures Monomial(h, n) < Limit(n + 1)
  {
    if n > 0 {
      MonomialShort(h, n - 1);
      ShiftGrows(Monomial(h, n - 1), n);
    }
  }

  lemma ShortIsTail(c: bv32, n: nat)
    requires n <= 5 && c < Limit(n)
    ensures c < 0x2000000
  {}

  lemma {:induction false} ValueMonomial(r: seq<bv32>, h: bv32, n: nat)
    requires |r| == 10 && h < 32 && n <= 5
    ensures Value(r, Monomial(h, n), n + 1) == Iterate(r, n, h)
  {
    if n == 0 {
      ApplyZero(r);
      LowOnly(h);
    } else {
      ValueMonomial(r, h, n - 1);
      MonomialShort(h, n - 1);
      ShortIsTail(Monomial(h, n - 1), n);
      ValueShifted(r, Monomial(h, n - 1), n);
    }
  }

  lemma ValueShifted(r: seq<bv32>, c: bv32, n: nat)
    requires |r| == 10 && c < 0x2000000
    ensures Value(r, Shift(c), n + 1) == Apply(r, Value(r, c, n))
  {
    ValueAppended(r, c, 0, n);
    XorZero(Shift(c));
    XorZero(Apply(r, Value(r, c, n)));
  }

  lemma LowOnly(h: bv32)
    requires h < 32
    ensures Xor(0, Low(h)) == h
  {}

  lemma PlainSum(a: bv32)
    ensures Xor(a, Wide(0)) == a
  {}

  lemma Split(c: bv32)
    requires Is30(c)
    ensures High(c) < 32 && Tail(c) < 0x2000000 && Shift(Tail(c)) == Shift(c)
    ensures c == Xor(Tail(c), High(c) << 25)
  {}

  lemma TopMonomial(h: bv32)
    requires h < 32
    ensures Monomial(h, 5) == h << 25
  {
    assert Monomial(h, 1) == Shift(h) == h << 5;
    assert Monomial(h, 2) == Shift(Monomial(h, 1)) == h << 10;
    assert Monomial(h, 3) == Shift(Monomial(h, 2)) == h << 15;
    assert Monomial(h, 4) == Shift(Monomial(h, 3)) == h << 20;
    assert Monomial(h, 5) == Shift(Monomial(h, 4)) == h << 25;
  }

  lemma ValueSplit(r: seq<bv32>, c: bv32)
    requires |r| == 10 && Is30(c)
    ensures Value(r, c, 6) == Xor(Value(r, Tail(c), 5), Iterate(r, 5, High(c)))
  {
    Split(c);
    TopMonomial(High(c));
    ValueLinear(r, Tail(c), Monomial(High(c), 5), 6);
    ValueShort(r, Tail(c), 5);
    ValueMonomial(r, High(c), 5);
  }

  lemma Swap(a: bv32, b: bv32, v: bv32)
    ensures Xor(Xor(a, v), b) == Xor(Xor(a, b), v)
  {
    XorAssoc(a, v, b);
    XorAssoc(a, b, v);
    XorAssoc(v, b, 0);
  }

  /** A step of the checksum multiplies the value at a root and adds the symbol. */
  lemma ValueStep(r: seq<bv32>, c: bv32, v: bv8)
    requires IsRoot(r) && Is30(c) && v < 32
    ensures Value(r, Step(c, v), 6) == Xor(Apply(r, Value(r, c, 6)), Wide(v))
  {
    Split(c);
    var tail, h := Value(r, Tail(c), 5), High(c);
    ValueLinear(r, Xor(Shift(c), Wide(v)), Reduce(h), 6);
    WideSmall(v);
    ValueAppended(r, Tail(c), Wide(v), 5);
    ValueSplit(r, c);
    ApplyLinear(r, tail, Iterate(r, 5, h));
    Swap(Apply(r, tail), Iterate(r, 6, h), Wide(v));
  }

  lemma {:induction false} ValueZeros(r: seq<bv32>, c: bv32, n: nat)
    requires IsRoot(r) && Is30(c)
    ensures Value(r, Fold(c, Zeros(n)), 6) == Iterate(r, n, Value(r, c, 6))
  {
    if n > 0 {
      assert Zeros(n)[..n - 1] == Zeros(n - 1);
      ValueZeros(r, c, n - 1);
      FoldIs30(c, Zeros(n - 1));
      ValueStep(r, Fold(c, Zeros(n - 1)), 0);
      PlainSum(Apply(r, Iterate(r, n - 1, Value(r, c, 6))));
    }
  }

  // ----- Three errors -----

  /** n - 1 zeros and a symbol. */
  function Gap(n: nat, v: bv8): seq<bv8>
    requires n > 0
  {
    Zeros(n - 1) + [v]
  }

  lemma ValueGap(r: seq<bv32>, c: bv32, n: nat, v: bv8)
    requires IsRoot(r) && Is30(c) && n > 0 && v < 32
    ensures Is30(Fold(c, Gap(n, v))) && Value(r, Fold(c, Gap(n, v)), 6) == Xor(Iterate(r, n, Value(r, c, 6)), Wide(v))
  {
    assert Gap(n, v)[..n - 1] == Zeros(n - 1);
    FoldIs30(c, Zeros(n - 1));
    FoldIs30(c, Gap(n, v));
    ValueZeros(r, c, n - 1);
    ValueStep(r, Fold(c, Zeros(n - 1)), v);
  }

  /** The symbols a, b and d with gaps before each of them. */
  function Triple(i: nat, a: bv8, p: nat, b: bv8, q: nat, d: bv8): seq<bv8>
    requires p > 0 && q > 0
  {
    Zeros(i) + [a] + Gap(p, b) + Gap(q, d)
  }

  lemma ValueTriple(r: seq<bv32>, m: nat, i: nat, a: bv8, p: nat, b: bv8, q: nat, d: bv8)
    requires IsRoot(r) && IsPower(r, m) && p > 0 && q > 0 && a < 32 && b < 32 && d < 32
    requires Fold(0, Triple(i, a, p, b, q, d)) == 0
    ensures Unnoticed(m, Wide(a), Wide(b), Wide(d), p + q, q)
  {
    var c := FirstSymbol(i, a);
    ValueFirst(r, a);
    FoldConcat(0, Zeros(i) + [a], Gap(p, b));
    FoldConcat(0, Zeros(i) + [a] + Gap(p, b), Gap(q, d));
    ValueGap(r, c, p, b);
    ValueGap(r, Fold(c, Gap(p, b)), q, d);
    ValueZero(r, 6);
    IterateLinear(r, q, Iterate(r, p, Wide(a)), Wide(b));
    IterateAdd(r, q, p, Wide(a));
    WideSmall(a);
    WideSmall(b);
    IteratePower(r, m, p + q, Wide(a));
    IteratePower(r, m, q, Wide(b));
    assert q + p == p + q;
  }

  lemma WideSmall(v: bv8)
    requires v < 32
    ensures Small(Wide(v)) && Is30(Wide(v)) && (Wide(v) == 0 <==> v == 0)
  {}

  lemma FirstSymbol(i: nat, a: bv8) returns (c: bv32)
    requires a < 32
    ensures c == Fold(0, Zeros(i) + [a]) == Wide(a) && Is30(c)
  {
    assert (Zeros(i) + [a])[..i] == Zeros(i);
    ZerosKeepZero(i);
    c := Wide(a);
    StepFromZero(a);
    WideSmall(a);
  }

  lemma StepFromZero(a: bv8)
    ensures Step(0, a) == Wide(a)
  {}

  lemma ValueFirst(r: seq<bv32>, a: bv8)
    requires |r| == 10 && a < 32
    ensures Value(r, Wide(a), 6) == Wide(a)
  {
    WideSmall(a);
    LowOnly(Wide(a));
    ApplyZero(r);
    assert Value(r, Wide(a), 1) == Wide(a);
    WideShort(a);
    ValueShort(r, Wide(a), 1);
    ValueShort(r, Wide(a), 2);
    ValueShort(r, Wide(a), 3);
    ValueShort(r, Wide(a), 4);
    ValueShort(r, Wide(a), 5);
  }

  lemma WideShort(a: bv8)
    requires a < 32
    ensures Wide(a) < Limit(1) && Wide(a) < Limit(2) && Wide(a) < Limit(3) && Wide(a) < Limit(4) && Wide(a) < Limit(5)
  {}

  /** Three symbols with remainder 0 within 1023 are zeros. */
  lemma TripleZero(i: nat, a: bv8, p: nat, b: bv8, q: nat, d: bv8)
    requires p > 0 && q > 0 && p + q < 1023 && a < 32 && b < 32 && d < 32
    requires Fold(0, Triple(i, a, p, b, q, d)) == 0
    ensures a == 0 && b == 0 && d == 0
  {
    Root997();
    Root998();
    Root999();
    ValueTriple(E997, 997, i, a, p, b, q, d);
    ValueTriple(E998, 998, i, a, p, b, q, d);
    ValueTriple(E999, 999, i, a, p, b, q, d);
    WideSmall(a);
    WideSmall(b);
    WideSmall(d);
    NoSolution(Wide(a), Wide(b), Wide(d), p + q, q);
  }

  /** The difference of two texts that agree outside three positions. */
  lemma DifferenceShape(x: seq<bv8>, y: seq<bv8>, i: nat, j: nat, k: nat)
    requires |x| == |y| && i < j < k < |x|
    requires forall m :: 0 <= m < |x| && m != i && m != j && m != k ==> x[m] == y[m]
    ensures Sum(x, y) == Triple(i, x[i] ^ y[i], j - i, x[j] ^ y[j], k - j, x[k] ^ y[k]) + Zeros(|x| - k - 1)
  {
    var t := Triple(i, x[i] ^ y[i], j - i, x[j] ^ y[j], k - j, x[k] ^ y[k]) + Zeros(|x| - k - 1);
    assert |t| == |x|;
    forall m | 0 <= m < |x| ensures Sum(x, y)[m] == t[m] {
      TripleAt(i, x[i] ^ y[i], j - i, x[j] ^ y[j], k - j, x[k] ^ y[k], m);
      if m != i && m != j && m != k { SameSymbols(x[m]); }
    }
  }

  lemma SameSymbols(v: bv8)
    ensures v ^ v == 0
  {}

  lemma TripleAt(i: nat, a: bv8, p: nat, b: bv8, q: nat, d: bv8, m: nat)
    requires p > 0 && q > 0
    ensures |Triple(i, a, p, b, q, d)| == i + p + q + 1
    ensures m <= i + p + q ==> Triple(i, a, p, b, q, d)[m] == if m == i then a else if m == i + p then b else if m == i + p + q then d else 0
  {}

  lemma DifferentSymbols(v: bv8, w: bv8)
    requires v < 32 && w < 32
    ensures v ^ w < 32 && (v ^ w == 0 <==> v == w)
  {}

  /** Texts with the same remainder that agree outside three positions within 1023 symbols are the
      same. */
  lemma ThreeChanges(c: bv32, x: seq<bv8>, y: seq<bv8>, i: nat, j: nat, k: nat)
    requires |x| == |y| && AllSymbols(x) && AllSymbols(y) && Fold(c, x) == Fold(c, y) && i < j < k < |x| && k - i < 1023
    requires forall m :: 0 <= m < |x| && m != i && m != j && m != k ==> x[m] == y[m]
    ensures x == y
  {
    SameRemainder(c, x, y);
    DifferenceShape(x, y, i, j, k);
    DifferentSymbols(x[i], y[i]);
    DifferentSymbols(x[j], y[j]);
    DifferentSymbols(x[k], y[k]);
    TripleVanishes(i, x[i] ^ y[i], j - i, x[j] ^ y[j], k - j, x[k] ^ y[k], |x| - k - 1);
  }

  lemma SameRemainder(c: bv32, x: seq<bv8>, y: seq<bv8>)
    requires |x| == |y| && Fold(c, x) == Fold(c, y)
    ensures Fold(0, Sum(x, y)) == 0
  {
    FoldLinear(c, c, x, y);
    XorSelf(c);
    XorSelf(Fold(c, x));
  }

  lemma TripleVanishes(i: nat, a: bv8, p: nat, b: bv8, q: nat, d: bv8, n: nat)
    requires p > 0 && q > 0 && p + q < 1023 && a < 32 && b < 32 && d < 32
    requires Fold(0, Triple(i, a, p, b, q, d) + Zeros(n)) == 0
    ensures a == 0 && b == 0 && d == 0
  {
    var t := Triple(i, a, p, b, q, d);
    FoldConcat(0, t, Zeros(n));
    forall m | 0 <= m < |t| ensures t[m] < 32 {
      TripleAt(i, a, p, b, q, d, m);
    }
    FoldIs30(0, t);
    ZerosInjective(Fold(0, t), n);
    TripleZero(i, a, p, b, q, d);
  }

  /** A change of at most three symbols within a window of 1023 symbols is always noticed by the
      encoding that accepted the symbols before. */
  lemma ThreeErrorsDetected(hrp: Text, x: seq<bv8>, y: seq<bv8>, i: nat, j: nat, k: nat)
    requires |x| == |y| && x != y && AllSymbols(x) && AllSymbols(y) && Verify(hrp, x) != Invalid
    requires i < j < k < |x| && k - i < 1023
    requires forall m :: 0 <= m < |x| && m != i && m != j && m != k ==> x[m] == y[m]
    ensures Verify(hrp, y) != Verify(hrp, x)
  {
    if Verify(hrp, y) == Verify(hrp, x) {
      assert x == [] + x && y == [] + y;
      ResidueConcat(hrp, [], x);
      ResidueConcat(hrp, [], y);
      ThreeChanges(Residue(hrp, []), x, y, i, j, k);
    }
  }
}
