/** What shifting does limb by limb. */
module Shifts {
  import opened Bits
  import opened Limbs

  /** `d << s` in 32 bits. */
  function Low(d: nat, s: nat): nat {
    (d * Pow2(s)) % 0x1_0000_0000
  }

  /** The bits that `d << s` pushes out. */
  function High(d: nat, s: nat): nat
    requires s < 32
  {
    if s == 0 then 0 else Shr(d, 32 - s)
  }

  lemma LowIs(d: nat, s: nat)
    requires d < B && s <= 32
    ensures Low(d, s) == Pow2(s) * LowBits(d, 32 - s)
    ensures Low(d, s) + B * Shr(d, 32 - s) == d * Pow2(s)
  {
    ShrSplit(d, 32 - s);
    Pow2Add(s, 32 - s);
    Pow2Of32();
    ScaleSplit(d, Pow2(s), Pow2(32 - s), LowBits(d, 32 - s), Shr(d, 32 - s), B);
  }

  lemma HighBound(d: nat, s: nat)
    requires d < B && s < 32
    ensures High(d, s) < Pow2(s)
  {
    var p, q, hi := Pow2(s), Pow2(32 - s), Shr(d, 32 - s);
    if s > 0 && hi >= p {
      ShrSplit(d, 32 - s);
      Pow2Add(s, 32 - s);
      Pow2Of32();
      MulMono(p, hi, q);
    }
  }

  /** The two parts of a shifted limb are together d * 2^s. */
  lemma Parts(d: nat, s: nat)
    requires d < B && s < 32
    ensures Low(d, s) + B * High(d, s) == d * Pow2(s)
  {
    if s == 0 { assert Pow2(0) == 1 && Low(d, 0) == d; } else { LowIs(d, s); }
  }

  /** The high part of one limb and the low part of the next fit side by side. */
  lemma SideBySide(d: nat, e: nat, s: nat)
    requires d < B && e < B && s < 32
    ensures Or(High(e, s), Low(d, s)) == Low(d, s) + High(e, s) < B
  {
    LowIs(d, s);
    HighBound(e, s);
    ShrSplit(d, 32 - s);
    OrDisjoint(LowBits(d, 32 - s), High(e, s), s);
    Pow2Add(s, 32 - s);
    Pow2Of32();
    Compose(Pow2(s), Pow2(32 - s), LowBits(d, 32 - s), High(e, s));
  }

  lemma Compose(p: nat, q: nat, lo: nat, hi: nat)
    requires lo < q && hi < p
    ensures p * lo + hi < p * q
  {
    MulMono(lo + 1, q, p);
    Distribute(p, lo, 1);
  }

  /** Limb m of x shifted left by s < 32 bits. */
  function ShlLimb(x: seq<nat>, s: nat, m: nat): nat
    requires s < 32 && m < |x|
  {
    Low(x[m], s) + if m == 0 then 0 else High(x[m - 1], s)
  }

  lemma ChainAlgebra(v: int, p: int, lo: int, hi: int, c: int, w: int, d: int, e: int)
    requires v + p * c == e * w && lo + B * hi == d * e
    ensures v + p * (lo + c) + (B * p) * hi == e * (w + p * d)
  {
    Distribute(p, lo, c);
    Distribute(e, w, p * d);
    CarryStep(v + p * c, p, lo, hi, d * e);
    assert p * (d * e) == e * (p * d);
  }

  /** The carry chain of a left shift. */
  lemma {:induction false} ShlVal(x: seq<nat>, s: nat, t: seq<nat>, i: nat)
    requires IsLimbs(x) && s < 32 && |t| == |x| && i <= |x|
    requires forall m :: 0 <= m < |x| ==> t[m] == ShlLimb(x, s, m)
    ensures Val(t[..i]) + P(i) * (if i == 0 then 0 else High(x[i - 1], s)) == Pow2(s) * Val(x[..i])
  {
    if i > 0 {
      ShlVal(x, s, t, i - 1);
      ValTake(t, i - 1);
      ValTake(x, i - 1);
      Parts(x[i - 1], s);
      ChainAlgebra(Val(t[..i - 1]), P(i - 1), Low(x[i - 1], s), High(x[i - 1], s),
                   if i == 1 then 0 else High(x[i - 2], s), Val(x[..i - 1]), x[i - 1], Pow2(s));
    }
  }

  lemma ShlAlgebra(w: nat, e: nat, k: nat, n': nat, t: nat, u: nat, c: nat, r: nat)
    requires e * w == t + n' * u + (k * n') * c && r == k * t && r < k * n'
    ensures (w * (k * e)) % (k * n') == r
  {
    var m := k * n';
    assert w * (k * e) == k * (e * w);
    Distribute(k, t + n' * u, m * c);
    Distribute(k, t, n' * u);
    MulAssoc(k, n', u);
    assert k * (m * c) == m * (k * c);
    Distribute(m, u, k * c);
    ModIs(w * (k * e), m, u + k * c, r);
  }

  lemma ShlOutAlgebra(w: nat, e: nat, n: nat, k': nat)
    requires n > 0
    ensures (w * ((n * k') * e)) % n == 0
  {
    assert w * ((n * k') * e) == n * (k' * (w * e));
    ModIs(w * ((n * k') * e), n, k' * (w * e), 0);
  }

  /** A left shift by 32k + s bits, truncated to the width, is multiplication modulo P(|x|). */
  lemma ShlCorrect(x: seq<nat>, k: nat, s: nat, r: seq<nat>)
    requires IsLimbs(x) && s < 32 && |r| == |x|
    requires forall m :: 0 <= m < |x| ==> r[m] == if m < k then 0 else ShlLimb(x, s, m - k)
    ensures IsLimbs(r) && Val(r) == (Val(x) * Pow2(32 * k + s)) % P(|x|)
  {
    forall m | 0 <= m < |x| ensures r[m] < B {
      if m >= k { SideBySide(x[m - k], if m == k then 0 else x[m - k - 1], s); }
    }
    var n := |x|;
    PIsPow2(k);
    Pow2Add(32 * k, s);
    if k >= n {
      ValZero(r);
      PAdd(n, k - n);
      ShlOutAlgebra(Val(x), Pow2(s), P(n), P(k - n));
    } else {
      var t := seq(n, m requires 0 <= m < n => ShlLimb(x, s, m));
      ShlVal(x, s, t, n);
      assert t[..n] == t && x[..n] == x;
      assert r == r[..k] + r[k..] && r[k..] == t[..n - k] && t == t[..n - k] + t[n - k..];
      ValZero(r[..k]);
      ValConcat(r[..k], r[k..]);
      ValConcat(t[..n - k], t[n - k..]);
      ValBound(r);
      PAdd(k, n - k);
      ShlAlgebra(Val(x), Pow2(s), P(k), P(n - k), Val(t[..n - k]), Val(t[n - k..]), High(x[n - 1], s), Val(r));
    }
  }

  /** Limb m of x shifted right by s < 32 bits. */
  function ShrLimb(x: seq<nat>, s: nat, m: nat): nat
    requires s < 32 && m < |x|
  {
    Shr(x[m], s) + if s == 0 || m + 1 == |x| then 0 else Low(x[m + 1], 32 - s)
  }

  /** The low part of one limb, moved up, and the high part of the limb below fit side by side. */
  lemma SideBySideRight(d: nat, e: nat, s: nat)
    requires d < B && e < B && 0 < s < 32
    ensures Or(Shr(d, s), Low(e, 32 - s)) == Shr(d, s) + Low(e, 32 - s) < B
    ensures Low(e, 32 - s) == Pow2(32 - s) * LowBits(e, s)
  {
    SideBySide(e, d, 32 - s);
    LowIs(e, 32 - s);
  }

  lemma ShrAlgebra(p: int, q: int, hi: int, lo: int, lo': int, v: int, w: int, d: int)
    requires d == p * hi + lo && p * v + lo' == w && p * q == B
    ensures p * (hi + q * lo' + B * v) + lo == d + B * w
  {
    Distribute(p, hi + q * lo', B * v);
    Distribute(p, hi, q * lo');
    MulAssoc(p, q, lo');
    Distribute(B, p * v, lo');
    assert p * (B * v) == B * (p * v);
  }

  /** A right shift by s < 32 bits drops exactly the low s bits. */
  lemma {:induction false} ShrVal(x: seq<nat>, s: nat, t: seq<nat>)
    requires IsLimbs(x) && s < 32 && |t| == |x|
    requires forall m :: 0 <= m < |x| ==> t[m] == ShrLimb(x, s, m)
    ensures Pow2(s) * Val(t) + (if x == [] then 0 else LowBits(x[0], s)) == Val(x)
  {
    if x != [] {
      forall m | 0 <= m < |x[1..]| ensures t[1..][m] == ShrLimb(x[1..], s, m) {
        assert t[m + 1] == ShrLimb(x, s, m + 1);
      }
      ShrVal(x[1..], s, t[1..]);
      ShrFirst(x, s);
      ShrSplit(x[0], s);
      Pow2Add(s, 32 - s);
      Pow2Of32();
      ShrAlgebra(Pow2(s), Pow2(32 - s), Shr(x[0], s), LowBits(x[0], s), LowOfNext(x, s), Val(t[1..]), Val(x[1..]), x[0]);
      assert Val(t) == t[0] + B * Val(t[1..]) && Val(x) == x[0] + B * Val(x[1..]);
    }
  }

  /** The bits that the next limb hands down. */
  function LowOfNext(x: seq<nat>, s: nat): nat
    requires x != []
  {
    if |x| == 1 then 0 else LowBits(x[1], s)
  }

  lemma ShrFirst(x: seq<nat>, s: nat)
    requires IsLimbs(x) && s < 32 && x != []
    ensures ShrLimb(x, s, 0) == Shr(x[0], s) + Pow2(32 - s) * LowOfNext(x, s)
  {
    if |x| > 1 && s > 0 { SideBySideRight(x[0], x[1], s); } else { assert LowOfNext(x, s) == 0; }
  }

  lemma ShrOut(x: nat, k: nat, e: nat, lo: nat, lo': nat, w: nat, v: nat)
    requires x == lo + k * w && w == e * v + lo' && lo < k && lo' < e
    ensures k * e > 0 && x / (k * e) == v
  {
    Distribute(k, e * v, lo');
    MulAssoc(k, e, v);
    Compose(k, e, lo', lo);
    ModIs(x, k * e, v, k * lo' + lo);
  }

  /** A right shift by 32k + s bits is division by 2^(32k + s). */
  lemma ShrCorrect(x: seq<nat>, k: nat, s: nat, r: seq<nat>)
    requires IsLimbs(x) && s < 32 && |r| == |x|
    requires forall m :: 0 <= m < |x| ==> r[m] == if m + k >= |x| then 0 else ShrLimb(x, s, m + k)
    ensures IsLimbs(r) && Val(r) == Val(x) / Pow2(32 * k + s)
  {
    var n := |x|;
    PIsPow2(k);
    Pow2Add(32 * k, s);
    if k >= n {
      ValZero(r);
      ValBound(x);
      PAdd(n, k - n);
      Small(Val(x), P(n), P(k - n), Pow2(s));
    } else {
      var y, t := x[k..], r[..n - k];
      forall m | 0 <= m < |y| ensures t[m] == ShrLimb(y, s, m) {
        assert r[m] == ShrLimb(x, s, m + k);
      }
      forall m | 0 <= m < n ensures r[m] < B {
        if m + k < n { ShrLimbFits(x, s, m + k); }
      }
      ShrVal(y, s, t);
      assert r == t + r[n - k..];
      ValZero(r[n - k..]);
      ValConcat(t, r[n - k..]);
      ShrWithin(x, k, s, Val(t));
    }
  }

  lemma ShrWithin(x: seq<nat>, k: nat, s: nat, v: nat)
    requires IsLimbs(x) && k < |x| && Pow2(s) * v + LowBits(x[k], s) == Val(x[k..])
    ensures Pow2(s) > 0 && P(k) * Pow2(s) > 0 && v == Val(x) / (P(k) * Pow2(s))
  {
    ShrSplit(x[k], s);
    assert x == x[..k] + x[k..];
    ValConcat(x[..k], x[k..]);
    ValBound(x[..k]);
    ShrOut(Val(x), P(k), Pow2(s), Val(x[..k]), LowBits(x[k], s), Val(x[k..]), v);
  }

  lemma Small(x: nat, n: nat, k': nat, e: nat)
    requires x < n && k' > 0 && e > 0
    ensures x / ((n * k') * e) == 0
  {
    MulMono(1, k' * e, n);
    MulAssoc(n, k', e);
    ModIs(x, (n * k') * e, 0, x);
  }

  lemma ShrLimbFits(x: seq<nat>, s: nat, m: nat)
    requires IsLimbs(x) && s < 32 && m < |x|
    ensures ShrLimb(x, s, m) < B
  {
    ShrSplit(x[m], s);
    MulMono(1, Pow2(s), Shr(x[m], s));
    if s > 0 && m + 1 < |x| { SideBySideRight(x[m], x[m + 1], s); }
  }

  // ---------------------------------------------------------------------------------------
  // The loops, limb by limb

  /** The body of both loops: `|=` the two parts of a limb into place, each only if its place
      exists, and the part that crosses into another limb only if there is one. */
  function OrParts(t: seq<nat>, i: int, crossing: nat, crosses: bool, j: int, staying: nat): (r: seq<nat>)
    ensures |r| == |t|
  {
    var t1 := if 0 <= i < |t| && crosses then t[i := Or(t[i], crossing)] else t;
    if 0 <= j < |t| then t1[j := Or(t1[j], staying)] else t1
  }

  function Zeros(n: nat): seq<nat> {
    seq(n, _ => 0)
  }

  /** The limbs after i iterations of the loop of `<<=`. */
  function ShlState(x: seq<nat>, k: nat, s: nat, i: nat): (t: seq<nat>)
    requires s < 32 && i <= |x|
    ensures |t| == |x|
  {
    if i == 0 then Zeros(|x|)
    else
      var d := x[i - 1];
      OrParts(ShlState(x, k, s, i - 1), i + k, High(d, s), s != 0, i - 1 + k, Low(d, s))
  }

  /** Limb m after the limbs below i have been distributed. */
  ghost function ShlSoFar(x: seq<nat>, k: nat, s: nat, i: nat, m: nat): nat
    requires s < 32 && m < |x|
  {
    (if k <= m < k + i then Low(x[m - k], s) else 0) + (if k < m <= k + i then High(x[m - k - 1], s) else 0)
  }

  lemma {:induction false} ShlStateIs(x: seq<nat>, k: nat, s: nat, i: nat)
    requires s < 32 && IsLimbs(x) && i <= |x|
    ensures forall m :: 0 <= m < |x| ==> ShlState(x, k, s, i)[m] == ShlSoFar(x, k, s, i, m)
  {
    if i > 0 {
      ShlStateIs(x, k, s, i - 1);
      if i > 1 { SideBySide(x[i - 1], x[i - 2], s); }
    }
  }

  /** The whole loop of `<<=`. */
  lemma ShlDone(x: seq<nat>, k: nat, s: nat)
    requires IsLimbs(x) && s < 32
    ensures var t := ShlState(x, k, s, |x|);
            IsLimbs(t) && Val(t) == (Val(x) * Pow2(32 * k + s)) % P(|x|)
  {
    ShlStateIs(x, k, s, |x|);
    ShlCorrect(x, k, s, ShlState(x, k, s, |x|));
  }

  /** The limbs after i iterations of the loop of `>>=`. */
  function ShrState(x: seq<nat>, k: nat, s: nat, i: nat): (t: seq<nat>)
    requires s < 32 && i <= |x|
    ensures |t| == |x|
  {
    if i == 0 then Zeros(|x|)
    else
      var d := x[i - 1];
      OrParts(ShrState(x, k, s, i - 1), i - k - 2, Low(d, 32 - s), s != 0, i - 1 - k, Shr(d, s))
  }

  /** Limb m after the limbs below i have been distributed. */
  ghost function ShrSoFar(x: seq<nat>, k: nat, s: nat, i: nat, m: nat): nat
    requires s < 32 && m < |x| && i <= |x|
  {
    (if m + k < i then Shr(x[m + k], s) else 0) + (if s != 0 && m + k + 1 < i then Low(x[m + k + 1], 32 - s) else 0)
  }

  lemma {:induction false} ShrStateIs(x: seq<nat>, k: nat, s: nat, i: nat)
    requires s < 32 && IsLimbs(x) && i <= |x|
    ensures forall m :: 0 <= m < |x| ==> ShrState(x, k, s, i)[m] == ShrSoFar(x, k, s, i, m)
  {
    if i > 0 {
      ShrStateIs(x, k, s, i - 1);
      if i > 1 && s > 0 { SideBySideRight(x[i - 2], x[i - 1], s); }
    }
  }

  /** The whole loop of `>>=`. */
  lemma ShrDone(x: seq<nat>, k: nat, s: nat)
    requires IsLimbs(x) && s < 32
    ensures var t := ShrState(x, k, s, |x|);
            IsLimbs(t) && Val(t) == Val(x) / Pow2(32 * k + s)
  {
    ShrStateIs(x, k, s, |x|);
    ShrCorrect(x, k, s, ShrState(x, k, s, |x|));
  }
}
