/** Numbers as little-endian sequences of 32-bit limbs, as `base_uint` stores them. */
module Limbs {
  import opened Bits

  /** One more than the largest limb. */
  const B: nat := 0x1_0000_0000

  /** B to the power n, the modulus of an n-limb number. */
  function P(n: nat): (r: nat)
    ensures r > 0
  {
    if n == 0 then 1 else B * P(n - 1)
  }

  ghost predicate IsLimbs(s: seq<nat>) {
    forall i :: 0 <= i < |s| ==> s[i] < B
  }

  ghost function Val(s: seq<nat>): nat {
    if s == [] then 0 else s[0] + B * Val(s[1..])
  }

  lemma {:induction false} ValSnoc(s: seq<nat>, d: nat)
    ensures Val(s + [d]) == Val(s) + P(|s|) * d
  {
    if s == [] {
      assert Val([d]) == d + B * Val([]);
    } else {
      ValSnoc(s[1..], d);
      assert (s + [d])[1..] == s[1..] + [d];
      assert B * (P(|s| - 1) * d) == P(|s|) * d by { MulAssoc(B, P(|s| - 1), d); }
    }
  }

  lemma ValTake(s: seq<nat>, i: nat)
    requires i < |s|
    ensures Val(s[..i + 1]) == Val(s[..i]) + P(i) * s[i]
  {
    assert s[..i + 1] == s[..i] + [s[i]];
    ValSnoc(s[..i], s[i]);
  }

  lemma {:induction false} ValBound(s: seq<nat>)
    requires IsLimbs(s)
    ensures Val(s) < P(|s|)
  {
    if s != [] {
      ValBound(s[1..]);
      assert B * Val(s[1..]) <= B * (P(|s| - 1) - 1);
    }
  }

  lemma {:induction false} ValConcat(s: seq<nat>, t: seq<nat>)
    ensures Val(s + t) == Val(s) + P(|s|) * Val(t)
  {
    if s == [] {
      assert s + t == t;
    } else {
      ValConcat(s[1..], t);
      assert (s + t)[1..] == s[1..] + t;
      MulAssoc(B, P(|s| - 1), Val(t));
    }
  }

  lemma {:induction false} ValZero(s: seq<nat>)
    requires forall i :: 0 <= i < |s| ==> s[i] == 0
    ensures Val(s) == 0
  {
    if s != [] { ValZero(s[1..]); }
  }

  lemma {:induction false} PAdd(m: nat, n: nat)
    ensures P(m + n) == P(m) * P(n)
  {
    if m > 0 {
      PAdd(m - 1, n);
      MulAssoc(B, P(m - 1), P(n));
    }
  }

  lemma {:induction false} PIsPow2(n: nat)
    ensures P(n) == Pow2(32 * n)
  {
    if n > 0 {
      PIsPow2(n - 1);
      Pow2Add(32, 32 * (n - 1));
      Pow2Of32();
    }
  }

  lemma {:induction false} Pow2Add(m: nat, n: nat)
    ensures Pow2(m + n) == Pow2(m) * Pow2(n)
  {
    if m > 0 {
      Pow2Add(m - 1, n);
      MulAssoc(2, Pow2(m - 1), Pow2(n));
    }
  }

  lemma Pow2Of32()
    ensures Pow2(8) == 256 && Pow2(16) == 65536 && Pow2(32) == B
  {
    assert Pow2(8) == 256;
    Pow2Add(8, 8);
    Pow2Add(16, 16);
  }

  // ---------------------------------------------------------------------------------------
  // Products

  /** One limb of a carry chain: with d + B * c' == t, the total gains p * t. */
  lemma CarryStep(v: int, p: int, d: int, c': int, t: int)
    requires d + B * c' == t
    ensures v + p * d + (B * p) * c' == v + p * t
  {
    assert p * t == p * d + p * (B * c');
    MulAssoc(p, B, c');
  }
}
