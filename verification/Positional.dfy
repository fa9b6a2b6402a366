/** Big-endian positional notation in the two bases of Base58, and the sizes that a change of
    base needs. */
module Positional {
  import opened Bits

  /** The base of a string of digits. */
  datatype Radix = Base58 | Base256 {
    function Value(): nat {
      match this
      case Base58 => 58
      case Base256 => 256
    }

    function Times(n: nat): nat {
      match this
      case Base58 => 58 * n
      case Base256 => 256 * n
    }

    function Div(n: nat): nat {
      match this
      case Base58 => n / 58
      case Base256 => n / 256
    }

    function Mod(n: nat): nat {
      match this
      case Base58 => n % 58
      case Base256 => n % 256
    }

    function Other(): Radix {
      match this
      case Base58 => Base256
      case Base256 => Base58
    }
  }

  ghost predicate IsDigits(s: seq<nat>, r: Radix) {
    forall i :: 0 <= i < |s| ==> s[i] < r.Value()
  }

  /** The number that a big-endian string of digits stands for. */
  ghost function Number(s: seq<nat>, r: Radix): nat {
    if s == [] then 0 else r.Times(Number(s[..|s| - 1], r)) + s[|s| - 1]
  }

  /** The digits of a number, without leading zeros. */
  function Digits(n: nat, r: Radix): seq<nat>
    decreases n
  {
    if n == 0 then [] else Digits(r.Div(n), r) + [r.Mod(n)]
  }

  /** The base to the power n. */
  function Place(r: Radix, n: nat): (p: nat)
    ensures p > 0
  {
    if n == 0 then 1 else r.Times(Place(r, n - 1))
  }

  lemma {:induction false} NumberBound(s: seq<nat>, r: Radix)
    requires IsDigits(s, r)
    ensures Number(s, r) < Place(r, |s|)
  {
    if s != [] { NumberBound(s[..|s| - 1], r); }
  }

  lemma {:induction false} NumberConcat(s: seq<nat>, t: seq<nat>, r: Radix)
    ensures Number(s + t, r) == Number(s, r) * Place(r, |t|) + Number(t, r)
  {
    if t == [] {
      assert s + t == s;
    } else {
      var t' := t[..|t| - 1];
      NumberConcat(s, t', r);
      assert (s + t)[..|s + t| - 1] == s + t';
      ConcatAlgebra(r, Number(s, r), Place(r, |t'|), Number(t', r));
    }
  }

  lemma ConcatAlgebra(r: Radix, a: nat, p: nat, b: nat)
    ensures r.Times(a * p + b) == a * r.Times(p) + r.Times(b)
  {
    TimesProduct(r, a, p);
  }

  lemma TimesProduct(r: Radix, x: nat, p: nat)
    ensures r.Times(x * p) == x * r.Times(p)
  {
    MulAssoc(r.Value(), x, p);
    assert r.Value() * x == x * r.Value();
    MulAssoc(x, r.Value(), p);
  }

  lemma {:induction false} NumberZeros(s: seq<nat>, r: Radix)
    requires forall i :: 0 <= i < |s| ==> s[i] == 0
    ensures Number(s, r) == 0
  {
    if s != [] { NumberZeros(s[..|s| - 1], r); }
  }

  /** Leading zeros do not count. */
  lemma NumberSkip(s: seq<nat>, k: nat, r: Radix)
    requires k <= |s| && forall i :: 0 <= i < k ==> s[i] == 0
    ensures Number(s, r) == Number(s[k..], r)
  {
    assert s == s[..k] + s[k..];
    NumberConcat(s[..k], s[k..], r);
    NumberZeros(s[..k], r);
  }

  lemma PrependDigit(d: nat, s: seq<nat>, r: Radix)
    ensures Number([d] + s, r) == d * Place(r, |s|) + Number(s, r)
  {
    NumberConcat([d], s, r);
    assert Number([d], r) == r.Times(Number([], r)) + d;
  }

  /** A string of digits without a leading zero is the digits of its number. */
  lemma {:induction false} DigitsOfNumber(s: seq<nat>, r: Radix)
    requires IsDigits(s, r) && (s != [] ==> s[0] != 0)
    ensures Digits(Number(s, r), r) == s
    ensures s != [] ==> Number(s, r) > 0
  {
    if s != [] {
      DigitsOfNumber(s[..|s| - 1], r);
      SplitDigit(r, Number(s[..|s| - 1], r), s[|s| - 1]);
      assert s == s[..|s| - 1] + [s[|s| - 1]];
    }
  }

  lemma SplitDigit(r: Radix, n: nat, d: nat)
    requires d < r.Value()
    ensures r.Div(r.Times(n) + d) == n && r.Mod(r.Times(n) + d) == d
  {}

  lemma {:induction false} DigitsAreDigits(n: nat, r: Radix)
    ensures IsDigits(Digits(n, r), r) && Number(Digits(n, r), r) == n
    ensures n > 0 ==> Digits(n, r) != [] && Digits(n, r)[0] != 0
    ensures n == 0 ==> Digits(n, r) == []
    decreases n
  {
    if n > 0 {
      DigitsAreDigits(r.Div(n), r);
      var s := Digits(n, r);
      assert s[..|s| - 1] == Digits(r.Div(n), r);
    }
  }

  // ---------------------------------------------------------------------------------------
  // Powers

  function Pow(b: nat, n: nat): nat {
    if n == 0 then 1 else b * Pow(b, n - 1)
  }

  lemma {:induction false} PlaceIsPow(r: Radix, n: nat)
    ensures Place(r, n) == Pow(r.Value(), n)
  {
    if n > 0 { PlaceIsPow(r, n - 1); }
  }

  lemma {:induction false} PowPositive(b: nat, n: nat)
    requires b > 0
    ensures Pow(b, n) > 0
  {
    if n > 0 { PowPositive(b, n - 1); MulMono(1, b, Pow(b, n - 1)); }
  }

  lemma {:induction false} PowAdd(b: nat, m: nat, n: nat)
    ensures Pow(b, m + n) == Pow(b, m) * Pow(b, n)
  {
    if m > 0 {
      PowAdd(b, m - 1, n);
      MulAssoc(b, Pow(b, m - 1), Pow(b, n));
    }
  }

  lemma {:induction false} PowMul(b: nat, m: nat, n: nat)
    ensures Pow(b, m * n) == Pow(Pow(b, m), n)
  {
    if n == 0 {
      assert m * 0 == 0;
    } else {
      PowMul(b, m, n - 1);
      Distribute(m, n - 1, 1);
      PowAdd(b, m, m * (n - 1));
    }
  }

  lemma {:induction false} PowMonoExp(b: nat, m: nat, n: nat)
    requires b > 0 && m <= n
    ensures Pow(b, m) <= Pow(b, n)
  {
    if m < n {
      PowMonoExp(b, m, n - 1);
      MulMono(1, b, Pow(b, n - 1));
    }
  }

  lemma {:induction false} PowMonoBase(a: nat, b: nat, n: nat)
    requires a <= b
    ensures Pow(a, n) <= Pow(b, n)
  {
    if n > 0 {
      PowMonoBase(a, b, n - 1);
      MulMono(a, b, Pow(a, n - 1));
      MulMono(Pow(a, n - 1), Pow(b, n - 1), b);
    }
  }

  // ---------------------------------------------------------------------------------------
  // How many digits of one base hold n digits of another

  lemma {:induction false} PowStrict(x: nat, y: nat, n: nat)
    requires x < y && n > 0
    ensures Pow(x, n) < Pow(y, n)
  {
    if n == 1 {
      assert Pow(x, 1) == x * Pow(x, 0) && Pow(y, 1) == y * Pow(y, 0);
      assert Pow(x, 0) == 1 && Pow(y, 0) == 1;
    } else {
      PowStrict(x, y, n - 1);
      MulMono(Pow(x, n - 1), Pow(y, n - 1), x);
      PowPositive(y, n - 1);
      MulMono(x + 1, y, Pow(y, n - 1));
      Distribute(Pow(y, n - 1), x, 1);
    }
  }

  /** If `a` digits of base y hold `b` digits of base x, then `size` digits of base y hold
      n digits of base x as soon as size / n is at least a / b. */
  lemma SizeSuffices(x: nat, y: nat, a: nat, b: nat, n: nat, size: nat)
    requires y > 0 && b > 0 && Pow(x, b) <= Pow(y, a) && a * n <= size * b
    ensures Pow(x, n) <= Pow(y, size)
  {
    PowSwap(x, n, b);
    PowMonoBase(Pow(x, b), Pow(y, a), n);
    PowRaise(y, a, n, size, b);
    if Pow(x, n) > Pow(y, size) { PowStrict(Pow(y, size), Pow(x, n), b); }
  }

  lemma PowSwap(x: nat, m: nat, n: nat)
    ensures Pow(Pow(x, m), n) == Pow(Pow(x, n), m)
  {
    PowMul(x, m, n);
    PowMul(x, n, m);
    assert m * n == n * m;
  }

  lemma PowRaise(y: nat, a: nat, n: nat, c: nat, b: nat)
    requires y > 0 && a * n <= c * b
    ensures Pow(Pow(y, a), n) <= Pow(Pow(y, c), b)
  {
    MulMono(0, a, n);
    MulMono(0, c, b);
    var e: nat, f: nat := a * n, c * b;
    PowMul(y, a, n);
    PowMul(y, c, b);
    PowMonoExp(y, e, f);
  }

  lemma Base58HoldsBytes()
    ensures Pow(256, 8) <= Pow(58, 11)
  {
  }

  /** The buffer of the printer is large enough at any length. */
  lemma EncodeSize(n: nat)
    ensures Place(Base256, n) <= Place(Base58, n * 138 / 100 + 1)
  {
    Base58HoldsBytes();
    PlaceIsPow(Base256, n);
    PlaceIsPow(Base58, n * 138 / 100 + 1);
    SizeSuffices(256, 58, 11, 8, n, n * 138 / 100 + 1);
  }

  /** The buffer of the parser is large enough at any length. */
  lemma DecodeSize(n: nat)
    ensures Place(Base58, n) <= Place(Base256, n * 733 / 1000 + 1)
  {
    BytesHoldBase58();
    PlaceIsPow(Base58, n);
    PlaceIsPow(Base256, n * 733 / 1000 + 1);
    SizeSuffices(58, 256, 52, 71, n, n * 733 / 1000 + 1);
  }

  lemma BytesHoldBase58()
    ensures Pow(58, 71) <= Pow(256, 52)
  {
    assert Pow(58, 10) == 430804206899405824;
    PowAdd(58, 10, 10);
    PowAdd(58, 20, 20);
    PowAdd(58, 40, 20);
    PowAdd(58, 60, 10);
    PowAdd(58, 1, 70);
    assert Pow(256, 13) == 20282409603651670423947251286016;
    PowAdd(256, 13, 13);
    PowAdd(256, 26, 26);
  }
}
