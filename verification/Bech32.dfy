/** The Bech32 and Bech32m text encodings: a human readable part, a separator and 5-bit symbols
    of which the last six are a checksum (sections "Bech32" of BIP 173 and "Bech32m" of BIP 350).
    Characters and symbols are bytes. */
module Bech32 {
  type Text = seq<bv8>

  const CHECKSUM_SIZE: nat := 6
  const SEPARATOR: bv8 := 49

  datatype Encoding = Invalid | Bech32 | Bech32m

  datatype DecodeResult = DecodeResult(encoding: Encoding, hrp: Text, data: seq<bv8>)

  const FAILED := DecodeResult(Invalid, [], [])

  // ----- Characters -----

  function LowerCase(c: bv8): bv8 {
    if 65 <= c <= 90 then c - 65 + 97 else c
  }

  predicate IsLower(c: bv8) { 97 <= c <= 122 }

  predicate IsUpper(c: bv8) { 65 <= c <= 90 }

  predicate IsPrintable(c: bv8) { 33 <= c <= 126 }

  /** `CHARSET`: "qpzry9x8gf2tvdw0s3jn54khce6mua7l". */
  function Charset(v: bv8): (c: bv8)
    requires v < 32
    ensures c < 128
  {
    if v == 0 then 113 else if v == 1 then 112 else if v == 2 then 122 else if v == 3 then 114
    else if v == 4 then 121 else if v == 5 then 57 else if v == 6 then 120 else if v == 7 then 56
    else if v == 8 then 103 else if v == 9 then 102 else if v == 10 then 50 else if v == 11 then 116
    else if v == 12 then 118 else if v == 13 then 100 else if v == 14 then 119 else if v == 15 then 48
    else if v == 16 then 115 else if v == 17 then 51 else if v == 18 then 106 else if v == 19 then 110
    else if v == 20 then 53 else if v == 21 then 52 else if v == 22 then 107 else if v == 23 then 104
    else if v == 24 then 99 else if v == 25 then 101 else if v == 26 then 54 else if v == 27 then 109
    else if v == 28 then 117 else if v == 29 then 97 else if v == 30 then 55 else 108
  }

  /** What `CHARSET_REV` holds for a character without a value (-1 as a byte). */
  const NO_SYMBOL: bv8 := 255

  /** `CHARSET_REV`, whose rows for the two cases of a letter are equal. */
  function CharsetRev(c: bv8): (v: bv8)
    requires c < 128
    ensures v == NO_SYMBOL || v < 32
  {
    LowerRev(LowerCase(c))
  }

  function LowerRev(c: bv8): bv8 {
    if c == 48 then 15 else if c == 50 then 10 else if c == 51 then 17 else if c == 52 then 21
    else if c == 53 then 20 else if c == 54 then 26 else if c == 55 then 30 else if c == 56 then 7
    else if c == 57 then 5 else if c == 97 then 29 else if c == 99 then 24
    else if c == 100 then 13 else if c == 101 then 25
    else if c == 102 then 9 else if c == 103 then 8
    else if c == 104 then 23 else if c == 106 then 18
    else if c == 107 then 22 else if c == 108 then 31
    else if c == 109 then 27 else if c == 110 then 19
    else if c == 112 then 1 else if c == 113 then 0
    else if c == 114 then 3 else if c == 115 then 16
    else if c == 116 then 11 else if c == 117 then 28
    else if c == 118 then 12 else if c == 119 then 14
    else if c == 120 then 6 else if c == 121 then 4
    else if c == 122 then 2 else NO_SYMBOL
  }

  /** The two tables are inverse of each other, up to the case of letters. */
  lemma CharsetOk(v: bv8)
    requires v < 32
    ensures CharsetRev(Charset(v)) == v
  {
    if v < 8 {
      CharsetOk0(v);
    } else if v < 16 {
      CharsetOk1(v);
    } else if v < 24 {
      CharsetOk2(v);
    } else {
      CharsetOk3(v);
    }
  }

  lemma CharsetRange(v: bv8)
    requires v < 32
    ensures IsPrintable(Charset(v)) && !IsUpper(Charset(v)) && Charset(v) != SEPARATOR
  {}

  lemma CharsetOk0(v: bv8)
    requires 0 <= v < 8
    ensures CharsetRev(Charset(v)) == v
  {}

  lemma CharsetOk1(v: bv8)
    requires 8 <= v < 16
    ensures CharsetRev(Charset(v)) == v
  {}

  lemma CharsetOk2(v: bv8)
    requires 16 <= v < 24
    ensures CharsetRev(Charset(v)) == v
  {}

  lemma CharsetOk3(v: bv8)
    requires 24 <= v < 32
    ensures CharsetRev(Charset(v)) == v
  {}

  lemma CharsetRevOk(c: bv8)
    requires c < 128 && CharsetRev(c) != NO_SYMBOL
    ensures CharsetRev(c) < 32 && Charset(CharsetRev(c)) == LowerCase(c)
  {
    var l := LowerCase(c);
    if l < 58 {
      DigitRevOk(l);
    } else if l < 110 {
      FrontRevOk(l);
    } else {
      BackRevOk(l);
    }
  }

  lemma DigitRevOk(c: bv8)
    requires c < 58 && LowerRev(c) != NO_SYMBOL
    ensures LowerRev(c) < 32 && Charset(LowerRev(c)) == c
  {}

  lemma FrontRevOk(c: bv8)
    requires 58 <= c < 110 && LowerRev(c) != NO_SYMBOL
    ensures LowerRev(c) < 32 && Charset(LowerRev(c)) == c
  {}

  lemma BackRevOk(c: bv8)
    requires 110 <= c && LowerRev(c) != NO_SYMBOL
    ensures LowerRev(c) < 32 && Charset(LowerRev(c)) == c
  {}

  // ----- The checksum as a polynomial remainder -----

  const K1: bv32 := 0x3b6a57b2
  const K2: bv32 := 0x26508e6d
  const K4: bv32 := 0x1ea119fa
  const K8: bv32 := 0x3d4233dd
  const K16: bv32 := 0x2a1462b3

  function Xor(a: bv32, b: bv32): bv32 { a ^ b }

  function Pick(c0: bv32, bit: bv32, k: bv32): bv32 {
    if c0 & bit != 0 then k else 0
  }

  /** The multiple of x^6 mod g(x) that the bits of c0 select. */
  function Reduce(c0: bv32): bv32 {
    Xor(Xor(Xor(Xor(Pick(c0, 1, K1), Pick(c0, 2, K2)), Pick(c0, 4, K4)), Pick(c0, 8, K8)), Pick(c0, 16, K16))
  }

  function Shift(c: bv32): bv32 { (c & 0x1ffffff) << 5 }

  function High(c: bv32): bv32 { c >> 25 }

  function Wide(v: bv8): bv32 { v as bv32 }

  /** One iteration of `PolyMod`: the remainder of c(x) * x + v. */
  function Step(c: bv32, v: bv8): bv32 {
    Xor(Xor(Shift(c), Wide(v)), Reduce(High(c)))
  }

  function Fold(c: bv32, v: seq<bv8>): bv32 {
    if v == [] then c else Step(Fold(c, v[..|v| - 1]), v[|v| - 1])
  }

  predicate Is30(c: bv32) { c < 0x40000000 }

  predicate AllSymbols(v: seq<bv8>) {
    forall i :: 0 <= i < |v| ==> v[i] < 32
  }

  lemma PickLinear(a: bv32, b: bv32, bit: bv32, k: bv32)
    requires bit == 1 || bit == 2 || bit == 4 || bit == 8 || bit == 16
    ensures Pick(Xor(a, b), bit, k) == Xor(Pick(a, bit, k), Pick(b, bit, k))
  {
    assert (a ^ b) & bit == (a & bit) ^ (b & bit);
  }

  /** If p and q are sums over a and b, so is their sum. */
  lemma Gather(p: bv32, a: bv32, b: bv32, q: bv32, a': bv32, b': bv32)
    requires p == Xor(a, b) && q == Xor(a', b')
    ensures Xor(p, q) == Xor(Xor(a, a'), Xor(b, b'))
  {
    Shuffle(a, b, a', b');
  }

  lemma Shuffle(a: bv32, b: bv32, a': bv32, b': bv32)
    ensures Xor(Xor(a, b), Xor(a', b')) == Xor(Xor(a, a'), Xor(b, b'))
  {
    XorAssoc(a, b, Xor(a', b'));
    XorAssoc(b, a', b');
    XorAssoc(a', b, b');
    XorAssoc(a, a', Xor(b, b'));
  }

  lemma XorAssoc(a: bv32, b: bv32, c: bv32)
    ensures Xor(Xor(a, b), c) == Xor(a, Xor(b, c))
    ensures Xor(a, b) == Xor(b, a)
  {}

  lemma ReduceLinear(a: bv32, b: bv32)
    ensures Reduce(Xor(a, b)) == Xor(Reduce(a), Reduce(b))
  {
    var c := Xor(a, b);
    PickLinear(a, b, 1, K1);
    PickLinear(a, b, 2, K2);
    Gather(Pick(c, 1, K1), Pick(a, 1, K1), Pick(b, 1, K1), Pick(c, 2, K2), Pick(a, 2, K2), Pick(b, 2, K2));
    var c2, a2, b2 := Xor(Pick(c, 1, K1), Pick(c, 2, K2)), Xor(Pick(a, 1, K1), Pick(a, 2, K2)), Xor(Pick(b, 1, K1), Pick(b, 2, K2));
    PickLinear(a, b, 4, K4);
    Gather(c2, a2, b2, Pick(c, 4, K4), Pick(a, 4, K4), Pick(b, 4, K4));
    var c3, a3, b3 := Xor(c2, Pick(c, 4, K4)), Xor(a2, Pick(a, 4, K4)), Xor(b2, Pick(b, 4, K4));
    PickLinear(a, b, 8, K8);
    Gather(c3, a3, b3, Pick(c, 8, K8), Pick(a, 8, K8), Pick(b, 8, K8));
    var c4, a4, b4 := Xor(c3, Pick(c, 8, K8)), Xor(a3, Pick(a, 8, K8)), Xor(b3, Pick(b, 8, K8));
    PickLinear(a, b, 16, K16);
    Gather(c4, a4, b4, Pick(c, 16, K16), Pick(a, 16, K16), Pick(b, 16, K16));
  }

  lemma PartsLinear(a: bv32, b: bv32, x: bv8, y: bv8)
    ensures Shift(Xor(a, b)) == Xor(Shift(a), Shift(b))
    ensures Wide(x ^ y) == Xor(Wide(x), Wide(y))
    ensures High(Xor(a, b)) == Xor(High(a), High(b))
  {}

  lemma StepLinear(a: bv32, b: bv32, x: bv8, y: bv8)
    ensures Step(Xor(a, b), x ^ y) == Xor(Step(a, x), Step(b, y))
  {
    PartsLinear(a, b, x, y);
    var c, z := Xor(a, b), x ^ y;
    ReduceLinear(High(a), High(b));
    Gather(Shift(c), Shift(a), Shift(b), Wide(z), Wide(x), Wide(y));
    Gather(Xor(Shift(c), Wide(z)), Xor(Shift(a), Wide(x)), Xor(Shift(b), Wide(y)), Reduce(High(c)), Reduce(High(a)), Reduce(High(b)));
  }

  lemma StepInjective(c: bv32)
    requires Is30(c) && Step(c, 0) == 0
    ensures c == 0
  {}

  lemma StepIs30(c: bv32, v: bv8)
    requires Is30(c) && v < 32
    ensures Is30(Step(c, v))
  {}

  lemma {:induction false} FoldConcat(c: bv32, x: seq<bv8>, y: seq<bv8>)
    ensures Fold(c, x + y) == Fold(Fold(c, x), y)
  {
    if y == [] {
      assert x + y == x;
    } else {
      var n := |y| - 1;
      FoldConcat(c, x, y[..n]);
      assert (x + y)[..|x + y| - 1] == x + y[..n];
    }
  }

  lemma {:induction false} FoldIs30(c: bv32, x: seq<bv8>)
    requires Is30(c) && AllSymbols(x)
    ensures Is30(Fold(c, x))
  {
    if x != [] {
      var n := |x| - 1;
      FoldIs30(c, x[..n]);
      StepIs30(Fold(c, x[..n]), x[n]);
    }
  }

  function Sum(x: seq<bv8>, y: seq<bv8>): (z: seq<bv8>)
    requires |x| == |y|
    ensures |z| == |x| && forall i :: 0 <= i < |z| ==> z[i] == x[i] ^ y[i]
  {
    seq(|x|, i requires 0 <= i < |x| => x[i] ^ y[i])
  }

  /** The remainder is linear: that of a sum is the sum of the remainders. */
  lemma {:induction false} FoldLinear(a: bv32, b: bv32, x: seq<bv8>, y: seq<bv8>)
    requires |x| == |y|
    ensures Fold(Xor(a, b), Sum(x, y)) == Xor(Fold(a, x), Fold(b, y))
  {
    if x != [] {
      var n := |x| - 1;
      FoldLinear(a, b, x[..n], y[..n]);
      assert Sum(x, y)[..n] == Sum(x[..n], y[..n]);
      StepLinear(Fold(a, x[..n]), Fold(b, y[..n]), x[n], y[n]);
    }
  }

  function Zeros(n: nat): seq<bv8> { seq(n, _ => 0) }

  lemma {:induction false} ZerosInjective(c: bv32, n: nat)
    requires Is30(c) && Fold(c, Zeros(n)) == 0
    ensures c == 0
  {
    if n > 0 {
      assert Zeros(n)[..n - 1] == Zeros(n - 1);
      FoldIs30(c, Zeros(n - 1));
      StepInjective(Fold(c, Zeros(n - 1)));
      ZerosInjective(c, n - 1);
    }
  }

  lemma {:induction false} ZerosKeepZero(n: nat)
    ensures Fold(0, Zeros(n)) == 0
  {
    if n > 0 {
      assert Zeros(n)[..n - 1] == Zeros(n - 1);
      ZerosKeepZero(n - 1);
    }
  }

  // ----- Six symbols fill the remainder -----

  /** 32^k. */
  function Limit(k: nat): bv32
    requires k <= 6
  {
    if k == 0 then 1 else if k == 1 then 0x20 else if k == 2 then 0x400 else if k == 3 then 0x8000
    else if k == 4 then 0x100000 else if k == 5 then 0x2000000 else 0x40000000
  }

  lemma StepShort(c: bv32, v: bv8, k: nat)
    requires k < 6 && c < Limit(k) && v < 32
    ensures Step(c, v) < Limit(k + 1)
    ensures Step(c, v) == 0 ==> c == 0 && v == 0
  {
    assert c < 0x2000000;
  }

  predicate AllZero(d: seq<bv8>) {
    forall i :: 0 <= i < |d| ==> d[i] == 0
  }

  lemma {:induction false} ShortZero(d: seq<bv8>)
    requires |d| <= 6 && AllSymbols(d)
    ensures Fold(0, d) < Limit(|d|)
    ensures Fold(0, d) == 0 ==> AllZero(d)
  {
    if d != [] {
      var n := |d| - 1;
      var c := Fold(0, d[..n]);
      ShortZero(d[..n]);
      StepShort(c, d[n], n);
      assert Fold(0, d) == Step(c, d[n]);
      if Step(c, d[n]) == 0 {
        LastZero(d);
      }
    }
  }

  lemma LastZero(d: seq<bv8>)
    requires d != [] && AllZero(d[..|d| - 1]) && d[|d| - 1] == 0
    ensures AllZero(d)
  {
    forall i | 0 <= i < |d| - 1 ensures d[i] == 0 {
      assert d[i] == d[..|d| - 1][i];
    }
  }

  lemma SumShape(x: seq<bv8>, y: seq<bv8>, p: nat, q: nat)
    requires |x| == |y| && p <= q <= |x| && x[..p] == y[..p] && x[q..] == y[q..]
    ensures Sum(x, y) == Zeros(p) + Sum(x[p..q], y[p..q]) + Zeros(|x| - q)
  {
    forall i | 0 <= i < |x| ensures Sum(x, y)[i] == (Zeros(p) + Sum(x[p..q], y[p..q]) + Zeros(|x| - q))[i] {
      if i < p {
        assert x[i] == x[..p][i] && y[i] == y[..p][i];
      } else if q <= i {
        assert x[i] == x[q..][i - q] && y[i] == y[q..][i - q];
      }
    }
  }

  lemma SumZero(x: seq<bv8>, y: seq<bv8>)
    requires |x| == |y| && AllZero(Sum(x, y))
    ensures x == y
  {
    forall i | 0 <= i < |x| ensures x[i] == y[i] {
      assert Sum(x, y)[i] == 0;
    }
  }

  lemma SumSymbols(x: seq<bv8>, y: seq<bv8>)
    requires |x| == |y| && AllSymbols(x) && AllSymbols(y)
    ensures AllSymbols(Sum(x, y))
  {}

  /** Two words of at most six symbols with the same remainder are equal. */
  lemma ShortInjective(c: bv32, x: seq<bv8>, y: seq<bv8>)
    requires |x| == |y| <= 6 && AllSymbols(x) && AllSymbols(y) && Fold(c, x) == Fold(c, y)
    ensures x == y
  {
    FoldLinear(c, c, x, y);
    assert Xor(c, c) == 0 && Xor(Fold(c, x), Fold(c, y)) == 0;
    SumSymbols(x, y);
    ShortZero(Sum(x, y));
    SumZero(x, y);
  }

  /** Any change confined to six consecutive symbols changes the remainder. */
  lemma BurstChanges(c: bv32, x: seq<bv8>, y: seq<bv8>, p: nat, q: nat)
    requires |x| == |y| && AllSymbols(x) && AllSymbols(y) && Fold(c, x) == Fold(c, y)
    requires p <= q <= |x| && q - p <= 6 && x[..p] == y[..p] && x[q..] == y[q..]
    ensures x == y
  {
    var d := Sum(x[p..q], y[p..q]);
    FoldLinear(c, c, x, y);
    assert Xor(c, c) == 0 && Xor(Fold(c, x), Fold(c, y)) == 0;
    SumShape(x, y, p, q);
    SumSymbols(x[p..q], y[p..q]);
    BurstZero(p, d, |x| - q);
    SumZero(x[p..q], y[p..q]);
    ThreeParts(x, p, q);
    ThreeParts(y, p, q);
  }

  lemma ThreeParts(x: seq<bv8>, p: nat, q: nat)
    requires p <= q <= |x|
    ensures x == x[..p] + x[p..q] + x[q..]
  {}

  lemma BurstZero(p: nat, d: seq<bv8>, r: nat)
    requires |d| <= 6 && AllSymbols(d) && Fold(0, Zeros(p) + d + Zeros(r)) == 0
    ensures AllZero(d)
  {
    FoldConcat(0, Zeros(p) + d, Zeros(r));
    FoldConcat(0, Zeros(p), d);
    ZerosKeepZero(p);
    FoldIs30(0, d);
    ZerosInjective(Fold(0, d), r);
    ShortZero(d);
  }

  // ----- Checksums -----

  function Constant(encoding: Encoding): bv32
    requires encoding != Invalid
  {
    if encoding == Bech32 then 1 else 0x2bc830a3
  }

  function Top(c: bv8): (r: bv8)
    ensures r < 32
  {
    c >> 5
  }

  function Bottom(c: bv8): (r: bv8)
    ensures r < 32
  {
    c & 0x1f
  }

  function Highs(hrp: Text): (r: seq<bv8>)
    ensures AllSymbols(r)
  {
    seq(|hrp|, i requires 0 <= i < |hrp| => Top(hrp[i]))
  }

  function Lows(hrp: Text): (r: seq<bv8>)
    ensures AllSymbols(r)
  {
    seq(|hrp|, i requires 0 <= i < |hrp| => Bottom(hrp[i]))
  }

  function Coefficients(hrp: Text, values: seq<bv8>): seq<bv8> {
    Highs(hrp) + [0] + Lows(hrp) + values
  }

  function Residue(hrp: Text, values: seq<bv8>): bv32 {
    Fold(1, Coefficients(hrp, values))
  }

  lemma ResidueConcat(hrp: Text, x: seq<bv8>, y: seq<bv8>)
    ensures Residue(hrp, x + y) == Fold(Residue(hrp, x), y)
  {
    assert Coefficients(hrp, x + y) == Coefficients(hrp, x) + y;
    FoldConcat(1, Coefficients(hrp, x), y);
  }

  lemma ResidueIs30(hrp: Text, values: seq<bv8>)
    requires AllSymbols(values)
    ensures Is30(Residue(hrp, values))
  {
    FoldIs30(1, Coefficients(hrp, values));
  }

  /** `VerifyChecksum`. */
  function Verify(hrp: Text, values: seq<bv8>): Encoding {
    var check := Residue(hrp, values);
    if check == Constant(Bech32) then Bech32 else if check == Constant(Bech32m) then Bech32m else Invalid
  }

  /** m >> 5 * (6 - i): the first i of the six 5-bit groups of a 30-bit number. */
  function Above(m: bv32, i: nat): (r: bv32)
    requires i <= 6
    ensures Is30(m) ==> Is30(r)
    decreases 6 - i
  {
    if i == 6 then m else Right(Above(m, i + 1))
  }

  function Right(c: bv32): (r: bv32)
    ensures Is30(c) ==> Is30(r)
  {
    c >> 5
  }

  function LowGroup(m: bv32): (g: bv8)
    ensures g < 32
  {
    (m & 31) as bv8
  }

  /** The i-th group, highest first. */
  function Group(m: bv32, i: nat): (g: bv8)
    requires i < 6
    ensures g < 32
  {
    LowGroup(Above(m, i + 1))
  }

  function Groups(m: bv32): (r: seq<bv8>)
    ensures |r| == 6 && AllSymbols(r)
  {
    seq(6, i requires 0 <= i < 6 => Group(m, i))
  }

  lemma HighZero(c: bv32)
    requires c < 0x2000000
    ensures High(c) == 0
  {}

  lemma ReduceZero()
    ensures Reduce(0) == 0
  {}

  lemma StepSmall(c: bv32, v: bv8)
    requires c < 0x2000000
    ensures Step(c, v) == Xor(Shift(c), Wide(v))
  {
    HighZero(c);
    ReduceZero();
    XorZero(Xor(Shift(c), Wide(v)));
  }

  lemma AboveZero(m: bv32)
    requires Is30(m)
    ensures Above(m, 0) == 0
  {
    assert Above(m, 5) == Right(Above(m, 6));
    assert Above(m, 4) == Right(Above(m, 5));
    assert Above(m, 3) == Right(Above(m, 4));
    assert Above(m, 2) == Right(Above(m, 3));
    assert Above(m, 1) == Right(Above(m, 2));
    assert Above(m, 0) == Right(Above(m, 1));
  }

  lemma Join(w: bv32)
    requires Is30(w)
    ensures Right(w) < 0x2000000 && Xor(Shift(Right(w)), Wide(LowGroup(w))) == w
  {}

  lemma GroupStep(m: bv32, i: nat)
    requires Is30(m) && i < 6
    ensures Step(Above(m, i), Group(m, i)) == Above(m, i + 1)
  {
    Join(Above(m, i + 1));
    StepSmall(Above(m, i), Group(m, i));
  }

  lemma {:induction false} GroupsFold(m: bv32, i: nat)
    requires Is30(m) && i <= 6
    ensures Fold(0, Groups(m)[..i]) == Above(m, i)
  {
    if i == 0 {
      AboveZero(m);
    } else {
      GroupsFold(m, i - 1);
      assert Groups(m)[..i][..i - 1] == Groups(m)[..i - 1];
      GroupStep(m, i - 1);
    }
  }

  /** What `CreateChecksum` computes. */
  function Checksum(encoding: Encoding, hrp: Text, values: seq<bv8>): (r: seq<bv8>)
    requires encoding != Invalid
    ensures |r| == 6 && AllSymbols(r)
  {
    Groups(Xor(Residue(hrp, values + Zeros(6)), Constant(encoding)))
  }

  /** Adding the groups of m to six zeros adds m to the remainder. */
  lemma FixUp(c: bv32, k: bv32)
    requires Is30(c) && Is30(k)
    ensures Fold(c, Groups(Xor(Fold(c, Zeros(6)), k))) == k
  {
    var z := Fold(c, Zeros(6));
    FoldIs30(c, Zeros(6));
    XorIs30(z, k);
    var m := Xor(z, k);
    GroupsFold(m, 6);
    assert Groups(m)[..6] == Groups(m);
    XorZero(c);
    FoldLinear(c, 0, Zeros(6), Groups(m));
    SumZeros(Groups(m));
    XorCancels(z, k);
  }

  lemma XorZero(a: bv32)
    ensures Xor(a, 0) == a
  {}

  lemma XorIs30(a: bv32, b: bv32)
    requires Is30(a) && Is30(b)
    ensures Is30(Xor(a, b))
  {}

  lemma XorCancels(a: bv32, b: bv32)
    ensures Xor(a, Xor(a, b)) == b
  {}

  lemma SumZeros(x: seq<bv8>)
    ensures Sum(Zeros(|x|), x) == x
  {}

  /** Appending the checksum gives the residue of the encoding. */
  lemma ChecksumVerifies(encoding: Encoding, hrp: Text, values: seq<bv8>)
    requires encoding != Invalid && AllSymbols(values)
    ensures Residue(hrp, values + Checksum(encoding, hrp, values)) == Constant(encoding)
    ensures Verify(hrp, values + Checksum(encoding, hrp, values)) == encoding
  {
    var c := Residue(hrp, values);
    ResidueIs30(hrp, values);
    ResidueConcat(hrp, values, Zeros(6));
    FixUp(c, Constant(encoding));
    ResidueConcat(hrp, values, Checksum(encoding, hrp, values));
  }

  /** No other six symbols do. */
  lemma ChecksumUnique(encoding: Encoding, hrp: Text, values: seq<bv8>, sum: seq<bv8>)
    requires encoding != Invalid && AllSymbols(values) && AllSymbols(sum) && |sum| == 6
    requires Verify(hrp, values + sum) == encoding
    ensures sum == Checksum(encoding, hrp, values)
  {
    ChecksumVerifies(encoding, hrp, values);
    var r := Checksum(encoding, hrp, values);
    ResidueConcat(hrp, values, sum);
    ResidueConcat(hrp, values, r);
    ShortInjective(Residue(hrp, values), sum, r);
  }

  /** A change of at most six consecutive symbols after the separator is always noticed by the
      encoding that accepted the symbols before; a single changed symbol is a special case. */
  lemma BurstDetected(hrp: Text, x: seq<bv8>, y: seq<bv8>, p: nat, q: nat)
    requires |x| == |y| && x != y && AllSymbols(x) && AllSymbols(y) && Verify(hrp, x) != Invalid
    requires p <= q <= |x| && q - p <= 6 && x[..p] == y[..p] && x[q..] == y[q..]
    ensures Verify(hrp, y) != Verify(hrp, x)
  {
    if Verify(hrp, y) == Verify(hrp, x) {
      assert x == [] + x && y == [] + y;
      ResidueConcat(hrp, [], x);
      ResidueConcat(hrp, [], y);
      BurstChanges(Residue(hrp, []), x, y, p, q);
    }
  }

  lemma SingleErrorDetected(hrp: Text, x: seq<bv8>, i: nat, v: bv8)
    requires i < |x| && AllSymbols(x) && v < 32 && v != x[i] && Verify(hrp, x) != Invalid
    ensures Verify(hrp, x[i := v]) != Verify(hrp, x)
  {
    assert x[i := v][i] != x[i];
    BurstDetected(hrp, x, x[i := v], i, i + 1);
  }
}
