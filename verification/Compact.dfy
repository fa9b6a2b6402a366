/** The compact format of difficulty targets, on natural numbers: a byte count, a sign bit and
    a 23-bit mantissa. */
module Compact {
  import opened Bits
  import opened Limbs

  /** 256 to the power n. */
  function Bytes(n: nat): (r: nat)
    ensures r > 0
  {
    if n == 0 then 1 else 256 * Bytes(n - 1)
  }

  function BitLen(x: nat): nat {
    if x == 0 then 0 else 1 + BitLen(x / 2)
  }

  function ByteLen(x: nat): nat {
    (BitLen(x) + 7) / 8
  }

  function SizeOf(c: nat): nat { c / 0x100_0000 }
  function MantissaOf(c: nat): nat { c % 0x80_0000 }
  predicate SignOf(c: nat) { (c / 0x80_0000) % 2 == 1 }

  /** The number that a code stands for, leaving the sign aside. */
  function Decode(c: nat): nat {
    if SizeOf(c) <= 3 then Quot(MantissaOf(c), Bytes(3 - SizeOf(c)))
    else MantissaOf(c) * Bytes(SizeOf(c) - 3)
  }

  /** Mantissa and size of a number of `size` bytes, before and after making room for the sign. */
  function RawMantissa(x: nat, size: nat): nat {
    if size <= 3 then x * Bytes(3 - size) else Quot(x, Bytes(size - 3))
  }

  function Normalized(x: nat): (nat, nat) {
    var size := ByteLen(x);
    var m := RawMantissa(x, size);
    if m >= 0x80_0000 then (m / 256, size + 1) else (m, size)
  }

  function Pack(m: nat, size: nat, negative: bool): nat {
    size * 0x100_0000 + m + (if negative && m != 0 then 0x80_0000 else 0)
  }

  function Encode(x: nat, negative: bool): nat {
    var (m, size) := Normalized(x);
    Pack(m, size, negative)
  }

  // ---------------------------------------------------------------------------------------
  // Byte lengths

  lemma {:induction false} BytesArePow2(n: nat)
    ensures Bytes(n) == Pow2(8 * n)
  {
    if n > 0 {
      BytesArePow2(n - 1);
      Pow2Add(8, 8 * (n - 1));
      Pow2Of32();
    }
  }

  lemma {:induction false} BytesAdd(m: nat, n: nat)
    ensures Bytes(m + n) == Bytes(m) * Bytes(n)
  {
    if m > 0 {
      BytesAdd(m - 1, n);
      MulAssoc(256, Bytes(m - 1), Bytes(n));
    }
  }

  lemma {:induction false} BytesMono(m: nat, n: nat)
    requires m <= n
    ensures Bytes(m) <= Bytes(n)
  {
    if m < n { BytesMono(m, n - 1); }
  }

  lemma {:induction false} BitLenBounds(x: nat)
    requires x > 0
    ensures BitLen(x) > 0 && Pow2(BitLen(x) - 1) <= x < Pow2(BitLen(x))
  {
    if x > 1 { BitLenBounds(x / 2); }
  }

  lemma {:induction false} BitLenUnique(x: nat, n: nat)
    requires x > 0 && n > 0 && Pow2(n - 1) <= x < Pow2(n)
    ensures BitLen(x) == n
  {
    if x > 1 { BitLenUnique(x / 2, n - 1); }
  }

  lemma ByteLenBounds(x: nat)
    requires x > 0
    ensures ByteLen(x) > 0 && Bytes(ByteLen(x) - 1) <= x < Bytes(ByteLen(x))
  {
    var l, n := BitLen(x), ByteLen(x);
    BitLenBounds(x);
    BytesArePow2(n - 1);
    BytesArePow2(n);
    Pow2Mono(8 * (n - 1), l - 1);
    Pow2Mono(l, 8 * n);
  }

  lemma ByteLenUnique(x: nat, n: nat)
    requires n > 0 && Bytes(n - 1) <= x < Bytes(n)
    ensures ByteLen(x) == n
  {
    ByteLenBounds(x);
    var k := ByteLen(x);
    if k < n { BytesMono(k, n - 1); } else if k > n { BytesMono(n, k - 1); }
  }

  // ---------------------------------------------------------------------------------------
  // From numbers to codes and back

  lemma RawBounds(x: nat)
    requires x > 0
    ensures var n := ByteLen(x); var m := RawMantissa(x, n);
            && 0x1_0000 <= m < 0x100_0000
            && (n >= 3 ==> Bytes(n - 3) * m <= x < Bytes(n - 3) * m + Bytes(n - 3))
            && (n < 3 ==> m == x * Bytes(3 - n) && m % 256 == 0)
  {
    var n := ByteLen(x);
    var m := RawMantissa(x, n);
    ByteLenBounds(x);
    SmallBytes();
    if n <= 3 {
      assert n == 1 || n == 2 || n == 3;
    } else {
      var p := Bytes(n - 3);
      BytesAdd(n - 3, 2);
      BytesAdd(n - 3, 3);
      if m < 0x1_0000 { MulMono(m + 1, 0x1_0000, p); Distribute(p, m, 1); }
      if m >= 0x100_0000 { MulMono(0x100_0000, m, p); }
    }
  }

  lemma SmallBytes()
    ensures Bytes(0) == 1 && Bytes(1) == 256 && Bytes(2) == 0x1_0000 && Bytes(3) == 0x100_0000
  {
    assert Bytes(2) == 256 * Bytes(1);
  }

  /** A code has a mantissa of at least 16 bits and loses less than one unit of its last place. */
  lemma NormalizedBounds(x: nat)
    requires x > 0
    ensures var (m, n) := Normalized(x);
            && 0x8000 <= m < 0x80_0000 && n > 0
            && (n >= 3 ==> Bytes(n - 3) * m <= x < Bytes(n - 3) * m + Bytes(n - 3))
            && (n < 3 ==> m == x * Bytes(3 - n))
  {
    RawBounds(x);
    ByteLenBounds(x);
    SmallBytes();
    var n0 := ByteLen(x);
    var m0 := RawMantissa(x, n0);
    if m0 >= 0x80_0000 && n0 >= 3 {
      var p := Bytes(n0 - 3);
      assert Bytes(n0 - 2) == 256 * p;
      DropByte(p, m0, x);
    }
  }

  lemma DropByte(p: nat, m: nat, x: nat)
    requires p * m <= x < p * m + p
    ensures (256 * p) * (m / 256) <= x < (256 * p) * (m / 256) + 256 * p
  {
    var q, r := m / 256, m % 256;
    assert (256 * p) * q == p * (256 * q);
    Distribute(p, 256 * q, r);
    MulMono(r, 255, p);
  }

  lemma PackFields(m: nat, size: nat, negative: bool)
    requires m < 0x80_0000
    ensures var c := Pack(m, size, negative);
            SizeOf(c) == size && MantissaOf(c) == m && (SignOf(c) <==> negative && m != 0)
  {
  }

  /** For every positive number the code of it decodes to a number that is at most as large,
      and short by less than one part in 2^15; its sign flag is clear. */
  lemma EncodeApproximates(x: nat)
    requires x > 0
    ensures var c := Encode(x, false); var y := Decode(c);
            !SignOf(c) && 0 < y <= x && 0x8000 * (x - y) < y
  {
    var (m, n) := Normalized(x);
    NormalizedBounds(x);
    PackFields(m, n, false);
    SmallBytes();
    if n <= 3 {
      var p := Bytes(3 - n);
      assert n < 3 ==> m == p * x;
      if n < 3 { QuotUnique(m, p, x); } else { QuotUnique(m, 1, m); }
    } else {
      var p := Bytes(n - 3);
      assert p * m == m * p;
      MulMono(0x8000, m, p);
    }
  }

  /** The codes that `GetCompact` can produce for a number that is not negative. */
  predicate Canonical(c: nat) {
    var m, n := MantissaOf(c), SizeOf(c);
    c == 0 || (m >= 0x8000 && n >= 1 && (n == 2 ==> m % 256 == 0) && (n == 1 ==> m % 0x1_0000 == 0))
  }

  lemma EncodeZero()
    ensures Encode(0, false) == 0
  {
    assert BitLen(0) == 0 && ByteLen(0) == 0;
  }

  /** A mantissa of three bytes stands as it is. */
  lemma NormalizedLong(m: nat, n: nat)
    requires 0x1_0000 <= m < 0x80_0000 && n >= 3
    ensures Normalized(m * Bytes(n - 3)) == (m, n)
  {
    var p := Bytes(n - 3);
    var x := m * p;
    SmallBytes();
    BytesAdd(n - 3, 2);
    BytesAdd(n - 3, 3);
    MulMono(0x1_0000, m, p);
    MulMono(m, 0x100_0000 - 1, p);
    ByteLenUnique(x, n);
    if n > 3 { QuotUnique(x, p, m); }
  }

  /** A mantissa of two bytes with the top bit set makes room for the sign bit. */
  lemma NormalizedShort(m: nat, n: nat)
    requires 0x8000 <= m < 0x1_0000 && n >= 4
    ensures Normalized(m * Bytes(n - 3)) == (m, n)
  {
    var q := Bytes(n - 4);
    var x := m * Bytes(n - 3);
    assert x == q * (m * 256);
    SmallBytes();
    BytesAdd(n - 4, 2);
    BytesAdd(n - 4, 3);
    MulMono(0x1_0000, m * 256, q);
    MulMono(m * 256, 0x100_0000 - 1, q);
    ByteLenUnique(x, n - 1);
    if n > 4 { QuotUnique(x, q, m * 256); }
  }

  lemma NormalizedSmall(x: nat, m: nat, n: nat)
    requires 0x8000 <= m < 0x80_0000 && 1 <= n <= 3 && m == x * Bytes(3 - n)
    ensures Normalized(x) == (m, n)
  {
    SmallBytes();
    ByteLenUnique(x, if m >= 0x1_0000 then n else n - 1);
  }

  /** The byte length of a decoded canonical code. */
  lemma NormalizedUnique(x: nat, m: nat, n: nat)
    requires 0x8000 <= m < 0x80_0000 && n >= 1
    requires if n >= 3 then x == m * Bytes(n - 3) else m == x * Bytes(3 - n)
    ensures Normalized(x) == (m, n)
  {
    if n <= 3 { NormalizedSmall(x, m, n); } else if m >= 0x1_0000 { NormalizedLong(m, n); } else { NormalizedShort(m, n); }
  }

  lemma CanonicalDecodes(c: nat)
    requires Canonical(c) && c != 0
    ensures var x, m, n := Decode(c), MantissaOf(c), SizeOf(c);
            x > 0 && if n >= 3 then x == m * Bytes(n - 3) else m == x * Bytes(3 - n)
  {
    var m, n := MantissaOf(c), SizeOf(c);
    SmallBytes();
    if n < 3 {
      var p := Bytes(3 - n);
      assert m == p * (m / p);
      QuotUnique(m, p, m / p);
    } else if n == 3 {
      QuotUnique(m, 1, m);
    } else {
      MulMono(1, m, Bytes(n - 3));
    }
  }

  lemma PackOfFields(c: nat)
    requires !SignOf(c)
    ensures c == Pack(MantissaOf(c), SizeOf(c), false)
  {
    var half := c / 0x80_0000;
    assert c == half * 0x80_0000 + c % 0x80_0000;
    assert half == (half / 2) * 2 + half % 2;
    assert c / 0x100_0000 == half / 2;
  }

  /** Encoding inverts decoding on exactly the canonical codes. */
  lemma RoundTripExactlyCanonical(c: nat)
    requires !SignOf(c)
    ensures Encode(Decode(c), false) == c <==> Canonical(c)
  {
    var x, m, n := Decode(c), MantissaOf(c), SizeOf(c);
    PackOfFields(c);
    if Canonical(c) {
      if c == 0 { DecodeZero(); EncodeZero(); } else { CanonicalDecodes(c); NormalizedUnique(x, m, n); }
    } else if x == 0 {
      EncodeZero();
    } else {
      EncodeCanonical(x);
    }
  }

  lemma DecodeZero()
    ensures Decode(0) == 0
  {
    SmallBytes();
    QuotUnique(0, Bytes(3), 0);
  }

  lemma EncodeCanonical(x: nat)
    requires x > 0
    ensures Canonical(Encode(x, false))
  {
    NormalizedBounds(x);
    var (m, n) := Normalized(x);
    PackFields(m, n, false);
    NormalizedMultiple(x, m, n);
  }

  /** The mantissa of a small number ends in zero bytes. */
  lemma NormalizedMultiple(x: nat, m: nat, n: nat)
    requires n > 0 && (n < 3 ==> m == x * Bytes(3 - n))
    ensures (n == 2 ==> m % 256 == 0) && (n == 1 ==> m % 0x1_0000 == 0)
  {
    SmallBytes();
    if n == 2 {
      ModIs(m, 256, x, 0);
    } else if n == 1 {
      ModIs(m, 0x1_0000, x, 0);
    }
  }

  // ---------------------------------------------------------------------------------------
  // Overflow

  /** The test of `SetCompact` on the (shifted) mantissa and the size. */
  predicate Overflows(word: nat, size: nat) {
    word != 0 && (size > 34 || (word > 0xff && size > 33) || (word > 0xffff && size > 32))
  }

  lemma OverflowLong(m: nat, n: nat)
    requires m < 0x80_0000 && n > 3
    ensures Overflows(m, n) <==> m * Bytes(n - 3) >= Bytes(32)
  {
    var k := n - 3;
    SmallBytes();
    if k >= 32 {
      BytesMono(32, k);
      if m > 0 { MulMono(1, m, Bytes(k)); }
    } else {
      OverflowBelow(m, k);
    }
  }

  lemma OverflowBelow(m: nat, k: nat)
    requires m < 0x80_0000 && 0 < k < 32
    ensures Overflows(m, k + 3) <==> m * Bytes(k) >= Bytes(32)
  {
    SmallBytes();
    BytesAdd(k, 32 - k);
    if k <= 29 { BytesMono(3, 32 - k); }
    Threshold(m, Bytes(k), Bytes(32 - k));
  }

  /** The overflow flag is set exactly when the number does not fit 256 bits. */
  lemma OverflowExact(c: nat)
    ensures var word := if SizeOf(c) <= 3 then Decode(c) else MantissaOf(c);
            Overflows(word, SizeOf(c)) <==> Decode(c) >= Bytes(32)
  {
    if SizeOf(c) <= 3 {
      ShortFits(c);
    } else {
      OverflowLong(MantissaOf(c), SizeOf(c));
    }
  }

  lemma ShortFits(c: nat)
    requires SizeOf(c) <= 3
    ensures Decode(c) < Bytes(32) && !Overflows(Decode(c), SizeOf(c))
  {
    SmallBytes();
    BytesMono(3, 32);
    MulMono(1, Bytes(3 - SizeOf(c)), Decode(c));
  }

  lemma Threshold(m: nat, p: nat, q: nat)
    requires p > 0
    ensures m * p >= p * q <==> m >= q
  {
    if m >= q { MulMono(q, m, p); } else { MulMono(m + 1, q, p); Distribute(p, m, 1); }
  }

  // ---------------------------------------------------------------------------------------
  // What a code means

  /** The three fields of a code. */
  lemma FieldsOf(c: nat)
    ensures c == SizeOf(c) * 0x100_0000 + (if SignOf(c) then 0x80_0000 else 0) + MantissaOf(c) && MantissaOf(c) < 0x80_0000
  {}

  lemma Scale(d: nat, p: nat, m: nat, q: nat)
    requires d * p <= m < (d + 1) * p && q > 0
    ensures d * (p * q) <= m * q < (d + 1) * (p * q)
  {
    MulAssoc(d, p, q);
    MulAssoc(d + 1, p, q);
    assert m * q - d * p * q == (m - d * p) * q;
    assert (d + 1) * p * q - m * q == ((d + 1) * p - m) * q;
  }

  /** Every code stands for mantissa * 256^(size - 3), rounded down. */
  lemma DecodeMeaning(c: nat)
    ensures var d, x := Decode(c), MantissaOf(c) * Bytes(SizeOf(c)); d * Bytes(3) <= x < (d + 1) * Bytes(3)
  {
    var d, m, n := Decode(c), MantissaOf(c), SizeOf(c);
    if n <= 3 {
      var p := Bytes(3 - n);
      assert p * d <= m < p * d + p && p * d == d * p && (d + 1) * p == d * p + p;
      BytesAdd(3 - n, n);
      Scale(d, p, m, Bytes(n));
    } else {
      BytesAdd(n - 3, 3);
      MulAssoc(m, Bytes(n - 3), Bytes(3));
      assert (d + 1) * Bytes(3) == d * Bytes(3) + Bytes(3);
    }
  }

  /** The sign is set exactly for a negative number other than zero, and plays no role otherwise. */
  lemma EncodeSigned(x: nat, negative: bool)
    ensures (SignOf(Encode(x, negative)) <==> negative && x != 0) && Decode(Encode(x, negative)) == Decode(Encode(x, false))
  {
    var (m, n) := Normalized(x);
    if x > 0 { NormalizedBounds(x); } else { EncodeZero(); }
    PackFields(m, n, negative);
    PackFields(m, n, false);
  }
}
