/** `arith_uint256`: the compact format on limbs, and the work that a target stands for. */
module Target {
  import opened Bits
  import opened Limbs
  import opened Uint
  import opened Compact

  const WIDTH := 8

  /** 2^256 */
  lemma Modulus()
    ensures P(WIDTH) == Bytes(32)
  {
    PIsPow2(8);
    BytesArePow2(32);
  }

  lemma ShrIsQuot(n: nat, k: nat)
    ensures Shr(n, 8 * k) == Quot(n, Bytes(k))
  {
    BytesArePow2(k);
    ShrSplit(n, 8 * k);
    QuotUnique(n, Bytes(k), Shr(n, 8 * k));
  }

  /** The number of `SetCompact`; `word` is what its tests look at afterwards. */
  method SetMagnitude(x: BaseUint, nCompact: nat) returns (word: nat)
    requires x.pn.Length == WIDTH && nCompact < B
    modifies x.pn
    ensures x.Valid() && x.Value() == Decode(nCompact) % P(WIDTH)
    ensures word == if SizeOf(nCompact) <= 3 then Decode(nCompact) else MantissaOf(nCompact)
    ensures word == 0 <==> Decode(nCompact) == 0
  {
    var nSize := nCompact / 0x100_0000;
    word := nCompact % 0x80_0000;
    if nSize <= 3 {
      ShrIsQuot(word, 3 - nSize);
      word := Shr(word, 8 * (3 - nSize));
      SmallWord(nCompact);
      x.Assign(word);
    } else {
      x.Assign(word);
      BytesArePow2(nSize - 3);
      x.ShiftLeft(8 * (nSize - 3));
      ZeroProduct(word, Bytes(nSize - 3));
    }
  }

  method SetCompact(x: BaseUint, nCompact: nat) returns (negative: bool, overflow: bool)
    requires x.pn.Length == WIDTH && nCompact < B
    modifies x.pn
    ensures x.Valid() && x.Value() == Decode(nCompact) % P(WIDTH)
    ensures negative == (SignOf(nCompact) && Decode(nCompact) != 0)
    ensures overflow == (Decode(nCompact) >= P(WIDTH))
  {
    var nSize := nCompact / 0x100_0000;
    var nWord := SetMagnitude(x, nCompact);
    Modulus();
    OverflowExact(nCompact);
    negative := nWord != 0 && (nCompact / 0x80_0000) % 2 == 1;
    overflow := nWord != 0 && (nSize > 34 || (nWord > 0xff && nSize > 33) || (nWord > 0xffff && nSize > 32));
  }

  lemma ZeroProduct(m: nat, p: nat)
    requires p > 0
    ensures m * p == 0 <==> m == 0
  {
    if m > 0 { MulMono(1, m, p); }
  }

  lemma SmallWord(c: nat)
    requires SizeOf(c) <= 3
    ensures Decode(c) < 0x80_0000 && Decode(c) % P(WIDTH) == Decode(c)
  {
    MulMono(1, Bytes(3 - SizeOf(c)), Decode(c));
    SmallBytes();
    BytesMono(3, 32);
    Modulus();
    ModIs(Decode(c), P(WIDTH), 0, Decode(c));
  }

  /** `GetLow64` */
  method GetLow64(x: BaseUint) returns (low: nat)
    requires x.Valid() && x.pn.Length >= 2
    ensures low == x.Value() % (B * B)
    ensures x.Value() < B * B ==> low == x.Value()
  {
    low := x.pn[0] + B * x.pn[1];
    ghost var s := x.pn[..];
    assert Val(s) == s[0] + B * (s[1] + B * Val(s[2..])) by { assert s[1..][1..] == s[2..]; }
    LowPart(s[0], s[1], Val(s[2..]));
  }

  lemma LowPart(a: nat, b: nat, v: nat)
    requires a < B && b < B
    ensures (a + B * (b + B * v)) % (B * B) == a + B * b
    ensures a + B * (b + B * v) < B * B ==> v == 0
  {
    assert a + B * (b + B * v) == (a + B * b) + (B * B) * v;
    ModIs(a + B * (b + B * v), B * B, v, a + B * b);
  }

  /** The mantissa of a number, as `GetCompact` takes it from the limbs. */
  method TakeMantissa(x: BaseUint, size: nat) returns (m: nat)
    requires x.Valid() && x.pn.Length == WIDTH && size == ByteLen(x.Value())
    ensures m == RawMantissa(x.Value(), size) && m < 0x100_0000
  {
    ghost var v := x.Value();
    if v > 0 { RawBounds(v); ByteLenBounds(v); }
    if size <= 3 {
      BytesMono(size, 3);
      SmallBytes();
      var low := GetLow64(x);
      BytesArePow2(3 - size);
      m := low * Pow2(8 * (3 - size));
    } else {
      var bn := new BaseUint.Copy(x);
      bn.ShiftRight(8 * (size - 3));
      BytesArePow2(size - 3);
      QuotIsDiv(v, Bytes(size - 3));
      m := GetLow64(bn);
    }
  }

  /** The last lines of `GetCompact`: put mantissa, size and sign into one word. */
  method PackCompact(m: nat, size: nat, fNegative: bool) returns (nCompact: nat)
    requires m < 0x80_0000 && size < 256
    ensures nCompact == Pack(m, size, fNegative) && nCompact < B
  {
    PackBits(m, size);
    nCompact := Or(m, size * 0x100_0000);
    if fNegative && nCompact % 0x80_0000 != 0 {
      PackSign(nCompact);
      nCompact := Or(nCompact, 0x80_0000);
    }
  }

  /** `GetCompact`; its two assertions hold. */
  method GetCompact(x: BaseUint, fNegative: bool) returns (nCompact: nat)
    requires x.Valid() && x.pn.Length == WIDTH
    ensures nCompact == Encode(x.Value(), fNegative) && nCompact < B
  {
    var bits := x.BitLength();
    SizeBound(x.pn[..], bits);
    var nSize := (bits + 7) / 8;
    var m := TakeMantissa(x, nSize);
    SignBit(m);
    if And(m, 0x80_0000) != 0 {
      m := m / 256;
      nSize := nSize + 1;
    }
    assert m < 0x80_0000 && nSize < 256;
    nCompact := PackCompact(m, nSize, fNegative);
  }

  lemma SizeBound(s: seq<nat>, bits: nat)
    requires IsLimbs(s) && |s| == WIDTH && IsBitLength(Val(s), bits)
    ensures bits == BitLen(Val(s)) && bits <= 256
  {
    if Val(s) > 0 {
      BitLenUnique(Val(s), bits);
      ValBound(s);
      PIsPow2(WIDTH);
      if bits > 256 { Pow2Mono(256, bits - 1); }
    }
  }

  lemma Pow2Of23()
    ensures Pow2(23) == 0x80_0000 && Pow2(24) == 0x100_0000
  {
    Pow2Of32();
    Pow2Add(16, 8);
  }

  lemma SignBit(m: nat)
    requires m < 0x100_0000
    ensures And(m, 0x80_0000) != 0 <==> m >= 0x80_0000
  {
    Pow2Of23();
    AndTopBit(m, 23);
  }

  lemma PackBits(m: nat, size: nat)
    requires m < 0x80_0000 && size < 256
    ensures Or(m, size * 0x100_0000) == size * 0x100_0000 + m < B
  {
    Pow2Of23();
    OrDisjoint(size, m, 24);
  }

  lemma PackSign(c: nat)
    requires c < B && (c / 0x80_0000) % 2 == 0
    ensures Or(c, 0x80_0000) == c + 0x80_0000 < B
  {
    Pow2Of23();
    ShrSplit(c, 23);
    ModIs(c, 0x80_0000, Shr(c, 23), LowBits(c, 23));
    OrBit(c, 23);
  }

  /** Setting a bit that is clear adds it. */
  lemma {:induction false} OrBit(c: nat, k: nat)
    requires Shr(c, k) % 2 == 0
    ensures Or(c, Pow2(k)) == c + Pow2(k)
  {
    if k > 0 {
      OrBit(c / 2, k - 1);
      assert Pow2(k) / 2 == Pow2(k - 1) && Pow2(k) % 2 == 0;
    } else if c > 0 {
      assert Pow2(0) == 1 && Or(c, 1) == 2 * Or(c / 2, 0) + 1;
    }
  }

  // ---------------------------------------------------------------------------------------
  // Round trips through the limbs, and proof of work

  /** Any nonzero 256-bit number survives `GetCompact` then `SetCompact` up to one part in
      2^15, from below, and no flag is raised. */
  method CompactRoundTrip(x: BaseUint) returns (y: BaseUint, negative: bool, overflow: bool)
    requires x.Valid() && x.pn.Length == WIDTH && x.Value() > 0
    ensures !negative && !overflow && y.Valid()
    ensures 0 < y.Value() <= x.Value() && 0x8000 * (x.Value() - y.Value()) < y.Value()
  {
    var c := GetCompact(x, false);
    EncodeApproximates(x.Value());
    ValBound(x.pn[..]);
    y := new BaseUint.Zero(WIDTH);
    negative, overflow := SetCompact(y, c);
    ModIs(Decode(c), P(WIDTH), 0, Decode(c));
  }

  /** `GetBlockProof`: the expected number of hashes, floor(2^256 / (target + 1)). */
  method GetBlockProof(nBits: nat) returns (r: BaseUint)
    requires nBits < B
    ensures r.Valid() && r.pn.Length == WIDTH
    ensures r.Value() ==
            if (SignOf(nBits) && Decode(nBits) != 0) || Decode(nBits) >= P(WIDTH) || Decode(nBits) == 0 then 0
            else P(WIDTH) / (Decode(nBits) + 1)
  {
    var target := new BaseUint.Zero(WIDTH);
    var negative, overflow := SetCompact(target, nBits);
    var isZero := target.EqualTo(0);
    if !overflow { ModIs(Decode(nBits), P(WIDTH), 0, Decode(nBits)); }
    if negative || overflow || isZero {
      r := new BaseUint.Zero(WIDTH);
      return;
    }
    NotAllOnes(nBits);
    r := Work(target);
  }

  /** `(~bnTarget / (bnTarget + 1)) + 1`; none of the three operations wraps or divides by zero. */
  method Work(target: BaseUint) returns (r: BaseUint)
    requires target.Valid() && target.pn.Length == WIDTH && 0 < target.Value() && target.Value() + 1 < P(WIDTH)
    ensures fresh(r) && fresh(r.pn) && r.Valid() && r.pn.Length == WIDTH
    ensures r.Value() == P(WIDTH) / (target.Value() + 1)
  {
    ghost var w := WorkFacts(P(WIDTH), target.Value());
    r := target.Invert();
    var next := new BaseUint.Copy(target);
    AddOne(next);
    var ok := r.Divide(next);
    assert ok;
    AddOne(r);
  }

  method AddOne(r: BaseUint)
    requires r.Valid() && r.pn.Length == WIDTH && r.Value() + 1 < P(WIDTH)
    modifies r.pn
    ensures r.Valid() && r.Value() == old(r.Value()) + 1
  {
    var one := new BaseUint.Zero(WIDTH);
    one.Assign(1);
    ModIs(r.Value() + 1, P(WIDTH), 0, r.Value() + 1);
    r.Add(one);
  }

  /** No step of the computation wraps around. */
  lemma WorkFacts(n: nat, t: nat) returns (w: nat)
    requires 0 < t && t + 1 < n
    ensures w == n / (t + 1) && (n - 1 - t) / (t + 1) + 1 == w < n
  {
    w := n / (t + 1);
    WorkIdentity(n, t);
  }

  /** No code stands for 2^256 - 1, so adding one to a target does not wrap to zero. */
  lemma NotAllOnes(c: nat)
    requires Decode(c) < P(WIDTH)
    ensures Decode(c) + 1 < P(WIDTH)
  {
    ModulusIsMultiple();
    if SizeOf(c) <= 3 {
      SmallWord(c);
    } else {
      BelowMultiple(MantissaOf(c), Bytes(SizeOf(c) - 4), Bytes(31));
    }
  }

  lemma ModulusIsMultiple()
    ensures P(WIDTH) == 256 * Bytes(31) && P(WIDTH) > 0x100_0000
  {
    Modulus();
    SmallBytes();
    BytesMono(4, 32);
  }

  lemma BelowMultiple(m: nat, p: nat, b: nat)
    requires m * (256 * p) < 256 * b
    ensures m * (256 * p) + 1 < 256 * b
  {
    assert m * (256 * p) == 256 * (m * p);
  }

  lemma WorkIdentity(n: nat, t: nat)
    requires 0 < t && t + 1 < n
    ensures (n - 1 - t) / (t + 1) + 1 == n / (t + 1) < n
  {
    var q, r := (n - 1 - t) / (t + 1), (n - 1 - t) % (t + 1);
    Distribute(t + 1, q, 1);
    ModIs(n, t + 1, q + 1, r);
    MulMono(2, t + 1, q + 1);
  }
}
