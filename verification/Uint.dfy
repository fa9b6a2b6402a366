/** `base_uint<BITS>` for any number of limbs: the operators rewrite the limb array in place,
    and compute what the integer operators compute modulo 2^BITS.
 */
module Uint {
  import opened Bits
  import opened Limbs
  import opened Shifts

  class BaseUint {
    const pn: array<nat>

    ghost predicate Valid()
      reads pn
    {
      IsLimbs(pn[..])
    }

    ghost function Value(): nat
      reads pn
    {
      Val(pn[..])
    }

    constructor Zero(width: nat)
      ensures fresh(pn) && pn.Length == width && Valid() && Value() == 0
      ensures forall i :: 0 <= i < width ==> pn[i] == 0
    {
      pn := new nat[width](_ => 0);
      new;
      ValZero(pn[..]);
    }

    constructor Copy(b: BaseUint)
      ensures fresh(pn) && pn[..] == b.pn[..]
    {
      pn := new nat[b.pn.Length](i requires 0 <= i < b.pn.Length reads b.pn => b.pn[i]);
      new;
      assert pn[..] == b.pn[..];
    }

    /** `operator=(uint64_t)`, also used as a constructor. */
    method Assign(b: nat)
      requires pn.Length >= 2 && b < B * B
      modifies pn
      ensures Valid() && Value() == b
    {
      pn[0] := b % B;
      pn[1] := b / B;
      var i := 2;
      while i < pn.Length
        invariant 2 <= i <= pn.Length
        invariant pn[0] == b % B && pn[1] == b / B
        invariant forall j :: 2 <= j < i ==> pn[j] == 0
      {
        pn[i] := 0;
        i := i + 1;
      }
      ghost var s := pn[..];
      assert s == [b % B] + ([b / B] + s[2..]);
      ValZero(s[2..]);
      assert Val([b / B] + s[2..]) == b / B by { assert ([b / B] + s[2..])[1..] == s[2..]; }
    }

    method SetAll(s: seq<nat>)
      requires |s| == pn.Length
      modifies pn
      ensures pn[..] == s
    {
      forall i | 0 <= i < pn.Length { pn[i] := s[i]; }
    }

    // -------------------------------------------------------------------------------------
    // Addition and subtraction

    /** `operator+=` */
    method Add(b: BaseUint)
      requires Valid() && b.Valid() && b.pn.Length == pn.Length
      modifies pn
      ensures Valid() && Value() == (old(Value()) + old(b.Value())) % P(pn.Length)
    {
      ghost var x, y := pn[..], b.pn[..];
      var carry: nat := 0;
      var i := 0;
      while i < pn.Length
        invariant 0 <= i <= pn.Length && carry <= 1
        invariant IsLimbs(pn[..]) && pn[i..] == x[i..] && b.pn[i..] == y[i..]
        invariant Val(pn[..i]) + P(i) * carry == Val(x[..i]) + Val(y[..i])
      {
        assert pn[i] == x[i] && b.pn[i] == y[i];
        var n := carry + pn[i] + b.pn[i];
        ghost var v := Val(pn[..i]);
        pn[i] := n % B;
        CarryStep(v, P(i), n % B, n / B, carry + x[i] + y[i]);
        assert P(i) * (carry + x[i] + y[i]) == P(i) * carry + P(i) * x[i] + P(i) * y[i];
        ValTake(pn[..], i);
        ValTake(x, i);
        ValTake(y, i);
        assert pn[..][..i] == pn[..i] && pn[..][..i + 1] == pn[..i + 1];
        carry := n / B;
        i := i + 1;
      }
      assert pn[..i] == pn[..] && x[..i] == x && y[..i] == y;
      ValBound(pn[..]);
      ModIs(Val(x) + Val(y), P(i), carry, Val(pn[..]));
    }

    /** `operator~` */
    method Invert() returns (r: BaseUint)
      requires Valid()
      ensures fresh(r) && fresh(r.pn) && r.pn.Length == pn.Length && r.Valid()
      ensures r.Value() == P(pn.Length) - 1 - Value()
    {
      r := new BaseUint.Zero(pn.Length);
      var i := 0;
      while i < pn.Length
        invariant 0 <= i <= pn.Length
        invariant forall j :: 0 <= j < i ==> r.pn[j] == B - 1 - pn[j]
      {
        r.pn[i] := B - 1 - pn[i];
        i := i + 1;
      }
      ValComplement(pn[..], r.pn[..]);
    }

    /** Prefix `operator++` */
    method Increment()
      requires Valid()
      modifies pn
      ensures Valid() && Value() == (old(Value()) + 1) % P(pn.Length)
    {
      ghost var x := pn[..];
      var i := 0;
      while i < pn.Length
        invariant 0 <= i <= pn.Length && IsLimbs(pn[..]) && pn[i..] == x[i..]
        invariant Val(pn[..][..i]) + P(i) == Val(x[..i]) + 1
      {
        IncrementStep(x, pn[..], i);
        pn[i] := (pn[i] + 1) % B;
        if pn[i] != 0 {
          ValBound(pn[..]);
          ModIs(Val(x) + 1, P(pn.Length), 0, Val(pn[..]));
          return;
        }
        i := i + 1;
      }
      assert pn[..][..i] == pn[..] && x[..i] == x;
      ValBound(pn[..]);
      ModIs(Val(x) + 1, P(i), 1, Val(pn[..]));
    }

    /** Prefix `operator--` */
    method Decrement()
      requires Valid()
      modifies pn
      ensures Valid() && Value() == (old(Value()) - 1) % P(pn.Length)
    {
      ghost var x := pn[..];
      var i := 0;
      while i < pn.Length
        invariant 0 <= i <= pn.Length && IsLimbs(pn[..]) && pn[i..] == x[i..]
        invariant Val(pn[..][..i]) + 1 == Val(x[..i]) + P(i)
      {
        DecrementStep(x, pn[..], i);
        pn[i] := (pn[i] - 1) % B;
        if pn[i] != B - 1 {
          ValBound(pn[..]);
          ModIs(Val(x) - 1, P(pn.Length), 0, Val(pn[..]));
          return;
        }
        i := i + 1;
      }
      assert pn[..][..i] == pn[..] && x[..i] == x;
      ValBound(pn[..]);
      ModIs(Val(x) - 1, P(i), -1, Val(pn[..]));
    }

    /** Unary `operator-` */
    method Negate() returns (r: BaseUint)
      requires Valid()
      ensures fresh(r) && fresh(r.pn) && r.pn.Length == pn.Length && r.Valid()
      ensures r.Value() == (0 - Value()) % P(pn.Length)
    {
      r := Invert();
      r.Increment();
      ModShift(0 - Value(), P(pn.Length));
    }

    /** `operator-=`: add the negation. */
    method Subtract(b: BaseUint)
      requires Valid() && b.Valid() && b.pn.Length == pn.Length
      modifies pn
      ensures Valid() && Value() == (old(Value()) - old(b.Value())) % P(pn.Length)
    {
      ghost var x: int, y: int := Value(), b.Value();
      var n := b.Negate();
      Add(n);
      ModOfSum(x, 0 - y, P(pn.Length));
    }

    // -------------------------------------------------------------------------------------
    // Comparison

    method CompareTo(b: BaseUint) returns (r: int)
      requires Valid() && b.Valid() && b.pn.Length == pn.Length
      ensures r == if Value() < b.Value() then -1 else if Value() == b.Value() then 0 else 1
    {
      var i := pn.Length - 1;
      while i >= 0
        invariant -1 <= i < pn.Length
        invariant forall j :: i < j < pn.Length ==> pn[j] == b.pn[j]
      {
        if pn[i] != b.pn[i] {
          CompareLimbs(pn[..], b.pn[..], i);
          return if pn[i] < b.pn[i] then -1 else 1;
        }
        i := i - 1;
      }
      assert pn[..] == b.pn[..];
      return 0;
    }

    /** `EqualTo(uint64_t)` */
    method EqualTo(b: nat) returns (r: bool)
      requires Valid() && pn.Length >= 2 && b < B * B
      ensures r == (Value() == b)
    {
      ghost var s := pn[..];
      assert s == [s[0]] + ([s[1]] + s[2..]);
      assert Val(s) == s[0] + B * (s[1] + B * Val(s[2..])) by { assert s[1..][1..] == s[2..]; }
      var i := pn.Length - 1;
      while i >= 2
        invariant 1 <= i < pn.Length && forall j :: i < j < pn.Length ==> pn[j] == 0
      {
        if pn[i] != 0 {
          PositiveLimb(s[2..], i - 2);
          return false;
        }
        i := i - 1;
      }
      ValZero(s[2..]);
      return pn[1] == b / B && pn[0] == b % B;
    }

    /** The position of the highest set bit plus one. */
    method BitLength() returns (r: nat)
      requires Valid()
      ensures IsBitLength(Value(), r)
    {
      var pos := pn.Length - 1;
      while pos >= 0
        invariant -1 <= pos < pn.Length && forall j :: pos < j < pn.Length ==> pn[j] == 0
      {
        if pn[pos] != 0 {
          var nbits := 31;
          Pow2Of32();
          while nbits > 0
            invariant 0 <= nbits <= 31 && pn[pos] < Pow2(nbits + 1)
          {
            AndTopBit(pn[pos], nbits);
            if And(pn[pos], Pow2(nbits)) != 0 {
              TopLimb(pn[..], pos, nbits + 1);
              return 32 * pos + nbits + 1;
            }
            nbits := nbits - 1;
          }
          TopLimb(pn[..], pos, 1);
          return 32 * pos + 1;
        }
        pos := pos - 1;
      }
      ValZero(pn[..]);
      return 0;
    }

    // -------------------------------------------------------------------------------------
    // Shifts

    /** `pn[i] |= v` */
    method OrInto(i: nat, v: nat)
      requires i < pn.Length
      modifies pn
      ensures pn[..] == old(pn[..])[i := Or(old(pn[i]), v)]
    {
      pn[i] := Or(pn[i], v);
    }

    /** The loop body of both shifts. */
    method Distribute(i: int, crossing: nat, crosses: bool, j: int, staying: nat)
      requires i != j
      modifies pn
      ensures pn[..] == OrParts(old(pn[..]), i, crossing, crosses, j, staying)
    {
      if 0 <= i < pn.Length && crosses {
        OrInto(i, crossing);
      }
      if 0 <= j < pn.Length {
        OrInto(j, staying);
      }
    }

    /** The loop of `operator<<=` over the limbs of a copy. */
    method ShlLoop(a: BaseUint, k: nat, s: nat)
      requires a.pn.Length == pn.Length && a.pn != pn && s < 32
      modifies pn
      ensures pn[..] == ShlState(a.pn[..], k, s, pn.Length)
    {
      SetAll(Zeros(pn.Length));
      var i := 0;
      while i < pn.Length
        invariant 0 <= i <= pn.Length && pn[..] == ShlState(a.pn[..], k, s, i)
      {
        Distribute(i + k + 1, High(a.pn[i], s), s != 0, i + k, Low(a.pn[i], s));
        i := i + 1;
      }
    }

    /** `operator<<=` */
    method ShiftLeft(shift: nat)
      requires Valid()
      modifies pn
      ensures Valid() && Value() == (old(Value()) * Pow2(shift)) % P(pn.Length)
    {
      var a := new BaseUint.Copy(this);
      ShlLoop(a, shift / 32, shift % 32);
      ShlDone(a.pn[..], shift / 32, shift % 32);
    }

    /** The loop of `operator>>=` over the limbs of a copy. */
    method ShrLoop(a: BaseUint, k: nat, s: nat)
      requires a.pn.Length == pn.Length && a.pn != pn && s < 32
      modifies pn
      ensures pn[..] == ShrState(a.pn[..], k, s, pn.Length)
    {
      SetAll(Zeros(pn.Length));
      var i := 0;
      while i < pn.Length
        invariant 0 <= i <= pn.Length && pn[..] == ShrState(a.pn[..], k, s, i)
      {
        Distribute(i - k - 1, Low(a.pn[i], 32 - s), s != 0, i - k, Shr(a.pn[i], s));
        i := i + 1;
      }
    }

    /** `operator>>=` */
    method ShiftRight(shift: nat)
      requires Valid()
      modifies pn
      ensures Valid() && Value() == old(Value()) / Pow2(shift)
    {
      var a := new BaseUint.Copy(this);
      ShrLoop(a, shift / 32, shift % 32);
      ShrDone(a.pn[..], shift / 32, shift % 32);
    }

    // -------------------------------------------------------------------------------------
    // Multiplication

    /** `operator*=(uint32_t)`; the 64-bit intermediate value does not wrap. */
    method MultiplySmall(b32: nat)
      requires Valid() && b32 < B
      modifies pn
      ensures Valid() && Value() == (old(Value()) * b32) % P(pn.Length)
    {
      ghost var x := pn[..];
      var carry: nat := 0;
      var i := 0;
      while i < pn.Length
        invariant 0 <= i <= pn.Length && carry < B && IsLimbs(pn[..]) && pn[i..] == x[i..]
        invariant Val(pn[..][..i]) + P(i) * carry == b32 * Val(x[..i])
      {
        MulSmallStep(pn[..], x, i, b32, carry);
        var n := carry + b32 * pn[i];
        pn[i] := n % B;
        carry := n / B;
        i := i + 1;
      }
      assert pn[..][..i] == pn[..] && x[..i] == x && Val(x) * b32 == b32 * Val(x);
      ValBound(pn[..]);
      ModIs(Val(x) * b32, P(i), carry, Val(pn[..]));
    }

    /** The inner loop of `operator*=`: add d * b, shifted up by j limbs, into this number. */
    method MultiplyAdd(d: nat, b: BaseUint, j: nat)
      requires Valid() && b.Valid() && b.pn.Length == pn.Length && b.pn != pn && d < B && j < pn.Length
      modifies pn
      ensures Valid()
      ensures exists q: nat :: old(Value()) + P(j) * (d * b.Value()) == Value() + P(pn.Length) * q
    {
      ghost var t0, y := pn[..], b.pn[..];
      var carry: nat := 0;
      var i := 0;
      while i + j < pn.Length
        invariant j <= i + j <= pn.Length && carry < B && IsLimbs(pn[..]) && b.pn[..] == y
        invariant pn[..j] == t0[..j] && pn[i + j..] == t0[i + j..]
        invariant Val(pn[..][j..j + i]) + P(i) * carry == Val(t0[j..j + i]) + d * Val(y[..i])
      {
        MulAddStep(pn[..], t0, y, j, i, d, carry);
        var n := carry + pn[i + j] + d * b.pn[i];
        pn[i + j] := n % B;
        carry := n / B;
        i := i + 1;
      }
      assert pn[..][j..j + i] == pn[..][j..] && t0[j..j + i] == t0[j..] && pn[..][..j] == t0[..j];
      ghost var q := MulAddTotal(pn[..], t0, y, j, d, carry);
    }

    /** `operator*=` */
    method Multiply(b: BaseUint)
      requires Valid() && b.Valid() && b.pn.Length == pn.Length
      modifies pn
      ensures Valid() && Value() == (old(Value()) * old(b.Value())) % P(pn.Length)
    {
      ghost var x, y := pn[..], b.pn[..];
      var a := new BaseUint.Zero(pn.Length);
      ghost var q: nat := 0;
      var j := 0;
      while j < pn.Length
        invariant 0 <= j <= pn.Length && pn[..] == x && b.pn[..] == y && a.Valid() && q >= 0
        invariant Val(x[..j]) * Val(y) == a.Value() + P(pn.Length) * q
      {
        ghost var v := a.Value();
        a.MultiplyAdd(pn[j], b, j);
        ghost var q' :| q' >= 0 && v + P(j) * (x[j] * Val(y)) == a.Value() + P(pn.Length) * q';
        ValTake(x, j);
        MulRow(Val(x[..j]), P(j), x[j], Val(y), v, P(pn.Length), q, a.Value(), q');
        q := q + q';
        j := j + 1;
      }
      assert x[..j] == x;
      ValBound(a.pn[..]);
      ModIs(Val(x) * Val(y), P(pn.Length), q, a.Value());
      SetAll(a.pn[..]);
    }

    // -------------------------------------------------------------------------------------
    // Division

    /** `pn[bit / 32] |= 1U << (bit & 31)`, on a number whose bits up to this one are clear. */
    method SetBit(bit: nat, ghost k: nat)
      requires Valid() && bit < 32 * pn.Length && Value() == Pow2(bit + 1) * k
      modifies pn
      ensures Valid() && Value() == old(Value()) + Pow2(bit)
    {
      SetBitCorrect(pn[..], bit / 32, bit % 32, k);
      OrInto(bit / 32, Pow2(bit % 32));
    }

    /** `operator/=`: false stands for the "Division by zero" exception. */
    method Divide(b: BaseUint) returns (ok: bool)
      requires Valid() && b.Valid() && b.pn.Length == pn.Length
      modifies pn
      ensures Valid() && ok == (old(b.Value()) != 0)
      ensures ok ==> Value() == old(Value()) / old(b.Value())
    {
      var div := new BaseUint.Copy(b);
      var num := new BaseUint.Copy(this);
      ghost var x, d := Value(), b.Value();
      SetAll(seq(pn.Length, _ => 0));
      ValZero(pn[..]);
      var numBits := num.BitLength();
      var divBits := div.BitLength();
      if divBits == 0 { return false; }
      if divBits > numBits {
        SmallQuotient(x, d, numBits, divBits);
        return true;
      }
      var shift := numBits - divBits;
      AlignFits(num.pn[..], d, numBits, divBits);
      div.ShiftLeft(shift);
      DivideLoop(num, div, shift, x, d);
      return true;
    }

    /** The loop of `operator/=`, once the divisor is aligned. */
    method DivideLoop(num: BaseUint, div: BaseUint, start: nat, ghost x: nat, ghost d: nat)
      requires Valid() && num.Valid() && div.Valid() && num.pn.Length == div.pn.Length == pn.Length
      requires num.pn != div.pn && num.pn != pn && div.pn != pn && start < 32 * pn.Length
      requires d > 0 && div.Value() == d * Pow2(start) && LongDivision(x, d, start + 1, Value(), num.Value(), 0)
      modifies pn, num.pn, div.pn
      ensures Valid() && Value() == x / d
    {
      var shift: int := start;
      ghost var k := 0;
      while shift >= 0
        invariant -1 <= shift <= start && Valid() && num.Valid() && div.Valid()
        invariant shift >= 0 ==> div.Value() == d * Pow2(shift)
        invariant LongDivision(x, d, shift + 1, Value(), num.Value(), k)
      {
        k := DivideBit(num, div, shift, x, d, k);
        shift := shift - 1;
      }
      ModIs(x, d, Value(), num.Value());
    }

    /** One iteration of the division loop: decide one bit of the quotient. */
    method DivideBit(num: BaseUint, div: BaseUint, shift: nat, ghost x: nat, ghost d: nat, ghost k: nat) returns (ghost k': nat)
      requires Valid() && num.Valid() && div.Valid() && num.pn.Length == div.pn.Length == pn.Length
      requires num.pn != div.pn && num.pn != pn && div.pn != pn && shift < 32 * pn.Length
      requires div.Value() == d * Pow2(shift) && LongDivision(x, d, shift + 1, Value(), num.Value(), k)
      modifies pn, num.pn, div.pn
      ensures Valid() && num.Valid() && div.Valid() && LongDivision(x, d, shift, Value(), num.Value(), k')
      ensures shift > 0 ==> div.Value() == d * Pow2(shift - 1)
    {
      ghost var q, n, dv := Value(), num.Value(), div.Value();
      var order := num.CompareTo(div);
      LongDivisionStep(x, d, shift, q, n, k);
      if order >= 0 {
        ValBound(num.pn[..]);
        num.Subtract(div);
        ModIs(n - dv, P(pn.Length), 0, n - dv);
        SetBit(shift, k);
        k' := 2 * k + 1;
      } else {
        k' := 2 * k;
      }
      div.ShiftRight(1);
      if shift > 0 { HalfShift(d, shift); }
    }
  }

  ghost predicate IsBitLength(v: nat, n: nat) {
    if v == 0 then n == 0 else n > 0 && Pow2(n - 1) <= v < Pow2(n)
  }

  /** The highest nonzero limb determines the bit length. */
  lemma TopLimb(s: seq<nat>, pos: nat, n: nat)
    requires pos < |s| && IsLimbs(s) && (forall j :: pos < j < |s| ==> s[j] == 0)
    requires n > 0 && Pow2(n - 1) <= s[pos] < Pow2(n)
    ensures IsBitLength(Val(s), 32 * pos + n)
  {
    TopOnly(s, pos);
    ValBound(s[..pos]);
    PIsPow2(pos);
    Pow2Add(32 * pos, n - 1);
    Pow2Add(32 * pos, n);
    LimbRange(Val(s[..pos]), P(pos), s[pos], Pow2(n - 1), Pow2(n));
  }

  /** Limbs above the top one do not count. */
  lemma TopOnly(s: seq<nat>, pos: nat)
    requires pos < |s| && IsLimbs(s) && (forall j :: pos < j < |s| ==> s[j] == 0)
    ensures Val(s) == Val(s[..pos]) + P(pos) * s[pos]
  {
    NoneAbove(s[..pos + 1], s[pos + 1..], s);
    ValTake(s, pos);
  }

  lemma NoneAbove(low: seq<nat>, high: seq<nat>, s: seq<nat>)
    requires s == low + high && forall i :: 0 <= i < |high| ==> high[i] == 0
    ensures Val(s) == Val(low)
  {
    ValConcat(low, high);
    ValZero(high);
  }

  lemma LimbRange(v: nat, p: nat, a: nat, lo: nat, hi: nat)
    requires v < p && lo <= a < hi
    ensures p * lo <= v + p * a < p * hi
  {
    MulMono(lo, a, p);
    MulMono(a + 1, hi, p);
    Distribute(p, a, 1);
  }

  lemma MulAddAlgebra(v: int, p: int, c: int, v0: int, d: int, w: int, e: int, f: int, lo: int, hi: int)
    requires v + p * c == v0 + d * w && lo + B * hi == c + e + d * f
    ensures v + p * lo + (B * p) * hi == v0 + p * e + d * (w + p * f)
  {
    CarryStep(v, p, lo, hi, c + e + d * f);
    Distribute(p, c + e, d * f);
    Distribute(p, c, e);
    Distribute(d, w, p * f);
    assert p * (d * f) == d * (p * f);
  }

  /** The 64-bit value of one multiplication step does not wrap. */
  lemma WordBound(c: nat, e: nat, d: nat, f: nat)
    requires c < B && e < B && d < B && f < B
    ensures 0 <= c + e + d * f < B * B && 0 <= (c + e + d * f) / B < B
  {
    MulMono(d, B - 1, f);
    MulMono(f, B - 1, B - 1);
  }

  lemma MulSmallStep(t: seq<nat>, x: seq<nat>, i: nat, d: nat, c: nat)
    requires |t| == |x| && i < |t| && IsLimbs(t) && t[i..] == x[i..] && d < B && c < B
    requires Val(t[..i]) + P(i) * c == d * Val(x[..i])
    ensures var n := c + d * t[i];
            var t' := t[i := n % B];
            && 0 <= n < B * B && 0 <= n / B < B && IsLimbs(t') && t'[i + 1..] == x[i + 1..]
            && Val(t'[..i + 1]) + P(i + 1) * (n / B) == d * Val(x[..i + 1])
  {
    var n := c + d * t[i];
    var t' := t[i := n % B];
    assert t[i] == x[i] && t'[..i] == t[..i];
    WordBound(c, 0, d, t[i]);
    ValTake(t', i);
    ValTake(x, i);
    MulAddAlgebra(Val(t[..i]), P(i), c, 0, d, Val(x[..i]), 0, x[i], n % B, n / B);
  }

  /** One step of adding d * y into t0 from limb j on: t is the number so far, c the carry. */
  lemma MulAddStep(t: seq<nat>, t0: seq<nat>, y: seq<nat>, j: nat, i: nat, d: nat, c: nat)
    requires |t| == |t0| == |y| && i + j < |t| && t[i + j] == t0[i + j] && d < B && c < B && t[i + j] < B && y[i] < B
    requires Val(t[j..j + i]) + P(i) * c == Val(t0[j..j + i]) + d * Val(y[..i])
    ensures var n := c + t[i + j] + d * y[i];
            var t' := t[i + j := n % B];
            && 0 <= n < B * B && 0 <= n / B < B
            && Val(t'[j..j + i + 1]) + P(i + 1) * (n / B) == Val(t0[j..j + i + 1]) + d * Val(y[..i + 1])
  {
    var n := c + t[i + j] + d * y[i];
    var t' := t[i + j := n % B];
    WordBound(c, t[i + j], d, y[i]);
    assert t'[j..j + i + 1] == t[j..j + i] + [n % B];
    assert t0[j..j + i + 1] == t0[j..j + i] + [t0[i + j]];
    ValSnoc(t[j..j + i], n % B);
    ValSnoc(t0[j..j + i], t0[i + j]);
    ValTake(y, i);
    MulAddAlgebra(Val(t[j..j + i]), P(i), c, Val(t0[j..j + i]), d, Val(y[..i]), t0[i + j], y[i], n % B, n / B);
  }

  /** All of d * y beyond the width is a multiple of the modulus. */
  lemma MulAddTotal(t: seq<nat>, t0: seq<nat>, y: seq<nat>, j: nat, d: nat, c: nat) returns (q: nat)
    requires |t| == |t0| == |y| && j < |t| && t[..j] == t0[..j]
    requires Val(t[j..]) + P(|t| - j) * c == Val(t0[j..]) + d * Val(y[..|t| - j])
    ensures Val(t0) + P(j) * (d * Val(y)) == Val(t) + P(|t|) * q
  {
    var n := |t|;
    assert t == t[..j] + t[j..] && t0 == t0[..j] + t0[j..] && y == y[..n - j] + y[n - j..];
    ValConcat(t[..j], t[j..]);
    ValConcat(t0[..j], t0[j..]);
    ValConcat(y[..n - j], y[n - j..]);
    PAdd(j, n - j);
    q := c + d * Val(y[n - j..]);
    MulTotalAlgebra(P(j), P(n - j), Val(t[j..]), Val(t0[j..]), c, d, Val(y[..n - j]), Val(y[n - j..]));
  }

  lemma MulTotalAlgebra(p: int, p': int, v: int, v0: int, c: int, d: int, w: int, u: int)
    requires v + p' * c == v0 + d * w
    ensures p * v0 + p * (d * (w + p' * u)) == p * v + (p * p') * (c + d * u)
  {
    Distribute(d, w, p' * u);
    assert d * (p' * u) == p' * (d * u);
    Distribute(p', c, d * u);
    assert v0 + d * (w + p' * u) == v + p' * (c + d * u);
    Distribute(p, v0, d * (w + p' * u));
    Distribute(p, v, p' * (c + d * u));
    MulAssoc(p, p', c + d * u);
  }

  lemma MulRow(w: int, p: int, d: int, y: int, v: int, m: int, q: int, v': int, q': int)
    requires w * y == v + m * q && v + p * (d * y) == v' + m * q'
    ensures (w + p * d) * y == v' + m * (q + q')
  {
    Distribute(y, w, p * d);
    MulAssoc(p, d, y);
    Distribute(m, q, q');
  }

  lemma ClearLow(lo: nat, p: nat, m: nat, z: nat)
    requires lo + p * m == p * z && lo < p
    ensures lo == 0 && m == z
  {
    ModIs(p * z, p, z, 0);
    ModIs(p * z, p, m, lo);
  }

  lemma SetBitAlgebra(mid: nat, hi: nat, e: nat, f: nat, k: nat) returns (m: nat)
    requires mid + B * hi == e * k && e * f == B && mid < B && e > 0
    ensures mid == e * m && mid + e <= B
  {
    assert e * (f * hi) == B * hi by { MulAssoc(e, f, hi); }
    Distribute(e, k, -(f * hi));
    if k - f * hi < 0 { MulMono(1, f * hi - k, e); }
    m := k - f * hi;
    if m >= f { MulMono(f, m, e); }
    MulMono(m + 1, f, e);
    Distribute(e, m, 1);
  }

  lemma SetBitLimb(t: seq<nat>, j: nat, r: nat, k: nat) returns (m: nat)
    requires IsLimbs(t) && j < |t| && r < 32 && Val(t) == Pow2(32 * j + r + 1) * k
    ensures t[j] == Pow2(r + 1) * m && t[j] + Pow2(r + 1) <= B
  {
    assert t == t[..j] + t[j..];
    ValConcat(t[..j], t[j..]);
    assert Val(t[j..]) == t[j] + B * Val(t[j + 1..]) by { assert t[j..][1..] == t[j + 1..]; }
    ValBound(t[..j]);
    PIsPow2(j);
    Pow2Add(32 * j, r + 1);
    MulAssoc(P(j), Pow2(r + 1), k);
    ClearLow(Val(t[..j]), P(j), Val(t[j..]), Pow2(r + 1) * k);
    Pow2Add(r + 1, 31 - r);
    Pow2Of32();
    m := SetBitAlgebra(t[j], Val(t[j + 1..]), Pow2(r + 1), Pow2(31 - r), k);
  }

  lemma AddLimb(t: seq<nat>, j: nat, e: nat)
    requires j < |t|
    ensures Val(t[j := t[j] + e]) == Val(t) + P(j) * e
  {
    var t' := t[j := t[j] + e];
    assert t'[..j] == t[..j] && t'[j + 1..] == t[j + 1..];
    SameTail(t', t, j + 1);
    ValTake(t', j);
    ValTake(t, j);
    Distribute(P(j), t[j], e);
  }

  /** Setting bit 32j + r of a number that is a multiple of 2^(32j + r + 1). */
  lemma SetBitCorrect(t: seq<nat>, j: nat, r: nat, k: nat)
    requires IsLimbs(t) && j < |t| && r < 32 && Val(t) == Pow2(32 * j + r + 1) * k
    ensures var t' := t[j := Or(t[j], Pow2(r))];
            IsLimbs(t') && Val(t') == Val(t) + Pow2(32 * j + r)
  {
    var m := SetBitLimb(t, j, r, k);
    OrDisjoint(m, Pow2(r), r + 1);
    AddLimb(t, j, Pow2(r));
    PIsPow2(j);
    Pow2Add(32 * j, r);
  }

  lemma SmallQuotient(x: nat, d: nat, numBits: nat, divBits: nat)
    requires IsBitLength(x, numBits) && IsBitLength(d, divBits) && divBits > numBits
    ensures d > 0 && x / d == 0
  {
    Pow2Mono(numBits, divBits - 1);
    ModIs(x, d, 0, x);
  }

  /** Aligning the divisor with the number loses no bit. */
  lemma AlignFits(s: seq<nat>, d: nat, numBits: nat, divBits: nat)
    requires IsLimbs(s) && IsBitLength(Val(s), numBits) && IsBitLength(d, divBits) && 0 < divBits <= numBits
    ensures numBits <= 32 * |s|
    ensures (d * Pow2(numBits - divBits)) % P(|s|) == d * Pow2(numBits - divBits)
    ensures LongDivision(Val(s), d, numBits - divBits + 1, 0, Val(s), 0)
  {
    ValBound(s);
    PIsPow2(|s|);
    if numBits > 32 * |s| { Pow2Mono(32 * |s|, numBits - 1); }
    Pow2Mono(numBits, 32 * |s|);
    Pow2Add(divBits, numBits - divBits);
    Pow2Add(divBits - 1, numBits - divBits + 1);
    AlignAlgebra(d, Pow2(numBits - divBits), Pow2(divBits), P(|s|));
    MulMono(Pow2(divBits - 1), d, Pow2(numBits - divBits + 1));
  }

  lemma AlignAlgebra(d: nat, e: nat, top: nat, p: nat)
    requires d < top && top * e <= p && e > 0
    ensures (d * e) % p == d * e
  {
    MulMono(d + 1, top, e);
    Distribute(e, d, 1);
    ModIs(d * e, p, 0, d * e);
  }

  /** Division of x by d with quotient bits known from `low` up: n is what remains. */
  ghost predicate LongDivision(x: nat, d: nat, low: nat, q: nat, n: nat, k: nat) {
    x == q * d + n && n < d * Pow2(low) && q == Pow2(low) * k
  }

  lemma LongDivisionStep(x: nat, d: nat, shift: nat, q: nat, n: nat, k: nat)
    requires LongDivision(x, d, shift + 1, q, n, k)
    ensures if n >= d * Pow2(shift) then LongDivision(x, d, shift, q + Pow2(shift), n - d * Pow2(shift), 2 * k + 1)
            else LongDivision(x, d, shift, q, n, 2 * k)
  {
    QuotientStep(q, n, d, Pow2(shift), k);
  }

  lemma QuotientStep(q: nat, n: nat, d: nat, e: nat, k: nat)
    requires q == (2 * e) * k && n < d * (2 * e)
    ensures (q + e) * d + (n - d * e) == q * d + n && n - d * e < d * e && q + e == e * (2 * k + 1) && q == e * (2 * k)
  {
    Distribute(d, q, e);
    assert d * (2 * e) == 2 * (d * e);
    assert (2 * e) * k == e * (2 * k);
    Distribute(e, 2 * k, 1);
  }

  lemma HalfShift(d: nat, shift: nat)
    requires shift > 0
    ensures (d * Pow2(shift)) / Pow2(1) == d * Pow2(shift - 1)
  {
    assert d * Pow2(shift) == 2 * (d * Pow2(shift - 1));
  }

  lemma {:induction false} ValComplement(s: seq<nat>, t: seq<nat>)
    requires |s| == |t| && forall i :: 0 <= i < |s| ==> s[i] < B && t[i] == B - 1 - s[i]
    ensures IsLimbs(t) && Val(t) == P(|s|) - 1 - Val(s)
  {
    if s != [] { ValComplement(s[1..], t[1..]); }
  }

  /** Numbers that agree from limb `i` on differ by what their low limbs differ by. */
  lemma SameTail(s: seq<nat>, t: seq<nat>, i: nat)
    requires |s| == |t| && i <= |s| && s[i..] == t[i..]
    ensures Val(s) - Val(t) == Val(s[..i]) - Val(t[..i])
  {
    assert s == s[..i] + s[i..] && t == t[..i] + t[i..];
    ValConcat(s[..i], s[i..]);
    ValConcat(t[..i], t[i..]);
  }

  /** Adding a carry of one to limb `i`: it stops there, or goes on to the next limb. */
  lemma IncrementStep(x: seq<nat>, s: seq<nat>, i: nat)
    requires |s| == |x| && i < |s| && IsLimbs(s) && s[i..] == x[i..]
    requires Val(s[..i]) + P(i) == Val(x[..i]) + 1
    ensures var s' := s[i := (s[i] + 1) % B];
            && IsLimbs(s') && s'[i + 1..] == x[i + 1..]
            && if s'[i] != 0 then Val(s') == Val(x) + 1 else Val(s'[..i + 1]) + P(i + 1) == Val(x[..i + 1]) + 1
  {
    var s' := s[i := (s[i] + 1) % B];
    assert s'[..i] == s[..i] && s[i] == x[i];
    ValTake(s', i);
    ValTake(x, i);
    assert P(i) * (x[i] + 1) == P(i) * x[i] + P(i);
    if s'[i] != 0 {
      assert s'[i] == x[i] + 1;
      SameTail(s', x, i + 1);
    } else {
      assert x[i] + 1 == B;
      assert P(i) * 0 == 0;
    }
  }

  lemma DecrementStep(x: seq<nat>, s: seq<nat>, i: nat)
    requires |s| == |x| && i < |s| && IsLimbs(s) && s[i..] == x[i..]
    requires Val(s[..i]) + 1 == Val(x[..i]) + P(i)
    ensures var s' := s[i := (s[i] - 1) % B];
            && IsLimbs(s') && s'[i + 1..] == x[i + 1..]
            && if s'[i] != B - 1 then Val(s') == Val(x) - 1 else Val(s'[..i + 1]) + 1 == Val(x[..i + 1]) + P(i + 1)
  {
    var s' := s[i := (s[i] - 1) % B];
    assert s'[..i] == s[..i] && s[i] == x[i];
    ValTake(s', i);
    ValTake(x, i);
    LimbDecrement(s[i]);
    BorrowAlgebra(Val(s[..i]), Val(x[..i]), P(i), x[i]);
    if s'[i] != B - 1 {
      SameTail(s', x, i + 1);
    }
  }

  lemma LimbDecrement(a: nat)
    requires a < B
    ensures (a - 1) % B == if a == 0 then B - 1 else a - 1
  {}

  lemma BorrowAlgebra(v: nat, w: nat, p: nat, a: nat)
    requires v + 1 == w + p
    ensures v + p * (a - 1) == w + p * a - 1
    ensures a == 0 ==> v + p * (B - 1) + 1 == w + p * a + B * p
  {
    LessOne(p, a);
    LessOne(p, B);
    assert p * B == B * p;
  }

  lemma LessOne(p: nat, a: int)
    ensures p * (a - 1) == p * a - p
  {}

  lemma HigherLimbWins(s: seq<nat>, t: seq<nat>, i: nat)
    requires |s| == |t| && i < |s| && IsLimbs(s) && IsLimbs(t) && s[i + 1..] == t[i + 1..] && s[i] < t[i]
    ensures Val(s) < Val(t)
  {
    SameTail(s, t, i + 1);
    ValTake(s, i);
    ValTake(t, i);
    ValBound(s[..i]);
    LimbOrder(Val(s[..i]), Val(t[..i]), P(i), s[i], t[i]);
  }

  lemma LimbOrder(v: nat, w: nat, p: nat, a: nat, b: nat)
    requires v < p && a < b
    ensures v + p * a < w + p * b
  {
    MulMono(a + 1, b, p);
    Distribute(p, a, 1);
  }

  /** The highest limb in which two numbers differ decides. */
  lemma CompareLimbs(s: seq<nat>, t: seq<nat>, i: nat)
    requires |s| == |t| && i < |s| && IsLimbs(s) && IsLimbs(t) && s[i] != t[i]
    requires forall j :: i < j < |s| ==> s[j] == t[j]
    ensures Val(s) < Val(t) <==> s[i] < t[i]
    ensures Val(s) != Val(t)
  {
    if s[i] < t[i] { HigherLimbWins(s, t, i); } else { HigherLimbWins(t, s, i); }
  }

  lemma {:induction false} PositiveLimb(s: seq<nat>, i: nat)
    requires i < |s| && s[i] > 0
    ensures Val(s) > 0
  {
    if i > 0 { PositiveLimb(s[1..], i - 1); }
  }

  lemma ModShift(x: int, m: nat)
    requires m > 0
    ensures (x + m) % m == x % m
  {
    ModIs(x + m, m, x / m + 1, x % m);
  }

  lemma ModOfSum(x: int, y: int, m: nat)
    requires m > 0
    ensures (x + y % m) % m == (x + y) % m
  {
    var s := x + y % m;
    assert x + y == s % m + m * (s / m + y / m);
    ModIs(x + y, m, s / m + y / m, s % m);
  }
}
