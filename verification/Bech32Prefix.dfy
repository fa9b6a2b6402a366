/** The checksum covers the human readable part: how it is expanded into symbols, and that a change of
    one of its characters is noticed. */
module Bech32Prefix {
  import opened Bech32
  import opened Bech32Errors
  import opened Bech32Text

  lemma SplitByte(c: bv8)
    ensures Top(c) < 8 && Bottom(c) < 32 && (Top(c) << 5) | Bottom(c) == c
  {}

  /** The i-th character is made of its three high and its five low bits in the expansion. */
  predicate Rebuilds(x: seq<bv8>, hrp: Text, i: nat) {
    var n := |hrp|;
    i < n && n + 1 + i < |x| && x[i] < 8 && x[n + 1 + i] < 32 && (x[i] << 5) | x[n + 1 + i] == hrp[i]
  }

  /** The expansion has the three high bits of every character, a zero, the five low bits of every
      character in the same order, and the symbols. */
  lemma ExpansionIs(hrp: Text, values: seq<bv8>)
    ensures var x, n := Coefficients(hrp, values), |hrp|;
            && |x| == n + 1 + n + |values| && x[n] == 0 && x[n + 1 + n..] == values
            && forall i :: 0 <= i < n ==> Rebuilds(x, hrp, i)
  {
    var x, n := Coefficients(hrp, values), |hrp|;
    forall i | 0 <= i < n ensures Rebuilds(x, hrp, i) {
      assert x[i] == Top(hrp[i]) && x[n + 1 + i] == Bottom(hrp[i]);
      SplitByte(hrp[i]);
    }
  }

  /** Human readable parts of one length with the same expansion are equal. */
  lemma ExpansionInjective(hrp: Text, other: Text, x: seq<bv8>, y: seq<bv8>)
    requires |hrp| == |other| && Coefficients(hrp, x) == Coefficients(other, y)
    ensures hrp == other && x == y
  {
    ExpansionIs(hrp, x);
    ExpansionIs(other, y);
    forall i | 0 <= i < |hrp| ensures hrp[i] == other[i] {
      assert Rebuilds(Coefficients(hrp, x), hrp, i);
      assert Rebuilds(Coefficients(other, y), other, i);
    }
  }

  lemma ExpansionDiffers(hrp: Text, i: nat, c: bv8, values: seq<bv8>)
    requires i < |hrp|
    ensures var x, y, n := Coefficients(hrp, values), Coefficients(hrp[i := c], values), |hrp|;
            |x| == |y| && forall m :: 0 <= m < |x| && m != i && m != n && m != n + 1 + i ==> x[m] == y[m]
  {
    var x, y, n := Coefficients(hrp, values), Coefficients(hrp[i := c], values), |hrp|;
    forall m | 0 <= m < |x| && m != i && m != n && m != n + 1 + i ensures x[m] == y[m] {
      if m < n {
      } else if m < n + 1 + n {
        assert x[m] == Bottom(hrp[m - n - 1]) && y[m] == Bottom(hrp[i := c][m - n - 1]);
      } else {
        assert x[m] == values[m - n - 1 - n] && y[m] == values[m - n - 1 - n];
      }
    }
  }

  lemma ExpansionSymbols(hrp: Text, values: seq<bv8>)
    requires AllSymbols(values)
    ensures AllSymbols(Coefficients(hrp, values))
  {}

  /** Changing one character of the human readable part makes the checksum fail for the encoding that
      accepted it. */
  lemma PrefixChangeDetected(hrp: Text, i: nat, c: bv8, values: seq<bv8>)
    requires i < |hrp| < 1022 && c != hrp[i] && AllSymbols(values) && Verify(hrp, values) != Invalid
    ensures Verify(hrp[i := c], values) != Verify(hrp, values)
  {
    var x, y, n := Coefficients(hrp, values), Coefficients(hrp[i := c], values), |hrp|;
    if Verify(hrp[i := c], values) == Verify(hrp, values) {
      ExpansionDiffers(hrp, i, c, values);
      ExpansionSymbols(hrp, values);
      ExpansionSymbols(hrp[i := c], values);
      ThreeChanges(1, x, y, i, n, n + 1 + i);
      ExpansionInjective(hrp, hrp[i := c], values, values);
    }
  }

  lemma SameSeparator(str: Text, i: nat, c: bv8)
    requires i < LastSeparator(str)
    ensures LastSeparator(str[i := c]) == LastSeparator(str)
  {
    SeparatorIs(str[i := c], LastSeparator(str));
  }

  lemma SeparatorIs(s: Text, pos: nat)
    requires pos < |s| && s[pos] == SEPARATOR && forall i :: pos < i < |s| ==> s[i] != SEPARATOR
    ensures LastSeparator(s) == pos
  {}

  lemma ChangedParts(str: Text, i: nat, c: bv8, pos: nat)
    requires i < pos < |str|
    ensures str[i := c][pos + 1..] == str[pos + 1..] && Lower(str[i := c][..pos]) == Lower(str[..pos])[i := LowerCase(c)]
  {}

  /** A text whose human readable part has one character changed, other than in case, is not accepted
      for the encoding that accepted the text before. */
  lemma TextPrefixChange(str: Text, limit: nat, i: nat, c: bv8)
    requires DecodeSpec(str, limit).encoding != Invalid && i < LastSeparator(str) < 1022 && LowerCase(c) != LowerCase(str[i])
    ensures DecodeSpec(str[i := c], limit).encoding != DecodeSpec(str, limit).encoding
  {
    var pos := LastSeparator(str);
    SameSeparator(str, i, c);
    if Parsable(str[i := c], limit) {
      ChangedParts(str, i, c, pos);
      PrefixChangeDetected(Lower(str[..pos]), i, LowerCase(c), Values(str[pos + 1..]));
    }
  }

  // ----- What the parser accepts -----

  lemma LowerByte(c: bv8)
    ensures LowerCase(LowerCase(c)) == LowerCase(c) && !IsUpper(LowerCase(c)) && (LowerCase(c) == SEPARATOR <==> c == SEPARATOR)
    ensures (IsPrintable(LowerCase(c)) <==> IsPrintable(c)) && (LowerCase(c) < 128 <==> c < 128)
  {}

  lemma LowerIsPlain(s: Text)
    ensures NoUpper(Lower(s)) && Lower(Lower(s)) == Lower(s) && (AllPrintable(Lower(s)) <==> AllPrintable(s))
    ensures ValidCharacters(s) ==> ValidCharacters(Lower(s))
  {
    forall i | 0 <= i < |s|
      ensures !IsUpper(Lower(s)[i]) && Lower(Lower(s))[i] == Lower(s)[i] && (IsPrintable(Lower(s)[i]) <==> IsPrintable(s[i]))
    {
      LowerByte(s[i]);
    }
  }

  lemma LowerSeparator(s: Text)
    ensures LastSeparator(Lower(s)) == LastSeparator(s)
  {
    var pos := LastSeparator(s);
    forall i | 0 <= i < |s| ensures Lower(s)[i] == SEPARATOR <==> s[i] == SEPARATOR {
      LowerByte(s[i]);
    }
    if pos >= 0 { SeparatorIs(Lower(s), pos); }
  }

  lemma LowerValues(s: Text)
    ensures AllValued(Lower(s)) <==> AllValued(s)
    ensures AllValued(s) ==> Values(Lower(s)) == Values(s)
  {
    forall i | 0 <= i < |s|
      ensures Lower(s)[i] < 128 <==> s[i] < 128
      ensures s[i] < 128 ==> CharsetRev(Lower(s)[i]) == CharsetRev(s[i])
    {
      LowerByte(s[i]);
    }
  }

  lemma LowerPartsSame(front: Text, tail: Text)
    requires |tail| >= CHECKSUM_SIZE
    ensures DecodeParts(Lower(front), Lower(tail)) == DecodeParts(front, tail)
  {
    LowerIsPlain(front);
    LowerValues(tail);
  }

  /** The case of the letters plays no role, as long as it is one. */
  lemma CaseBlind(str: Text, limit: nat)
    requires ValidCharacters(str)
    ensures DecodeSpec(Lower(str), limit) == DecodeSpec(str, limit)
  {
    var pos := LastSeparator(str);
    LowerIsPlain(str);
    LowerSeparator(str);
    if 0 < pos < |str| - CHECKSUM_SIZE {
      LowerPartsSame(str[..pos], str[pos + 1..]);
      assert Lower(str)[..pos] == Lower(str[..pos]) && Lower(str)[pos + 1..] == Lower(str[pos + 1..]);
    }
  }

  lemma PrintedPrefix(encoding: Encoding, hrp: Text, data: seq<bv8>)
    requires encoding != Invalid && AllSymbols(data) && AllPrintable(EncodeSpec(encoding, hrp, data))
    ensures AllPrintable(hrp)
  {
    forall i | 0 <= i < |hrp| ensures IsPrintable(hrp[i]) {
      assert EncodeSpec(encoding, hrp, data)[i] == hrp[i];
    }
  }

  lemma DecodedPrefix(str: Text, limit: nat)
    requires DecodeSpec(str, limit).encoding != Invalid
    ensures var r := DecodeSpec(str, limit); r.hrp != [] && NoUpper(r.hrp) && ValidCharacters(str) && |str| <= limit
  {
    LowerIsPlain(str[..LastSeparator(str)]);
  }

  /** The parser accepts exactly the texts that the printer makes, in small or in capital letters, within
      the limit and with printable characters, and gives back what was printed. */
  lemma DecodeExactly(str: Text, limit: nat, encoding: Encoding, hrp: Text, data: seq<bv8>)
    requires encoding != Invalid
    ensures DecodeSpec(str, limit) == DecodeResult(encoding, hrp, data) <==>
              && |str| <= limit && AllPrintable(str) && !(HasLower(str) && HasUpper(str))
              && hrp != [] && NoUpper(hrp) && AllSymbols(data) && Lower(str) == EncodeSpec(encoding, hrp, data)
  {
    if DecodeSpec(str, limit) == DecodeResult(encoding, hrp, data) {
      EncodeOfDecode(str, limit);
      DecodedPrefix(str, limit);
    }
    if && |str| <= limit && ValidCharacters(str) && hrp != [] && NoUpper(hrp)
       && AllSymbols(data) && Lower(str) == EncodeSpec(encoding, hrp, data)
    {
      CaseBlind(str, limit);
      LowerIsPlain(str);
      PrintedPrefix(encoding, hrp, data);
      DecodeOfEncode(encoding, hrp, data, limit);
    }
  }
}
