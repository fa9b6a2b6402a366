/** Printing and parsing Bech32 and Bech32m texts: the loops of the codec, and that the printer and
    the parser are inverse of each other. */
module Bech32Text {
  import opened Bech32

  // ----- Printing -----

  function Chars(values: seq<bv8>): (r: Text)
    requires AllSymbols(values)
    ensures |r| == |values| && forall i :: 0 <= i < |r| ==> r[i] == Charset(values[i])
  {
    seq(|values|, i requires 0 <= i < |values| => Charset(values[i]))
  }

  predicate NoUpper(hrp: Text) {
    forall i :: 0 <= i < |hrp| ==> !IsUpper(hrp[i])
  }

  /** `Encode`: the human readable part, the separator, and the characters of data and checksum. */
  function EncodeSpec(encoding: Encoding, hrp: Text, values: seq<bv8>): Text
    requires encoding != Invalid && AllSymbols(values)
  {
    hrp + [SEPARATOR] + Chars(values) + Chars(Checksum(encoding, hrp, values))
  }

  // ----- Parsing -----

  predicate AllPrintable(s: Text) {
    forall i :: 0 <= i < |s| ==> IsPrintable(s[i])
  }

  predicate HasUpper(s: Text) {
    exists i :: 0 <= i < |s| && IsUpper(s[i])
  }

  predicate HasLower(s: Text) {
    exists i :: 0 <= i < |s| && IsLower(s[i])
  }

  /** Printable characters only, and letters of one case only. */
  predicate ValidCharacters(s: Text) {
    AllPrintable(s) && !(HasLower(s) && HasUpper(s))
  }

  /** Index of the last separator, -1 if there is none. */
  function LastSeparator(s: Text): (pos: int)
    ensures -1 <= pos < |s|
    ensures pos >= 0 ==> s[pos] == SEPARATOR
    ensures forall i :: pos < i < |s| ==> s[i] != SEPARATOR
  {
    if s == [] then -1 else if s[|s| - 1] == SEPARATOR then |s| - 1 else LastSeparator(s[..|s| - 1])
  }

  function Lower(s: Text): (r: Text)
    ensures |r| == |s| && forall i :: 0 <= i < |r| ==> r[i] == LowerCase(s[i])
  {
    seq(|s|, i requires 0 <= i < |s| => LowerCase(s[i]))
  }

  /** Every character is the character of some symbol. */
  predicate AllValued(s: Text) {
    forall i :: 0 <= i < |s| ==> s[i] < 128 && CharsetRev(s[i]) != NO_SYMBOL
  }

  function Values(s: Text): (r: seq<bv8>)
    requires AllValued(s)
    ensures |r| == |s| && AllSymbols(r) && forall i :: 0 <= i < |r| ==> r[i] == CharsetRev(s[i])
  {
    seq(|s|, i requires 0 <= i < |s| => CharsetRev(s[i]))
  }

  /** The end of `Decode`, on the two sides of the separator. */
  function DecodeParts(front: Text, tail: Text): DecodeResult
    requires |tail| >= CHECKSUM_SIZE
  {
    if !AllValued(tail) then FAILED
    else
      var values, hrp := Values(tail), Lower(front);
      var encoding := Verify(hrp, values);
      if encoding == Invalid then FAILED
      else DecodeResult(encoding, hrp, values[..|values| - CHECKSUM_SIZE])
  }

  /** The checks of `Decode` before it looks at symbols. */
  predicate Parsable(str: Text, limit: nat) {
    ValidCharacters(str) && |str| <= limit && 0 < LastSeparator(str) < |str| - CHECKSUM_SIZE
  }

  /** `Decode`. */
  function DecodeSpec(str: Text, limit: nat): DecodeResult {
    if Parsable(str, limit) then DecodeParts(str[..LastSeparator(str)], str[LastSeparator(str) + 1..]) else FAILED
  }

  // ----- Round trips -----

  lemma {:induction false} LastSeparatorAt(a: Text, b: Text)
    requires SEPARATOR !in b
    ensures LastSeparator(a + [SEPARATOR] + b) == |a|
  {
    var s := a + [SEPARATOR] + b;
    if b == [] {
      assert s[|s| - 1] == SEPARATOR;
    } else {
      var n := |b| - 1;
      assert s[|s| - 1] == b[n];
      assert s[..|s| - 1] == a + [SEPARATOR] + b[..n];
      LastSeparatorAt(a, b[..n]);
    }
  }

  lemma CharsPlain(values: seq<bv8>)
    requires AllSymbols(values)
    ensures AllPrintable(Chars(values)) && NoUpper(Chars(values)) && SEPARATOR !in Chars(values)
    ensures AllValued(Chars(values)) && Values(Chars(values)) == values
  {
    forall i | 0 <= i < |values|
      ensures IsPrintable(Chars(values)[i]) && !IsUpper(Chars(values)[i]) && Chars(values)[i] != SEPARATOR
    {
      CharsetRange(values[i]);
    }
    forall i | 0 <= i < |values| ensures CharsetRev(Chars(values)[i]) == values[i] {
      CharsetOk(values[i]);
    }
  }

  lemma PartsOfEncode(encoding: Encoding, hrp: Text, values: seq<bv8>)
    requires encoding != Invalid && AllSymbols(values) && NoUpper(hrp)
    ensures var all := values + Checksum(encoding, hrp, values);
            AllSymbols(all) && DecodeParts(hrp, Chars(all)) == DecodeResult(encoding, hrp, values)
  {
    var all := values + Checksum(encoding, hrp, values);
    CharsPlain(all);
    LowerIsSame(hrp);
    ChecksumVerifies(encoding, hrp, values);
    assert all[..|all| - 6] == values;
  }

  lemma EncodeJoined(encoding: Encoding, hrp: Text, values: seq<bv8>)
    requires encoding != Invalid && AllSymbols(values)
    ensures var all := values + Checksum(encoding, hrp, values);
            AllSymbols(all) && EncodeSpec(encoding, hrp, values) == hrp + [SEPARATOR] + Chars(all)
  {
    var sum := Checksum(encoding, hrp, values);
    assert Chars(values) + Chars(sum) == Chars(values + sum);
    assert hrp + [SEPARATOR] + Chars(values) + Chars(sum) == hrp + [SEPARATOR] + (Chars(values) + Chars(sum));
  }

  /** Parsing what was printed gives it back exactly if the human readable part is a non-empty
      printable text and the result keeps to the length limit; otherwise the parser refuses it. */
  lemma DecodeOfEncode(encoding: Encoding, hrp: Text, values: seq<bv8>, limit: nat)
    requires encoding != Invalid && AllSymbols(values) && NoUpper(hrp)
    ensures var str := EncodeSpec(encoding, hrp, values);
            if hrp != [] && AllPrintable(hrp) && |str| <= limit
            then DecodeSpec(str, limit) == DecodeResult(encoding, hrp, values)
            else DecodeSpec(str, limit) == FAILED
  {
    EncodeJoined(encoding, hrp, values);
    PartsOfEncode(encoding, hrp, values);
    var all := values + Checksum(encoding, hrp, values);
    CharsPlain(all);
    DecodeSplit(hrp, Chars(all), limit);
  }

  /** How the parser sees a text whose second part has only characters of symbols. */
  lemma DecodeSplit(hrp: Text, tail: Text, limit: nat)
    requires NoUpper(hrp) && AllPrintable(tail) && NoUpper(tail) && SEPARATOR !in tail && |tail| >= 6
    ensures DecodeSpec(hrp + [SEPARATOR] + tail, limit) ==
            if hrp == [] || !AllPrintable(hrp) || |hrp| + 1 + |tail| > limit then FAILED else DecodeParts(hrp, tail)
  {
    var str := hrp + [SEPARATOR] + tail;
    LastSeparatorAt(hrp, tail);
    EncodedCharacters(hrp, tail);
    assert str[|hrp| + 1..] == tail && str[..|hrp|] == hrp;
  }

  lemma EncodedCharacters(hrp: Text, tail: Text)
    requires NoUpper(hrp) && AllPrintable(tail) && NoUpper(tail)
    ensures ValidCharacters(hrp + [SEPARATOR] + tail) <==> AllPrintable(hrp)
  {
    var s := hrp + [SEPARATOR] + tail;
    assert forall i :: 0 <= i < |hrp| ==> s[i] == hrp[i];
    assert s[|hrp|] == SEPARATOR;
    assert forall i :: |hrp| < i < |s| ==> s[i] == tail[i - |hrp| - 1];
  }

  lemma LowerIsSame(s: Text)
    requires NoUpper(s)
    ensures Lower(s) == s
  {}

  lemma EncodeOfParts(front: Text, tail: Text)
    requires |tail| >= 6 && DecodeParts(front, tail).encoding != Invalid
    ensures var r := DecodeParts(front, tail);
            AllSymbols(r.data) && EncodeSpec(r.encoding, r.hrp, r.data) == Lower(front) + [SEPARATOR] + Lower(tail)
  {
    var r, all := DecodeParts(front, tail), Values(tail);
    var sum := all[|all| - 6..];
    assert all == r.data + sum;
    ChecksumUnique(r.encoding, r.hrp, r.data, sum);
    EncodeJoined(r.encoding, r.hrp, r.data);
    CharsOfValues(tail);
  }

  /** Printing what was parsed gives the text back in lower case: no other text means the same. */
  lemma EncodeOfDecode(str: Text, limit: nat)
    requires DecodeSpec(str, limit).encoding != Invalid
    ensures var r := DecodeSpec(str, limit);
            AllSymbols(r.data) && EncodeSpec(r.encoding, r.hrp, r.data) == Lower(str)
  {
    var pos := LastSeparator(str);
    if Parsable(str, limit) {
      EncodeOfParts(str[..pos], str[pos + 1..]);
      LowerParts(str, pos);
    }
  }

  lemma CharsOfValues(s: Text)
    requires AllValued(s)
    ensures Chars(Values(s)) == Lower(s)
  {
    forall i | 0 <= i < |s| ensures Chars(Values(s))[i] == LowerCase(s[i]) {
      CharsetRevOk(s[i]);
    }
  }

  lemma LowerParts(s: Text, pos: nat)
    requires pos < |s| && s[pos] == SEPARATOR
    ensures Lower(s) == Lower(s[..pos]) + [SEPARATOR] + Lower(s[pos + 1..])
  {}

  // ----- The loops -----

  /** One iteration of `PolyMod`. */
  method NextRemainder(c: bv32, v: bv8) returns (r: bv32)
    ensures r == Step(c, v)
  {
    var c0 := High(c);
    var r0 := Xor(Shift(c), Wide(v));
    var r1 := if c0 & 1 != 0 then Xor(r0, K1) else r0;
    var r2 := if c0 & 2 != 0 then Xor(r1, K2) else r1;
    var r3 := if c0 & 4 != 0 then Xor(r2, K4) else r2;
    var r4 := if c0 & 8 != 0 then Xor(r3, K8) else r3;
    r := if c0 & 16 != 0 then Xor(r4, K16) else r4;
    XorZero(r0);
    XorZero(r1);
    XorZero(r2);
    XorZero(r3);
    XorZero(r4);
    AddInTurn(r0, Pick(c0, 1, K1), Pick(c0, 2, K2), Pick(c0, 4, K4), Pick(c0, 8, K8), Pick(c0, 16, K16));
  }

  lemma AddInTurn(r: bv32, p1: bv32, p2: bv32, p3: bv32, p4: bv32, p5: bv32)
    ensures Xor(Xor(Xor(Xor(Xor(r, p1), p2), p3), p4), p5) == Xor(r, Xor(Xor(Xor(Xor(p1, p2), p3), p4), p5))
  {
    XorAssoc(r, p1, p2);
    XorAssoc(r, Xor(p1, p2), p3);
    XorAssoc(r, Xor(Xor(p1, p2), p3), p4);
    XorAssoc(r, Xor(Xor(Xor(p1, p2), p3), p4), p5);
  }

  method PolyMod(v: seq<bv8>) returns (c: bv32)
    ensures c == Fold(1, v)
  {
    c := 1;
    for i := 0 to |v|
      invariant c == Fold(1, v[..i])
    {
      c := NextRemainder(c, v[i]);
      assert v[..i + 1][..i] == v[..i];
    }
    assert v[..|v|] == v;
  }

  method PreparePolynomialCoefficients(hrp: Text, values: seq<bv8>) returns (ret: seq<bv8>)
    ensures ret == Coefficients(hrp, values)
  {
    ret := [];
    for i := 0 to |hrp|
      invariant ret == Highs(hrp)[..i]
    {
      ret := ret + [Top(hrp[i])];
    }
    ret := ret + [0];
    ghost var front := ret;
    for i := 0 to |hrp|
      invariant ret == front + Lows(hrp)[..i]
    {
      ret := ret + [Bottom(hrp[i])];
    }
    ret := ret + values;
  }

  method VerifyChecksum(hrp: Text, values: seq<bv8>) returns (encoding: Encoding)
    ensures encoding == Verify(hrp, values)
  {
    var enc := PreparePolynomialCoefficients(hrp, values);
    var check := PolyMod(enc);
    if check == Constant(Bech32) { return Encoding.Bech32; }
    if check == Constant(Bech32m) { return Bech32m; }
    return Invalid;
  }

  method CreateChecksum(encoding: Encoding, hrp: Text, values: seq<bv8>) returns (ret: seq<bv8>)
    requires encoding != Invalid
    ensures ret == Checksum(encoding, hrp, values)
  {
    var enc := PreparePolynomialCoefficients(hrp, values);
    enc := enc + Zeros(CHECKSUM_SIZE);
    assert enc == Coefficients(hrp, values + Zeros(6));
    var mod := PolyMod(enc);
    mod := Xor(mod, Constant(encoding));
    ret := [];
    for i := 0 to CHECKSUM_SIZE
      invariant ret == Groups(mod)[..i]
    {
      ret := ret + [Group(mod, i)];
    }
  }

  /** `Encode`. The source asserts that the human readable part has no capital letters and reads
      its character table at each value. */
  method Encode(encoding: Encoding, hrp: Text, values: seq<bv8>) returns (ret: Text)
    requires encoding != Invalid && NoUpper(hrp) && AllSymbols(values)
    ensures ret == EncodeSpec(encoding, hrp, values)
  {
    ret := AppendChars(hrp + [SEPARATOR], values);
    var sum := CreateChecksum(encoding, hrp, values);
    ret := AppendChars(ret, sum);
  }

  method AppendChars(front: Text, values: seq<bv8>) returns (ret: Text)
    requires AllSymbols(values)
    ensures ret == front + Chars(values)
  {
    ret := front;
    for i := 0 to |values|
      invariant ret == front + Chars(values)[..i]
    {
      ret := ret + [Charset(values[i])];
    }
  }

  /** A capital letter stands before position n, and no small letter before it. */
  ghost predicate UpperFirst(s: Text, n: nat)
    requires n <= |s|
  {
    exists j :: 0 <= j < n && IsUpper(s[j]) && forall k :: 0 <= k < j ==> !IsLower(s[k])
  }

  ghost predicate LowerFirst(s: Text, n: nat)
    requires n <= |s|
  {
    exists j :: 0 <= j < n && IsLower(s[j]) && forall k :: 0 <= k < j ==> !IsUpper(s[k])
  }

  /** The characters that `CheckCharacters` reports: unprintable ones, and letters that are not of
      the case of the first letter. */
  ghost predicate WrongAt(s: Text, i: nat)
    requires i < |s|
  {
    || !IsPrintable(s[i])
    || (IsLower(s[i]) && UpperFirst(s, i))
    || (IsUpper(s[i]) && LowerFirst(s, i))
  }

  method CheckCharacters(str: Text) returns (ok: bool, errors: seq<nat>)
    ensures forall k: nat :: k in errors <==> k < |str| && WrongAt(str, k)
    ensures forall j, k :: 0 <= j < k < |errors| ==> errors[j] < errors[k]
    ensures ok <==> ValidCharacters(str)
  {
    var lower, upper := false, false;
    errors := [];
    for i := 0 to |str|
      invariant upper == UpperFirst(str, i) && lower == LowerFirst(str, i)
      invariant !upper && !lower ==> forall k :: 0 <= k < i ==> !IsLower(str[k]) && !IsUpper(str[k])
      invariant forall k: nat :: k in errors <==> k < i && WrongAt(str, k)
      invariant forall j, k :: 0 <= j < k < |errors| ==> errors[j] < errors[k]
    {
      FirstCase(str, i);
      assert errors == [] || errors[|errors| - 1] in errors;
      if IsLower(str[i]) {
        if upper { errors := errors + [i]; } else { lower := true; }
      } else if IsUpper(str[i]) {
        if lower { errors := errors + [i]; } else { upper := true; }
      } else if !IsPrintable(str[i]) {
        errors := errors + [i];
      }
    }
    ok := errors == [];
    assert errors != [] ==> errors[0] in errors;
    WrongAnywhere(str);
  }

  /** How the first letter's case develops with one more character. */
  lemma FirstCase(s: Text, n: nat)
    requires n < |s|
    ensures !(UpperFirst(s, n) && LowerFirst(s, n))
    ensures UpperFirst(s, n + 1) <==> UpperFirst(s, n) || (IsUpper(s[n]) && forall k :: 0 <= k < n ==> !IsLower(s[k]))
    ensures LowerFirst(s, n + 1) <==> LowerFirst(s, n) || (IsLower(s[n]) && forall k :: 0 <= k < n ==> !IsUpper(s[k]))
  {}

  lemma {:induction false} SomeFirst(s: Text, n: nat, i: nat)
    requires i < n <= |s| && (IsUpper(s[i]) || IsLower(s[i]))
    ensures UpperFirst(s, n) || LowerFirst(s, n)
    decreases i
  {
    if k :| 0 <= k < i && (IsUpper(s[k]) || IsLower(s[k])) {
      SomeFirst(s, n, k);
    }
  }

  /** Nothing is reported exactly for texts of printable characters in one case. */
  lemma WrongAnywhere(s: Text)
    ensures ValidCharacters(s) <==> forall i :: 0 <= i < |s| ==> !WrongAt(s, i)
  {
    if HasLower(s) && HasUpper(s) {
      var l, u :| 0 <= l < |s| && 0 <= u < |s| && IsLower(s[l]) && IsUpper(s[u]);
      SomeFirst(s, |s|, l);
      assert WrongAt(s, l) || WrongAt(s, u);
    } else if i :| 0 <= i < |s| && !IsPrintable(s[i]) {
      assert WrongAt(s, i);
    }
  }

  /** `Decode`. */
  method Decode(str: Text, limit: nat) returns (r: DecodeResult)
    ensures r == DecodeSpec(str, limit)
  {
    var ok, _ := CheckCharacters(str);
    if !ok { return FAILED; }
    var pos := LastSeparator(str);
    if |str| > limit { return FAILED; }
    if pos == -1 || pos == 0 || pos + CHECKSUM_SIZE >= |str| { return FAILED; }
    r := FinishDecode(str[..pos], str[pos + 1..]);
  }

  method FinishDecode(front: Text, tail: Text) returns (r: DecodeResult)
    requires |tail| >= CHECKSUM_SIZE && AllPrintable(tail)
    ensures r == DecodeParts(front, tail)
  {
    var ok, values := ReadValues(tail);
    if !ok { return FAILED; }
    var hrp := LowerText(front);
    var encoding := VerifyChecksum(hrp, values);
    if encoding == Invalid { return FAILED; }
    return DecodeResult(encoding, hrp, values[..|values| - CHECKSUM_SIZE]);
  }

  /** The loop that looks the symbols up; false at a character without one. */
  method ReadValues(tail: Text) returns (ok: bool, values: seq<bv8>)
    requires AllPrintable(tail)
    ensures ok <==> AllValued(tail)
    ensures ok ==> values == Values(tail)
  {
    values := [];
    for i := 0 to |tail|
      invariant |values| == i
      invariant forall k :: 0 <= k < i ==> tail[k] < 128 && CharsetRev(tail[k]) != NO_SYMBOL && values[k] == CharsetRev(tail[k])
    {
      var rev := CharsetRev(tail[i]);
      if rev == NO_SYMBOL { return false, []; }
      values := values + [rev];
    }
    return true, values;
  }

  method LowerText(front: Text) returns (hrp: Text)
    ensures hrp == Lower(front)
  {
    hrp := [];
    for i := 0 to |front|
      invariant hrp == Lower(front)[..i]
    {
      hrp := hrp + [LowerCase(front[i])];
    }
  }
}
