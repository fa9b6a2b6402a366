/** Base58: the printer and the parser are inverse, and their buffers never overflow. */
module Base58Codec {
  import opened Bits
  import opened Collections
  import opened Positional

  /** `pszBase58`: the digits and letters in ASCII order, without 0, I, O and l. */
  function DigitChar(d: nat): char
    requires d < 58
  {
    if d < 9 then ('1' as int + d) as char
    else if d < 17 then ('A' as int + d - 9) as char
    else if d < 22 then ('J' as int + d - 17) as char
    else if d < 33 then ('P' as int + d - 22) as char
    else if d < 44 then ('a' as int + d - 33) as char
    else ('m' as int + d - 44) as char
  }

  /** `mapBase58`: the value of a character, or -1. */
  function CharValue(c: char): (v: int)
    ensures -1 <= v < 58
    ensures v != -1 ==> DigitChar(v) == c
    ensures v == -1 ==> forall d: nat :: d < 58 ==> DigitChar(d) != c
  {
    if '1' <= c <= '9' then c as int - '1' as int
    else if 'A' <= c <= 'H' then c as int - 'A' as int + 9
    else if 'J' <= c <= 'N' then c as int - 'J' as int + 17
    else if 'P' <= c <= 'Z' then c as int - 'P' as int + 22
    else if 'a' <= c <= 'k' then c as int - 'a' as int + 33
    else if 'm' <= c <= 'z' then c as int - 'm' as int + 44
    else -1
  }

  lemma CharOfDigit(d: nat)
    requires d < 58
    ensures CharValue(DigitChar(d)) == d && !IsSpace(DigitChar(d)) && DigitChar(d) != '\0'
  {
  }

  predicate IsSpace(c: char) {
    c == ' ' || c == '\U{000C}' || c == '\n' || c == '\r' || c == '\t' || c == '\U{000B}'
  }

  // ---------------------------------------------------------------------------------------
  // What is computed

  function LeadingZeros(b: seq<nat>): (z: nat)
    ensures z <= |b| && (forall i :: 0 <= i < z ==> b[i] == 0) && (z < |b| ==> b[z] != 0)
  {
    if b == [] || b[0] != 0 then 0 else 1 + LeadingZeros(b[1..])
  }

  function Repeat<T>(x: T, n: nat): seq<T> {
    seq(n, _ => x)
  }

  function ToChars(s: seq<nat>): (r: string)
    requires forall i :: 0 <= i < |s| ==> s[i] < 58
    ensures |r| == |s|
  {
    seq(|s|, i requires 0 <= i < |s| => DigitChar(s[i]))
  }

  ghost function EncodeSpec(b: seq<nat>): string {
    var z := LeadingZeros(b);
    var n := Number(b[z..], Base256);
    DigitsAreDigits(n, Base58);
    Repeat('1', z) + ToChars(Digits(n, Base58))
  }

  function LeadingSpaces(s: string): (n: nat)
    ensures n <= |s| && (forall i :: 0 <= i < n ==> IsSpace(s[i])) && (n < |s| ==> !IsSpace(s[n]))
  {
    if s == [] || !IsSpace(s[0]) then 0 else 1 + LeadingSpaces(s[1..])
  }

  function LeadingOnes(s: string): (n: nat)
    ensures n <= |s| && (forall i :: 0 <= i < n ==> s[i] == '1') && (n < |s| ==> s[n] != '1')
  {
    if s == [] || s[0] != '1' then 0 else 1 + LeadingOnes(s[1..])
  }

  /** Where the run of characters that are not spaces ends. */
  function WordEnd(s: string): (n: nat)
    ensures n <= |s| && (forall i :: 0 <= i < n ==> !IsSpace(s[i])) && (n < |s| ==> IsSpace(s[n]))
  {
    if s == [] || IsSpace(s[0]) then 0 else 1 + WordEnd(s[1..])
  }

  predicate AllBase58(s: string) {
    forall i :: 0 <= i < |s| ==> CharValue(s[i]) != -1
  }

  function ToDigits(s: string): (r: seq<nat>)
    requires AllBase58(s)
    ensures |r| == |s|
  {
    seq(|s|, i requires 0 <= i < |s| => CharValue(s[i]))
  }

  /** Leading and trailing spaces are skipped, '1's are zero bytes, the rest is a number. */
  ghost function DecodeSpec(str: string, maxLen: int): Option<seq<nat>> {
    var s := str[LeadingSpaces(str)..];
    var z := LeadingOnes(s);
    var e := WordEnd(s[z..]);
    var word := s[z..][..e];
    if '\0' in str || !AllBase58(word) || LeadingSpaces(s[z..][e..]) != |s[z..][e..]| then None
    else
      var r := Repeat(0, z) + Digits(Number(ToDigits(word), Base58), Base256);
      if Fits(r, maxLen) then Some(r) else None
  }

  /** The limit on the number of bytes; it is not looked at when there are none. */
  predicate Fits(b: seq<nat>, maxLen: int) {
    b == [] || |b| <= maxLen
  }

  // ---------------------------------------------------------------------------------------
  // Round trips

  lemma CharsAndDigits(s: seq<nat>)
    requires IsDigits(s, Base58)
    ensures AllBase58(ToChars(s)) && ToDigits(ToChars(s)) == s
    ensures WordEnd(ToChars(s)) == |s| && '\0' !in ToChars(s)
    ensures s != [] && s[0] != 0 ==> ToChars(s)[0] != '1'
  {
    var r := ToChars(s);
    forall i | 0 <= i < |s| ensures CharValue(r[i]) == s[i] && !IsSpace(r[i]) && r[i] != '\0' {
      CharOfDigit(s[i]);
    }
  }

  /** The parts into which the parser cuts a printed string. */
  lemma PartsOfPrinted(z: nat, w: string)
    requires (forall i :: 0 <= i < |w| ==> !IsSpace(w[i])) && (w != [] ==> w[0] != '1')
    ensures var s := Repeat('1', z) + w;
            LeadingSpaces(s) == 0 && s[0..] == s && LeadingOnes(s) == z && s[z..] == w
  {
    var s := Repeat('1', z) + w;
    assert s[z..] == w;
    assert forall i :: 0 <= i < z ==> s[i] == '1';
    if z < |s| { assert s[z] == w[0]; }
  }

  lemma DecodePrinted(z: nat, w: string, maxLen: int)
    requires AllBase58(w) && WordEnd(w) == |w| && (w != [] ==> w[0] != '1') && '\0' !in w
    ensures var r := Repeat(0, z) + Digits(Number(ToDigits(w), Base58), Base256);
            DecodeSpec(Repeat('1', z) + w, maxLen) == if Fits(r, maxLen) then Some(r) else None
  {
    var s := Repeat('1', z) + w;
    PartsOfPrinted(z, w);
    assert '\0' !in s;
    assert w[..|w|] == w && w[|w|..] == [];
  }

  /** Parsing what was printed gives the bytes back, exactly when they fit the limit. */
  lemma DecodeOfEncode(b: seq<nat>, maxLen: int)
    requires IsDigits(b, Base256)
    ensures DecodeSpec(EncodeSpec(b), maxLen) == if Fits(b, maxLen) then Some(b) else None
  {
    var z := LeadingZeros(b);
    var rest := b[z..];
    var n := Number(rest, Base256);
    DigitsOfNumber(rest, Base256);
    DigitsAreDigits(n, Base58);
    var d := Digits(n, Base58);
    CharsAndDigits(d);
    DecodePrinted(z, ToChars(d), maxLen);
    assert b == Repeat(0, z) + rest;
  }

  /** What is left of a text when the spaces around it are dropped. */
  function Trimmed(str: string): string {
    var s := str[LeadingSpaces(str)..];
    s[..WordEnd(s)]
  }

  lemma TrimmedParts(str: string)
    ensures var s := str[LeadingSpaces(str)..];
            var z := LeadingOnes(s);
            Trimmed(str) == Repeat('1', z) + s[z..][..WordEnd(s[z..])]
  {
    var s := str[LeadingSpaces(str)..];
    var z := LeadingOnes(s);
    var e := WordEnd(s[z..]);
    WordAfterOnes(s, z);
    OnesThenWord(s, z, e);
  }

  lemma WordAfterOnes(s: string, z: nat)
    requires z <= |s| && forall i :: 0 <= i < z ==> s[i] == '1'
    ensures WordEnd(s) == z + WordEnd(s[z..])
  {
    var e := WordEnd(s[z..]);
    forall i | 0 <= i < z + e ensures !IsSpace(s[i]) {
      if i >= z { assert s[i] == s[z..][i - z]; }
    }
    if z + e < |s| { assert s[z + e] == s[z..][e]; }
    WordEndIs(s, z + e);
  }

  lemma OnesThenWord(s: string, z: nat, e: nat)
    requires z + e <= |s| && forall i :: 0 <= i < z ==> s[i] == '1'
    ensures s[..z + e] == Repeat('1', z) + s[z..][..e]
  {}

  lemma WordEndIs(s: string, n: nat)
    requires n <= |s| && (forall i :: 0 <= i < n ==> !IsSpace(s[i])) && (n < |s| ==> IsSpace(s[n]))
    ensures WordEnd(s) == n
  {
  }

  /** Printing what was parsed gives the text back, without the spaces around it. */
  lemma EncodeOfDecode(str: string, maxLen: int)
    requires DecodeSpec(str, maxLen).Some?
    ensures var b := DecodeSpec(str, maxLen).value;
            IsDigits(b, Base256) && EncodeSpec(b) == Trimmed(str)
  {
    var s := str[LeadingSpaces(str)..];
    var z := LeadingOnes(s);
    var word := s[z..][..WordEnd(s[z..])];
    var d := ToDigits(word);
    var n := Number(d, Base58);
    var b := DecodeSpec(str, maxLen).value;
    if word != [] { assert word[0] == s[z]; }
    DigitsOfNumber(d, Base58);
    DigitsAreDigits(n, Base256);
    var rest := Digits(n, Base256);
    assert b == Repeat(0, z) + rest;
    ZerosThen(z, rest);
    CharsOfDigits(word);
    TrimmedParts(str);
  }

  lemma ZerosThen(z: nat, rest: seq<nat>)
    requires rest != [] ==> rest[0] != 0
    ensures LeadingZeros(Repeat(0, z) + rest) == z && (Repeat(0, z) + rest)[z..] == rest
  {
    var b := Repeat(0, z) + rest;
    if rest != [] { assert b[z] == rest[0]; }
  }

  lemma CharsOfDigits(word: string)
    requires AllBase58(word)
    ensures ToChars(ToDigits(word)) == word
  {}

  // ---------------------------------------------------------------------------------------
  // The loops

  /** The low digits of a buffer: `length` of them may differ from zero. */
  ghost predicate Buffer(s: seq<nat>, length: nat, r: Radix) {
    && length <= |s| && IsDigits(s, r)
    && forall j :: 0 <= j < |s| - length ==> s[j] == 0
  }

  /** The highest of the `length` digits is not zero. */
  ghost predicate Tight(s: seq<nat>, length: nat) {
    length == 0 || (length <= |s| && s[|s| - length] != 0)
  }

  lemma CarryAlgebra(v: nat, p: nat, c: nat, w: nat, g: nat, x: nat, lo: nat, hi: nat, r: Radix)
    requires v + p * c == r.Other().Times(w) + g && lo + r.Times(hi) == c + r.Other().Times(x)
    ensures lo * p + v + r.Times(p) * hi == r.Other().Times(x * p + w) + g
  {
    TimesProduct(r, hi, p);
    TimesProduct(r.Other(), p, x);
    Distribute(p, lo, r.Times(hi));
    Distribute(p, c, r.Other().Times(x));
    TimesProduct(r, p, hi);
  }

  /** One step of the carry loop, on the digits from index j on. */
  lemma CarryStep(s: seq<nat>, x: seq<nat>, j: nat, g: nat, c: nat, r: Radix, lo: nat, hi: nat)
    requires |s| == |x| && 0 < j <= |s| && s[j - 1] == x[j - 1] && lo + r.Times(hi) == c + r.Other().Times(x[j - 1])
    requires Number(s[j..], r) + Place(r, |s| - j) * c == r.Other().Times(Number(x[j..], r)) + g
    ensures Number(s[j - 1 := lo][j - 1..], r) + Place(r, |s| - j + 1) * hi == r.Other().Times(Number(x[j - 1..], r)) + g
  {
    Front(s, j - 1, lo);
    Front(x, j - 1, x[j - 1]);
    CarryFront(s[j..], x[j..], x[j - 1], g, c, r, lo, hi);
  }

  lemma Front(s: seq<nat>, k: nat, d: nat)
    requires k < |s|
    ensures s[k := d][k..] == [d] + s[k + 1..] && (d == s[k] ==> s[k..] == [d] + s[k + 1..])
  {}

  /** A step of the carry loop puts one digit before those that are done. */
  lemma CarryFront(s: seq<nat>, x: seq<nat>, d: nat, g: nat, c: nat, r: Radix, lo: nat, hi: nat)
    requires |s| == |x| && lo + r.Times(hi) == c + r.Other().Times(d)
    requires Number(s, r) + Place(r, |s|) * c == r.Other().Times(Number(x, r)) + g
    ensures Number([lo] + s, r) + Place(r, |s| + 1) * hi == r.Other().Times(Number([d] + x, r)) + g
  {
    PrependDigit(lo, s, r);
    PrependDigit(d, x, r);
    CarryAlgebra(Number(s, r), Place(r, |s|), c, Number(x, r), g, d, lo, hi, r);
  }

  /** A number that did not shrink keeps its highest digit. */
  lemma StaysTight(s: seq<nat>, x: seq<nat>, length: nat, r: Radix)
    requires |s| == |x| && Buffer(s, length, r) && Buffer(x, length, r) && Tight(x, length)
    requires Number(x, r) <= Number(s, r)
    ensures Tight(s, length)
  {
    if length > 0 && s[|s| - length] == 0 {
      var k := |s| - length;
      NumberSkip(s, k + 1, r);
      NumberBound(s[k + 1..], r);
      NumberSkip(x, k, r);
      assert x[k..] == [x[k]] + x[k + 1..];
      PrependDigit(x[k], x[k + 1..], r);
      MulMono(1, x[k], Place(r, length - 1));
    }
  }

  /** The carry loop after i digits: s is the buffer, x what it was, c the carry. */
  ghost predicate CarryShape(s: seq<nat>, x: seq<nat>, i: nat, length: nat, c: nat, r: Radix) {
    && |s| == |x| && i <= |s| && IsDigits(s, r)
    && (forall j :: 0 <= j < |s| - i ==> s[j] == x[j])
    && (i > length && c == 0 ==> s[|s| - i] != 0)
  }

  ghost predicate CarrySum(s: seq<nat>, x: seq<nat>, i: nat, g: nat, c: nat, r: Radix) {
    && |s| == |x| && i <= |s|
    && Number(s[|s| - i..], r) + Place(r, i) * c == r.Other().Times(Number(x[|s| - i..], r)) + g
  }

  lemma CarryNextShape(s: seq<nat>, x: seq<nat>, i: nat, length: nat, c: nat, r: Radix)
    requires CarryShape(s, x, i, length, c, r) && i < |s| && Buffer(x, length, r) && (c != 0 || i < length)
    ensures var j := |s| - 1 - i; var n := c + r.Other().Times(s[j]);
            CarryShape(s[j := r.Mod(n)], x, i + 1, length, r.Div(n), r)
  {
  }

  lemma CarryNextSum(s: seq<nat>, x: seq<nat>, i: nat, g: nat, c: nat, r: Radix)
    requires CarrySum(s, x, i, g, c, r) && i < |s| && s[|s| - 1 - i] == x[|s| - 1 - i]
    ensures var j := |s| - 1 - i; var n := c + r.Other().Times(s[j]);
            CarrySum(s[j := r.Mod(n)], x, i + 1, g, r.Div(n), r)
  {
    var j := |s| - 1 - i;
    var n := c + r.Other().Times(s[j]);
    CarryStep(s, x, j + 1, g, c, r, r.Mod(n), r.Div(n));
  }

  /** The carry loop: `b = b * mult + digit` in place, where `mult` is the other base. */
  method CarryLoop(a: array<nat>, length: nat, r: Radix, digit: nat) returns (i: nat, carry: nat)
    requires Buffer(a[..], length, r)
    modifies a
    ensures CarryShape(a[..], old(a[..]), i, length, carry, r) && CarrySum(a[..], old(a[..]), i, digit, carry, r)
    ensures (carry == 0 && i >= length) || i == a.Length
  {
    ghost var x := a[..];
    carry := digit;
    i := 0;
    while (carry != 0 || i < length) && i < a.Length
      invariant CarryShape(a[..], x, i, length, carry, r) && CarrySum(a[..], x, i, digit, carry, r)
      decreases a.Length - i
    {
      carry := CarryOne(a, i, length, r, digit, carry, x);
      i := i + 1;
    }
  }

  /** One iteration of the carry loop. */
  method CarryOne(a: array<nat>, i: nat, length: nat, r: Radix, ghost digit: nat, carry: nat, ghost x: seq<nat>) returns (carry': nat)
    requires i < a.Length && (carry != 0 || i < length) && Buffer(x, length, r)
    requires CarryShape(a[..], x, i, length, carry, r) && CarrySum(a[..], x, i, digit, carry, r)
    modifies a
    ensures CarryShape(a[..], x, i + 1, length, carry', r) && CarrySum(a[..], x, i + 1, digit, carry', r)
  {
    var j := a.Length - 1 - i;
    CarryNextShape(a[..], x, i, length, carry, r);
    CarryNextSum(a[..], x, i, digit, carry, r);
    var sum := carry + r.Other().Times(a[j]);
    a[j] := r.Mod(sum);
    carry' := r.Div(sum);
  }

  /** The carry that remains after the loop is zero, as the source asserts. */
  method MultiplyAdd(a: array<nat>, length: nat, r: Radix, digit: nat) returns (i: nat)
    requires Buffer(a[..], length, r) && r.Other().Times(Number(a[..], r)) + digit < Place(r, a.Length)
    modifies a
    ensures length <= i && Buffer(a[..], i, r)
    ensures Number(a[..], r) == r.Other().Times(old(Number(a[..], r))) + digit
    ensures Tight(old(a[..]), length) ==> Tight(a[..], i)
  {
    ghost var x := a[..];
    var carry;
    i, carry := CarryLoop(a, length, r, digit);
    NoCarry(a[..], x, i, length, digit, carry, r);
    assert carry == 0;
  }

  lemma NoCarry(s: seq<nat>, x: seq<nat>, i: nat, length: nat, g: nat, c: nat, r: Radix)
    requires CarryShape(s, x, i, length, c, r) && CarrySum(s, x, i, g, c, r) && Buffer(x, length, r)
    requires (c == 0 && i >= length) || i == |s|
    requires r.Other().Times(Number(x, r)) + g < Place(r, |s|)
    ensures c == 0 && length <= i && Buffer(s, i, r) && Number(s, r) == r.Other().Times(Number(x, r)) + g
    ensures Tight(x, length) ==> Tight(s, i)
  {
    if i == |s| { FullBuffer(s, x, g, c, r); } else { PartBuffer(s, x, i, g, r); }
    CarryBuffer(s, x, i, length, r);
    if Tight(x, length) && i == length {
      TimesAtLeast(r.Other(), Number(x, r));
      StaysTight(s, x, length, r);
    }
  }

  lemma CarryBuffer(s: seq<nat>, x: seq<nat>, i: nat, length: nat, r: Radix)
    requires CarryShape(s, x, i, length, 0, r) && Buffer(x, length, r) && length <= i
    ensures Buffer(s, i, r) && (i > length ==> Tight(s, i))
  {}

  lemma TimesAtLeast(r: Radix, n: nat)
    ensures r.Times(n) >= n
  {}

  lemma PartBuffer(s: seq<nat>, x: seq<nat>, i: nat, g: nat, r: Radix)
    requires CarrySum(s, x, i, g, 0, r) && forall j :: 0 <= j < |s| - i ==> s[j] == 0 && x[j] == 0
    ensures Number(s, r) == r.Other().Times(Number(x, r)) + g
  {
    NumberSkip(s, |s| - i, r);
    NumberSkip(x, |s| - i, r);
  }

  lemma FullBuffer(s: seq<nat>, x: seq<nat>, g: nat, c: nat, r: Radix)
    requires |s| == |x| && r.Other().Times(Number(x, r)) + g < Place(r, |s|)
    requires Number(s[0..], r) + Place(r, |s|) * c == r.Other().Times(Number(x[0..], r)) + g
    ensures c == 0 && Number(s, r) == r.Other().Times(Number(x, r)) + g
  {
    assert s[0..] == s && x[0..] == x;
    NoRoom(Number(s, r), Place(r, |s|), c, r.Other().Times(Number(x, r)) + g);
  }

  lemma NoRoom(v: nat, p: nat, c: nat, w: nat)
    requires v + p * c == w && w < p
    ensures c == 0 && v == w
  {
    if c > 0 { MulMono(1, c, p); } else { assert p * c == 0; }
  }

  lemma {:induction false} PlaceMono(r: Radix, m: nat, n: nat)
    requires m <= n
    ensures Place(r, m) <= Place(r, n)
  {
    if m < n { PlaceMono(r, m, n - 1); }
  }

  /** The number of the first k + 1 digits fits any buffer that holds all of them. */
  lemma NextFits(s: seq<nat>, k: nat, size: nat, r: Radix)
    requires k < |s| && IsDigits(s, r.Other()) && Place(r.Other(), |s|) <= Place(r, size)
    ensures Number(s[..k + 1], r.Other()) == r.Other().Times(Number(s[..k], r.Other())) + s[k] < Place(r, size)
  {
    assert s[..k + 1][..k] == s[..k];
    NumberBound(s[..k + 1], r.Other());
    PlaceMono(r.Other(), k + 1, |s|);
  }

  /** The buffer without its leading zeros is the digits of its number. */
  lemma BufferDigits(s: seq<nat>, length: nat, r: Radix)
    requires Buffer(s, length, r) && Tight(s, length)
    ensures s[|s| - length..] == Digits(Number(s, r), r)
  {
    NumberSkip(s, |s| - length, r);
    DigitsOfNumber(s[|s| - length..], r);
  }

  method EncodeBase58(input: seq<nat>) returns (str: string)
    requires IsDigits(input, Base256)
    ensures str == EncodeSpec(input)
  {
    var zeroes := 0;
    var rest := input;
    while |rest| > 0 && rest[0] == 0
      invariant zeroes <= |input| && rest == input[zeroes..] && forall i :: 0 <= i < zeroes ==> input[i] == 0
    {
      rest := rest[1..];
      zeroes := zeroes + 1;
    }
    assert LeadingZeros(input) == zeroes;
    var digits := ConvertBytes(rest);
    DigitsAreDigits(Number(rest, Base256), Base58);
    str := PrintDigits(digits, zeroes);
  }

  /** The main loop of the printer: bytes without leading zeros to base58 digits. */
  method ConvertBytes(rest: seq<nat>) returns (digits: seq<nat>)
    requires IsDigits(rest, Base256)
    ensures digits == Digits(Number(rest, Base256), Base58)
  {
    var size := |rest| * 138 / 100 + 1;
    EncodeSize(|rest|);
    var b58 := new nat[size](_ => 0);
    var length := 0;
    NumberZeros(b58[..], Base58);
    var k := 0;
    while k < |rest|
      invariant k <= |rest| && Buffer(b58[..], length, Base58) && Tight(b58[..], length)
      invariant Number(b58[..], Base58) == Number(rest[..k], Base256)
    {
      NextFits(rest, k, size, Base58);
      length := MultiplyAdd(b58, length, Base58, rest[k]);
      k := k + 1;
    }
    assert rest[..k] == rest;
    BufferDigits(b58[..], length, Base58);
    var it := SkipZeros(b58, size - length);
    digits := b58[..][it..];
  }

  /** The first digit that is not zero. */
  method SkipZeros(a: array<nat>, from: nat) returns (it: nat)
    requires from <= a.Length
    ensures from <= it <= a.Length && (forall j :: from <= j < it ==> a[j] == 0) && (it < a.Length ==> a[it] != 0)
  {
    it := from;
    while it < a.Length && a[it] == 0
      invariant from <= it <= a.Length && forall j :: from <= j < it ==> a[j] == 0
    {
      it := it + 1;
    }
  }

  /** The last loop of the printer. */
  method PrintDigits(digits: seq<nat>, zeroes: nat) returns (str: string)
    requires IsDigits(digits, Base58)
    ensures str == Repeat('1', zeroes) + ToChars(digits)
  {
    str := Repeat('1', zeroes);
    var i := 0;
    while i < |digits|
      invariant 0 <= i <= |digits| && str == Repeat('1', zeroes) + ToChars(digits[..i])
    {
      str := str + [DigitChar(digits[i])];
      assert ToChars(digits[..i + 1]) == ToChars(digits[..i]) + [DigitChar(digits[i])];
      i := i + 1;
    }
    assert digits[..i] == digits;
  }

  lemma {:induction false} DigitsMono(m: nat, n: nat, r: Radix)
    requires m <= n
    ensures |Digits(m, r)| <= |Digits(n, r)|
    decreases n
  {
    if m > 0 { DigitsMono(r.Div(m), r.Div(n), r); }
  }

  /** More digits never make a number smaller. */
  lemma {:induction false} PrefixNumber(s: seq<nat>, k: nat, r: Radix)
    requires k <= |s|
    ensures Number(s[..k], r) <= Number(s, r)
  {
    if k < |s| {
      PrefixNumber(s[..|s| - 1], k, r);
      assert s[..|s| - 1][..k] == s[..k];
    } else {
      assert s[..k] == s;
    }
  }

  /** The bytes that base58 characters stand for as a number. */
  ghost function WordBytes(word: string): seq<nat>
    requires AllBase58(word)
  {
    Digits(Number(ToDigits(word), Base58), Base256)
  }

  lemma WordNext(s: string, p: nat, size: nat)
    requires p < |s| && AllBase58(s[..p]) && CharValue(s[p]) != -1 && Place(Base58, |s|) <= Place(Base256, size)
    ensures AllBase58(s[..p + 1])
    ensures Number(ToDigits(s[..p + 1]), Base58) == 58 * Number(ToDigits(s[..p]), Base58) + CharValue(s[p]) < Place(Base256, size)
  {
    var d := ToDigits(s[..p + 1]);
    assert d[..p] == ToDigits(s[..p]);
    NumberBound(d, Base58);
    PlaceMono(Base58, p + 1, |s|);
  }

  lemma LongerWord(word: string, p: nat)
    requires AllBase58(word) && p <= |word|
    ensures AllBase58(word[..p]) && |WordBytes(word[..p])| <= |WordBytes(word)|
  {
    var d := ToDigits(word);
    assert d[..p] == ToDigits(word[..p]);
    PrefixNumber(d, p, Base58);
    DigitsMono(Number(d[..p], Base58), Number(d, Base58), Base256);
  }

  lemma NonzeroLength(s: seq<nat>, length: nat, r: Radix)
    requires Buffer(s, length, r) && Number(s, r) > 0
    ensures length > 0
  {
    if length == 0 { NumberZeros(s, r); }
  }

  /** The buffer of the parser holds the first p characters of the word. */
  ghost predicate Parsed(b: seq<nat>, length: nat, s: string, p: nat) {
    && p <= |s| && AllBase58(s[..p]) && Buffer(b, length, Base256) && Tight(b, length)
    && Number(b, Base256) == Number(ToDigits(s[..p]), Base58)
    && (p > 0 ==> Number(b, Base256) > 0)
  }

  /** One character of the main loop of the parser. */
  method Accept(b256: array<nat>, length: nat, s: string, p: nat) returns (length': nat)
    requires p < |s| && (p == 0 ==> s[p] != '1') && CharValue(s[p]) != -1 && Parsed(b256[..], length, s, p)
    requires Place(Base58, |s|) <= Place(Base256, b256.Length)
    modifies b256
    ensures Parsed(b256[..], length', s, p + 1) && length' > 0
  {
    WordNext(s, p, b256.Length);
    length' := MultiplyAdd(b256, length, Base256, CharValue(s[p]));
    NonzeroLength(b256[..], length', Base256);
  }

  /** The main loop of the parser over the characters up to the end `e` of the word: false if
      one of them is invalid or the result too long. */
  method DecodeWord(s: string, zeroes: nat, maxLen: int, ghost e: nat) returns (ok: bool, p: nat, bytes: seq<nat>)
    requires e <= |s| && (forall i :: 0 <= i < e ==> !IsSpace(s[i])) && (e < |s| ==> IsSpace(s[e]))
    requires s == [] || s[0] != '1'
    ensures ok ==> p == e && AllBase58(s[..e]) && bytes == WordBytes(s[..e]) && (bytes == [] || |bytes| + zeroes <= maxLen)
    ensures !ok ==> AllBase58(s[..e]) ==> WordBytes(s[..e]) != [] && |WordBytes(s[..e])| + zeroes > maxLen
  {
    var b256 := new nat[|s| * 733 / 1000 + 1](_ => 0);
    DecodeSize(|s|);
    NumberZeros(b256[..], Base256);
    var length := 0;
    bytes, p := [], 0;
    while p < |s| && !IsSpace(s[p])
      invariant p <= e && Parsed(b256[..], length, s, p) && (p > 0 ==> length + zeroes <= maxLen)
    {
      if CharValue(s[p]) == -1 {
        InvalidAt(s, p, e);
        return false, p, bytes;
      }
      length := Accept(b256, length, s, p);
      p := p + 1;
      if length + zeroes > maxLen {
        TooLong(b256[..], length, s, p, e);
        return false, p, bytes;
      }
    }
    WordParsed(b256[..], length, s, p);
    return true, p, b256[..][b256.Length - length..];
  }

  lemma InvalidAt(s: string, p: nat, e: nat)
    requires p < e <= |s| && CharValue(s[p]) == -1
    ensures !AllBase58(s[..e])
  {
    assert s[..e][p] == s[p];
  }

  lemma WordParsed(b: seq<nat>, length: nat, s: string, p: nat)
    requires Parsed(b, length, s, p)
    ensures AllBase58(s[..p]) && b[|b| - length..] == WordBytes(s[..p])
  {
    BufferDigits(b, length, Base256);
  }

  lemma TooLong(b: seq<nat>, length: nat, s: string, p: nat, e: nat)
    requires Parsed(b, length, s, p) && p <= e <= |s|
    ensures AllBase58(s[..e]) ==> |WordBytes(s[..e])| >= length
  {
    BufferDigits(b, length, Base256);
    if AllBase58(s[..e]) {
      assert s[..e][..p] == s[..p];
      LongerWord(s[..e], p);
    }
  }

  /** `DecodeBase58`: skip spaces, count '1's, convert, skip spaces, and be at the end. */
  method DecodeBase58(str: string, maxLen: int) returns (r: Option<seq<nat>>)
    ensures r == DecodeSpec(str, maxLen)
  {
    if '\0' in str { return None; }
    var s := SkipSpaces(str);
    var zeroes := CountOnes(s, maxLen);
    if zeroes > 0 && zeroes > maxLen {
      ManyOnes(str, s, zeroes, maxLen);
      return None;
    }
    var t := s[zeroes..];
    var ok, p, bytes := DecodeWord(t, zeroes, maxLen, WordEnd(t));
    if !ok { return None; }
    var tail := SkipSpaces(t[p..]);
    if tail != [] { return None; }
    r := Some(Repeat(0, zeroes) + bytes);
  }

  /** The loop over leading '1's, which gives up as soon as there are too many. */
  method CountOnes(s: string, maxLen: int) returns (zeroes: nat)
    ensures zeroes <= |s| && forall i :: 0 <= i < zeroes ==> s[i] == '1'
    ensures zeroes == 0 || zeroes <= maxLen ==> zeroes == LeadingOnes(s)
  {
    zeroes := 0;
    while zeroes < |s| && s[zeroes] == '1'
      invariant zeroes <= |s| && (forall i :: 0 <= i < zeroes ==> s[i] == '1')
      invariant zeroes == 0 || zeroes <= maxLen
    {
      zeroes := zeroes + 1;
      if zeroes > maxLen { return; }
    }
  }

  lemma ManyOnes(str: string, s: string, z: nat, maxLen: int)
    requires s == str[LeadingSpaces(str)..] && maxLen < z <= |s| && z > 0 && forall i :: 0 <= i < z ==> s[i] == '1'
    ensures DecodeSpec(str, maxLen) == None
  {
    assert LeadingOnes(s) >= z;
  }

  method SkipSpaces(str: string) returns (s: string)
    ensures s == str[LeadingSpaces(str)..]
  {
    var n := 0;
    while n < |str| && IsSpace(str[n])
      invariant n <= |str| && forall i :: 0 <= i < n ==> IsSpace(str[i])
    {
      n := n + 1;
    }
    assert LeadingSpaces(str) == n;
    s := str[n..];
  }
}
