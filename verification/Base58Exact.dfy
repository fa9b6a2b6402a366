/** The Base58 alphabet, and exactly which texts the parser accepts. */
module Base58Exact {
  import opened Collections
  import opened Positional
  import opened Base58Codec

  predicate Alphanumeric(c: char) {
    '0' <= c <= '9' || 'A' <= c <= 'Z' || 'a' <= c <= 'z'
  }

  /** The digits are the letters and digits of ASCII without 0, I, O and l. */
  lemma AlphabetIs(c: char)
    ensures (exists d: nat :: d < 58 && DigitChar(d) == c) <==> Alphanumeric(c) && c != '0' && c != 'I' && c != 'O' && c != 'l'
  {
    if CharValue(c) >= 0 {
      assert DigitChar(CharValue(c)) == c;
    }
  }

  /** They are in the order of ASCII. */
  lemma AlphabetIncreases(d: nat, e: nat)
    requires d < e < 58
    ensures DigitChar(d) < DigitChar(e)
  {}

  /** The spaces are the blank and the control characters from tab to carriage return. */
  lemma SpacesAre(c: char)
    ensures IsSpace(c) <==> c as int == 32 || 9 <= c as int <= 13
  {}

  predicate AllSpaces(s: string) {
    forall i :: 0 <= i < |s| ==> IsSpace(s[i])
  }

  predicate NoSpaces(w: string) {
    forall i :: 0 <= i < |w| ==> !IsSpace(w[i])
  }

  lemma LeadingSpacesIs(s: string, n: nat)
    requires n <= |s| && (forall i :: 0 <= i < n ==> IsSpace(s[i])) && (n < |s| ==> !IsSpace(s[n]))
    ensures LeadingSpaces(s) == n
  {}

  lemma LeadingOnesIs(s: string, n: nat)
    requires n <= |s| && (forall i :: 0 <= i < n ==> s[i] == '1') && (n < |s| ==> s[n] != '1')
    ensures LeadingOnes(s) == n
  {}

  /** What the parser makes of leading ones, a word and what follows it. */
  ghost function Parsed(z: nat, word: string, tail: string, maxLen: int): Option<seq<nat>> {
    if !AllBase58(word) || LeadingSpaces(tail) != |tail| then None
    else
      var r := Repeat(0, z) + Digits(Number(ToDigits(word), Base58), Base256);
      if Fits(r, maxLen) then Some(r) else None
  }

  lemma DecodeIs(str: string, s: string, t: string, maxLen: int)
    requires '\0' !in str && s == str[LeadingSpaces(str)..] && t == s[LeadingOnes(s)..]
    ensures DecodeSpec(str, maxLen) == Parsed(LeadingOnes(s), t[..WordEnd(t)], t[WordEnd(t)..], maxLen)
  {}

  lemma SkipPre(pre: string, s: string)
    requires AllSpaces(pre) && (s != [] ==> !IsSpace(s[0]))
    ensures (pre + s)[LeadingSpaces(pre + s)..] == s
  {
    LeadingSpacesIs(pre + s, |pre|);
  }

  lemma OnesBefore(w: string, post: string)
    requires NoSpaces(w) && AllSpaces(post)
    ensures LeadingOnes(w + post) == LeadingOnes(w) && (w + post)[LeadingOnes(w)..] == w[LeadingOnes(w)..] + post
  {
    LeadingOnesIs(w + post, LeadingOnes(w));
  }

  lemma EndBefore(w: string, post: string)
    requires NoSpaces(w) && AllSpaces(post)
    ensures WordEnd(w + post) == |w| && (w + post)[..|w|] == w && (w + post)[|w|..] == post
  {
    WordEndIs(w + post, |w|);
  }

  /** Spaces after a word change nothing. */
  lemma PostSame(pre: string, w: string, post: string, maxLen: int)
    requires AllSpaces(pre) && w != [] && NoSpaces(w) && '\0' !in w && AllSpaces(post)
    ensures DecodeSpec(pre + (w + post), maxLen) == Parsed(LeadingOnes(w), w[LeadingOnes(w)..], [], maxLen)
  {
    var s, t := w + post, w[LeadingOnes(w)..];
    SkipPre(pre, s);
    OnesBefore(w, post);
    EndBefore(t, post);
    LeadingSpacesIs(post, |post|);
    NoNul(pre, w, post);
    DecodeIs(pre + s, s, t + post, maxLen);
  }

  lemma NoNul(pre: string, w: string, post: string)
    requires AllSpaces(pre) && AllSpaces(post) && '\0' !in w
    ensures '\0' !in pre + (w + post)
  {
    assert forall i :: 0 <= i < |pre| ==> pre[i] != '\0';
    assert forall i :: 0 <= i < |post| ==> post[i] != '\0';
  }

  lemma SpacesOnly(str: string, maxLen: int)
    requires AllSpaces(str)
    ensures DecodeSpec(str, maxLen) == Parsed(0, [], [], maxLen)
  {
    LeadingSpacesIs(str, |str|);
    NoNul(str, [], []);
    assert str + ([] + []) == str;
    DecodeIs(str, [], [], maxLen);
  }

  /** Spaces around a word change nothing. */
  lemma PaddedSame(pre: string, w: string, post: string, maxLen: int)
    requires AllSpaces(pre) && NoSpaces(w) && '\0' !in w && AllSpaces(post)
    ensures DecodeSpec(pre + (w + post), maxLen) == DecodeSpec(w, maxLen)
  {
    if w == [] {
      SpacesOnly(pre + (w + post), maxLen);
      SpacesOnly(w, maxLen);
    } else {
      PostSame(pre, w, post, maxLen);
      PostSame([], w, [], maxLen);
      assert [] + (w + []) == w;
    }
  }

  lemma PrintedIsWord(b: seq<nat>)
    requires IsDigits(b, Base256)
    ensures NoSpaces(EncodeSpec(b)) && '\0' !in EncodeSpec(b)
  {
    var z := LeadingZeros(b);
    var n := Number(b[z..], Base256);
    DigitsAreDigits(n, Base58);
    var r := ToChars(Digits(n, Base58));
    CharsAndDigits(Digits(n, Base58));
    assert NoSpaces(Repeat('1', z)) && NoSpaces(r);
  }

  /** The text is the word with nothing but spaces before and after it. */
  predicate Padded(str: string, pre: string, w: string, post: string) {
    str == pre + (w + post) && AllSpaces(pre) && AllSpaces(post)
  }

  lemma AcceptedTail(str: string, s: string, t: string, maxLen: int)
    requires DecodeSpec(str, maxLen).Some? && s == str[LeadingSpaces(str)..] && t == s[LeadingOnes(s)..]
    ensures AllSpaces(t[WordEnd(t)..])
  {}

  lemma AcceptedIsPadded(str: string, maxLen: int) returns (pre: string, post: string)
    requires DecodeSpec(str, maxLen).Some?
    ensures Padded(str, pre, Trimmed(str), post)
  {
    var s := str[LeadingSpaces(str)..];
    var z := LeadingOnes(s);
    AcceptedTail(str, s, s[z..], maxLen);
    WordAfterOnes(s, z);
    TailOf(s, z, WordEnd(s[z..]));
    pre, post := str[..LeadingSpaces(str)], s[WordEnd(s)..];
    Rejoin(str, LeadingSpaces(str), WordEnd(s));
  }

  lemma TailOf(s: string, z: nat, e: nat)
    requires z + e <= |s|
    ensures s[z..][e..] == s[z + e..]
  {}

  lemma Rejoin(str: string, n: nat, e: nat)
    requires n + e <= |str|
    ensures str == str[..n] + (str[n..][..e] + str[n..][e..])
  {}

  /** The bytes' printed form with spaces around it, and nothing else. */
  ghost predicate Prints(str: string, b: seq<nat>) {
    exists pre, post :: Padded(str, pre, EncodeSpec(b), post)
  }

  lemma DecodeOfPadded(str: string, maxLen: int, b: seq<nat>, pre: string, post: string)
    requires IsDigits(b, Base256) && Fits(b, maxLen) && Padded(str, pre, EncodeSpec(b), post)
    ensures DecodeSpec(str, maxLen) == Some(b)
  {
    PrintedIsWord(b);
    PaddedSame(pre, EncodeSpec(b), post, maxLen);
    DecodeOfEncode(b, maxLen);
  }

  lemma AcceptedFits(str: string, maxLen: int)
    ensures DecodeSpec(str, maxLen).Some? ==> Fits(DecodeSpec(str, maxLen).value, maxLen)
  {}

  /** The parser gives bytes back exactly for their printed form with spaces around it, if they fit the
      limit; it refuses every other text. */
  lemma DecodeExactly(str: string, maxLen: int, b: seq<nat>)
    requires IsDigits(b, Base256)
    ensures DecodeSpec(str, maxLen) == Some(b) <==> Fits(b, maxLen) && Prints(str, b)
  {
    if DecodeSpec(str, maxLen) == Some(b) {
      EncodeOfDecode(str, maxLen);
      AcceptedFits(str, maxLen);
      var pre, post := AcceptedIsPadded(str, maxLen);
      assert Padded(str, pre, EncodeSpec(b), post);
    } else if Fits(b, maxLen) && Prints(str, b) {
      var pre, post :| Padded(str, pre, EncodeSpec(b), post);
      DecodeOfPadded(str, maxLen, b, pre, post);
    }
  }

  lemma DigitsOfOnes(z: nat, w: string)
    requires AllBase58(w) && (w != [] ==> w[0] != '1')
    ensures var t := Repeat('1', z) + w;
            AllBase58(t) && LeadingOnes(t) == z && ToDigits(t) == Repeat(0, z) + ToDigits(w)
  {
    var t := Repeat('1', z) + w;
    assert CharValue('1') == 0;
    forall i | 0 <= i < |t| ensures CharValue(t[i]) == if i < z then 0 else CharValue(w[i - z]) {}
    if z < |t| { assert t[z] == w[0]; }
    LeadingOnesIs(t, z);
  }

  /** The printed text has a '1' for every leading zero byte, and as a number in base 58, most significant
      digit first, it is the number that the bytes are in base 256. */
  lemma EncodeValue(b: seq<nat>)
    requires IsDigits(b, Base256)
    ensures var t := EncodeSpec(b);
            AllBase58(t) && LeadingOnes(t) == LeadingZeros(b) && Number(ToDigits(t), Base58) == Number(b, Base256)
  {
    var z := LeadingZeros(b);
    var n := Number(b[z..], Base256);
    DigitsAreDigits(n, Base58);
    var d := Digits(n, Base58);
    CharsAndDigits(d);
    DigitsOfOnes(z, ToChars(d));
    NumberSkip(b, z, Base256);
    NumberSkip(Repeat(0, z) + d, z, Base58);
    assert (Repeat(0, z) + d)[z..] == d;
  }
}
