/** The tables and constants of the codec against BIP 173 and BIP 350: the character set, and a valid
    text of each encoding. */
module Bech32Vectors {
  import opened Bech32
  import opened Bech32Text

  /** The character set as BIP 173 prints it. */
  const CHARACTERS: string := "qpzry9x8gf2tvdw0s3jn54khce6mua7l"

  lemma CharsetIs(v: bv8)
    requires v < 32
    ensures Charset(v) as int == CHARACTERS[v as int] as int
  {
    if v < 8 {
      Charset0(v);
    } else if v < 16 {
      Charset1(v);
    } else if v < 24 {
      Charset2(v);
    } else {
      Charset3(v);
    }
  }

  lemma Charset0(v: bv8)
    requires v < 8
    ensures Charset(v) as int == CHARACTERS[v as int] as int
  {
    if v == 0 {} else if v == 1 {} else if v == 2 {} else if v == 3 {} else if v == 4 {} else if v == 5 {} else if v == 6 {} else {}
  }

  lemma Charset1(v: bv8)
    requires 8 <= v < 16
    ensures Charset(v) as int == CHARACTERS[v as int] as int
  {
    if v == 8 {} else if v == 9 {} else if v == 10 {} else if v == 11 {} else if v == 12 {} else if v == 13 {} else if v == 14 {} else {}
  }

  lemma Charset2(v: bv8)
    requires 16 <= v < 24
    ensures Charset(v) as int == CHARACTERS[v as int] as int
  {
    if v == 16 {} else if v == 17 {} else if v == 18 {} else if v == 19 {} else if v == 20 {} else if v == 21 {} else if v == 22 {} else {}
  }

  lemma Charset3(v: bv8)
    requires 24 <= v < 32
    ensures Charset(v) as int == CHARACTERS[v as int] as int
  {
    if v == 24 {} else if v == 25 {} else if v == 26 {} else if v == 27 {} else if v == 28 {} else if v == 29 {} else if v == 30 {} else {}
  }

  /** The remainder after nine symbols, one step after the other. */
  lemma NineSteps(v: seq<bv8>, c: seq<bv32>)
    requires |v| == 9 && |c| == 10 && c[0] == 1
    requires Step(c[0], v[0]) == c[1] && Step(c[1], v[1]) == c[2] && Step(c[2], v[2]) == c[3]
    requires Step(c[3], v[3]) == c[4] && Step(c[4], v[4]) == c[5] && Step(c[5], v[5]) == c[6]
    requires Step(c[6], v[6]) == c[7] && Step(c[7], v[7]) == c[8] && Step(c[8], v[8]) == c[9]
    ensures Fold(1, v) == c[9]
  {
    forall i | 0 <= i < 9 ensures Fold(1, v[..i + 1]) == Step(Fold(1, v[..i]), v[i]) {
      assert v[..i + 1][..i] == v[..i];
    }
    assert v[..9] == v;
  }

  /** The residue of "a" with the symbols of "2uel5l". */
  lemma Residue173()
    ensures Residue([97], [10, 28, 25, 31, 20, 31]) == 1
  {
    assert Coefficients([97], [10, 28, 25, 31, 20, 31]) == [3, 0, 1, 10, 28, 25, 31, 20, 31];
    NineSteps([3, 0, 1, 10, 28, 25, 31, 20, 31],
              [0x1, 0x23, 0x460, 0x8c01, 0x11802a, 0x230055c, 0x3d6afc2b, 0x2f84386, 0x24622766, 0x1]);
  }

  /** The residue of "a" with the symbols of "lqfn3a". */
  lemma Residue350()
    ensures Residue([97], [31, 0, 9, 19, 17, 29]) == 0x2bc830a3
  {
    assert Coefficients([97], [31, 0, 9, 19, 17, 29]) == [3, 0, 1, 31, 0, 9, 19, 17, 29];
    NineSteps([3, 0, 1, 31, 0, 9, 19, 17, 29],
              [0x1, 0x23, 0x460, 0x8c01, 0x11803f, 0x23007e0, 0x3d6aabbb, 0x2f2b18a, 0x253c66e3, 0x2bc830a3]);
  }

  /** A digit or capital letter with its symbol. */
  predicate Reads(c: bv8, v: bv8) {
    33 <= c <= 90 && c != SEPARATOR && v < 32 && CharsetRev(c) == v
  }

  lemma ReadSix(t: Text, v: seq<bv8>)
    requires |t| == 6 == |v| && Reads(t[0], v[0]) && Reads(t[1], v[1]) && Reads(t[2], v[2])
    requires Reads(t[3], v[3]) && Reads(t[4], v[4]) && Reads(t[5], v[5])
    ensures AllValued(t) && Values(t) == v && AllPrintable(t) && !HasLower(t) && SEPARATOR !in t
  {
    assert forall i :: 0 <= i < 6 ==> Reads(t[i], v[i]);
  }

  /** A text of a capital "A", the separator and six characters. */
  lemma ParseShort(tail: Text, values: seq<bv8>)
    requires |tail| == 6 && AllValued(tail) && Values(tail) == values && Verify([97], values) != Invalid
    requires AllPrintable(tail) && !HasLower(tail) && SEPARATOR !in tail
    ensures DecodeSpec([65, 49] + tail, 90) == DecodeResult(Verify([97], values), [97], [])
  {
    var str := [65, 49] + tail;
    assert str == [65] + [SEPARATOR] + tail;
    LastSeparatorAt([65], tail);
    assert str[..1] == [65] && str[2..] == tail && Lower([65]) == [97];
    assert forall i :: 2 <= i < 8 ==> str[i] == tail[i - 2];
    assert values[..0] == [];
  }

  /** "A12UEL5L" is valid by BIP 173. */
  lemma Valid173()
    ensures DecodeSpec([65, 49] + [50, 85, 69, 76, 53, 76], 90) == DecodeResult(Encoding.Bech32, [97], [])
  {
    Residue173();
    ReadSix([50, 85, 69, 76, 53, 76], [10, 28, 25, 31, 20, 31]);
    ParseShort([50, 85, 69, 76, 53, 76], [10, 28, 25, 31, 20, 31]);
  }

  /** "A1LQFN3A" is valid by BIP 350. */
  lemma Valid350()
    ensures DecodeSpec([65, 49] + [76, 81, 70, 78, 51, 65], 90) == DecodeResult(Bech32m, [97], [])
  {
    Residue350();
    ReadSix([76, 81, 70, 78, 51, 65], [31, 0, 9, 19, 17, 29]);
    ParseShort([76, 81, 70, 78, 51, 65], [31, 0, 9, 19, 17, 29]);
  }
}
