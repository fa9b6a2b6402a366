/** Linear maps on the ten bits of GF(1024), the field in which the Bech32 generator has its roots. The
    low five bits of an element are its part in GF(32), the high five its coefficient of the primitive
    element. */
module Bech32Field {
  import opened Bech32

  predicate Small(v: bv32) { v < 1024 }

  function Bit(i: nat): bv32
    requires i < 10
  {
    if i == 0 then 1 else if i == 1 then 2 else if i == 2 then 4 else if i == 3 then 8 else if i == 4 then 16
    else if i == 5 then 32 else if i == 6 then 64 else if i == 7 then 128 else if i == 8 then 256 else 512
  }

  lemma PickHigh(a: bv32, b: bv32, bit: bv32, k: bv32)
    requires bit == 32 || bit == 64 || bit == 128 || bit == 256 || bit == 512
    ensures Pick(Xor(a, b), bit, k) == Xor(Pick(a, bit, k), Pick(b, bit, k))
  {
    assert (a ^ b) & bit == (a & bit) ^ (b & bit);
  }

  lemma PickXor(a: bv32, b: bv32, i: nat, k: bv32)
    requires i < 10
    ensures Pick(Xor(a, b), Bit(i), k) == Xor(Pick(a, Bit(i), k), Pick(b, Bit(i), k))
  {
    if i < 5 { PickLinear(a, b, Bit(i), k); } else { PickHigh(a, b, Bit(i), k); }
  }

  /** The sum of the first n columns that the bits of v select. */
  function Part(m: seq<bv32>, v: bv32, n: nat): bv32
    requires n <= |m| <= 10
  {
    if n == 0 then 0 else Xor(Part(m, v, n - 1), Pick(v, Bit(n - 1), m[n - 1]))
  }

  /** The linear map with the given columns. */
  function Apply(m: seq<bv32>, v: bv32): bv32
    requires |m| <= 10
  {
    Part(m, v, |m|)
  }

  lemma {:induction false} PartLinear(m: seq<bv32>, a: bv32, b: bv32, n: nat)
    requires n <= |m| <= 10
    ensures Part(m, Xor(a, b), n) == Xor(Part(m, a, n), Part(m, b, n))
  {
    if n > 0 {
      PartLinear(m, a, b, n - 1);
      PickXor(a, b, n - 1, m[n - 1]);
      Gather(Part(m, Xor(a, b), n - 1), Part(m, a, n - 1), Part(m, b, n - 1),
             Pick(Xor(a, b), Bit(n - 1), m[n - 1]), Pick(a, Bit(n - 1), m[n - 1]), Pick(b, Bit(n - 1), m[n - 1]));
    }
  }

  lemma ApplyLinear(m: seq<bv32>, a: bv32, b: bv32)
    requires |m| <= 10
    ensures Apply(m, Xor(a, b)) == Xor(Apply(m, a), Apply(m, b))
  {
    PartLinear(m, a, b, |m|);
  }

  lemma XorSelf(a: bv32)
    ensures Xor(a, a) == 0
  {}

  lemma ApplyZero(m: seq<bv32>)
    requires |m| <= 10
    ensures Apply(m, 0) == 0
  {
    XorZero(0);
    ApplyLinear(m, 0, 0);
    XorSelf(Apply(m, 0));
  }

  predicate AllSmall(m: seq<bv32>) {
    forall i :: 0 <= i < |m| ==> Small(m[i])
  }

  lemma XorSmall(a: bv32, b: bv32)
    requires Small(a) && Small(b)
    ensures Small(Xor(a, b))
  {}

  lemma {:induction false} PartSmall(m: seq<bv32>, v: bv32, n: nat)
    requires n <= |m| <= 10 && AllSmall(m)
    ensures Small(Part(m, v, n))
  {
    if n > 0 {
      PartSmall(m, v, n - 1);
      XorSmall(Part(m, v, n - 1), Pick(v, Bit(n - 1), m[n - 1]));
    }
  }

  lemma ApplySmall(m: seq<bv32>, v: bv32)
    requires |m| <= 10 && AllSmall(m)
    ensures Small(Apply(m, v))
  {
    PartSmall(m, v, |m|);
  }

  /** The columns of r are the images of those of n under m. */
  predicate Composes(m: seq<bv32>, n: seq<bv32>, r: seq<bv32>) {
    |m| == |n| == |r| == 10 && forall i :: 0 <= i < 10 ==> r[i] == Apply(m, n[i])
  }

  lemma {:induction false} ComposePart(m: seq<bv32>, n: seq<bv32>, r: seq<bv32>, v: bv32, k: nat)
    requires Composes(m, n, r) && k <= 10
    ensures Part(r, v, k) == Apply(m, Part(n, v, k))
  {
    if k == 0 {
      ApplyZero(m);
    } else {
      ComposePart(m, n, r, v, k - 1);
      ApplyZero(m);
      ApplyLinear(m, Part(n, v, k - 1), Pick(v, Bit(k - 1), n[k - 1]));
    }
  }

  lemma ComposeApply(m: seq<bv32>, n: seq<bv32>, r: seq<bv32>, v: bv32)
    requires Composes(m, n, r)
    ensures Apply(r, v) == Apply(m, Apply(n, v))
  {
    ComposePart(m, n, r, v, 10);
  }

  /** The sum of ten columns written out. */
  function Chain(m: seq<bv32>, v: bv32): bv32
    requires |m| == 10
  {
    Xor(Xor(Xor(Xor(Xor(Xor(Xor(Xor(Xor(Pick(v, 1, m[0]), Pick(v, 2, m[1])), Pick(v, 4, m[2])), Pick(v, 8, m[3])),
      Pick(v, 16, m[4])), Pick(v, 32, m[5])), Pick(v, 64, m[6])), Pick(v, 128, m[7])), Pick(v, 256, m[8])), Pick(v, 512, m[9]))
  }

  lemma ZeroXor(a: bv32)
    ensures Xor(0, a) == a
  {}

  lemma Chained(m: seq<bv32>, v: bv32)
    requires |m| == 10
    ensures Apply(m, v) == Chain(m, v)
  {
    ZeroXor(Pick(v, 1, m[0]));
    assert Part(m, v, 1) == Pick(v, 1, m[0]);
    assert Part(m, v, 2) == Xor(Part(m, v, 1), Pick(v, 2, m[1]));
    assert Part(m, v, 3) == Xor(Part(m, v, 2), Pick(v, 4, m[2]));
    assert Part(m, v, 4) == Xor(Part(m, v, 3), Pick(v, 8, m[3]));
    assert Part(m, v, 5) == Xor(Part(m, v, 4), Pick(v, 16, m[4]));
    assert Part(m, v, 6) == Xor(Part(m, v, 5), Pick(v, 32, m[5]));
    assert Part(m, v, 7) == Xor(Part(m, v, 6), Pick(v, 64, m[6]));
    assert Part(m, v, 8) == Xor(Part(m, v, 7), Pick(v, 128, m[7]));
    assert Part(m, v, 9) == Xor(Part(m, v, 8), Pick(v, 256, m[8]));
    assert Part(m, v, 10) == Xor(Part(m, v, 9), Pick(v, 512, m[9]));
  }

  /** Ten sums written out are enough to see that a map is a product. */
  lemma Columns(m: seq<bv32>, n: seq<bv32>, r: seq<bv32>)
    requires |m| == |n| == |r| == 10
    requires r[0] == Chain(m, n[0]) && r[1] == Chain(m, n[1]) && r[2] == Chain(m, n[2]) && r[3] == Chain(m, n[3])
    requires r[4] == Chain(m, n[4]) && r[5] == Chain(m, n[5]) && r[6] == Chain(m, n[6]) && r[7] == Chain(m, n[7])
    requires r[8] == Chain(m, n[8]) && r[9] == Chain(m, n[9])
    ensures Composes(m, n, r)
  {
    forall i | 0 <= i < 10 ensures r[i] == Apply(m, n[i]) {
      Chained(m, n[i]);
      assert i == 0 || i == 1 || i == 2 || i == 3 || i == 4 || i == 5 || i == 6 || i == 7 || i == 8 || i == 9;
    }
  }

  // ----- Powers of the primitive element -----

  /** Multiplication by the primitive element e, whose square is {9}e + {23}. */
  const E1: seq<bv32> := [32, 64, 128, 256, 512, 311, 583, 430, 860, 945]

  /** Multiplication by e^n. */
  function Times(n: nat, v: bv32): bv32 {
    if n == 0 then v else Apply(E1, Times(n - 1, v))
  }

  /** The map is multiplication by e^n. */
  ghost predicate IsPower(m: seq<bv32>, n: nat) {
    |m| == 10 && forall v :: Small(v) ==> Apply(m, v) == Times(n, v)
  }

  lemma {:induction false} TimesSmall(n: nat, v: bv32)
    requires Small(v)
    ensures Small(Times(n, v))
  {
    if n > 0 {
      TimesSmall(n - 1, v);
      ApplySmall(E1, Times(n - 1, v));
    }
  }

  lemma {:induction false} TimesAdd(m: nat, n: nat, v: bv32)
    ensures Times(m + n, v) == Times(m, Times(n, v))
  {
    if m > 0 { TimesAdd(m - 1, n, v); }
  }

  lemma First()
    ensures IsPower(E1, 1)
  {
    forall v | Small(v) ensures Apply(E1, v) == Times(1, v) {
      assert Times(0, v) == v;
    }
  }

  lemma Product(a: seq<bv32>, m: nat, b: seq<bv32>, n: nat, r: seq<bv32>)
    requires IsPower(a, m) && IsPower(b, n) && Composes(a, b, r)
    ensures IsPower(r, m + n)
  {
    forall v | Small(v) ensures Apply(r, v) == Times(m + n, v) {
      ComposeApply(a, b, r, v);
      TimesSmall(n, v);
      TimesAdd(m, n, v);
    }
  }

  const E2: seq<bv32> := [311, 583, 430, 860, 945, 139, 278, 517, 298, 596]
  const E4: seq<bv32> := [206, 412, 785, 811, 886, 553, 370, 717, 186, 349]
  const E8: seq<bv32> := [537, 315, 607, 439, 839, 145, 267, 534, 293, 586]
  const E16: seq<bv32> := [675, 102, 204, 408, 793, 840, 944, 617, 498, 973]
  const E32: seq<bv32> := [41, 82, 141, 282, 541, 23, 7, 14, 28, 17]
  const E64: seq<bv32> := [292, 584, 432, 841, 946, 747, 246, 453, 906, 564]
  const E128: seq<bv32> := [209, 395, 790, 805, 874, 457, 914, 557, 378, 733]
  const E256: seq<bv32> := [516, 296, 592, 425, 850, 817, 875, 1014, 741, 234]
  const E512: seq<bv32> := [698, 125, 211, 399, 798, 104, 208, 393, 786, 813]
  const E33: seq<bv32> := [23, 7, 14, 28, 17, 736, 224, 448, 896, 544]
  const E66: seq<bv32> := [15, 30, 21, 3, 6, 480, 960, 672, 96, 192]
  const E99: seq<bv32> := [2, 4, 8, 16, 9, 64, 128, 256, 512, 288]
  const E80: seq<bv32> := [630, 485, 970, 692, 97, 513, 290, 580, 424, 848]
  const E88: seq<bv32> := [1011, 751, 254, 469, 899, 83, 143, 286, 533, 291]
  const E92: seq<bv32> := [597, 419, 838, 940, 632, 854, 933, 618, 500, 961]
  const E93: seq<bv32> := [854, 933, 618, 500, 961, 106, 212, 385, 770, 804]
  const E320: seq<bv32> := [900, 552, 368, 713, 178, 451, 902, 556, 376, 729]
  const E336: seq<bv32> := [154, 285, 531, 303, 606, 750, 252, 465, 907, 566]
  const E340: seq<bv32> := [780, 824, 889, 1019, 767, 365, 730, 189, 339, 655]
  const E341: seq<bv32> := [365, 730, 189, 339, 655, 396, 792, 825, 891, 1023]
  const E768: seq<bv32> := [1022, 757, 227, 454, 908, 499, 975, 702, 117, 195]
  const E896: seq<bv32> := [259, 518, 300, 600, 441, 828, 881, 1003, 758, 229]
  const E960: seq<bv32> := [230, 460, 920, 569, 379, 542, 309, 579, 422, 844]
  const E992: seq<bv32> := [193, 386, 772, 808, 880, 969, 690, 109, 218, 413]
  const E996: seq<bv32> := [881, 1003, 758, 229, 458, 445, 851, 943, 638, 501]
  const E997: seq<bv32> := [445, 851, 943, 638, 501, 101, 202, 404, 769, 802]
  const E998: seq<bv32> := [101, 202, 404, 769, 802, 976, 681, 114, 205, 410]
  const E999: seq<bv32> := [976, 681, 114, 205, 410, 260, 520, 304, 585, 434]
  const E1015: seq<bv32> := [255, 471, 903, 558, 380, 318, 597, 419, 838, 940]
  const E1023: seq<bv32> := [1, 2, 4, 8, 16, 32, 64, 128, 256, 512]

  lemma Compose2()
    ensures Composes(E1, E1, E2)
  {
    Columns(E1, E1, E2);
  }

  lemma Compose4()
    ensures Composes(E2, E2, E4)
  {
    Columns(E2, E2, E4);
  }

  lemma Compose8()
    ensures Composes(E4, E4, E8)
  {
    Columns(E4, E4, E8);
  }

  lemma Compose16()
    ensures Composes(E8, E8, E16)
  {
    Columns(E8, E8, E16);
  }

  lemma Compose32()
    ensures Composes(E16, E16, E32)
  {
    Columns(E16, E16, E32);
  }

  lemma Compose64()
    ensures Composes(E32, E32, E64)
  {
    Columns(E32, E32, E64);
  }

  lemma Compose128()
    ensures Composes(E64, E64, E128)
  {
    Columns(E64, E64, E128);
  }

  lemma Compose256()
    ensures Composes(E128, E128, E256)
  {
    Columns(E128, E128, E256);
  }

  lemma Compose512()
    ensures Composes(E256, E256, E512)
  {
    Columns(E256, E256, E512);
  }

  lemma Compose33()
    ensures Composes(E32, E1, E33)
  {
    Columns(E32, E1, E33);
  }

  lemma Compose66()
    ensures Composes(E33, E33, E66)
  {
    Columns(E33, E33, E66);
  }

  lemma Compose99()
    ensures Composes(E66, E33, E99)
  {
    Columns(E66, E33, E99);
  }

  lemma Compose80()
    ensures Composes(E64, E16, E80)
  {
    Columns(E64, E16, E80);
  }

  lemma Compose88()
    ensures Composes(E80, E8, E88)
  {
    Columns(E80, E8, E88);
  }

  lemma Compose92()
    ensures Composes(E88, E4, E92)
  {
    Columns(E88, E4, E92);
  }

  lemma Compose93()
    ensures Composes(E92, E1, E93)
  {
    Columns(E92, E1, E93);
  }

  lemma Compose320()
    ensures Composes(E256, E64, E320)
  {
    Columns(E256, E64, E320);
  }

  lemma Compose336()
    ensures Composes(E320, E16, E336)
  {
    Columns(E320, E16, E336);
  }

  lemma Compose340()
    ensures Composes(E336, E4, E340)
  {
    Columns(E336, E4, E340);
  }

  lemma Compose341()
    ensures Composes(E340, E1, E341)
  {
    Columns(E340, E1, E341);
  }

  lemma Compose768()
    ensures Composes(E512, E256, E768)
  {
    Columns(E512, E256, E768);
  }

  lemma Compose896()
    ensures Composes(E768, E128, E896)
  {
    Columns(E768, E128, E896);
  }

  lemma Compose960()
    ensures Composes(E896, E64, E960)
  {
    Columns(E896, E64, E960);
  }

  lemma Compose992()
    ensures Composes(E960, E32, E992)
  {
    Columns(E960, E32, E992);
  }

  lemma Compose996()
    ensures Composes(E992, E4, E996)
  {
    Columns(E992, E4, E996);
  }

  lemma Compose997()
    ensures Composes(E996, E1, E997)
  {
    Columns(E996, E1, E997);
  }

  lemma Compose998()
    ensures Composes(E997, E1, E998)
  {
    Columns(E997, E1, E998);
  }

  lemma Compose999()
    ensures Composes(E998, E1, E999)
  {
    Columns(E998, E1, E999);
  }

  lemma Compose1015()
    ensures Composes(E999, E16, E1015)
  {
    Columns(E999, E16, E1015);
  }

  lemma Compose1023()
    ensures Composes(E1015, E8, E1023)
  {
    Columns(E1015, E8, E1023);
  }

  /** The powers of two. */
  lemma Doubling()
    ensures IsPower(E1, 1) && IsPower(E4, 4) && IsPower(E8, 8) && IsPower(E16, 16) && IsPower(E32, 32)
    ensures IsPower(E64, 64) && IsPower(E128, 128) && IsPower(E256, 256) && IsPower(E512, 512)
  {
    First();
    Compose2();
    Product(E1, 1, E1, 1, E2);
    Compose4();
    Product(E2, 2, E2, 2, E4);
    Compose8();
    Product(E4, 4, E4, 4, E8);
    Compose16();
    Product(E8, 8, E8, 8, E16);
    Compose32();
    Product(E16, 16, E16, 16, E32);
    Compose64();
    Product(E32, 32, E32, 32, E64);
    Compose128();
    Product(E64, 64, E64, 64, E128);
    Compose256();
    Product(E128, 128, E128, 128, E256);
    Compose512();
    Product(E256, 256, E256, 256, E512);
  }

  /** The powers to the largest proper divisors of 1023: 33, */
  lemma Power33()
    ensures IsPower(E33, 33)
  {
    Doubling();
    Compose33();
    Product(E32, 32, E1, 1, E33);
  }

  /** The primitive element of GF(32) is e^99. */
  lemma Power99()
    ensures IsPower(E99, 99)
  {
    Power33();
    Compose66();
    Product(E33, 33, E33, 33, E66);
    Compose99();
    Product(E66, 66, E33, 33, E99);
  }

  /** 93 */
  lemma Power93()
    ensures IsPower(E93, 93)
  {
    Doubling();
    Compose80();
    Product(E64, 64, E16, 16, E80);
    Compose88();
    Product(E80, 80, E8, 8, E88);
    Compose92();
    Product(E88, 88, E4, 4, E92);
    Compose93();
    Product(E92, 92, E1, 1, E93);
  }

  /** and 341. */
  lemma Power341()
    ensures IsPower(E341, 341)
  {
    Doubling();
    Compose320();
    Product(E256, 256, E64, 64, E320);
    Compose336();
    Product(E320, 320, E16, 16, E336);
    Compose340();
    Product(E336, 336, E4, 4, E340);
    Compose341();
    Product(E340, 340, E1, 1, E341);
  }

  lemma SmallColumns()
    ensures AllSmall(E997) && AllSmall(E998) && AllSmall(E999)
  {}

  /** The three consecutive powers that are roots of the generator. */
  lemma Power997()
    ensures IsPower(E997, 997)
  {
    Doubling();
    Compose768();
    Product(E512, 512, E256, 256, E768);
    Compose896();
    Product(E768, 768, E128, 128, E896);
    Compose960();
    Product(E896, 896, E64, 64, E960);
    Compose992();
    Product(E960, 960, E32, 32, E992);
    Compose996();
    Product(E992, 992, E4, 4, E996);
    Compose997();
    Product(E996, 996, E1, 1, E997);
  }

  lemma Power998()
    ensures IsPower(E998, 998)
  {
    First();
    Power997();
    Compose998();
    Product(E997, 997, E1, 1, E998);
  }

  lemma Power999()
    ensures IsPower(E999, 999)
  {
    First();
    Power998();
    Compose999();
    Product(E998, 998, E1, 1, E999);
  }

  /** The primitive element has an order that divides 1023. */
  lemma Power1023()
    ensures IsPower(E1023, 1023)
  {
    Doubling();
    Power999();
    Compose1015();
    Product(E999, 999, E16, 16, E1015);
    Compose1023();
    Product(E1015, 1015, E8, 8, E1023);
  }
}
