/** The heights that skip pointers jump to, and how many steps a search along them takes. */
module SkipHeights {
  import opened Bits

  /** `n & (n - 1)`, which for n = 0 is 0 & -1. */
  function InvertLowestOne(n: nat): (r: nat)
    ensures r == if n == 0 then 0 else n - LowBit(n)
  {
    if n == 0 then 0 else
      AndPredecessor(n);
      And(n, n - 1)
  }

  function GetSkipHeight(height: nat): (h: nat)
    ensures height > 0 ==> h < height
    ensures height == 0 ==> h == 0
  {
    if height < 2 then 0
    else if height % 2 == 1 then InvertLowestOne(InvertLowestOne(height - 1)) + 1
    else InvertLowestOne(height)
  }

  /** Whether the search for a height follows the pointer to height `skip`, when the block
      before has its pointer to `skipPrev`. */
  predicate Follows(skip: nat, skipPrev: nat, target: nat) {
    skip == target || (skip > target && !(skipPrev < skip - 2 && skipPrev >= target))
  }

  function NextHeight(w: nat, target: nat): (h: nat)
    requires target < w
    ensures target <= h < w
  {
    var skip := GetSkipHeight(w);
    if Follows(skip, GetSkipHeight(w - 1), target) then skip else w - 1
  }

  // ----- Clearing the lowest one -----

  function Clear(n: nat): nat {
    if n == 0 then 0 else if n % 2 == 1 then n - 1 else 2 * Clear(n / 2)
  }

  lemma {:induction false} ClearIs(n: nat)
    ensures InvertLowestOne(n) == Clear(n)
  {
    if n > 0 && n % 2 == 0 {
      ClearIs(n / 2);
    }
  }

  lemma ClearDouble(m: nat)
    ensures Clear(2 * m) == 2 * Clear(m)
  {}

  lemma {:induction false} ClearLess(n: nat)
    requires n > 0
    ensures Clear(n) < n && Clear(n) % 2 == 0
  {
    if n % 2 == 0 { ClearLess(n / 2); }
  }

  /** The two skip heights that a step from w compares. */
  lemma OddSkips(w: nat)
    requires w % 2 == 1 && w > 1
    ensures GetSkipHeight(w) == Clear(Clear(w - 1)) + 1 && GetSkipHeight(w - 1) == Clear(w - 1)
  {
    ClearIs(w - 1);
    ClearIs(Clear(w - 1));
  }

  lemma EvenSkips(w: nat)
    requires w % 2 == 0
    ensures GetSkipHeight(w) == Clear(w)
    ensures w > 2 ==> GetSkipHeight(w - 1) == Clear(Clear(w - 2)) + 1
  {
    ClearIs(w);
    if w > 2 {
      OddSkips(w - 1);
    }
  }

  // ----- Levels -----

  /** One more than the highest bit in which two numbers differ. */
  function Level(w: nat, t: nat): nat
    decreases w + t
  {
    if w == t then 0 else 1 + Level(w / 2, t / 2)
  }

  /** The number of ones among the low k bits. */
  function Ones(n: nat, k: nat): nat {
    if k == 0 then 0 else n % 2 + Ones(n / 2, k - 1)
  }

  lemma {:induction false} OnesBound(n: nat, k: nat)
    ensures Ones(n, k) <= k && (n % 2 == 0 && k > 0 ==> Ones(n, k) <= k - 1)
  {
    if k > 0 { OnesBound(n / 2, k - 1); }
  }

  /** c is on the level of n and has one one fewer there. */
  predicate OneFewer(c: nat, n: nat, t: nat) {
    Level(c, t) == Level(n, t) && Ones(c, Level(n, t)) == Ones(n, Level(n, t)) - 1
  }

  lemma OneFewerDoubled(c: nat, n: nat, t: nat)
    requires t < 2 * c && t < 2 * n && OneFewer(c, n, t / 2)
    ensures OneFewer(2 * c, 2 * n, t)
  {}

  lemma OneFewerEnd(m: nat, t: nat)
    requires t < 2 * m
    ensures OneFewer(2 * m, 2 * m + 1, t)
  {}

  /** Clearing a one without passing the target stays on the level. */
  lemma {:induction false} ClearStays(n: nat, t: nat)
    requires t < Clear(n)
    ensures t < n && OneFewer(Clear(n), n, t)
  {
    ClearLess(n);
    var m := n / 2;
    if n == 2 * m {
      ClearDouble(m);
      ClearStays(m, t / 2);
      OneFewerDoubled(Clear(m), m, t);
    } else {
      OneFewerEnd(m, t);
    }
  }

  /** If clearing a one reaches or passes the target, one below is on a lower level. */
  lemma {:induction false} BelowDrops(n: nat, t: nat)
    requires Clear(n) <= t < n
    ensures Level(n - 1, t) < Level(n, t)
  {
    if n % 2 == 0 {
      BelowDrops(n / 2, t / 2);
      assert (n - 1) / 2 == n / 2 - 1;
    }
  }

  lemma OddLevel(w: nat, t: nat)
    requires w % 2 == 1 && t < w - 1
    ensures Level(w, t) == Level(w - 1, t)
  {
    assert w / 2 == (w - 1) / 2;
  }

  // ----- The measure -----

  /** More than all steps below level k. */
  function Base(k: nat): nat {
    if k <= 1 then 0 else Base(k - 1) + (k - 2) / 2 + 3
  }

  lemma {:induction false} BaseAbove(j: nat, k: nat)
    requires 1 <= j < k
    ensures Base(j) + (j - 1) / 2 + 3 <= Base(k)
    decreases k
  {
    if j < k - 1 { BaseAbove(j, k - 1); }
  }

  /** The steps on the level of w and t. At an odd height two ones can be cleared at once; when that would
      pass the target, at most three steps remain. */
  function OnLevel(w: nat, t: nat): nat
    requires t < w
  {
    var k := Level(w, t);
    if w % 2 == 1 then
      if Clear(Clear(w - 1)) + 1 >= t then Ones(w - 1, k) / 2 + 3 else 3
    else if Clear(w) <= t then 1
    else if Clear(Clear(w)) + 1 >= t then Ones(w, k) + 4
    else 2
  }

  function Measure(w: nat, t: nat): nat
    requires t <= w
  {
    if w == t then 0 else Base(Level(w, t)) + OnLevel(w, t)
  }

  /** From an odd height on a lower level the measure is below that of every state of this level. */
  lemma LowerLevel(w: nat, t: nat, k: nat)
    requires t <= w && Level(w, t) < k && (w % 2 == 1 || w == t)
    ensures Measure(w, t) <= Base(k)
  {
    if w != t {
      var j := Level(w, t);
      OnesBound(w - 1, j);
      BaseAbove(j, k);
    }
  }

  // ----- Every step decreases the measure -----

  lemma ClearAtMost(n: nat)
    ensures Clear(n) <= n
  {
    if n > 0 { ClearLess(n); }
  }

  lemma EvenCleared(n: nat)
    ensures Clear(n) % 2 == 0
  {
    if n > 0 { ClearLess(n); }
  }

  /** A jump from an odd height that stays above the target clears two ones. */
  lemma OddJump(w: nat, t: nat)
    requires w % 2 == 1 && t < Clear(Clear(w - 1))
    ensures t < w && Measure(Clear(Clear(w - 1)) + 1, t) < Measure(w, t)
  {
    TwoFewer(w - 1, t);
    EvenCleared(Clear(w - 1));
    FewerDrops(Clear(Clear(w - 1)), w, t, Level(w - 1, t));
  }

  /** What a search costs from the odd height above n on, at most. */
  function OddCost(n: nat, k: nat): nat {
    Base(k) + Ones(n, k) / 2 + 3
  }

  lemma FewerCost(h: nat, n: nat, k: nat)
    requires Ones(h, k) == Ones(n, k) - 2
    ensures OddCost(h, k) < OddCost(n, k)
  {}

  lemma FewerDrops(h: nat, w: nat, t: nat, k: nat)
    requires h % 2 == 0 && w % 2 == 1 && t < h && t < w - 1 && t <= Clear(Clear(w - 1)) + 1
    requires Level(h, t) == k == Level(w - 1, t) && Ones(h, k) == Ones(w - 1, k) - 2
    ensures Measure(h + 1, t) < Measure(w, t)
  {
    calc {
      Measure(h + 1, t);
    <= { OddAtMost(h, t, k); }
      OddCost(h, k);
    < { FewerCost(h, w - 1, k); }
      OddCost(w - 1, k);
    == { OddMeasure(w, t, k); }
      Measure(w, t);
    }
  }

  lemma OddMeasure(w: nat, t: nat, k: nat)
    requires w % 2 == 1 && t < w - 1 && Level(w - 1, t) == k && t <= Clear(Clear(w - 1)) + 1
    ensures Measure(w, t) == OddCost(w - 1, k)
  {
    OddLevel(w, t);
  }

  lemma OddAtMost(n: nat, t: nat, k: nat)
    requires n % 2 == 0 && t < n && Level(n, t) == k
    ensures Measure(n + 1, t) <= OddCost(n, k)
  {
    OddLevel(n + 1, t);
  }

  lemma TwoFewer(n: nat, t: nat)
    requires t < Clear(Clear(n))
    ensures t < Clear(n) && t < n && Level(Clear(Clear(n)), t) == Level(n, t)
    ensures Ones(Clear(Clear(n)), Level(n, t)) == Ones(n, Level(n, t)) - 2
  {
    ClearStays(Clear(n), t);
    ClearStays(n, t);
  }

  /** A jump from an odd height to the one above the target. */
  lemma OddJumpNext(w: nat, t: nat)
    requires w % 2 == 1 && 1 < w && t == Clear(Clear(w - 1))
    ensures t < w && Measure(t + 1, t) < Measure(w, t)
  {
    var e := w - 1;
    ClearLess(e);
    ClearAtMost(Clear(e));
    if Clear(e) > 0 { ClearLess(Clear(e)); }
    LevelOne(t);
    AtLeastTwo(w, t);
    BaseAbove(1, Level(w, t));
  }

  lemma LevelOne(t: nat)
    requires t % 2 == 0
    ensures Measure(t + 1, t) == 3
  {
    assert (t + 1) / 2 == t / 2;
    assert Level(t + 1, t) == 1;
    assert Ones(t, 1) == 0;
  }

  lemma AtLeastTwo(w: nat, t: nat)
    requires w / 2 != t / 2
    ensures Level(w, t) >= 2
  {
    assert Level(w / 2, t / 2) >= 1;
  }

  lemma OddStep(w: nat, t: nat)
    requires w % 2 == 1 && 1 < w && t < w
    ensures var skip := Clear(Clear(w - 1)) + 1;
            skip < w && Follows(skip, Clear(w - 1), t) == (skip >= t)
            && Measure(if skip >= t then skip else w - 1, t) < Measure(w, t)
  {
    var h := Clear(Clear(w - 1));
    ClearLess(w - 1);
    ClearAtMost(Clear(w - 1));
    if h > t {
      OddJump(w, t);
    } else if h == t {
      OddJumpNext(w, t);
    } else if h + 1 < t < w - 1 {
      OddLevel(w, t);
    }
  }

  /** A jump from an even height clears one one. */
  lemma EvenJump(w: nat, t: nat)
    requires w % 2 == 0 && t < Clear(w)
    ensures t < w && Measure(Clear(w), t) < Measure(w, t)
  {
    ClearStays(w, t);
    ClearLess(w);
  }

  /** a is on the level of b and has no more ones there. */
  predicate NoMore(a: nat, b: nat, t: nat) {
    Level(a, t) == Level(b, t) && Ones(a, Level(b, t)) <= Ones(b, Level(b, t))
  }

  lemma SameClear(m: nat, n: nat, t: nat)
    requires Clear(m) == Clear(n) > t
    ensures NoMore(m, n, t)
  {
    ClearStays(m, t);
    ClearStays(n, t);
  }

  lemma ClearTwo(w: nat)
    requires w % 2 == 0 && (w / 2) % 2 == 1
    ensures Clear(w) == w - 2
  {}

  lemma ClearQuad(w: nat)
    requires w % 2 == 0 && (w / 2) % 2 == 0
    ensures Clear(w) == 4 * Clear(w / 2 / 2)
  {}

  lemma ClearFour(w: nat)
    requires w % 2 == 0 && (w / 2) % 2 == 0 && (w / 2 / 2) % 2 == 1
    ensures Clear(w) == w - 4
  {
    ClearQuad(w);
  }

  lemma ClearEven(m: nat)
    requires m % 2 == 0 && m > 0
    ensures Clear(m) <= m - 2
  {
    ClearLess(m);
  }

  lemma ClearEight(w: nat)
    requires w > 0 && w % 2 == 0 && (w / 2) % 2 == 0 && (w / 2 / 2) % 2 == 0
    ensures Clear(w) <= w - 8
  {
    ClearQuad(w);
    ClearEven(w / 2 / 2);
  }

  lemma TwoBelow(w: nat)
    requires w > 0 && w % 2 == 0 && (w / 2) % 2 == 0
    ensures Clear(w - 2) == w - 4
  {
    assert (w - 2) / 2 == w / 2 - 1;
    ClearTwo(w - 2);
  }

  lemma FourBelow(w: nat)
    requires w > 0 && w % 2 == 0 && (w / 2) % 2 == 0 && (w / 2 / 2) % 2 == 0
    ensures Clear(w - 4) == w - 8
  {
    assert (w - 4) / 2 == w / 2 - 2;
    assert (w - 4) / 2 / 2 == w / 2 / 2 - 1;
    ClearFour(w - 4);
  }

  lemma EightFollows(w: nat, t: nat)
    requires w % 2 == 0 && (w / 2) % 2 == 0 && (w / 2 / 2) % 2 == 0 && t < Clear(w)
    ensures w >= 8 && Follows(Clear(w), Clear(Clear(w - 2)) + 1, t)
  {
    ClearEight(w);
    TwoBelow(w);
    FourBelow(w);
  }

  /** When the search walks to w - 1 although w's pointer stays above the target, w - 2 is on
      the level of w, has no more ones, and its pointers lead as far. */
  predicate Walked(w: nat, t: nat) {
    && t < w - 2 && NoMore(w - 2, w, t)
    && Clear(Clear(w - 2)) + 1 >= t && Clear(Clear(w)) + 1 >= t
  }

  lemma WalkTwo(w: nat, t: nat)
    requires w % 2 == 0 && (w / 2) % 2 == 1 && t < Clear(w) && t <= Clear(Clear(w - 2)) + 1
    ensures Walked(w, t)
  {
    ClearTwo(w);
    ClearStays(w, t);
    ClearAtMost(Clear(w - 2));
  }

  lemma WalkFour(w: nat, t: nat)
    requires w > 0 && w % 2 == 0 && (w / 2) % 2 == 0 && (w / 2 / 2) % 2 == 1
    requires t < Clear(w) && t <= Clear(Clear(w - 2)) + 1
    ensures Walked(w, t)
  {
    TwoBelow(w);
    ClearFour(w);
    SameClear(w - 2, w, t);
  }

  lemma EvenWalk(w: nat, t: nat)
    requires w % 2 == 0 && w > 2 && t < Clear(w) && !Follows(Clear(w), Clear(Clear(w - 2)) + 1, t)
    ensures Walked(w, t)
  {
    if (w / 2) % 2 == 1 {
      WalkTwo(w, t);
    } else if (w / 2 / 2) % 2 == 1 {
      WalkFour(w, t);
    } else {
      EightFollows(w, t);
    }
  }

  lemma EvenStep(w: nat, t: nat)
    requires w % 2 == 0 && 2 < w && t < w
    ensures Clear(w) < w
    ensures var follows := Follows(Clear(w), Clear(Clear(w - 2)) + 1, t);
            (follows ==> t <= Clear(w)) && Measure(if follows then Clear(w) else w - 1, t) < Measure(w, t)
  {
    ClearLess(w);
    if Clear(w) < t {
      BelowDrops(w, t);
      LowerLevel(w - 1, t, Level(w, t));
    } else if Clear(w) > t {
      if Follows(Clear(w), Clear(Clear(w - 2)) + 1, t) {
        EvenJump(w, t);
      } else {
        EvenWalk(w, t);
        OddLevel(w - 1, t);
      }
    }
  }

  /** Every step of the search decreases the measure. */
  lemma StepDecreases(w: nat, t: nat)
    requires t < w
    ensures Measure(NextHeight(w, t), t) < Measure(w, t)
  {
    if w <= 2 {
      SmallStep(w, t);
    } else if w % 2 == 1 {
      OddSkips(w);
      OddStep(w, t);
    } else {
      EvenSkips(w);
      EvenStep(w, t);
    }
  }

  lemma SmallStep(w: nat, t: nat)
    requires t < w <= 2
    ensures Measure(NextHeight(w, t), t) < Measure(w, t)
  {
    if w == 2 {
      EvenSkips(w);
      if t == 1 { BelowDrops(2, 1); }
    }
  }

  // ----- The bound -----

  lemma {:induction false} LevelBound(w: nat, t: nat, n: nat)
    requires w < Pow2(n) && t < Pow2(n)
    ensures Level(w, t) <= n
  {
    if w != t {
      LevelBound(w / 2, t / 2, n - 1);
    }
  }

  /** Two levels at a time. */
  lemma BaseTwo(k: nat)
    requires k >= 3
    ensures Base(k) == Base(k - 2) + k + 3
  {
    assert Base(k - 1) == Base(k - 2) + (k - 3) / 2 + 3;
  }

  lemma SquareTwo(k: nat)
    requires k >= 2
    ensures k * k == (k - 2) * (k - 2) + 4 * k - 4
  {}

  lemma {:induction false} BaseBound(k: nat)
    requires k >= 1
    ensures 4 * Base(k) <= k * k + 8 * k - 8
  {
    if k >= 3 {
      BaseBound(k - 2);
      BaseTwo(k);
      SquareTwo(k);
    }
  }

  lemma Square(k: nat, n: nat)
    requires k <= n
    ensures k * k <= n * n
  {
    assert n * n - k * k == (n - k) * (n + k);
  }

  /** Below height 2^n the measure is at most (n * n + 12 * n + 4) / 4. */
  lemma MeasureBound(w: nat, t: nat, n: nat)
    requires t <= w < Pow2(n)
    ensures 4 * Measure(w, t) <= n * n + 12 * n + 4
  {
    if w != t {
      var k := Level(w, t);
      LevelBound(w, t, n);
      BaseBound(k);
      OnesBound(w, k);
      if w % 2 == 1 { OnesBound(w - 1, k); }
      Square(k, n);
    }
  }

  // ----- Whole searches -----

  /** The steps of the search from height w to height t. */
  function StepCount(w: nat, t: nat): nat
    requires t <= w
    decreases w
  {
    if w == t then 0 else 1 + StepCount(NextHeight(w, t), t)
  }

  predicate IsCount(steps: nat, w: nat, t: nat) {
    t <= w && steps == StepCount(w, t)
  }

  lemma OneMoreStep(c: nat, w: nat, t: nat)
    requires t < w && IsCount(c, NextHeight(w, t), t)
    ensures IsCount(c + 1, w, t)
  {}

  lemma {:induction false} StepsWithinMeasure(w: nat, t: nat)
    requires t <= w
    ensures StepCount(w, t) <= Measure(w, t)
    decreases w
  {
    if t < w {
      StepDecreases(w, t);
      StepsWithinMeasure(NextHeight(w, t), t);
    }
  }

  /** A search from a height below 2^n takes at most (n * n + 12 * n + 4) / 4 steps. */
  lemma StepCountBound(w: nat, t: nat, n: nat)
    requires t <= w < Pow2(n)
    ensures 4 * StepCount(w, t) <= n * n + 12 * n + 4
  {
    StepsWithinMeasure(w, t);
    MeasureBound(w, t, n);
  }
}
