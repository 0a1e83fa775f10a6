// _cp_bounds of f2_analysis.py: 200 halvings of [0, 1] towards each end of the exact interval.
// The reference definition does not mention halving: each bound is the midpoint of the one cell of
// the grid of step 2^-200 across which the tail crosses its target.
module ClopperPearson {
  import opened Average
  import opened Binomial

  const STEPS: nat := 200

  function Pow2(s: nat): nat {
    if s == 0 then 1 else 2 * Pow2(s - 1)
  }

  // The grid point j / 2^s.
  function Point(j: int, s: nat): real {
    PowPositive(s);
    j as real / Pow2(s) as real
  }

  lemma {:induction false} PowPositive(s: nat)
    ensures Pow2(s) >= 1
  {
    if s > 0 {
      PowPositive(s - 1);
    }
  }

  lemma Ratio(x: real, y: real, m: real)
    requires m > 0.0
    ensures x < y <==> x / m < y / m
    ensures (y - x) / m == y / m - x / m
    ensures x / m * m == x
    ensures (2.0 * x) / (2.0 * m) == x / m
  {
  }

  lemma PointOrder(i: int, j: int, s: nat)
    ensures i < j <==> Point(i, s) < Point(j, s)
    ensures i == j <==> Point(i, s) == Point(j, s)
    ensures Point(j, s) - Point(i, s) == Point(j - i, s)
    ensures Point(2 * j, s + 1) == Point(j, s)
  {
    PowPositive(s);
    Ratio(i as real, j as real, Pow2(s) as real);
    Ratio(j as real, i as real, Pow2(s) as real);
  }

  lemma PointEnds(s: nat)
    ensures Point(0, s) == 0.0 && Point(Pow2(s), s) == 1.0
  {
    PowPositive(s);
    UnitRatio(Pow2(s) as real);
  }

  lemma UnitRatio(m: real)
    requires m > 0.0
    ensures m / m == 1.0 && 0.0 / m == 0.0
  {
  }

  lemma PointScaled(j: int, s: nat)
    ensures Point(j, s) * Pow2(s) as real == j as real
  {
    PowPositive(s);
    Ratio(j as real, j as real, Pow2(s) as real);
  }

  lemma PointInUnit(j: int, s: nat)
    requires 0 <= j <= Pow2(s)
    ensures 0.0 <= Point(j, s) <= 1.0
  {
    PointOrder(0, j, s);
    PointOrder(j, Pow2(s), s);
    PointEnds(s);
  }

  lemma PointMiddle(j: int, s: nat)
    ensures (Point(j, s) + Point(j + 1, s)) / 2.0 == Point(2 * j + 1, s + 1)
    ensures Point(2 * (j + 1), s + 1) == Point(j + 1, s)
  {
    PointOrder(j, j, s);
    PointOrder(j + 1, j + 1, s);
    var x, y, z := Point(2 * j, s + 1), Point(2 * j + 1, s + 1), Point(2 * (j + 1), s + 1);
    assert y - x == Point(1, s + 1) by {
      PointOrder(2 * j, 2 * j + 1, s + 1);
      assert 2 * j + 1 - 2 * j == 1;
    }
    assert z - y == Point(1, s + 1) by {
      PointOrder(2 * j + 1, 2 * (j + 1), s + 1);
      assert 2 * (j + 1) - (2 * j + 1) == 1;
    }
  }

  // The upper tail crosses the target inside cell j; a bound at an end of [0, 1] needs no crossing.
  ghost predicate LowCell(k: int, n: int, target: real, s: nat, j: int) {
    && 0 <= j < Pow2(s)
    && (j == 0 || Sf(k, n, Point(j, s)) < target)
    && (j + 1 == Pow2(s) || target <= Sf(k, n, Point(j + 1, s)))
  }

  // The lower tail crosses the target inside cell j.
  ghost predicate HighCell(k: int, n: int, target: real, s: nat, j: int) {
    && 0 <= j < Pow2(s)
    && (j == 0 || target < Cdf(k, n, Point(j, s)))
    && (j + 1 == Pow2(s) || Cdf(k, n, Point(j + 1, s)) <= target)
  }

  // One halving, for either loop.
  lemma LowCellStep(k: int, n: int, target: real, s: nat, j: int)
    requires LowCell(k, n, target, s, j)
    ensures LowCell(k, n, target, s + 1, if Sf(k, n, Point(2 * j + 1, s + 1)) < target then 2 * j + 1 else 2 * j)
  {
    PointOrder(j, j, s);
    PointMiddle(j, s);
  }

  lemma HighCellStep(k: int, n: int, target: real, s: nat, j: int)
    requires HighCell(k, n, target, s, j)
    ensures HighCell(k, n, target, s + 1, if Cdf(k, n, Point(2 * j + 1, s + 1)) > target then 2 * j + 1 else 2 * j)
  {
    PointOrder(j, j, s);
    PointMiddle(j, s);
  }

  lemma {:induction false} CellsExist(k: int, n: int, target: real, s: nat)
    ensures (exists j :: LowCell(k, n, target, s, j)) && (exists j :: HighCell(k, n, target, s, j))
  {
    if s == 0 {
      assert LowCell(k, n, target, 0, 0) && HighCell(k, n, target, 0, 0);
    } else {
      CellsExist(k, n, target, s - 1);
      var i, j :| LowCell(k, n, target, s - 1, i) && HighCell(k, n, target, s - 1, j);
      LowCellStep(k, n, target, s - 1, i);
      HighCellStep(k, n, target, s - 1, j);
    }
  }

  ghost function LowIndex(k: int, n: int, target: real, s: nat): (j: int)
    ensures LowCell(k, n, target, s, j)
  {
    CellsExist(k, n, target, s);
    var j :| LowCell(k, n, target, s, j);
    j
  }

  ghost function HighIndex(k: int, n: int, target: real, s: nat): (j: int)
    ensures HighCell(k, n, target, s, j)
  {
    CellsExist(k, n, target, s);
    var j :| HighCell(k, n, target, s, j);
    j
  }

  lemma TailsOrdered(k: int, n: int, i: int, j: int, s: nat)
    requires n >= 1 && 0 <= i <= j <= Pow2(s)
    ensures Sf(k, n, Point(i, s)) <= Sf(k, n, Point(j, s))
    ensures Cdf(k, n, Point(j, s)) <= Cdf(k, n, Point(i, s))
    ensures 1 <= k <= n && i < j ==> Sf(k, n, Point(i, s)) < Sf(k, n, Point(j, s))
  {
    if i < j {
      var x, y := Point(i, s), Point(j, s);
      PointInUnit(i, s);
      PointInUnit(j, s);
      PointOrder(i, j, s);
      TailIncreases(k, n, x, y);
      TailIncreases(k + 1, n, x, y);
      SfIsTail(k, n, x);
      SfIsTail(k, n, y);
      CdfIsTail(k, n, x);
      CdfIsTail(k, n, y);
    }
  }

  // Exactly one cell qualifies, so the definitions below name one number each.
  lemma LowCellUnique(k: int, n: int, target: real, s: nat, i: int, j: int)
    requires n >= 1 && LowCell(k, n, target, s, i) && LowCell(k, n, target, s, j)
    ensures i == j
  {
    if i < j {
      TailsOrdered(k, n, i + 1, j, s);
    } else if j < i {
      TailsOrdered(k, n, j + 1, i, s);
    }
  }

  lemma HighCellUnique(k: int, n: int, target: real, s: nat, i: int, j: int)
    requires n >= 1 && HighCell(k, n, target, s, i) && HighCell(k, n, target, s, j)
    ensures i == j
  {
    if i < j {
      TailsOrdered(k, n, i + 1, j, s);
    } else if j < i {
      TailsOrdered(k, n, j + 1, i, s);
    }
  }

  // ---- the two bounds ----

  ghost function Lower(k: int, n: int, alpha: real): real {
    if n <= 0 || k <= 0 then 0.0 else Point(2 * LowIndex(k, n, alpha / 2.0, STEPS) + 1, STEPS + 1)
  }

  ghost function Upper(k: int, n: int, alpha: real): real {
    if n <= 0 || k >= n then 1.0 else Point(2 * HighIndex(k, n, alpha / 2.0, STEPS) + 1, STEPS + 1)
  }

  // _cp_bounds
  method CpBounds(k: int, n: int, alpha: real) returns (lo: real, hi: real)
    ensures lo == Lower(k, n, alpha) && hi == Upper(k, n, alpha)
  {
    if n <= 0 {
      return 0.0, 1.0;
    }
    if k <= 0 {
      lo := 0.0;
    } else {
      lo := BisectLow(k, n, alpha / 2.0);
    }
    if k >= n {
      hi := 1.0;
    } else {
      hi := BisectHigh(k, n, alpha / 2.0);
    }
  }

  // The loop for the lower bound.
  method BisectLow(k: int, n: int, target: real) returns (lo: real)
    requires n >= 1
    ensures lo == Point(2 * LowIndex(k, n, target, STEPS) + 1, STEPS + 1)
  {
    var a, b := 0.0, 1.0;
    ghost var j := 0;
    PointEnds(0);
    for i := 0 to STEPS
      invariant a == Point(j, i) && b == Point(j + 1, i)
      invariant LowCell(k, n, target, i, j)
    {
      var m := (a + b) / 2.0;
      PointOrder(j, j, i);
      PointMiddle(j, i);
      LowCellStep(k, n, target, i, j);
      if Sf(k, n, m) < target {
        a, j := m, 2 * j + 1;
      } else {
        b, j := m, 2 * j;
      }
    }
    lo := (a + b) / 2.0;
    PointMiddle(j, STEPS);
    LowCellUnique(k, n, target, STEPS, j, LowIndex(k, n, target, STEPS));
  }

  // The loop for the upper bound.
  method BisectHigh(k: int, n: int, target: real) returns (hi: real)
    requires n >= 1
    ensures hi == Point(2 * HighIndex(k, n, target, STEPS) + 1, STEPS + 1)
  {
    var a, b := 0.0, 1.0;
    ghost var j := 0;
    PointEnds(0);
    for i := 0 to STEPS
      invariant a == Point(j, i) && b == Point(j + 1, i)
      invariant HighCell(k, n, target, i, j)
    {
      var m := (a + b) / 2.0;
      PointOrder(j, j, i);
      PointMiddle(j, i);
      HighCellStep(k, n, target, i, j);
      if Cdf(k, n, m) > target {
        a, j := m, 2 * j + 1;
      } else {
        b, j := m, 2 * j;
      }
    }
    hi := (a + b) / 2.0;
    PointMiddle(j, STEPS);
    HighCellUnique(k, n, target, STEPS, j, HighIndex(k, n, target, STEPS));
  }

  // ---- what the bounds bracket ----

  // Half of the width 2^-200 of the last bracket.
  ghost function HalfCell(): real {
    Point(1, STEPS + 1)
  }

  // Half a cell is 2^-201.
  lemma HalfCellIs()
    ensures HalfCell() * Pow2(201) as real == 1.0
  {
    PointScaled(1, 201);
  }

  // The lower bound is the middle of a bracket of width 2^-200 on which the upper tail passes alpha/2.
  lemma LowerBrackets(k: int, n: int, alpha: real)
    requires 1 <= k <= n && 0.0 < alpha <= 2.0
    ensures var lo, h := Lower(k, n, alpha), HalfCell();
      0.0 <= lo - h < lo + h <= 1.0 && Sf(k, n, lo - h) < alpha / 2.0 <= Sf(k, n, lo + h)
  {
    var j := LowIndex(k, n, alpha / 2.0, STEPS);
    PointMiddle(j, STEPS);
    PointOrder(2 * j, 2 * j + 1, STEPS + 1);
    PointOrder(2 * j + 1, 2 * j + 2, STEPS + 1);
    PointOrder(j, j + 1, STEPS);
    PointInUnit(j, STEPS);
    PointInUnit(j + 1, STEPS);
    PointEnds(STEPS);
    SfIsTail(k, n, 0.0);
    SfIsTail(k, n, 1.0);
    TailAtZero(k, n);
    TailAtOne(k, n);
  }

  lemma UpperBrackets(k: int, n: int, alpha: real)
    requires 0 <= k < n && 0.0 <= alpha < 2.0
    ensures var hi, h := Upper(k, n, alpha), HalfCell();
      0.0 <= hi - h < hi + h <= 1.0 && Cdf(k, n, hi + h) <= alpha / 2.0 < Cdf(k, n, hi - h)
  {
    var j := HighIndex(k, n, alpha / 2.0, STEPS);
    PointMiddle(j, STEPS);
    PointOrder(2 * j, 2 * j + 1, STEPS + 1);
    PointOrder(2 * j + 1, 2 * j + 2, STEPS + 1);
    PointOrder(j, j + 1, STEPS);
    PointInUnit(j, STEPS);
    PointInUnit(j + 1, STEPS);
    PointEnds(STEPS);
    CdfIsTail(k, n, 0.0);
    CdfIsTail(k, n, 1.0);
    TailAtZero(k + 1, n);
    TailAtOne(k + 1, n);
  }

  lemma BelowAtLeft(k: int, n: int, t: real, s: nat, i: int)
    requires 0 < k <= n && 0.0 < t && LowCell(k, n, t, s, i)
    ensures Tail(k, n, Point(i, s)) < t
  {
    SfIsTail(k, n, Point(i, s));
    PointEnds(s);
    TailAtZero(k, n);
  }

  lemma AboveAtRight(k: int, n: int, t: real, s: nat, j: int)
    requires 0 <= k < n && 0.0 <= t && HighCell(k, n, t, s, j)
    ensures 1.0 - t <= Tail(k + 1, n, Point(j + 1, s)) <= Tail(k, n, Point(j + 1, s))
  {
    CdfIsTail(k, n, Point(j + 1, s));
    PointEnds(s);
    TailAtOne(k + 1, n);
    PointInUnit(j + 1, s);
    TailBounds(k, n, Point(j + 1, s));
  }

  // The two crossings are in order, and close together only where the tails are very steep.
  lemma CrossingsInOrder(k: int, n: int, t: real, s: nat, i: int, j: int)
    requires 0 < k < n && 0.0 < t < 0.5 && LowCell(k, n, t, s, i) && HighCell(k, n, t, s, j)
    ensures i <= j
    ensures i == j ==> 1.0 - 2.0 * t < Steps(n, Point(1, s))
  {
    BelowAtLeft(k, n, t, s, i);
    AboveAtRight(k, n, t, s, j);
    if j < i {
      SfIsTail(k, n, Point(i, s));
      SfIsTail(k, n, Point(j + 1, s));
      TailsOrdered(k, n, j + 1, i, s);
      assert false;
    }
    if i == j {
      PointInUnit(i, s);
      PointInUnit(i + 1, s);
      PointOrder(i, i + 1, s);
      assert i + 1 - i == 1;
      TailSlope(k, n, Point(i, s), Point(i + 1, s));
    }
  }

  // The bounds lie in [0, 1] and in order. They are distinct as long as n * 2^-200 <= 1 - alpha.
  lemma BoundsOrdered(k: int, n: int, alpha: real)
    requires n >= 1 && 0 <= k <= n && 0.0 < alpha < 1.0
    ensures 0.0 <= Lower(k, n, alpha) <= Upper(k, n, alpha) <= 1.0
    ensures k == 0 || k == n || n as real * Point(1, STEPS) <= 1.0 - alpha ==> Lower(k, n, alpha) < Upper(k, n, alpha)
  {
    PointOrder(0, 1, STEPS + 1);
    PointEnds(STEPS + 1);
    if k > 0 {
      LowerBrackets(k, n, alpha);
    }
    if k < n {
      UpperBrackets(k, n, alpha);
    }
    if 0 < k < n {
      var i, j := LowIndex(k, n, alpha / 2.0, STEPS), HighIndex(k, n, alpha / 2.0, STEPS);
      CrossingsInOrder(k, n, alpha / 2.0, STEPS, i, j);
      StepsIsProduct(n, Point(1, STEPS));
      PointOrder(2 * i + 1, 2 * j + 1, STEPS + 1);
    }
  }

  // ---- where the strict order stops ----

  // The bounds are distinct exactly when some interior grid point passes both one-sided tests.
  lemma BoundsDistinctIff(k: int, n: int, alpha: real)
    requires 0 < k < n
    ensures Lower(k, n, alpha) < Upper(k, n, alpha) <==> SomeGridPointAdmitted(k, n, alpha / 2.0, STEPS)
  {
    var t, s := alpha / 2.0, STEPS;
    var i, h := LowIndex(k, n, t, s), HighIndex(k, n, t, s);
    PointOrder(2 * i + 1, 2 * h + 1, s + 1);
    if i < h {
      TailsOrdered(k, n, i + 1, h, s);
      assert AdmittedByBoth(k, n, t, s, i + 1);
    }
    if SomeGridPointAdmitted(k, n, t, s) {
      var j :| 0 < j < Pow2(s) && AdmittedByBoth(k, n, t, s, j);
      AdmittedLies(k, n, t, s, i, h, j);
    }
  }

  // Neither tail test rejects the grid point j.
  ghost predicate AdmittedByBoth(k: int, n: int, target: real, s: nat, j: int) {
    target <= Sf(k, n, Point(j, s)) && target < Cdf(k, n, Point(j, s))
  }

  ghost predicate SomeGridPointAdmitted(k: int, n: int, target: real, s: nat) {
    exists j :: 0 < j < Pow2(s) && AdmittedByBoth(k, n, target, s, j)
  }

  lemma AdmittedLies(k: int, n: int, target: real, s: nat, i: int, h: int, j: int)
    requires n >= 1 && LowCell(k, n, target, s, i) && HighCell(k, n, target, s, h)
    requires 0 < j < Pow2(s) && AdmittedByBoth(k, n, target, s, j)
    ensures i < j <= h
  {
    if j <= i {
      TailsOrdered(k, n, j, i, s);
    }
    if h < j {
      TailsOrdered(k, n, h + 1, j, s);
    }
  }

  lemma {:induction false} TailGrowsWithTrials(a: nat, b: nat, p: real)
    requires 0.0 <= p <= 1.0
    ensures Tail(1, b, p) <= Tail(1, a + b, p)
    decreases a
  {
    if a > 0 {
      TailGrowsWithTrials(a - 1, b, p);
      TailBounds(0, a - 1 + b, p);
      MixOrder(p, Tail(1, a - 1 + b, p), Tail(1, a - 1 + b, p), 1.0, Tail(1, a - 1 + b, p));
      MixSame(p, Tail(1, a - 1 + b, p));
    }
  }

  lemma MixTimes(p: real, x: real, y: real, f: real)
    ensures Mix(p, x * f, y * f) == Mix(p, x, y) * f
  {
  }

  lemma TwoSuccessStep(p: real, x: real, f: real, u: real, v: real)
    requires 0.0 <= p <= 1.0 && f <= u && x * f <= v
    ensures Mix(p, 1.0, x) * f <= Mix(p, u, v)
  {
    MixTimes(p, 1.0, x, f);
    MixOrder(p, f, x * f, u, v);
  }

  // A success among the first a trials and one among the other b make two.
  ghost predicate TwoFromEachHalf(a: nat, b: nat, p: real) {
    Tail(1, a, p) * Tail(1, b, p) <= Tail(2, a + b, p)
  }

  lemma {:induction false} OneAndOne(a: nat, b: nat, p: real)
    requires 0.0 <= p <= 1.0
    ensures TwoFromEachHalf(a, b, p)
    decreases a
  {
    if a == 0 {
      TailBounds(1, b, p);
      NothingTimes(Tail(1, 0, p), Tail(1, b, p));
    } else {
      OneAndOne(a - 1, b, p);
      TailGrowsWithTrials(a - 1, b, p);
      var m := a - 1 + b;
      TwoSuccessStep(p, Tail(1, a - 1, p), Tail(1, b, p), Tail(1, m, p), Tail(2, m, p));
    }
  }

  lemma NothingTimes(x: real, y: real)
    requires x == 0.0
    ensures x * y == 0.0
  {
  }

  lemma FailStep(p: real, u: real, w: real, slack: real)
    requires 0.0 <= p <= 1.0 && 0.0 <= u && w >= 0.0 && slack == u * (1.0 + w * p) <= 1.0
    ensures ((1.0 - p) * u) * (1.0 + (w + 1.0) * p) <= 1.0
  {
    var q := (w + 1.0) * (p * p);
    Product(w + 1.0, p * p);
    Product(u, q);
    assert (1.0 - p) * (1.0 + (w + 1.0) * p) == (1.0 + w * p) - q;
    calc {
      ((1.0 - p) * u) * (1.0 + (w + 1.0) * p);
      u * ((1.0 - p) * (1.0 + (w + 1.0) * p));
      u * ((1.0 + w * p) - q);
      u * (1.0 + w * p) - u * q;
    }
  }

  lemma AllFailStep(p: real, x: real, w: real)
    requires 0.0 <= p <= 1.0 && x <= 1.0 && w >= 0.0 && Slack(x, w, p) <= 1.0
    ensures Slack(Mix(p, 1.0, x), w + 1.0, p) <= 1.0
  {
    var u, y := 1.0 - x, Mix(p, 1.0, x);
    FailStep(p, u, w, Slack(x, w, p));
    FailureProduct(p, x);
    assert Slack(y, w + 1.0, p) == ((1.0 - p) * u) * (1.0 + (w + 1.0) * p);
  }

  // The chance that all of w trials fail, times 1 + w p.
  function Slack(x: real, w: real, p: real): real {
    (1.0 - x) * (1.0 + w * p)
  }

  // (1 - p)^a <= 1 / (1 + a p)
  lemma {:induction false} AllFail(a: nat, p: real)
    requires 0.0 <= p <= 1.0
    ensures Slack(Tail(1, a, p), a as real, p) <= 1.0
  {
    if a > 0 {
      AllFail(a - 1, p);
      TailBounds(1, a - 1, p);
      var x := Tail(1, a - 1, p);
      AllFailStep(p, x, (a - 1) as real);
      assert Tail(1, a, p) == Mix(p, 1.0, x);
      assert a as real == (a - 1) as real + 1.0;
    }
  }

  lemma FailureProduct(p: real, x: real)
    ensures 1.0 - Mix(p, 1.0, x) == (1.0 - p) * (1.0 - x)
  {
  }

  lemma SquareOf79(x: real)
    requires (1.0 - x) * 80.0 <= 1.0
    ensures x * x >= 39.0 / 40.0
  {
    var y := x - 79.0 / 80.0;
    Product(y, y);
    assert x * x == y * y + (79.0 / 40.0) * y + (79.0 / 80.0) * (79.0 / 80.0);
  }

  lemma TwoSuccessesNearlySure(s: nat, a: nat)
    requires a == 79 * Pow2(s)
    ensures Tail(2, a + a, Point(1, s)) >= 39.0 / 40.0
  {
    var w := Point(1, s);
    PowPositive(s);
    PointInUnit(1, s);
    AllFail(a, w);
    PointScaled(1, s);
    ManyCells(a as real, Pow2(s) as real, w);
    SlackOf79(Tail(1, a, w), a as real, w);
    OneAndOne(a, a, w);
    assert TwoFromEachHalf(a, a, w);
  }

  // One success in 158 * 2^200 trials: both crossings fall in the first cell, and the two bounds that
  // 200 halvings return are the same number.
  lemma BoundsMeetForHugeN(n: nat)
    requires n == 158 * Pow2(STEPS)
    ensures Lower(1, n, 1.0 / 20.0) == Upper(1, n, 1.0 / 20.0)
  {
    PowPositive(STEPS);
    TwoSuccessesNearlySure(STEPS, 79 * Pow2(STEPS));
    FirstCellTakesBoth(n, Point(1, STEPS), STEPS);
  }

  lemma ManyCells(a: real, m: real, w: real)
    requires a == 79.0 * m && w * m == 1.0
    ensures a * w == 79.0
  {
  }

  lemma SlackOf79(x: real, a: real, w: real)
    requires a * w == 79.0 && Slack(x, a, w) <= 1.0
    ensures x * x >= 39.0 / 40.0
  {
    assert Slack(x, a, w) == (1.0 - x) * 80.0;
    SquareOf79(x);
  }

  lemma FirstCellTakesBoth(n: nat, w: real, s: nat)
    requires n >= 2 && s == STEPS && w == Point(1, s) && Tail(2, n, w) >= 39.0 / 40.0
    ensures Lower(1, n, 1.0 / 20.0) == Upper(1, n, 1.0 / 20.0)
  {
    PowPositive(s);
    PointInUnit(1, s);
    SfIsTail(1, n, w);
    CdfIsTail(1, n, w);
    TailBounds(1, n, w);
    assert LowCell(1, n, 1.0 / 40.0, s, 0) && HighCell(1, n, 1.0 / 40.0, s, 0);
    LowCellUnique(1, n, 1.0 / 40.0, s, 0, LowIndex(1, n, 1.0 / 40.0, s));
    HighCellUnique(1, n, 1.0 / 40.0, s, 0, HighIndex(1, n, 1.0 / 40.0, s));
  }

  // ---- symmetry of the interval ----

  // Some interior grid point meets the target exactly.
  ghost predicate Tie(k: int, n: int, target: real, s: nat) {
    exists j :: 0 < j < Pow2(s) && Sf(k, n, Point(j, s)) == target
  }

  lemma PointComplement(j: int, s: nat)
    ensures Point(Pow2(s) - j, s) == 1.0 - Point(j, s)
  {
    PointOrder(j, Pow2(s), s);
    PointEnds(s);
  }

  // Exchanging successes and failures mirrors the interval exactly when the upper tail meets alpha/2
  // at no grid point: the two loops resolve a tie towards the same side, not towards mirrored sides.
  lemma MirrorExactlyWithoutTie(k: int, n: int, alpha: real)
    requires 1 <= k <= n && 0.0 < alpha < 2.0
    ensures Lower(k, n, alpha) == 1.0 - Upper(n - k, n, alpha) <==> !Tie(k, n, alpha / 2.0, STEPS)
  {
    var t, s := alpha / 2.0, STEPS;
    var i, h := LowIndex(k, n, t, s), HighIndex(n - k, n, t, s);
    var j := Pow2(s) - 1 - h;
    PointComplement(h, s);
    PointComplement(h + 1, s);
    SfMirrorsCdf(k, n, Point(j, s));
    SfMirrorsCdf(k, n, Point(j + 1, s));
    assert j == 0 || Sf(k, n, Point(j, s)) <= t;
    assert j + 1 == Pow2(s) || t < Sf(k, n, Point(j + 1, s));
    MidpointsMirror(i, h, s);
    if Tie(k, n, t, s) {
      if i == j {
        TieBreaks(k, n, t, s, j);
        assert false;
      }
    } else {
      assert LowCell(k, n, t, s, j);
      LowCellUnique(k, n, t, s, i, j);
    }
  }

  // For one, a single trial that succeeds, at alpha = 1/2: the upper tail at p is p, and 1/4 is the grid
  // point 2^198.
  lemma OneTrialTies()
    ensures Tie(1, 1, 1.0 / 4.0, STEPS)
    ensures Lower(1, 1, 1.0 / 2.0) != 1.0 - Upper(0, 1, 1.0 / 2.0)
  {
    var j := Pow2(STEPS - 2);
    PowPositive(STEPS - 2);
    PointScaled(j, STEPS);
    assert Pow2(STEPS) == 2 * Pow2(STEPS - 1) == 4 * j;
    QuarterOf(Point(j, STEPS), j as real, Pow2(STEPS) as real);
    OneTrial(Point(j, STEPS));
    assert Sf(1, 1, Point(j, STEPS)) == 1.0 / 4.0;
    MirrorExactlyWithoutTie(1, 1, 1.0 / 2.0);
  }

  lemma QuarterOf(x: real, j: real, m: real)
    requires x * m == j && m == 4.0 * j && j > 0.0
    ensures x == 1.0 / 4.0
  {
    assert (4.0 * x - 1.0) * j == 0.0;
  }

  lemma OneTrial(p: real)
    ensures Sf(1, 1, p) == p
  {
    SfIsTail(1, 1, p);
  }

  // At a tie the cell just below it is not the one whose tails are mirrored.
  lemma TieBreaks(k: int, n: int, t: real, s: nat, j: int)
    requires 1 <= k <= n && Tie(k, n, t, s) && 0 <= j < Pow2(s)
    ensures (j > 0 && t <= Sf(k, n, Point(j, s))) || (j + 1 < Pow2(s) && Sf(k, n, Point(j + 1, s)) <= t)
  {
    var q :| 0 < q < Pow2(s) && Sf(k, n, Point(q, s)) == t;
    if q <= j {
      TailsOrdered(k, n, q, j, s);
    } else {
      TailsOrdered(k, n, j + 1, q, s);
    }
  }

  lemma MidpointsMirror(i: int, h: int, s: nat)
    ensures Point(2 * i + 1, s + 1) == 1.0 - Point(2 * h + 1, s + 1) <==> i == Pow2(s) - 1 - h
  {
    PointComplement(2 * h + 1, s + 1);
    PointOrder(2 * i + 1, Pow2(s + 1) - (2 * h + 1), s + 1);
  }

  lemma {:induction false} PowNotMultipleOfFive(s: nat)
    ensures Pow2(s) % 5 != 0
  {
    if s > 0 {
      PowNotMultipleOfFive(s - 1);
    }
  }

  // Every grid point is dyadic and 1/40 is not, so at alpha = 1/20 there is no tie.
  lemma NoTieAtOneTwentieth(k: int, n: int, s: nat)
    requires n >= 1
    ensures !Tie(k, n, 1.0 / 40.0, s)
  {
    forall j | 0 < j < Pow2(s)
      ensures Sf(k, n, Point(j, s)) != 1.0 / 40.0
    {
      GridTailMisses(k, n, j, s);
    }
  }

  lemma GridTailMisses(k: int, n: int, j: int, s: nat)
    requires n >= 1
    ensures Sf(k, n, Point(j, s)) != 1.0 / 40.0
  {
    var p := Point(j, s);
    PointScaled(j, s);
    PowNotMultipleOfFive(s);
    SfIsTail(k, n, p);
    TailMissesOneFortieth(k, n, p, j, Pow2(s));
  }

  lemma MirrorAtOneTwentieth(k: int, n: int)
    requires 0 <= k <= n && n >= 1
    ensures Lower(k, n, 1.0 / 20.0) == 1.0 - Upper(n - k, n, 1.0 / 20.0)
  {
    if k >= 1 {
      NoTieAtOneTwentieth(k, n, STEPS);
      MirrorExactlyWithoutTie(k, n, 1.0 / 20.0);
    }
  }
}
