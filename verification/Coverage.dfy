// What the exact test and interval promise about repeated sampling: weights of sets of outcomes
// under Binomial(n, p).
module Coverage {
  import opened Average
  import opened Binomial
  import opened ClopperPearson
  import opened Median

  // The Binomial(n, p) weight of the outcomes lo <= k < hi picked by `hit`.
  ghost function Weight(n: nat, p: real, hit: int -> bool, lo: nat, hi: nat): real
    decreases hi - lo
  {
    if lo >= hi then 0.0 else (if hit(lo) then Term(n, lo, p) else 0.0) + Weight(n, p, hit, lo + 1, hi)
  }

  lemma TermNonNegative(n: nat, k: nat, p: real)
    requires 0.0 <= p <= 1.0
    ensures Term(n, k, p) >= 0.0
  {
    if k <= n {
      TermIsTailStep(n, k, p);
      TailBounds(k, n, p);
    }
  }

  lemma {:induction false} WeightMonotone(n: nat, p: real, f: int -> bool, g: int -> bool, h: int -> bool, lo: nat, hi: nat)
    requires 0.0 <= p <= 1.0
    requires forall k :: lo <= k < hi && f(k) ==> g(k) || h(k)
    ensures 0.0 <= Weight(n, p, f, lo, hi) <= Weight(n, p, g, lo, hi) + Weight(n, p, h, lo, hi)
    decreases hi - lo
  {
    if lo < hi {
      WeightMonotone(n, p, f, g, h, lo + 1, hi);
      TermNonNegative(n, lo, p);
    }
  }

  lemma {:induction false} WeightAtMostSum(n: nat, p: real, hit: int -> bool, lo: nat, hi: nat)
    requires 0.0 <= p <= 1.0 && lo <= hi <= n + 1
    ensures 0.0 <= Weight(n, p, hit, lo, hi) <= Tail(lo, n, p) - Tail(hi, n, p)
    decreases hi - lo
  {
    if lo < hi {
      WeightAtMostSum(n, p, hit, lo + 1, hi);
      TermIsTailStep(n, lo, p);
      TailBounds(lo, n, p);
    }
  }

  // Outcomes whose own upper tail is at most t weigh at most t together.
  lemma {:induction false} UpperTailsSmall(n: nat, p: real, hit: int -> bool, t: real, lo: nat)
    requires 0.0 <= p <= 1.0 && 0.0 <= t && lo <= n + 1
    requires forall k :: lo <= k <= n && hit(k) ==> Tail(k, n, p) <= t
    ensures Weight(n, p, hit, lo, n + 1) <= t
    decreases n + 1 - lo
  {
    if lo <= n {
      if hit(lo) {
        WeightAtMostSum(n, p, hit, lo, n + 1);
        TailAboveIsZero(n + 1, n, p);
      } else {
        UpperTailsSmall(n, p, hit, t, lo + 1);
      }
    }
  }

  lemma {:induction false} WeightSnoc(n: nat, p: real, hit: int -> bool, lo: nat, hi: nat)
    requires lo <= hi
    ensures Weight(n, p, hit, lo, hi + 1) == Weight(n, p, hit, lo, hi) + if hit(hi) then Term(n, hi, p) else 0.0
    decreases hi - lo
  {
    if lo < hi {
      WeightSnoc(n, p, hit, lo + 1, hi);
    } else {
      assert Weight(n, p, hit, lo + 1, hi + 1) == 0.0;
    }
  }

  // Outcomes whose own lower tail is at most t weigh at most t together.
  lemma {:induction false} LowerTailsSmall(n: nat, p: real, hit: int -> bool, t: real, hi: nat)
    requires 0.0 <= p <= 1.0 && 0.0 <= t && hi <= n + 1
    requires forall k :: 0 <= k < hi && hit(k) ==> 1.0 - Tail(k + 1, n, p) <= t
    ensures Weight(n, p, hit, 0, hi) <= t
    decreases hi
  {
    if hi > 0 {
      if hit(hi - 1) {
        WeightAtMostSum(n, p, hit, 0, hi);
      } else {
        WeightSnoc(n, p, hit, 0, hi - 1);
        LowerTailsSmall(n, p, hit, t, hi - 1);
      }
    }
  }

  // ---- the interval ----

  ghost predicate MissesAbove(k: int, n: int, alpha: real, p: real) {
    p < Lower(k, n, alpha) - HalfCell()
  }

  ghost predicate MissesBelow(k: int, n: int, alpha: real, p: real) {
    Upper(k, n, alpha) + HalfCell() < p
  }

  lemma MissAboveIsRare(k: int, n: int, alpha: real, p: real)
    requires 0 <= k <= n && n >= 1 && 0.0 < alpha < 1.0 && 0.0 <= p <= 1.0
    requires MissesAbove(k, n, alpha, p)
    ensures Tail(k, n, p) <= alpha / 2.0
  {
    PointOrder(0, 1, STEPS + 1);
    PointEnds(STEPS + 1);
    LowerBrackets(k, n, alpha);
    var left := Lower(k, n, alpha) - HalfCell();
    SfIsTail(k, n, left);
    TailIncreases(k, n, p, left);
  }

  lemma MissBelowIsRare(k: int, n: int, alpha: real, p: real)
    requires 0 <= k <= n && n >= 1 && 0.0 < alpha < 1.0 && 0.0 <= p <= 1.0
    requires MissesBelow(k, n, alpha, p)
    ensures 1.0 - Tail(k + 1, n, p) <= alpha / 2.0
  {
    PointOrder(0, 1, STEPS + 1);
    PointEnds(STEPS + 1);
    UpperBrackets(k, n, alpha);
    var right := Upper(k, n, alpha) + HalfCell();
    CdfIsTail(k, n, right);
    TailIncreases(k + 1, n, right, p);
  }

  // Outcomes whose interval, widened by half a cell of the grid, leaves p out weigh at most alpha.
  lemma MissesAreRare(n: nat, alpha: real, p: real, miss: int -> bool)
    requires n >= 1 && 0.0 < alpha < 1.0 && 0.0 <= p <= 1.0
    requires forall k :: 0 <= k <= n && miss(k) ==> MissesAbove(k, n, alpha, p) || MissesBelow(k, n, alpha, p)
    ensures Weight(n, p, miss, 0, n + 1) <= alpha
  {
    var above := k => MissesAbove(k, n, alpha, p);
    var below := k => MissesBelow(k, n, alpha, p);
    forall k | 0 <= k <= n && above(k)
      ensures Tail(k, n, p) <= alpha / 2.0
    {
      MissAboveIsRare(k, n, alpha, p);
    }
    forall k | 0 <= k < n + 1 && below(k)
      ensures 1.0 - Tail(k + 1, n, p) <= alpha / 2.0
    {
      MissBelowIsRare(k, n, alpha, p);
    }
    UpperTailsSmall(n, p, above, alpha / 2.0, 0);
    LowerTailsSmall(n, p, below, alpha / 2.0, n + 1);
    WeightMonotone(n, p, miss, above, below, 0, n + 1);
  }

  // Coverage: whatever the true p, the outcomes whose interval - widened by 2^-201, half a cell of the
  // bisection grid, on each side - leaves p out weigh at most alpha.
  lemma IntervalCovers(n: nat, alpha: real, p: real)
    requires n >= 1 && 0.0 < alpha < 1.0 && 0.0 <= p <= 1.0
    ensures Weight(n, p, k => MissesAbove(k, n, alpha, p) || MissesBelow(k, n, alpha, p), 0, n + 1) <= alpha
  {
    MissesAreRare(n, alpha, p, k => MissesAbove(k, n, alpha, p) || MissesBelow(k, n, alpha, p));
  }

  // ---- the observed share ----

  // Neither tail at the observed share is below 1/2.
  lemma TailsAtShare(k: nat, n: nat, s: real)
    requires k <= n && n >= 1 && 0.0 <= s <= 1.0 && s * n as real == k as real
    ensures Tail(k, n, s) >= 0.5 && 1.0 - Tail(k + 1, n, s) >= 0.5
  {
    MeanIsMedian(k, n, s);
    assert (1.0 - s) * n as real == (n - k) as real;
    MeanIsMedian(n - k, n, 1.0 - s);
    TailMirror(k + 1, n, s);
  }

  // A tail that rises by some way of its own between two points needs some way for it.
  lemma RiseNeedsWay(k: int, n: nat, rise: real, p: real, q: real)
    requires 0.0 <= p <= 1.0 && 0.0 <= q <= 1.0 && Tail(k, n, q) >= Tail(k, n, p) + rise && rise > 0.0
    ensures p < q && Steps(n, q - p) >= rise
  {
    RiseIsForward(k, n, p, q);
    TailSlope(k, n, p, q);
  }

  lemma RiseIsForward(k: int, n: nat, p: real, q: real)
    requires 0.0 <= p <= 1.0 && 0.0 <= q <= 1.0 && Tail(k, n, q) > Tail(k, n, p)
    ensures p < q
  {
    if q < p {
      TailIncreases(k, n, q, p);
    }
  }

  // n cells of the grid together are at most 1 - alpha.
  ghost predicate SmallCells(n: nat, alpha: real) {
    Steps(n, Point(1, STEPS)) <= 1.0 - alpha
  }

  lemma LowerUnderShare(k: nat, n: nat, alpha: real, s: real)
    requires k <= n && n >= 1 && 0.0 < alpha < 1.0 && 0.0 <= s <= 1.0 && s * n as real == k as real
    ensures Lower(k, n, alpha) - HalfCell() <= s
    ensures SmallCells(n, alpha) ==> Lower(k, n, alpha) <= s
  {
    PointOrder(0, 1, STEPS + 1);
    PointEnds(STEPS + 1);
    if k >= 1 {
      var left := Lower(k, n, alpha) - HalfCell();
      LowerBrackets(k, n, alpha);
      SfIsTail(k, n, left);
      TailsAtShare(k, n, s);
      RiseNeedsWay(k, n, 0.5 - alpha / 2.0, left, s);
      WithinHalfCell(n, alpha, s - left);
    }
  }

  lemma UpperOverShare(k: nat, n: nat, alpha: real, s: real)
    requires k <= n && n >= 1 && 0.0 < alpha < 1.0 && 0.0 <= s <= 1.0 && s * n as real == k as real
    ensures s <= Upper(k, n, alpha) + HalfCell()
    ensures SmallCells(n, alpha) ==> s <= Upper(k, n, alpha)
  {
    PointOrder(0, 1, STEPS + 1);
    PointEnds(STEPS + 1);
    if k < n {
      var right := Upper(k, n, alpha) + HalfCell();
      UpperBrackets(k, n, alpha);
      CdfIsTail(k, n, right);
      TailsAtShare(k, n, s);
      RiseNeedsWay(k + 1, n, 0.5 - alpha / 2.0, s, right);
      WithinHalfCell(n, alpha, right - s);
    }
  }

  // With cells this small the way is at least half a cell.
  lemma WithinHalfCell(n: nat, alpha: real, way: real)
    requires n >= 1 && alpha < 1.0 && Steps(n, way) >= 0.5 - alpha / 2.0
    ensures SmallCells(n, alpha) ==> way >= HalfCell()
  {
    PointOrder(1, 1, STEPS);
    PointOrder(1, 2, STEPS + 1);
    assert Point(1, STEPS) == Point(2, STEPS + 1);
    StepsIsProduct(n, way);
    StepsIsProduct(n, Point(1, STEPS));
    HalvesOf(n as real, way, HalfCell(), Point(1, STEPS), 1.0 - alpha);
  }

  lemma HalvesOf(n: real, way: real, half: real, cell: real, rest: real)
    requires n > 0.0 && cell == 2.0 * half && 2.0 * (n * way) >= rest
    ensures n * cell <= rest ==> way >= half
  {
    assert n * cell == 2.0 * (n * half);
    if way < half {
      Smaller(way, half, n);
    }
  }

  // The grid cell in which s lies.
  ghost predicate InCell(s: real, g: int) {
    0 <= g < Pow2(STEPS) && Point(g, STEPS) <= s < Point(g + 1, STEPS)
  }

  // Every share below 1 lies in one.
  lemma SomeCell(s: real) returns (g: int)
    requires 0.0 <= s < 1.0
    ensures InCell(s, g)
  {
    var q := s * Pow2(STEPS) as real;
    g := q.Floor;
    PowPositive(STEPS);
    PointScaled(g, STEPS);
    PointScaled(g + 1, STEPS);
    Scale(s, Pow2(STEPS), q, Point(g, STEPS), Point(g + 1, STEPS), g);
  }

  lemma Scale(s: real, m: int, q: real, x: real, y: real, g: int)
    requires 0.0 <= s < 1.0 && m > 0 && q == s * m as real && g as real <= q < (g + 1) as real
    requires x * m as real == g as real && y * m as real == (g + 1) as real
    ensures 0 <= g < m && x <= s < y
  {
    ScaleReals(s, m as real, q, x, y, g as real);
  }

  lemma ScaleReals(s: real, f: real, q: real, x: real, y: real, g: real)
    requires 0.0 <= s < 1.0 && f > 0.0 && q == s * f && g <= q < g + 1.0 && x * f == g && y * f == g + 1.0
    ensures 0.0 <= q < f && x <= s < y
  {
    var one := 1.0;
    Product(s, f);
    Smaller(s, one, f);
    Divide(s, x, f);
    if s >= y {
      Larger(s, y, f);
    }
  }

  // The lower bound is at most the observed share exactly when the grid point before the share already
  // passes the upper tail test, or the share lies in the upper half of its cell.
  ghost predicate LowerReaches(k: int, n: int, alpha: real, s: real, g: int) {
    (g > 0 && Sf(k, n, Point(g, STEPS)) >= alpha / 2.0) || Point(2 * g + 1, STEPS + 1) <= s
  }

  lemma LowerReachesIff(k: nat, n: nat, alpha: real, s: real, g: int)
    requires 1 <= k < n && 0.0 < alpha < 1.0 && 0.0 <= s <= 1.0 && s * n as real == k as real && InCell(s, g)
    ensures Lower(k, n, alpha) <= s <==> LowerReaches(k, n, alpha, s, g)
  {
    var j := LowIndex(k, n, alpha / 2.0, STEPS);
    UpperTailAfterShare(k, n, s, g);
    if g > 0 && Sf(k, n, Point(g, STEPS)) >= alpha / 2.0 {
      if g <= j {
        TailsOrdered(k, n, g, j, STEPS);
      }
      HalfPointOrder(j, g);
    } else {
      if j < g {
        TailsOrdered(k, n, j + 1, g, STEPS);
      } else if j > g {
        TailsOrdered(k, n, g + 1, j, STEPS);
      }
    }
  }

  // and the upper bound at least the share exactly when the grid point after it passes the lower tail
  // test, or the share lies in the lower half of its cell.
  ghost predicate UpperReaches(k: int, n: int, alpha: real, s: real, g: int) {
    (g + 1 < Pow2(STEPS) && Cdf(k, n, Point(g + 1, STEPS)) > alpha / 2.0) || s <= Point(2 * g + 1, STEPS + 1)
  }

  lemma UpperReachesIff(k: nat, n: nat, alpha: real, s: real, g: int)
    requires 1 <= k < n && 0.0 < alpha < 1.0 && 0.0 <= s <= 1.0 && s * n as real == k as real && InCell(s, g)
    ensures s <= Upper(k, n, alpha) <==> UpperReaches(k, n, alpha, s, g)
  {
    var j := HighIndex(k, n, alpha / 2.0, STEPS);
    LowerTailBeforeShare(k, n, s, g);
    if g + 1 < Pow2(STEPS) && Cdf(k, n, Point(g + 1, STEPS)) > alpha / 2.0 {
      if j <= g {
        TailsOrdered(k, n, j + 1, g + 1, STEPS);
      }
      HalfPointOrder(g, j);
    } else {
      if j < g {
        TailsOrdered(k, n, j + 1, g, STEPS);
      } else if j > g {
        TailsOrdered(k, n, g + 1, j, STEPS);
      }
    }
  }

  // The middle of an earlier cell lies before a later cell, and that before its middle.
  lemma HalfPointOrder(i: int, j: int)
    requires i < j
    ensures Point(2 * i + 1, STEPS + 1) < Point(j, STEPS) && Point(i + 1, STEPS) < Point(2 * j + 1, STEPS + 1)
  {
    PointMiddle(i, STEPS);
    PointMiddle(j, STEPS);
    PointOrder(j, j, STEPS);
    PointOrder(i + 1, i + 1, STEPS);
    PointOrder(2 * i + 1, 2 * j, STEPS + 1);
    PointOrder(2 * (i + 1), 2 * j + 1, STEPS + 1);
  }

  lemma UpperTailAfterShare(k: nat, n: nat, s: real, g: int)
    requires 1 <= k < n && 0.0 <= s <= 1.0 && s * n as real == k as real && InCell(s, g)
    ensures Sf(k, n, Point(g + 1, STEPS)) >= 0.5
  {
    PointInUnit(g + 1, STEPS);
    TailsAtShare(k, n, s);
    TailIncreases(k, n, s, Point(g + 1, STEPS));
    SfIsTail(k, n, Point(g + 1, STEPS));
  }

  lemma LowerTailBeforeShare(k: nat, n: nat, s: real, g: int)
    requires 1 <= k < n && 0.0 <= s <= 1.0 && s * n as real == k as real && InCell(s, g)
    ensures Cdf(k, n, Point(g, STEPS)) >= 0.5
  {
    PointInUnit(g, STEPS);
    TailsAtShare(k, n, s);
    CdfIsTail(k, n, Point(g, STEPS));
    if Point(g, STEPS) < s {
      TailIncreases(k + 1, n, Point(g, STEPS), s);
    }
  }

  // ---- the test ----

  function Max(b: int, c: int): int {
    if b >= c then b else c
  }

  // The two-sided exact p-value of b + c discordant pairs, at least one of them.
  function PValue(b: nat, c: nat): real {
    var twice := 2.0 * Sf(Max(b, c), b + c, 0.5);
    if twice < 1.0 then twice else 1.0
  }

  // At p = 1/2 the tail passes one half exactly at the centre.
  lemma HalfAtCentre(k: int, d: nat)
    requires 0 <= k <= d
    ensures Tail(k, d, 0.5) >= 0.5 <==> 2 * k <= d + 1
  {
    TailMirror(k, d, 0.5);
    if 2 * k <= d + 1 {
      TailAntitone(k, d - k + 1, d, 0.5);
    } else {
      TailStrictStep(d - k + 1, d, 0.5);
      TailAntitone(d - k + 2, k, d, 0.5);
    }
  }

  // The p-value is 1 exactly for a split as even as possible.
  lemma PValueIsOneIffEven(b: nat, c: nat)
    requires b + c >= 1
    ensures 0.0 < PValue(b, c) <= 1.0
    ensures PValue(b, c) == 1.0 <==> -1 <= b - c <= 1
  {
    var k, d := Max(b, c), b + c;
    SfIsTail(k, d, 0.5);
    HalfAtCentre(k, d);
    TailStrictStep(k, d, 0.5);
    TailBounds(k + 1, d, 0.5);
  }

  lemma SmallPValue(b: nat, c: nat, t: real)
    requires b + c >= 1 && t < 1.0 && PValue(b, c) <= t
    ensures b > c ==> Tail(b, b + c, 0.5) <= t / 2.0
    ensures b <= c ==> 1.0 - Tail(b + 1, b + c, 0.5) <= t / 2.0
  {
    SfIsTail(Max(b, c), b + c, 0.5);
    TailMirror(c, b + c, 0.5);
  }

  // Size: under the null, splits of d discordant pairs with a reported p-value of at most t weigh at
  // most t, for every t.
  lemma TestHasItsSize(d: nat, t: real)
    requires d >= 1 && 0.0 <= t <= 1.0
    ensures Weight(d, 0.5, b => 0 <= b <= d && PValue(b, d - b) <= t, 0, d + 1) <= t
  {
    var hit := b => 0 <= b <= d && PValue(b, d - b) <= t;
    if t == 1.0 {
      WeightAtMostSum(d, 0.5, hit, 0, d + 1);
      TailAboveIsZero(d + 1, d, 0.5);
    } else {
      var high := (b: int) => hit(b) && b > d - b;
      var low := (b: int) => hit(b) && b <= d - b;
      forall b: nat | b <= d && hit(b)
        ensures high(b) ==> Tail(b, d, 0.5) <= t / 2.0
        ensures low(b) ==> 1.0 - Tail(b + 1, d, 0.5) <= t / 2.0
      {
        SmallPValue(b, d - b, t);
      }
      UpperTailsSmall(d, 0.5, high, t / 2.0, 0);
      LowerTailsSmall(d, 0.5, low, t / 2.0, d + 1);
      WeightMonotone(d, 0.5, hit, high, low, 0, d + 1);
    }
  }
}
