// Arithmetic of weighted averages. Each fact is over plain variables, so that the proofs about tail
// sums only have to name the instance they use.
module Average {

  // The value x with weight p and y with weight 1 - p.
  function Mix(p: real, x: real, y: real): real {
    p * x + (1.0 - p) * y
  }

  lemma Product(x: real, y: real)
    requires x >= 0.0 && y >= 0.0
    ensures x * y >= 0.0
    ensures x > 0.0 && y > 0.0 ==> x * y > 0.0
  {
  }

  lemma MixShift(p: real, x: real, y: real, d: real, e: real)
    ensures Mix(p, x + d, y + e) == Mix(p, x, y) + p * d + (1.0 - p) * e
  {
  }

  lemma MixShiftOrder(p: real, x: real, y: real, d: real, e: real)
    requires 0.0 <= p <= 1.0 && d >= 0.0 && e >= 0.0
    ensures Mix(p, x, y) <= Mix(p, x + d, y + e)
    ensures p > 0.0 && d > 0.0 ==> Mix(p, x, y) < Mix(p, x + d, y + e)
    ensures p < 1.0 && e > 0.0 ==> Mix(p, x, y) < Mix(p, x + d, y + e)
  {
    var q := 1.0 - p;
    Product(p, d);
    Product(q, e);
    MixShift(p, x, y, d, e);
  }

  lemma MixOrder(p: real, x: real, y: real, x': real, y': real)
    requires 0.0 <= p <= 1.0 && x <= x' && y <= y'
    ensures Mix(p, x, y) <= Mix(p, x', y')
    ensures p > 0.0 && x < x' ==> Mix(p, x, y) < Mix(p, x', y')
    ensures p < 1.0 && y < y' ==> Mix(p, x, y) < Mix(p, x', y')
  {
    MixShiftOrder(p, x, y, x' - x, y' - y);
  }

  lemma MixSame(p: real, x: real)
    ensures Mix(p, x, x) == x
  {
  }

  lemma MixSum(p: real, x: real, y: real, s: real, t: real)
    ensures Mix(p, x + s, y + t) == Mix(p, x, y) + Mix(p, s, t)
  {
  }

  lemma MixWhole(p: real, first: real, rest: real)
    requires first + rest == 1.0
    ensures Mix(p, 0.0, first) + Mix(p, 1.0, rest) == 1.0
  {
    MixSum(p, 0.0, first, 1.0, rest);
    MixSame(p, 1.0);
  }

  lemma MixReweigh(p: real, q: real, x: real, y: real)
    ensures Mix(q, x, y) == Mix(p, x, y) + (q - p) * (x - y)
  {
  }

  // Raising the weight of the larger value, and both values, raises the average.
  lemma MixIncreases(p: real, q: real, x: real, y: real, x': real, y': real)
    requires 0.0 <= p < q <= 1.0 && y <= x <= x' && y <= y'
    ensures Mix(p, x, y) <= Mix(q, x', y')
    ensures x < x' || y < x ==> Mix(p, x, y) < Mix(q, x', y')
  {
    MixOrder(q, x, y, x', y');
    MixReweigh(p, q, x, y);
    var d, e := q - p, x - y;
    Product(d, e);
  }

  // The same, measured: moving the weight by q - p moves the average by at most q - p more.
  lemma MixSlope(p: real, q: real, x: real, y: real, x': real, y': real, rise: real)
    requires 0.0 <= p < q <= 1.0 && 0.0 <= y <= x <= 1.0 && x' <= x + rise && y' <= y + rise
    ensures Mix(q, x', y') <= Mix(p, x, y) + rise + (q - p)
  {
    MixOrder(q, x', y', x + rise, y + rise);
    MixSum(q, x, y, rise, rise);
    MixSame(q, rise);
    MixReweigh(p, q, x, y);
    var d, e := q - p, 1.0 - (x - y);
    Product(d, e);
    assert d * e == d - d * (x - y);
  }

  lemma MixMirror(p: real, x: real, y: real, x': real, y': real)
    requires x + x' == 1.0 && y + y' == 1.0
    ensures Mix(p, x, y) + Mix(1.0 - p, y', x') == 1.0
  {
    assert y' == 1.0 - y && x' == 1.0 - x;
  }

  function Times(c: real, x: real, y: real): real {
    c * x * y
  }

  lemma MixOfTerms(p: real, a: real, b: real, x: real, y: real, px: real, py: real)
    requires px == p * x && py == (1.0 - p) * y
    ensures Times(a + b, px, py) == Mix(p, Times(a, x, py), Times(b, px, y))
  {
    MixOfTermsExpanded(p, a, b, x, y);
  }

  lemma MixOfTermsExpanded(p: real, a: real, b: real, x: real, y: real)
    ensures (a + b) * (p * x) * ((1.0 - p) * y) == p * (a * x * ((1.0 - p) * y)) + (1.0 - p) * (b * (p * x) * y)
  {
  }

  predicate IsFraction(x: real, w: int, t: int) {
    x * w as real == t as real
  }

  lemma MixOfFractions(p: real, a: real, b: real, w: int, m: int, j: int, s: int, t: int)
    requires p * m as real == j as real && IsFraction(a, w, s) && IsFraction(b, w, t)
    ensures IsFraction(Mix(p, a, b), m * w, j * s + (m - j) * t)
  {
    MixExpand(p, a, b, w as real, m as real);
    assert (m * w) as real == m as real * w as real;
    assert (j * s) as real == j as real * s as real;
    assert ((m - j) * t) as real == (m as real - j as real) * t as real;
  }

  lemma MixExpand(p: real, a: real, b: real, w: real, m: real)
    ensures Mix(p, a, b) * (m * w) == (p * m) * (a * w) + (m - p * m) * (b * w)
  {
  }
}

// The tail sums of f2_analysis.py, over exact reals, and the facts about them that the test and the
// interval rest on. Everything is proved on the one-trial-at-a-time form `Tail` and carried over to
// the `comb` sums by `SfIsTail` and `CdfIsTail`.
module Binomial {
  import opened Average

  function Pow(x: real, k: nat): real {
    if k == 0 then 1.0 else x * Pow(x, k - 1)
  }

  function Comb(n: nat, k: nat): nat {
    if k == 0 then 1 else if n == 0 then 0 else Comb(n - 1, k - 1) + Comb(n - 1, k)
  }

  // One summand: comb(n, i) * p**i * (1 - p)**(n - i), and 0 past the last index.
  function Term(n: nat, i: nat, p: real): real {
    if i > n then 0.0 else Times(Comb(n, i) as real, Pow(p, i), Pow(1.0 - p, n - i))
  }

  // The sum of the summands lo, ..., hi - 1.
  function TermSum(n: nat, p: real, lo: nat, hi: nat): real
    decreases hi - lo
  {
    if lo >= hi then 0.0 else Term(n, lo, p) + TermSum(n, p, lo + 1, hi)
  }

  // _binom_sf: P(X >= k).
  function Sf(k: int, n: int, p: real): real {
    if n <= 0 || k <= 0 then 1.0 else if k > n then 0.0 else TermSum(n, p, k, n + 1)
  }

  // _binom_cdf: P(X <= k).
  function Cdf(k: int, n: int, p: real): real {
    if n <= 0 || k >= n then 1.0 else if k < 0 then 0.0 else TermSum(n, p, 0, k + 1)
  }

  // P(at least k successes in n trials), conditioning on the last trial.
  function Tail(k: int, n: nat, p: real): real {
    if k <= 0 then 1.0 else if n == 0 then 0.0 else Mix(p, Tail(k - 1, n - 1, p), Tail(k, n - 1, p))
  }

  // ---- the two forms agree ----

  function Factorial(n: nat): nat {
    if n == 0 then 1 else n * Factorial(n - 1)
  }

  lemma CombAboveIsZero(n: nat, k: nat)
    requires k > n
    ensures Comb(n, k) == 0
  {
  }

  lemma {:induction false} CombDiagonal(n: nat)
    ensures Comb(n, n) == 1
  {
    if n > 0 {
      CombDiagonal(n - 1);
      CombAboveIsZero(n - 1, n);
    }
  }

  lemma FactorialAlgebra(a: int, b: int, f: int, g: int, h: int, k: int, m: int)
    requires a * (f * (m * g)) == h && b * ((k * f) * g) == h
    ensures (a + b) * ((k * f) * (m * g)) == (k + m) * h
  {
    assert a * ((k * f) * (m * g)) == k * (a * (f * (m * g)));
    assert b * ((k * f) * (m * g)) == m * (b * ((k * f) * g));
  }

  // Pascal's rule defines the same number as Python's comb, n! / (k! (n-k)!).
  lemma {:induction false} CombIsFactorialQuotient(n: nat, k: nat)
    requires k <= n
    ensures Comb(n, k) * (Factorial(k) * Factorial(n - k)) == Factorial(n)
  {
    if k == n {
      CombDiagonal(n);
    } else if k > 0 {
      CombIsFactorialQuotient(n - 1, k - 1);
      CombIsFactorialQuotient(n - 1, k);
      FactorialAlgebra(Comb(n - 1, k - 1), Comb(n - 1, k), Factorial(k - 1), Factorial(n - k - 1), Factorial(n - 1), k, n - k);
    }
  }

  // Pascal's rule on summands.
  lemma TermPascal(n: nat, i: nat, p: real)
    requires n >= 1 && i >= 1
    ensures Term(n, i, p) == Mix(p, Term(n - 1, i - 1, p), Term(n - 1, i, p))
  {
    if i < n {
      MixOfTerms(p, Comb(n - 1, i - 1) as real, Comb(n - 1, i) as real,
                 Pow(p, i - 1), Pow(1.0 - p, n - 1 - i), Pow(p, i), Pow(1.0 - p, n - i));
    } else if i == n {
      CombDiagonal(n);
      CombDiagonal(n - 1);
    }
  }

  lemma {:induction false} SumPascal(n: nat, p: real, lo: nat, hi: nat)
    requires n >= 1 && 1 <= lo <= hi
    ensures TermSum(n, p, lo, hi) == Mix(p, TermSum(n - 1, p, lo - 1, hi - 1), TermSum(n - 1, p, lo, hi))
    decreases hi - lo
  {
    if lo < hi {
      SumPascal(n, p, lo + 1, hi);
      TermPascal(n, lo, p);
      MixSum(p, Term(n - 1, lo - 1, p), Term(n - 1, lo, p), TermSum(n - 1, p, lo, hi - 1), TermSum(n - 1, p, lo + 1, hi));
    }
  }

  lemma {:induction false} SumSplit(n: nat, p: real, lo: nat, mid: nat, hi: nat)
    requires lo <= mid <= hi
    ensures TermSum(n, p, lo, hi) == TermSum(n, p, lo, mid) + TermSum(n, p, mid, hi)
    decreases mid - lo
  {
    if lo < mid {
      SumSplit(n, p, lo + 1, mid, hi);
    }
  }

  // The summand past the last index adds nothing.
  lemma SumPastEnd(n: nat, p: real, lo: nat)
    requires lo <= n + 1
    ensures TermSum(n, p, lo, n + 2) == TermSum(n, p, lo, n + 1)
  {
    SumSplit(n, p, lo, n + 1, n + 2);
    assert TermSum(n, p, n + 2, n + 2) == 0.0;
    assert TermSum(n, p, n + 1, n + 2) == 0.0;
  }

  lemma FirstTerm(n: nat, p: real)
    ensures Term(n + 1, 0, p) == Mix(p, 0.0, Term(n, 0, p))
  {
    assert Pow(1.0 - p, n + 1) == (1.0 - p) * Pow(1.0 - p, n);
  }

  lemma OtherTerms(n: nat, p: real)
    requires n >= 1 && TermSum(n - 1, p, 0, n) == 1.0
    ensures TermSum(n, p, 1, n + 1) == Mix(p, 1.0, TermSum(n - 1, p, 1, n))
  {
    SumPascal(n, p, 1, n + 1);
    SumPastEnd(n - 1, p, 1);
  }

  lemma {:induction false} SumIsOne(n: nat, p: real)
    ensures TermSum(n, p, 0, n + 1) == 1.0
  {
    if n == 0 {
      assert Term(0, 0, p) == 1.0;
      assert TermSum(0, p, 1, 1) == 0.0;
    } else {
      SumIsOne(n - 1, p);
      OtherTerms(n, p);
      FirstTerm(n - 1, p);
      MixWhole(p, Term(n - 1, 0, p), TermSum(n - 1, p, 1, n));
    }
  }

  lemma {:induction false} SumIsTail(n: nat, k: nat, p: real)
    requires k <= n + 1
    ensures TermSum(n, p, k, n + 1) == Tail(k, n, p)
    decreases n
  {
    if k == 0 {
      SumIsOne(n, p);
    } else if k == n + 1 {
      TailAboveIsZero(k, n, p);
    } else {
      SumPascal(n, p, k, n + 1);
      SumIsTail(n - 1, k - 1, p);
      SumIsTail(n - 1, k, p);
      SumPastEnd(n - 1, p, k);
    }
  }

  lemma {:induction false} TailAboveIsZero(k: int, n: nat, p: real)
    requires k > n
    ensures Tail(k, n, p) == 0.0
    decreases n
  {
    if n > 0 {
      TailAboveIsZero(k - 1, n - 1, p);
      TailAboveIsZero(k, n - 1, p);
      MixSame(p, 0.0);
    }
  }

  // The `comb` sum of the source is the recursive tail.
  lemma SfIsTail(k: int, n: int, p: real)
    requires n >= 1
    ensures Sf(k, n, p) == Tail(k, n, p)
  {
    if k > n {
      TailAboveIsZero(k, n, p);
    } else if k >= 1 {
      SumIsTail(n, k, p);
    }
  }

  lemma CdfIsTail(k: int, n: int, p: real)
    requires n >= 1
    ensures Cdf(k, n, p) == 1.0 - Tail(k + 1, n, p)
  {
    if k >= n {
      TailAboveIsZero(k + 1, n, p);
    } else if k >= 0 {
      SumSplit(n, p, 0, k + 1, n + 1);
      SumIsTail(n, 0, p);
      SumIsTail(n, k + 1, p);
    }
  }

  lemma TermIsTailStep(n: nat, i: nat, p: real)
    requires i <= n
    ensures Term(n, i, p) == Tail(i, n, p) - Tail(i + 1, n, p)
  {
    SumIsTail(n, i, p);
    SumIsTail(n, i + 1, p);
  }

  // ---- shape of the tail ----

  lemma {:induction false} TailBounds(k: int, n: nat, p: real)
    requires 0.0 <= p <= 1.0
    ensures 0.0 <= Tail(k + 1, n, p) <= Tail(k, n, p) <= 1.0
    decreases n
  {
    if k >= 0 && n > 0 {
      TailBounds(k, n - 1, p);
      TailBounds(k - 1, n - 1, p);
      var x, y, z := Tail(k - 1, n - 1, p), Tail(k, n - 1, p), Tail(k + 1, n - 1, p);
      MixSame(p, 0.0);
      MixSame(p, 1.0);
      MixOrder(p, 0.0, 0.0, y, z);
      MixOrder(p, y, z, x, y);
      MixOrder(p, x, y, 1.0, 1.0);
    }
  }

  lemma {:induction false} TailAntitone(k: int, l: int, n: nat, p: real)
    requires 0.0 <= p <= 1.0 && k <= l
    ensures Tail(l, n, p) <= Tail(k, n, p)
    decreases l - k
  {
    if k < l {
      TailAntitone(k + 1, l, n, p);
      TailBounds(k, n, p);
    }
  }

  // Strictly inside (0, 1) every count 0..n has positive weight.
  lemma {:induction false} TailStrictStep(k: int, n: nat, p: real)
    requires 0.0 < p < 1.0 && 0 <= k <= n
    ensures Tail(k + 1, n, p) < Tail(k, n, p)
    decreases n
  {
    if n > 0 {
      TailBounds(k, n - 1, p);
      TailBounds(k - 1, n - 1, p);
      TailStrictStep(if k < n then k else k - 1, n - 1, p);
      MixOrder(p, Tail(k, n - 1, p), Tail(k + 1, n - 1, p), Tail(k - 1, n - 1, p), Tail(k, n - 1, p));
      MixSame(p, 1.0);
    }
  }

  // P(X >= k) does not decrease in p, and increases strictly for 1 <= k <= n.
  lemma {:induction false} TailIncreases(k: int, n: nat, p: real, q: real)
    requires 0.0 <= p < q <= 1.0
    ensures Tail(k, n, p) <= Tail(k, n, q)
    ensures 1 <= k <= n ==> Tail(k, n, p) < Tail(k, n, q)
    decreases n
  {
    if k > 0 && n > 0 {
      TailIncreases(k - 1, n - 1, p, q);
      TailIncreases(k, n - 1, p, q);
      TailBounds(k - 1, n - 1, p);
      if k == 1 {
        TailOfOneBelowOne(n - 1, p);
      }
      MixIncreases(p, q, Tail(k - 1, n - 1, p), Tail(k, n - 1, p), Tail(k - 1, n - 1, q), Tail(k, n - 1, q));
    }
  }

  lemma TailOfOneBelowOne(n: nat, p: real)
    requires 0.0 <= p < 1.0
    ensures Tail(1, n, p) < 1.0
  {
    if p == 0.0 {
      TailAtZero(1, n);
    } else {
      TailStrictStep(0, n, p);
    }
  }

  // n steps of size d.
  function Steps(n: nat, d: real): real {
    if n == 0 then 0.0 else Steps(n - 1, d) + d
  }

  lemma {:induction false} StepsIsProduct(n: nat, d: real)
    ensures Steps(n, d) == n as real * d
  {
    if n > 0 {
      StepsIsProduct(n - 1, d);
      assert n as real * d == (n - 1) as real * d + d;
    }
  }

  // The slope of P(X >= k) in p is at most n.
  lemma {:induction false} TailSlope(k: int, n: nat, p: real, q: real)
    requires 0.0 <= p < q <= 1.0
    ensures Tail(k, n, q) <= Tail(k, n, p) + Steps(n, q - p)
    decreases n
  {
    if k <= 0 || n == 0 {
      StepsIsProduct(n, q - p);
      Product(n as real, q - p);
    } else {
      TailSlope(k - 1, n - 1, p, q);
      TailSlope(k, n - 1, p, q);
      TailBounds(k - 1, n - 1, p);
      MixSlope(p, q, Tail(k - 1, n - 1, p), Tail(k, n - 1, p), Tail(k - 1, n - 1, q), Tail(k, n - 1, q), Steps(n - 1, q - p));
    }
  }

  lemma {:induction false} TailAtZero(k: int, n: nat)
    requires k >= 1
    ensures Tail(k, n, 0.0) == 0.0
    decreases n
  {
    if n > 0 {
      TailAtZero(k, n - 1);
    }
  }

  lemma {:induction false} TailAtOne(k: int, n: nat)
    requires k <= n
    ensures Tail(k, n, 1.0) == 1.0
    decreases n
  {
    if k > 0 {
      TailAtOne(k - 1, n - 1);
    }
  }

  // Successes and failures trade places: P(X >= k) at p is P(X <= n - k) at 1 - p.
  lemma {:induction false} TailMirror(k: int, n: nat, p: real)
    ensures Tail(k, n, p) + Tail(n - k + 1, n, 1.0 - p) == 1.0
    decreases n
  {
    if k <= 0 {
      TailAboveIsZero(n - k + 1, n, 1.0 - p);
    } else if k > n {
      TailAboveIsZero(k, n, p);
    } else {
      TailMirror(k - 1, n - 1, p);
      TailMirror(k, n - 1, p);
      MixMirror(p, Tail(k - 1, n - 1, p), Tail(k, n - 1, p), Tail(n - k + 1, n - 1, 1.0 - p), Tail(n - k, n - 1, 1.0 - p));
    }
  }

  // _binom_sf(k, n, p) == _binom_cdf(n - k, n, 1 - p).
  lemma SfMirrorsCdf(k: int, n: int, p: real)
    requires n >= 1
    ensures Sf(k, n, p) == Cdf(n - k, n, 1.0 - p)
  {
    SfIsTail(k, n, p);
    CdfIsTail(n - k, n, 1.0 - p);
    TailMirror(k, n, p);
  }

  // ---- tails on a dyadic grid are dyadic ----

  function IPow(m: int, n: nat): int {
    if n == 0 then 1 else m * IPow(m, n - 1)
  }

  function TailNumerator(k: int, n: nat, j: int, m: int): int {
    if k <= 0 then IPow(m, n)
    else if n == 0 then 0
    else j * TailNumerator(k - 1, n - 1, j, m) + (m - j) * TailNumerator(k, n - 1, j, m)
  }

  lemma {:induction false} TailIsFraction(k: int, n: nat, p: real, j: int, m: int)
    requires p * m as real == j as real
    ensures IsFraction(Tail(k, n, p), IPow(m, n), TailNumerator(k, n, j, m))
    decreases n
  {
    if k > 0 && n > 0 {
      TailIsFraction(k - 1, n - 1, p, j, m);
      TailIsFraction(k, n - 1, p, j, m);
      var a, b, w := Tail(k - 1, n - 1, p), Tail(k, n - 1, p), IPow(m, n - 1);
      var s, t := TailNumerator(k - 1, n - 1, j, m), TailNumerator(k, n - 1, j, m);
      MixOfFractions(p, a, b, w, m, j, s, t);
      assert Tail(k, n, p) == Mix(p, a, b) && IPow(m, n) == m * w && TailNumerator(k, n, j, m) == j * s + (m - j) * t;
    }
  }

  lemma {:induction false} PowerNotMultipleOfFive(m: int, n: nat)
    requires m % 5 != 0
    ensures IPow(m, n) % 5 != 0
  {
    if n > 0 {
      PowerNotMultipleOfFive(m, n - 1);
      NotMultipleOfFive(m, IPow(m, n - 1));
    }
  }

  lemma NotMultipleOfFive(x: int, y: int)
    requires x % 5 != 0 && y % 5 != 0
    ensures (x * y) % 5 != 0
  {
    var q, r, s, t := x / 5, x % 5, y / 5, y % 5;
    assert x * y == 5 * (5 * q * s + q * t + r * s) + r * t;
    assert r * t in {1, 2, 3, 4, 6, 8, 9, 12, 16};
  }

  // At a point j/m with m not a multiple of five no tail equals 1/40.
  lemma TailMissesOneFortieth(k: int, n: nat, p: real, j: int, m: int)
    requires m % 5 != 0 && p * m as real == j as real
    ensures Tail(k, n, p) != 1.0 / 40.0
  {
    TailIsFraction(k, n, p, j, m);
    PowerNotMultipleOfFive(m, n);
    var t, w := TailNumerator(k, n, j, m), IPow(m, n);
    if Tail(k, n, p) == 1.0 / 40.0 {
      FortiethOf(w, t);
      assert false;
    }
  }

  lemma FortiethOf(w: int, t: int)
    requires (1.0 / 40.0) * w as real == t as real
    ensures w % 5 == 0
  {
    assert w == 5 * (8 * t);
  }
}
