// The median of a binomial whose mean is whole: at p = b/n, b successes or more have at least the chance
// 1/2. So neither one-sided test ever rejects the observed share.
module Median {
  import opened Average
  import opened Binomial

  // ---- arithmetic ----

  lemma Smaller(x: real, y: real, f: real)
    requires f > 0.0 && x < y
    ensures x * f < y * f
  {
    var d := y - x;
    Product(d, f);
    assert d * f == y * f - x * f;
  }

  lemma Divide(x: real, y: real, f: real)
    requires f > 0.0 && x * f >= y * f
    ensures x >= y
  {
    if x < y {
      Smaller(x, y, f);
    }
  }

  lemma Larger(x: real, y: real, f: real)
    requires x >= y && f >= 0.0
    ensures x * f >= y * f && f * x >= f * y
  {
    var d := x - y;
    Product(d, f);
    assert d * f == x * f - y * f;
  }

  lemma Regroup(x: real, a: real, b: real, c: real, x': real, f: real, g: real)
    requires x' * a == x * b && f == a * c && g == b * c
    ensures x' * f == x * g
  {
    assert x' * (a * c) == (x' * a) * c && x * (b * c) == (x * b) * c;
  }

  // Of two quotients the one with the larger ratio stays ahead.
  lemma StaysAhead(x: real, y: real, x': real, y': real, a: real, b: real, c: real, d: real)
    requires x >= y >= 0.0 && a > 0.0 && b >= 0.0 && c > 0.0 && b * c >= d * a
    requires x' * a == x * b && y' * c == y * d
    ensures x' >= y'
  {
    var f, g, h := a * c, b * c, d * a;
    Regroup(x, a, b, c, x', f, g);
    Regroup(y, c, d, a, y', f, h);
    Product(b, c);
    Product(a, c);
    Larger(x, y, g);
    Larger(g, h, y);
    Divide(x', y', f);
  }

  lemma NatProduct(x: int, y: int)
    requires x >= 0 && y >= 0
    ensures x * y >= 0 && (x > 0 && y > 0 ==> x * y > 0)
  {
  }

  lemma NoProduct(x: real)
    ensures x * 0.0 == 0.0 && 0.0 * x == 0.0
  {
  }

  // ---- walks from a common start ----

  // What a step multiplies: level(i) is the weight of place i, and down(i) what is left of it there.
  datatype Ratios = Ratios(level: nat -> real, down: nat -> real)

  // A sequence that ends after m and whose neighbours have these ratios.
  ghost predicate Walk(f: nat -> real, r: Ratios, m: nat) {
    && (forall i :: f(i) >= 0.0)
    && (forall i :: i > m ==> f(i) == 0.0)
    && forall i: nat :: i <= m ==> WalkStep(f, r, i)
  }

  ghost predicate WalkStep(f: nat -> real, r: Ratios, i: nat) {
    f(i + 1) * r.level(i + 1) == f(i) * r.down(i)
  }

  function Sum(f: nat -> real, n: nat): real {
    if n == 0 then 0.0 else Sum(f, n - 1) + f(n - 1)
  }

  function Moment(f: nat -> real, n: nat): real {
    if n == 0 then 0.0 else Moment(f, n - 1) + (n - 1) as real * f(n - 1)
  }

  // From place i the one walk goes ahead of the other's from place j.
  ghost predicate Faster(r: Ratios, i: nat, s: Ratios, j: nat) {
    && r.level(i + 1) > 0.0 && s.level(j + 1) > 0.0 && r.down(i) >= 0.0
    && r.down(i) * s.level(j + 1) >= s.down(j) * r.level(i + 1)
  }

  lemma FasterStep(f: nat -> real, r: Ratios, i: nat, g: nat -> real, s: Ratios, j: nat)
    requires WalkStep(f, r, i) && WalkStep(g, s, j) && Faster(r, i, s, j) && f(i) >= g(j) >= 0.0
    ensures f(i + 1) >= g(j + 1)
  {
    StaysAhead(f(i), g(j), f(i + 1), g(j + 1), r.level(i + 1), r.down(i), s.level(j + 1), s.down(j));
  }

  ghost predicate FasterByOne(r: Ratios, s: Ratios, k: nat) {
    Faster(r, k, s, k + 1)
  }

  // One walk stays ahead of the other, one place further on.
  lemma {:induction false} EachAhead(f: nat -> real, r: Ratios, m: nat, g: nat -> real, s: Ratios, b: nat, i: nat)
    requires b <= m && Walk(f, r, m) && Walk(g, s, b) && f(0) >= g(1)
    requires forall k: nat :: k < b ==> FasterByOne(r, s, k)
    ensures f(i) >= g(i + 1)
  {
    if i > 0 && i + 1 <= b {
      EachAhead(f, r, m, g, s, b, i - 1);
      assert WalkStep(f, r, i - 1) && WalkStep(g, s, i) && FasterByOne(r, s, i - 1);
      FasterStep(f, r, i - 1, g, s, i);
    }
  }

  lemma {:induction false} SumsAhead(f: nat -> real, r: Ratios, m: nat, g: nat -> real, s: Ratios, b: nat, n: nat)
    requires b <= m && Walk(f, r, m) && Walk(g, s, b) && f(0) >= g(1)
    requires forall k: nat :: k < b ==> FasterByOne(r, s, k)
    ensures Sum(f, n) >= Sum(g, n + 1) - g(0)
  {
    if n > 0 {
      SumsAhead(f, r, m, g, s, b, n - 1);
      EachAhead(f, r, m, g, s, b, n - 1);
    } else {
      assert Sum(g, 1) == Sum(g, 0) + g(0);
    }
  }

  // ---- walks that cross ----

  // While `early`, the one walk is faster, and after that the other.
  ghost predicate Turns(early: nat -> bool, r: Ratios, m: nat, s: Ratios) {
    && early(0)
    && (forall i: nat :: early(i) ==> i < m && Faster(r, i, s, i))
    && (forall i: nat :: !early(i) ==> !early(i + 1))
    && forall i: nat :: !early(i) && i < m ==> Faster(s, i, r, i)
  }

  // f is ahead of g up to c, and behind from there on.
  ghost predicate Crosses(f: nat -> real, g: nat -> real, c: nat) {
    (forall i: nat :: i <= c ==> f(i) >= g(i)) && forall i: nat :: i > c ==> f(i) <= g(i)
  }

  lemma {:induction false} BehindFrom(
    early: nat -> bool, f: nat -> real, r: Ratios, m: nat, g: nat -> real, s: Ratios, b: nat, j: nat, i: nat)
    requires m <= b && Walk(f, r, m) && Walk(g, s, b) && Turns(early, r, m, s) && j <= i
    requires !early(j) && f(j) <= g(j)
    ensures f(i) <= g(i) && !early(i)
  {
    if i > j {
      BehindFrom(early, f, r, m, g, s, b, j, i - 1);
      if i - 1 < m {
        assert WalkStep(f, r, i - 1) && WalkStep(g, s, i - 1) && Faster(s, i - 1, r, i - 1);
        FasterStep(g, s, i - 1, f, r, i - 1);
      }
    }
  }

  lemma AheadTo(early: nat -> bool, f: nat -> real, r: Ratios, m: nat, g: nat -> real, s: Ratios, b: nat, n: nat) returns (c: nat)
    requires m <= b && Walk(f, r, m) && Walk(g, s, b) && Turns(early, r, m, s) && f(0) == g(0)
    ensures c <= n && (forall i: nat :: i <= c ==> f(i) >= g(i))
    ensures c < n ==> f(c + 1) < g(c + 1) && !early(c)
  {
    c := 0;
    while c < n && f(c + 1) >= g(c + 1)
      invariant c <= n && forall i: nat :: i <= c ==> f(i) >= g(i)
    {
      c := c + 1;
    }
    if c < n && early(c) {
      assert WalkStep(f, r, c) && WalkStep(g, s, c) && Faster(r, c, s, c);
      FasterStep(f, r, c, g, s, c);
    }
  }

  lemma SomeCrossing(early: nat -> bool, f: nat -> real, r: Ratios, m: nat, g: nat -> real, s: Ratios, b: nat) returns (c: nat)
    requires m <= b && Walk(f, r, m) && Walk(g, s, b) && Turns(early, r, m, s) && f(0) == g(0)
    ensures c >= 1 && Crosses(f, g, c)
  {
    c := AheadTo(early, f, r, m, g, s, b, b + 1);
    if c <= b {
      forall i: nat | i > c ensures f(i) <= g(i) {
        BehindFrom(early, f, r, m, g, s, b, c + 1, i);
      }
    }
  }

  // ---- moments ----

  // The level falls by i times n from place i to what is left of it.
  ghost predicate Falls(r: Ratios, m: nat, n: real) {
    forall i: nat :: i <= m ==> FallsAt(r, n, i)
  }

  ghost predicate FallsAt(r: Ratios, n: real, i: nat) {
    r.level(i) == r.down(i) + i as real * n
  }

  lemma MomentStep(s: real, x: real, y: real, i: real, n: real, level: real, down: real, z: real)
    requires s * n == z - x * level && y == x * down && level == down + i * n
    ensures (s + i * x) * n == z - y
  {
    assert x * level == x * down + x * (i * n);
    assert (s + i * x) * n == s * n + x * (i * n);
  }

  // The first moment of a walk up to a place is what its level has lost.
  lemma {:induction false} MomentIs(f: nat -> real, r: Ratios, m: nat, n: real, k: nat)
    requires Walk(f, r, m) && Falls(r, m, n) && k <= m + 1
    ensures Moment(f, k) * n == f(0) * r.level(0) - f(k) * r.level(k)
  {
    if k == 0 {
      NoProduct(n);
    } else {
      var y, z := f(k) * r.level(k), f(0) * r.level(0);
      MomentIs(f, r, m, n, k - 1);
      assert WalkStep(f, r, k - 1) && FallsAt(r, n, k - 1);
      MomentStep(Moment(f, k - 1), f(k - 1), y, (k - 1) as real, n, r.level(k - 1), r.down(k - 1), z);
    }
  }

  lemma {:induction false} NothingAfter(f: nat -> real, r: Ratios, m: nat, k: nat)
    requires Walk(f, r, m) && k > m
    ensures Moment(f, k) == Moment(f, m + 1)
  {
    if k > m + 1 {
      NothingAfter(f, r, m, k - 1);
      NoProduct((k - 1) as real);
    }
  }

  lemma WholeMoment(f: nat -> real, r: Ratios, m: nat, n: real, k: nat)
    requires Walk(f, r, m) && Falls(r, m, n) && k > m
    ensures Moment(f, k) * n == f(0) * r.level(0)
  {
    NothingAfter(f, r, m, k);
    MomentIs(f, r, m, n, m + 1);
    NoProduct(r.level(m + 1));
  }

  lemma SameMoment(f: nat -> real, r: Ratios, m: nat, g: nat -> real, s: Ratios, b: nat, n: real, k: nat)
    requires Walk(f, r, m) && Falls(r, m, n) && Walk(g, s, b) && Falls(s, b, n) && n > 0.0 && k > m && k > b
    requires f(0) == g(0) && r.level(0) == s.level(0)
    ensures Moment(f, k) == Moment(g, k)
  {
    WholeMoment(f, r, m, n, k);
    WholeMoment(g, s, b, n, k);
    Divide(Moment(f, k), Moment(g, k), n);
    Divide(Moment(g, k), Moment(f, k), n);
  }

  lemma WeightedTerm(x: real, y: real, c: real, i: real)
    requires (i <= c && x >= y) || (i > c && x <= y)
    ensures c * (x - y) >= i * x - i * y
  {
    var d, e := x - y, c - i;
    if i <= c {
      Product(d, e);
    } else {
      Product(-d, -e);
      assert (-d) * (-e) == d * e;
    }
    assert d * e == c * (x - y) - (i * x - i * y);
  }

  lemma WeightedNext(c: real, a: real, b: real, s: real, t: real, x: real, y: real, i: real)
    requires c * (a - b) >= s - t && ((i <= c && x >= y) || (i > c && x <= y))
    ensures c * ((a + x) - (b + y)) >= (s + i * x) - (t + i * y)
  {
    WeightedTerm(x, y, c, i);
    assert c * ((a + x) - (b + y)) == c * (a - b) + c * (x - y);
  }

  // What is ahead up to c and behind after it, with the same moment, is ahead in all.
  lemma {:induction false} WeightedSums(f: nat -> real, g: nat -> real, c: nat, k: nat)
    requires Crosses(f, g, c)
    ensures c as real * (Sum(f, k) - Sum(g, k)) >= Moment(f, k) - Moment(g, k)
  {
    if k == 0 {
      NoProduct(c as real);
    } else {
      WeightedSums(f, g, c, k - 1);
      WeightedNext(c as real, Sum(f, k - 1), Sum(g, k - 1), Moment(f, k - 1), Moment(g, k - 1), f(k - 1), g(k - 1), (k - 1) as real);
    }
  }

  lemma NotNegative(d: real, c: real)
    requires c > 0.0 && c * d >= 0.0
    ensures d >= 0.0
  {
    NoProduct(c);
    assert d * c == c * d;
    Divide(d, 0.0, c);
  }

  lemma CrossedSums(early: nat -> bool, f: nat -> real, r: Ratios, m: nat, g: nat -> real, s: Ratios, b: nat, n: real, k: nat)
    requires m <= b && Walk(f, r, m) && Falls(r, m, n) && Walk(g, s, b) && Falls(s, b, n) && n > 0.0 && k > b
    requires Turns(early, r, m, s) && f(0) == g(0) && r.level(0) == s.level(0)
    ensures Sum(f, k) >= Sum(g, k)
  {
    var c := SomeCrossing(early, f, r, m, g, s, b);
    WeightedSums(f, g, c, k);
    SameMoment(f, r, m, g, s, b, n, k);
    NotNegative(Sum(f, k) - Sum(g, k), c as real);
  }

  // ---- binomial terms around a whole mean ----

  lemma {:induction false} CombNext(n: nat, k: nat)
    ensures Comb(n, k + 1) * (k + 1) == Comb(n, k) * (n - k)
    decreases n
  {
    if k >= n {
      CombAboveIsZero(n, k + 1);
      if k > n {
        CombAboveIsZero(n, k);
      }
    } else if k == 0 {
      CombNext(n - 1, 0);
    } else {
      CombNext(n - 1, k);
      CombNext(n - 1, k - 1);
      CombAlgebra(Comb(n - 1, k - 1), Comb(n - 1, k), Comb(n - 1, k + 1), n, k);
    }
  }

  lemma CombAlgebra(x: int, y: int, z: int, n: int, k: int)
    requires z * (k + 1) == y * (n - 1 - k) && y * k == x * (n - k)
    ensures (y + z) * (k + 1) == (x + y) * (n - k)
  {
  }

  lemma CombNextReal(n: nat, k: nat, c: real, d: real, x: real, y: real)
    requires k < n && c == Comb(n, k) as real && d == Comb(n, k + 1) as real && x == (k + 1) as real && y == (n - k) as real
    ensures d * x == c * y
  {
    CombNext(n, k);
    SameProducts(Comb(n, k + 1), k + 1, Comb(n, k), n - k);
  }

  lemma SameProducts(x: int, y: int, z: int, w: int)
    requires x * y == z * w
    ensures x as real * y as real == z as real * w as real
  {
    RealProduct(x, y);
    RealProduct(z, w);
  }

  lemma RealProduct(x: int, y: int)
    ensures (x * y) as real == x as real * y as real
  {
  }

  lemma TermIs(n: nat, k: nat, p: real, c: real, a: real, d: real)
    requires k <= n && c == Comb(n, k) as real && a == Pow(p, k) && d == Pow(1.0 - p, n - k)
    ensures Term(n, k, p) == Times(c, a, d)
  {
  }

  // Neighbouring terms, cross-multiplied.
  lemma TermNext(n: nat, k: nat, p: real, q: real, t: real, u: real, x: real, y: real)
    requires k < n && q == 1.0 - p && t == Term(n, k + 1, p) && u == Term(n, k, p) && x == (k + 1) as real && y == (n - k) as real
    ensures t * (x * q) == u * (y * p)
  {
    var c, d := Comb(n, k) as real, Comb(n, k + 1) as real;
    var a, b := Pow(p, k), Pow(q, n - k - 1);
    CombNextReal(n, k, c, d, x, y);
    PowNext(p, k);
    PowNext(q, n - k - 1);
    TermIs(n, k, p, c, a, q * b);
    TermIs(n, k + 1, p, d, p * a, b);
    TermAlgebra(t, u, c, d, y, x, p, q, a, b);
  }

  lemma PowNext(x: real, k: nat)
    ensures Pow(x, k + 1) == x * Pow(x, k)
  {
  }

  lemma TermAlgebra(t: real, u: real, c: real, d: real, x: real, y: real, p: real, q: real, a: real, b: real)
    requires d * y == c * x && t == Times(d, p * a, b) && u == Times(c, a, q * b)
    ensures t * (y * q) == u * (x * p)
  {
    var w := (p * a) * (b * q);
    assert t * (y * q) == (d * y) * w;
    assert u * (x * p) == (c * x) * w;
  }

  // Level (b + i) m, and (m - i) b left of it.
  function Weights(b: nat, m: nat): Ratios {
    Ratios((i: nat) => Steps(b + i, m as real), (i: nat) => if i <= m then Steps(m - i, b as real) else 0.0)
  }

  lemma WeightsFall(b: nat, m: nat)
    ensures Falls(Weights(b, m), m, (b + m) as real)
  {
    var r, n := Weights(b, m), (b + m) as real;
    forall i: nat | i <= m ensures FallsAt(r, n, i) {
      WeightsAre(b, m, i);
      StepsFall(r, n, b, m, i);
    }
  }

  lemma StepsFall(r: Ratios, n: real, b: nat, m: nat, i: nat)
    requires i <= m && n == (b + m) as real
    requires r.level(i) == Steps(b + i, m as real) && r.down(i) == Steps(m - i, b as real)
    ensures FallsAt(r, n, i)
  {
    StepsIsProduct(b + i, m as real);
    StepsIsProduct(m - i, b as real);
    FallAlgebra(b as real, m as real, i as real);
  }

  lemma FallAlgebra(b: real, m: real, i: real)
    ensures (b + i) * m == (m - i) * b + i * (b + m)
  {
  }

  lemma FasterIff(b: nat, m: nat, i: nat, b': nat, m': nat, j: nat)
    requires b >= 1 && m >= 1 && b' >= 1 && m' >= 1 && i <= m && j <= m'
    requires ((m - i) * b) * ((b' + j + 1) * m') >= ((m' - j) * b') * ((b + i + 1) * m)
    ensures Faster(Weights(b, m), i, Weights(b', m'), j)
  {
    NatProduct(b + i + 1, m);
    NatProduct(b' + j + 1, m');
    NatProduct(m - i, b);
    WeightInts(b, m, i);
    WeightInts(b', m', j);
    FasterInts(Weights(b, m), i, Weights(b', m'), j, (m - i) * b, (b' + j + 1) * m', (m' - j) * b', (b + i + 1) * m);
  }

  lemma FasterInts(r: Ratios, i: nat, s: Ratios, j: nat, x: int, y: int, z: int, w: int)
    requires r.down(i) == x as real && s.level(j + 1) == y as real && s.down(j) == z as real && r.level(i + 1) == w as real
    requires x >= 0 && y > 0 && w > 0 && x * y >= z * w
    ensures Faster(r, i, s, j)
  {
    AsReals(x, y, z, w);
  }

  lemma WeightInts(b: nat, m: nat, i: nat)
    requires i <= m
    ensures Weights(b, m).level(i + 1) == ((b + i + 1) * m) as real && Weights(b, m).down(i) == ((m - i) * b) as real
  {
    WeightsAre(b, m, i);
    WeightsAre(b, m, i + 1);
    assert b + (i + 1) == b + i + 1;
    StepsAre(b + i + 1, m);
    StepsAre(m - i, b);
  }

  lemma StepsAre(x: nat, m: nat)
    ensures Steps(x, m as real) == (x * m) as real
  {
    StepsIsProduct(x, m as real);
    RealProduct(x, m);
  }

  lemma AsReals(x: int, y: int, z: int, w: int)
    requires x * y >= z * w
    ensures x as real * y as real >= z as real * w as real
  {
    assert (x * y) as real == x as real * y as real && (z * w) as real == z as real * w as real;
  }

  lemma LowIdentity(b: int, m: int, i: int)
    ensures ((m - i) * b) * ((m + i + 2) * b) - ((b - i - 1) * m) * ((b + i + 1) * m)
      == (b * b) * (2 * m + 1) + ((i + 1) * (i + 1)) * (m * m - b * b)
  {
  }

  // With the mean in the lower half the terms above it are each ahead of the terms one further below.
  lemma LowFaster(b: nat, m: nat, i: nat)
    requires 1 <= b <= m && i < b
    ensures FasterByOne(Weights(b, m), Weights(m, b), i)
  {
    LowIdentity(b, m, i);
    NatProduct(m - b, m + b);
    NatProduct(i + 1, i + 1);
    assert m * m - b * b == (m - b) * (m + b);
    NatProduct((i + 1) * (i + 1), m * m - b * b);
    NatProduct(b, b);
    NatProduct(b * b, 2 * m + 1);
    assert m + (i + 1) + 1 == m + i + 2 && b - (i + 1) == b - i - 1;
    FasterIff(b, m, i, m, b, i + 1);
  }

  predicate Early(b: nat, m: nat, i: nat) {
    i * (i + 1) * (b + m) <= b * m
  }

  lemma HighIdentity(b: int, m: int, i: int)
    ensures ((m - i) * b) * ((m + i + 1) * b) - ((b - i) * m) * ((b + i + 1) * m) == (b - m) * (b * m - i * (i + 1) * (b + m))
  {
  }

  lemma LateProduct(b: nat, m: nat, i: nat)
    requires 1 <= m <= i
    ensures !Early(b, m, i)
  {
    NatProduct(i - m, b + m);
    NatProduct(i, i * (b + m));
    assert i * (i + 1) * (b + m) == i * (i * (b + m)) + i * (b + m);
    assert i * (b + m) == (i - m) * (b + m) + m * b + m * m;
    NatProduct(m, m);
  }

  lemma StaysLate(b: nat, m: nat, i: nat)
    requires !Early(b, m, i)
    ensures !Early(b, m, i + 1)
  {
    assert (i + 1) * (i + 2) == i * (i + 1) + 2 * (i + 1);
    NatProduct(2 * (i + 1), b + m);
    assert (i + 1) * (i + 1 + 1) * (b + m) == i * (i + 1) * (b + m) + (2 * (i + 1)) * (b + m);
  }

  lemma NotPositive(d: int, e: int)
    requires d >= 0 && e <= 0
    ensures d * e <= 0
  {
    NatProduct(d, -e);
    assert d * -e == -(d * e);
  }

  lemma EarlyFaster(b: nat, m: nat, i: nat)
    requires 1 <= m < b && i < m && Early(b, m, i)
    ensures Faster(Weights(b, m), i, Weights(m, b), i)
  {
    HighIdentity(b, m, i);
    NatProduct(b - m, b * m - i * (i + 1) * (b + m));
    FasterIff(b, m, i, m, b, i);
  }

  lemma LateFaster(b: nat, m: nat, i: nat)
    requires 1 <= m < b && i < m && !Early(b, m, i)
    ensures Faster(Weights(m, b), i, Weights(b, m), i)
  {
    HighIdentity(b, m, i);
    NotPositive(b - m, b * m - i * (i + 1) * (b + m));
    FasterIff(m, b, i, b, m, i);
  }

  function EarlyOf(b: nat, m: nat): nat -> bool {
    (i: nat) => Early(b, m, i)
  }

  lemma EarlyZero(b: nat, m: nat)
    ensures Early(b, m, 0)
  {
    NatProduct(b, m);
    assert 0 * (0 + 1) * (b + m) == 0;
  }

  lemma HighTurns(b: nat, m: nat)
    requires 1 <= m < b
    ensures Turns(EarlyOf(b, m), Weights(b, m), m, Weights(m, b))
  {
    EarlyZero(b, m);
    forall i: nat
      ensures EarlyOf(b, m)(i) ==> i < m && Faster(Weights(b, m), i, Weights(m, b), i)
      ensures !EarlyOf(b, m)(i) && i < m ==> Faster(Weights(m, b), i, Weights(b, m), i)
    {
      if i < m && Early(b, m, i) {
        EarlyFaster(b, m, i);
      } else if i < m {
        LateFaster(b, m, i);
      } else {
        LateProduct(b, m, i);
      }
    }
    forall i: nat | !EarlyOf(b, m)(i)
      ensures !EarlyOf(b, m)(i + 1)
    {
      StaysLate(b, m, i);
    }
  }

  // The chance of exactly k successes.
  function Exactly(n: nat, k: nat, p: real): real {
    Tail(k, n, p) - Tail(k + 1, n, p)
  }

  // Of b successes and i more, or i fewer, in b + m trials.
  function Above(b: nat, m: nat, p: real): nat -> real {
    (i: nat) => Exactly(b + m, b + i, p)
  }

  function Below(b: nat, m: nat, p: real): nat -> real {
    (i: nat) => if i <= b then Exactly(b + m, b - i, p) else 0.0
  }

  lemma AboveIs(b: nat, m: nat, p: real, i: nat)
    ensures Above(b, m, p)(i) == Tail(b + i, b + m, p) - Tail(b + i + 1, b + m, p)
  {
    assert Above(b, m, p)(i) == Exactly(b + m, b + i, p);
  }

  lemma BelowIs(b: nat, m: nat, p: real, i: nat)
    ensures Below(b, m, p)(i) == if i <= b then Tail(b - i, b + m, p) - Tail(b - i + 1, b + m, p) else 0.0
  {
    assert i <= b ==> Below(b, m, p)(i) == Exactly(b + m, b - i, p);
  }

  lemma WeightsAre(b: nat, m: nat, i: nat)
    ensures Weights(b, m).level(i) == Steps(b + i, m as real)
    ensures Weights(b, m).down(i) == if i <= m then Steps(m - i, b as real) else 0.0
  {
  }

  // The chance of a success for which b is the mean.
  ghost predicate Centred(b: nat, m: nat, p: real) {
    exists q, n :: CentredBy(b, m, p, q, n)
  }

  ghost predicate CentredBy(b: nat, m: nat, p: real, q: real, n: real) {
    0.0 <= p <= 1.0 && q == 1.0 - p && p * n == b as real && q * n == m as real
  }

  // Neighbouring terms t after u, cross-multiplied.
  ghost predicate Neighbours(t: real, u: real, x: real, y: real, p: real) {
    exists q :: NeighboursBy(t, u, x, y, p, q)
  }

  ghost predicate NeighboursBy(t: real, u: real, x: real, y: real, p: real, q: real) {
    q == 1.0 - p && t * (x * q) == u * (y * p)
  }

  lemma ExactNext(n: nat, k: nat, p: real, t: real, u: real)
    requires k < n && t == Exactly(n, k + 1, p) && u == Exactly(n, k, p)
    ensures Neighbours(t, u, (k + 1) as real, (n - k) as real, p)
  {
    var q, x, y := 1.0 - p, (k + 1) as real, (n - k) as real;
    TermIsTailStep(n, k, p);
    TermIsTailStep(n, k + 1, p);
    TermNext(n, k, p, q, t, u, x, y);
    assert NeighboursBy(t, u, x, y, p, q);
  }

  lemma RatioOf(b: nat, m: nat, p: real, t: real, u: real, x: nat, y: nat, level: real, down: real)
    requires Centred(b, m, p) && Neighbours(t, u, x as real, y as real, p)
    requires level == Steps(x, m as real) && down == Steps(y, b as real)
    ensures t * level == u * down
  {
    var q :| NeighboursBy(t, u, x as real, y as real, p, q);
    var q', n :| CentredBy(b, m, p, q', n);
    StepsIsProduct(x, m as real);
    StepsIsProduct(y, b as real);
    RatioAlgebra(t, u, x as real, y as real, p, q, n, b as real, m as real, level, down);
  }

  ghost predicate ExactStep(b: nat, m: nat, p: real, k: nat) {
    k < b + m && Exactly(b + m, k + 1, p) * Steps(k + 1, m as real) == Exactly(b + m, k, p) * Steps(b + m - k, b as real)
  }

  lemma ExactRatio(b: nat, m: nat, p: real, k: nat, t: real, u: real, level: real, down: real)
    requires Centred(b, m, p) && k < b + m && t == Exactly(b + m, k + 1, p) && u == Exactly(b + m, k, p)
    requires level == Steps(k + 1, m as real) && down == Steps(b + m - k, b as real)
    ensures t * level == u * down
  {
    ExactNext(b + m, k, p, t, u);
    RatioOf(b, m, p, t, u, k + 1, b + m - k, level, down);
  }

  lemma ExactStepHolds(b: nat, m: nat, p: real, k: nat)
    requires Centred(b, m, p) && k < b + m
    ensures ExactStep(b, m, p, k)
  {
    ExactRatio(b, m, p, k, Exactly(b + m, k + 1, p), Exactly(b + m, k, p), Steps(k + 1, m as real), Steps(b + m - k, b as real));
  }

  lemma RatioAlgebra(t: real, u: real, x: real, y: real, p: real, q: real, n: real, b: real, m: real, level: real, down: real)
    requires t * (x * q) == u * (y * p) && p * n == b && q * n == m && level == x * m && down == y * b
    ensures t * level == u * down
  {
    assert t * (x * (q * n)) == (t * (x * q)) * n;
    assert u * (y * (p * n)) == (u * (y * p)) * n;
  }

  lemma StepOf(f: nat -> real, r: Ratios, i: nat, b: nat, m: nat, p: real, k: nat)
    requires ExactStep(b, m, p, k)
    requires f(i + 1) == Exactly(b + m, k + 1, p) && f(i) == Exactly(b + m, k, p)
    requires r.level(i + 1) == Steps(k + 1, m as real) && r.down(i) == Steps(b + m - k, b as real)
    ensures WalkStep(f, r, i)
  {
  }

  lemma AboveStep(b: nat, m: nat, p: real, i: nat)
    requires Centred(b, m, p) && i <= m
    ensures WalkStep(Above(b, m, p), Weights(b, m), i)
  {
    AboveIs(b, m, p, i);
    AboveIs(b, m, p, i + 1);
    WeightsAre(b, m, i);
    WeightsAre(b, m, i + 1);
    if i < m {
      assert b + (i + 1) == b + i + 1 && b + m - (b + i) == m - i;
      ExactStepHolds(b, m, p, b + i);
      StepOf(Above(b, m, p), Weights(b, m), i, b, m, p, b + i);
    } else {
      NoneAbove(b, m, p, m + 1);
      assert Steps(0, b as real) == 0.0;
      LastStep(Above(b, m, p), Weights(b, m), m);
    }
  }

  lemma NoneAbove(b: nat, m: nat, p: real, i: nat)
    requires i > m
    ensures Above(b, m, p)(i) == 0.0
  {
    TailAboveIsZero(b + i, b + m, p);
    TailAboveIsZero(b + i + 1, b + m, p);
    AboveIs(b, m, p, i);
  }

  lemma LastStep(f: nat -> real, r: Ratios, m: nat)
    requires r.down(m) == 0.0 && f(m + 1) == 0.0
    ensures WalkStep(f, r, m)
  {
    NoProduct(f(m));
    NoProduct(r.level(m + 1));
  }

  lemma AboveWalks(b: nat, m: nat, p: real)
    requires Centred(b, m, p)
    ensures Walk(Above(b, m, p), Weights(b, m), m)
  {
    var f := Above(b, m, p);
    var q, n :| CentredBy(b, m, p, q, n);
    forall i: nat ensures f(i) >= 0.0 && (i > m ==> f(i) == 0.0) {
      TailBounds(b + i, b + m, p);
      AboveIs(b, m, p, i);
      if i > m {
        NoneAbove(b, m, p, i);
      }
    }
    forall i: nat | i <= m ensures WalkStep(f, Weights(b, m), i) {
      AboveStep(b, m, p, i);
    }
  }

  lemma StepBack(g: nat -> real, s: Ratios, i: nat, b: nat, m: nat, p: real, k: nat)
    requires ExactStep(b, m, p, k)
    requires g(i) == Exactly(b + m, k + 1, p) && g(i + 1) == Exactly(b + m, k, p)
    requires s.down(i) == Steps(k + 1, m as real) && s.level(i + 1) == Steps(b + m - k, b as real)
    ensures WalkStep(g, s, i)
  {
  }

  lemma BelowStep(b: nat, m: nat, p: real, i: nat)
    requires Centred(b, m, p) && i <= b
    ensures WalkStep(Below(b, m, p), Weights(m, b), i)
  {
    BelowIs(b, m, p, i);
    BelowIs(b, m, p, i + 1);
    WeightsAre(m, b, i);
    WeightsAre(m, b, i + 1);
    if i < b {
      assert b - i - 1 + 1 == b - i && b + m - (b - i - 1) == m + (i + 1);
      ExactStepHolds(b, m, p, b - i - 1);
      StepBack(Below(b, m, p), Weights(m, b), i, b, m, p, b - i - 1);
    } else {
      assert Steps(0, m as real) == 0.0;
      LastStep(Below(b, m, p), Weights(m, b), b);
    }
  }

  lemma BelowWalks(b: nat, m: nat, p: real)
    requires Centred(b, m, p)
    ensures Walk(Below(b, m, p), Weights(m, b), b)
  {
    var g := Below(b, m, p);
    var q, n :| CentredBy(b, m, p, q, n);
    forall i: nat ensures g(i) >= 0.0 && (i > b ==> g(i) == 0.0) {
      BelowIs(b, m, p, i);
      if i <= b {
        TailBounds(b - i, b + m, p);
      }
    }
    forall i: nat | i <= b ensures WalkStep(g, Weights(m, b), i) {
      BelowStep(b, m, p, i);
    }
  }

  lemma {:induction false} AboveSums(b: nat, m: nat, p: real, k: nat)
    ensures Sum(Above(b, m, p), k) == Tail(b, b + m, p) - Tail(b + k, b + m, p)
  {
    if k > 0 {
      AboveSums(b, m, p, k - 1);
      AboveIs(b, m, p, k - 1);
    }
  }

  lemma {:induction false} BelowSums(b: nat, m: nat, p: real, k: nat)
    requires k <= b + 1
    ensures Sum(Below(b, m, p), k) == Tail(b - k + 1, b + m, p) - Tail(b + 1, b + m, p)
  {
    if k > 0 {
      BelowSums(b, m, p, k - 1);
      BelowIs(b, m, p, k - 1);
    }
  }

  lemma {:induction false} NothingMore(f: nat -> real, m: nat, k: nat)
    requires k > m && forall i :: i > m ==> f(i) == 0.0
    ensures Sum(f, k) == Sum(f, m + 1)
  {
    if k > m + 1 {
      NothingMore(f, m, k - 1);
    }
  }

  lemma SumsAreTails(b: nat, m: nat, p: real, k: nat)
    requires k > b && k > m
    ensures Sum(Above(b, m, p), k) == Tail(b, b + m, p)
    ensures Sum(Below(b, m, p), k) - Below(b, m, p)(0) == 1.0 - Tail(b, b + m, p)
  {
    TailAboveIsZero(b + k, b + m, p);
    AboveSums(b, m, p, k);
    forall i: nat | i > b ensures Below(b, m, p)(i) == 0.0 {
      BelowIs(b, m, p, i);
    }
    NothingMore(Below(b, m, p), b, k);
    BelowSums(b, m, p, b + 1);
    BelowIs(b, m, p, 0);
  }

  lemma LowBalance(b: nat, m: nat, f: nat -> real, g: nat -> real, k: nat)
    requires 1 <= b <= m && Walk(f, Weights(b, m), m) && Walk(g, Weights(m, b), b) && f(0) == g(0) && k > b
    ensures Sum(f, k) >= Sum(g, k) - g(0)
  {
    assert WalkStep(g, Weights(m, b), 0);
    FirstStep(g(0), g(1), m, b);
    forall i: nat | i < b ensures FasterByOne(Weights(b, m), Weights(m, b), i) {
      LowFaster(b, m, i);
    }
    SumsAhead(f, Weights(b, m), m, g, Weights(m, b), b, k);
    assert Sum(g, k + 1) == Sum(g, k) + g(k);
  }

  lemma HighBalance(b: nat, m: nat, f: nat -> real, g: nat -> real, k: nat)
    requires 1 <= m < b && Walk(f, Weights(b, m), m) && Walk(g, Weights(m, b), b) && f(0) == g(0) && k > b
    ensures Sum(f, k) >= Sum(g, k)
  {
    WeightsFall(b, m);
    WeightsFall(m, b);
    HighTurns(b, m);
    WeightsAre(b, m, 0);
    WeightsAre(m, b, 0);
    StepsAre(b, m);
    StepsAre(m, b);
    assert b * m == m * b;
    CrossedSums(EarlyOf(b, m), f, Weights(b, m), m, g, Weights(m, b), b, (b + m) as real, k);
  }

  lemma SumsBalance(b: nat, m: nat, p: real, k: nat)
    requires 1 <= b && 1 <= m && Centred(b, m, p) && k > b && k > m
    ensures Sum(Above(b, m, p), k) >= Sum(Below(b, m, p), k) - Below(b, m, p)(0)
  {
    AboveWalks(b, m, p);
    BelowWalks(b, m, p);
    AboveIs(b, m, p, 0);
    BelowIs(b, m, p, 0);
    if b <= m {
      LowBalance(b, m, Above(b, m, p), Below(b, m, p), k);
    } else {
      HighBalance(b, m, Above(b, m, p), Below(b, m, p), k);
    }
  }

  lemma FirstStep(x: real, y: real, m: nat, b: nat)
    requires x >= 0.0 && m >= 1 && b >= 1 && y * Weights(m, b).level(1) == x * Weights(m, b).down(0)
    ensures y <= x
  {
    var u, v := Weights(m, b).level(1), Weights(m, b).down(0);
    WeightsAre(m, b, 0);
    WeightsAre(m, b, 1);
    StepsAre(m + 1, b);
    StepsAre(b, m);
    assert (m + 1) * b == b * m + b;
    NatProduct(m + 1, b);
    Larger(u, v, x);
    Divide(x, y, u);
  }

  lemma WholeShare(p: real, n: real)
    requires n > 0.0 && p * n == n
    ensures p == 1.0
  {
    var one := 1.0;
    assert one * n == n;
    Divide(p, one, n);
    Divide(one, p, n);
  }

  // At a chance for which b is the mean of n trials, b successes or more have at least the chance 1/2.
  lemma MeanIsMedian(b: nat, n: nat, p: real)
    requires b <= n && n >= 1 && 0.0 <= p <= 1.0 && p * n as real == b as real
    ensures Tail(b, n, p) >= 0.5
  {
    var m := n - b;
    if b == n {
      WholeShare(p, n as real);
      TailAtOne(b, n);
    } else if b > 0 {
      assert (1.0 - p) * n as real == n as real - p * n as real;
      assert CentredBy(b, m, p, 1.0 - p, n as real);
      SumsAreTails(b, m, p, n + 1);
      SumsBalance(b, m, p, n + 1);
    }
  }
}
