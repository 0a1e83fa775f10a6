// The confirmatory result of f2_analysis.py and f2_statistics.py: the exact McNemar test and the
// paired risk-difference interval, by the producer (finalize_f2) and by the auditor
// (independent_reconstruction).
module McNemar {
  import opened PyText
  import opened Average
  import opened Binomial
  import opened ClopperPearson
  import opened Median
  import opened Coverage
  import opened PairedLedger
  import opened Counter

  const ALPHA: real := 1.0 / 20.0
  const CONFIDENCE: real := 19.0 / 20.0
  const Z: real := 1.959963985

  datatype Direction = FavoursTreatment | FavoursControl | NoDirection

  datatype Statistics = Statistics(riskDifference: real, pValue: real, ciLow: real, ciHigh: real, direction: Direction)

  datatype Report = Report(
    n: nat, nTotal: nat, nMissing: nat,
    n00: nat, n01: nat, n10: nat, n11: nat,
    b: nat, c: nat, d: nat,
    stats: Statistics,
    alpha: real, confidence: real, designClass: string,
    missingByReason: Dict, gate: Gate)

  datatype Refusal = PseudoReplication | NotEligible

  datatype Outcome = Reported(report: Report) | Refused(why: Refusal)

  function AtLeast(x: real, floor: real): real {
    if x < floor then floor else x
  }

  function AtMost(x: real, ceiling: real): real {
    if x > ceiling then ceiling else x
  }

  // An end of the interval for theta = b/d, moved to the risk-difference scale.
  function ToRiskDifference(theta: real, d: nat, n: nat): real {
    (2.0 * theta - 1.0) * Fraction(d, n)
  }

  function DirectionOf(riskDifference: real): Direction {
    if riskDifference > 0.0 then FavoursTreatment else if riskDifference < 0.0 then FavoursControl else NoDirection
  }

  // The half width reported when no pair is discordant; `sqrt` is math.sqrt.
  function FallbackHalf(n: nat, sqrt: real -> real): real {
    if n != 0 then Z * sqrt(1.0 / (4.0 * n as real)) else 1.0
  }

  // The statistics of b pairs (T only), c pairs (X only), n pairs in all.
  ghost function Exact(b: nat, c: nat, n: nat, alpha: real, sqrt: real -> real): Statistics {
    var d := b + c;
    var rd := Fraction(b - c, n);
    if d == 0 then
      Statistics(rd, 1.0, AtLeast(-FallbackHalf(n, sqrt), -1.0), AtMost(FallbackHalf(n, sqrt), 1.0), DirectionOf(rd))
    else
      Statistics(rd, PValue(b, c),
                 AtLeast(ToRiskDifference(Lower(b, d, alpha), d, n), -1.0),
                 AtMost(ToRiskDifference(Upper(b, d, alpha), d, n), 1.0), DirectionOf(rd))
  }

  // What a report about a ledger has to say.
  ghost predicate Reports(r: Report, s: seq<Observation>, alpha: real, sqrt: real -> real) {
    && r.nTotal == |s| && r.n == Count(s, IsComplete) && r.nMissing == Count(s, IsMissing)
    && r.n00 == Count(s, Paired(false, false)) && r.n11 == Count(s, Paired(true, true))
    && r.n10 == r.b == Count(s, Paired(true, false)) && r.n01 == r.c == Count(s, Paired(false, true))
    && r.d == r.b + r.c
    && r.stats == Exact(r.b, r.c, r.n, alpha, sqrt)
    && (forall key :: Get(r.missingByReason, key) == Count(s, MissingKey(key)))
    && GateReports(r.gate, s)
  }

  ghost predicate GateReports(g: Gate, s: seq<Observation>) {
    && g.total == |s| && g.missing == Count(s, IsMissing)
    && g.infrastructure == Count(s, MissingKind(Infrastructure))
    && g.scientific == Count(s, MissingKind(Scientific))
    && g.unknown == Count(s, MissingKind(Unknown))
    && g.fraction == Fraction(g.infrastructure, g.total)
    && (g.satisfied <==> WithinCeiling(s))
  }

  // ---- both entry points ----

  // The common prologue: partition, missing reasons, gate, eligibility.
  method Admit(obs: seq<Observation>, designClass: string)
    returns (refusal: Option<Refusal>, complete: seq<Observation>, missing: seq<Observation>, byReason: Dict, gate: Gate)
    ensures refusal.None? <==> !Replicated(obs) && EligibleLedger(obs, designClass)
    ensures refusal == Some(PseudoReplication) <==> Replicated(obs)
    ensures refusal.None? ==> complete == Keep(obs, true) && missing == Keep(obs, false)
    ensures refusal.None? ==> (forall key :: Get(byReason, key) == Count(obs, MissingKey(key))) && GateReports(gate, obs)
  {
    var parts := Partition(obs);
    byReason, gate, complete, missing := [], Gate(0, 0, 0, 0, 0, 0.0, true), [], [];
    if parts.None? {
      refusal := Some(PseudoReplication);
      return;
    }
    complete, missing := parts.value.0, parts.value.1;
    SplitCounts(obs);
    byReason := MissingByReason(missing);
    gate := EvaluateGate(|complete| + |missing|, byReason, MAX_INFRA_FRACTION);
    GateOfLedger(obs, gate);
    var ok := Eligible(complete, gate.satisfied, designClass);
    refusal := if ok then None else Some(NotEligible);
  }

  lemma SplitCounts(obs: seq<Observation>)
    ensures |Keep(obs, true)| == Count(obs, IsComplete) && |Keep(obs, false)| == Count(obs, IsMissing)
    ensures |Keep(obs, true)| + |Keep(obs, false)| == |obs|
    ensures forall o :: o in Keep(obs, true) <==> o in obs && Complete(o)
    ensures forall o :: o in Keep(obs, false) ==> !Complete(o)
    ensures forall key :: Count(Keep(obs, false), MissingKey(key)) == Count(obs, MissingKey(key))
    ensures forall kind :: Count(Keep(obs, false), MissingKind(kind)) == Count(obs, MissingKind(kind))
    ensures forall t, x :: Count(Keep(obs, true), Paired(t, x)) == Count(obs, Paired(t, x))
  {
    KeepMembers(obs, true);
    KeepMembers(obs, false);
    KeepSize(obs, true);
    KeepSize(obs, false);
    RowsAddUp(obs);
    forall key {
      KeepCount(obs, false, MissingKey(key));
    }
    forall kind {
      KeepCount(obs, false, MissingKind(kind));
    }
    forall t, x {
      KeepCount(obs, true, Paired(t, x));
    }
  }

  lemma GateOfLedger(obs: seq<Observation>, g: Gate)
    requires g.total == |obs| && g.infrastructure == Count(obs, MissingKind(Infrastructure))
    requires g.scientific == Count(obs, MissingKind(Scientific)) && g.unknown == Count(obs, MissingKind(Unknown))
    requires g.missing == g.infrastructure + g.scientific + g.unknown
    requires g.fraction == Fraction(g.infrastructure, g.total) && (g.satisfied <==> g.fraction <= MAX_INFRA_FRACTION)
    ensures GateReports(g, obs)
  {
    RowsAddUp(obs);
    FractionMeaning(g.infrastructure, g.total, MAX_INFRA_FRACTION);
  }

  // What the gate of a report says of the rows themselves: how many are missing for a declared
  // infrastructure cause, and whether these are at most 3 in 10.
  lemma GateMeans(g: Gate, s: seq<Observation>)
    requires GateReports(g, s)
    ensures g.infrastructure == |Losses(s)|
    ensures g.satisfied <==> 10 * g.infrastructure <= 3 * |s|
  {
    LostRows(s);
    LossIsBounded(s);
  }

  method IndependentReconstruction(obs: seq<Observation>, alpha: real, confidence: real, designClass: string, sqrt: real -> real)
    returns (r: Outcome)
    ensures r.Reported? <==> !Replicated(obs) && EligibleLedger(obs, designClass)
    ensures r == Refused(PseudoReplication) <==> Replicated(obs)
    ensures r.Reported? ==> Reports(r.report, obs, alpha, sqrt)
    ensures r.Reported? ==> r.report.alpha == alpha && r.report.confidence == confidence && r.report.designClass == designClass
  {
    var refusal, complete, missing, byReason, gate := Admit(obs, designClass);
    if refusal.Some? {
      return Refused(refusal.value);
    }
    SplitCounts(obs);
    var n := |complete|;
    var b := Count(complete, Paired(true, false));
    var c := Count(complete, Paired(false, true));
    var both := Count(complete, Paired(true, true));
    var neither := Count(complete, Paired(false, false));
    var d := b + c;
    var stats := AuditStatistics(b, c, n, alpha, sqrt);
    r := Reported(Report(n, n + |missing|, |missing|, neither, c, b, both, b, c, d, stats, alpha, confidence, designClass, byReason, gate));
  }

  // The numeric part of independent_reconstruction.
  method AuditStatistics(b: nat, c: nat, n: nat, alpha: real, sqrt: real -> real) returns (stats: Statistics)
    ensures stats == Exact(b, c, n, alpha, sqrt)
  {
    var d := b + c;
    var difference: int := b as int - c as int;
    var rd := Fraction(difference, n);
    var p, low, high;
    if d == 0 {
      var half := FallbackHalf(n, sqrt);
      p, low, high := 1.0, AtLeast(-half, -1.0), AtMost(half, 1.0);
    } else {
      p := AtMost(2.0 * Sf(Max(b, c), d, 0.5), 1.0);
      var pLo, pHi := CpBounds(b, d, alpha);
      low := AtLeast(ToRiskDifference(pLo, d, n), -1.0);
      high := AtMost(ToRiskDifference(pHi, d, n), 1.0);
    }
    stats := Statistics(rd, p, low, high, DirectionOf(rd));
  }

  // ---- the producer's own arithmetic (f2_statistics.py) ----

  function ZipCount(ts: seq<bool>, xs: seq<bool>, t: bool, x: bool): nat
    requires |ts| == |xs|
  {
    if ts == [] then 0 else (if ts[0] == t && xs[0] == x then 1 else 0) + ZipCount(ts[1..], xs[1..], t, x)
  }

  function TValues(s: seq<Observation>): (ts: seq<bool>)
    ensures |ts| == |s|
  {
    if s == [] then [] else [s[0].t == Some(true)] + TValues(s[1..])
  }

  function XValues(s: seq<Observation>): (xs: seq<bool>)
    ensures |xs| == |s|
  {
    if s == [] then [] else [s[0].x == Some(true)] + XValues(s[1..])
  }

  lemma {:induction false} ZipCountsPairs(s: seq<Observation>, t: bool, x: bool)
    requires forall o :: o in s ==> Complete(o)
    ensures ZipCount(TValues(s), XValues(s), t, x) == Count(s, Paired(t, x))
  {
    if s != [] {
      assert s[0] in s && forall o :: o in s[1..] ==> o in s;
      ZipCountsPairs(s[1..], t, x);
      assert s[0].t.Some? && s[0].x.Some?;
      var u, v := s[0].t.value, s[0].x.value;
      assert s[0].t == Some(u) && s[0].x == Some(v);
      assert TValues(s)[0] == u && XValues(s)[0] == v;
      assert Meets(s[0], Paired(t, x)) <==> u == t && v == x;
      assert TValues(s)[1..] == TValues(s[1..]) && XValues(s)[1..] == XValues(s[1..]);
    }
  }

  // The producer computes the upper tail as one minus the lower tail; the auditor sums it directly.
  lemma ProducerTailIsAuditorTail(k: int, n: int, p: real)
    requires n >= 1
    ensures 1.0 - Cdf(k - 1, n, p) == Sf(k, n, p)
  {
    SfIsTail(k, n, p);
    CdfIsTail(k - 1, n, p);
  }

  // _binom_cdf_bisect
  method BinomCdfBisect(k: int, n: int, target: real, upper: bool) returns (m: real)
    requires n >= 1
    ensures m == Point(2 * (if upper then LowIndex(k, n, target, STEPS) else HighIndex(k, n, target, STEPS)) + 1, STEPS + 1)
  {
    var lo, hi := 0.0, 1.0;
    ghost var j := 0;
    PointEnds(0);
    for i := 0 to STEPS
      invariant lo == Point(j, i) && hi == Point(j + 1, i)
      invariant if upper then LowCell(k, n, target, i, j) else HighCell(k, n, target, i, j)
    {
      var mid := (lo + hi) / 2.0;
      PointOrder(j, j, i);
      PointMiddle(j, i);
      if upper {
        var val := 1.0 - Cdf(k - 1, n, mid);
        ProducerTailIsAuditorTail(k, n, mid);
        LowCellStep(k, n, target, i, j);
        if val < target {
          lo, j := mid, 2 * j + 1;
        } else {
          hi, j := mid, 2 * j;
        }
      } else {
        var val := Cdf(k, n, mid);
        HighCellStep(k, n, target, i, j);
        if val > target {
          lo, j := mid, 2 * j + 1;
        } else {
          hi, j := mid, 2 * j;
        }
      }
    }
    PointMiddle(j, STEPS);
    if upper {
      LowCellUnique(k, n, target, STEPS, j, LowIndex(k, n, target, STEPS));
    } else {
      HighCellUnique(k, n, target, STEPS, j, HighIndex(k, n, target, STEPS));
    }
    m := (lo + hi) / 2.0;
  }

  // mcnemar_exact, two-sided, with _paired_rd_and_interval at its own confidence of 0.95
  method McNemarExact(ts: seq<bool>, xs: seq<bool>, sqrt: real -> real) returns (b: nat, c: nat, both: nat, neither: nat, stats: Statistics)
    requires |ts| == |xs|
    ensures b == ZipCount(ts, xs, true, false) && c == ZipCount(ts, xs, false, true)
    ensures both == ZipCount(ts, xs, true, true) && neither == ZipCount(ts, xs, false, false)
    ensures stats == Exact(b, c, b + c + both + neither, ALPHA, sqrt)
  {
    b, c := ZipCount(ts, xs, true, false), ZipCount(ts, xs, false, true);
    both, neither := ZipCount(ts, xs, true, true), ZipCount(ts, xs, false, false);
    var d, m := b + c, b + c + both + neither;
    var p, rd, low, high;
    if m == 0 {
      rd, low, high := 0.0, -1.0, 1.0;
    } else if d == 0 {
      var half := FallbackHalf(m, sqrt);
      rd, low, high := 0.0, AtLeast(-half, -1.0), AtMost(half, 1.0);
    } else {
      var lo, hi := 0.0, 1.0;
      if b != 0 {
        lo := BinomCdfBisect(b, d, (1.0 - CONFIDENCE) / 2.0, true);
      }
      if b != d {
        hi := BinomCdfBisect(b, d, (1.0 - CONFIDENCE) / 2.0, false);
      }
      assert (1.0 - CONFIDENCE) / 2.0 == ALPHA / 2.0;
      rd := Fraction(b - c, m);
      low := AtLeast(ToRiskDifference(lo, d, m), -1.0);
      high := AtMost(ToRiskDifference(hi, d, m), 1.0);
    }
    p := if d == 0 then 1.0 else AtMost(2.0 * Sf(Max(b, c), d, 0.5), 1.0);
    stats := Statistics(rd, p, low, high, DirectionOf(rd));
  }

  // finalize_f2. Its contract is that of IndependentReconstruction at alpha = 0.05 whatever the argument:
  // the two refuse the same ledgers, and ProducerAgreesIff says when their numbers agree.
  method FinalizeF2(obs: seq<Observation>, alpha: real, confidence: real, designClass: string, sqrt: real -> real)
    returns (r: Outcome)
    ensures r.Reported? <==> !Replicated(obs) && EligibleLedger(obs, designClass)
    ensures r == Refused(PseudoReplication) <==> Replicated(obs)
    ensures r.Reported? ==> Reports(r.report, obs, ALPHA, sqrt)
    ensures r.Reported? ==> r.report.alpha == alpha && r.report.confidence == confidence && r.report.designClass == designClass
  {
    var refusal, complete, missing, byReason, gate := Admit(obs, designClass);
    if refusal.Some? {
      return Refused(refusal.value);
    }
    SplitCounts(obs);
    RowsAddUp(obs);
    ZipCountsPairs(complete, true, false);
    ZipCountsPairs(complete, false, true);
    ZipCountsPairs(complete, true, true);
    ZipCountsPairs(complete, false, false);
    var b, c, both, neither, stats := McNemarExact(TValues(complete), XValues(complete), sqrt);
    r := Reported(Report(|complete|, |complete| + |missing|, |missing|, neither, c, b, both, b, c, b + c,
                         stats, alpha, confidence, designClass, byReason, gate));
  }

  // ---- what the reported numbers satisfy ----

  lemma ScaleBounds(d: nat, n: nat)
    requires 1 <= d <= n
    ensures 0.0 < Fraction(d, n) <= 1.0
  {
    FractionMeaning(d, n, 1.0);
    FractionMeaning(d, n, 0.0);
  }

  lemma TransformOrder(u: real, v: real, d: nat, n: nat)
    requires 1 <= d <= n && 0.0 <= u <= v <= 1.0
    ensures -1.0 <= ToRiskDifference(u, d, n) <= ToRiskDifference(v, d, n) <= 1.0
    ensures u < v ==> ToRiskDifference(u, d, n) < ToRiskDifference(v, d, n)
    ensures ToRiskDifference(v, d, n) < 0.0 <==> v < 0.5
    ensures ToRiskDifference(u, d, n) > 0.0 <==> u > 0.5
  {
    ScaleBounds(d, n);
    var f, x, y := Fraction(d, n), 2.0 * u - 1.0, 2.0 * v - 1.0;
    ScaledOrder(x, y, f);
    assert ToRiskDifference(u, d, n) == x * f && ToRiskDifference(v, d, n) == y * f;
  }

  lemma ScaledOrder(x: real, y: real, f: real)
    requires 0.0 < f <= 1.0 && -1.0 <= x <= y <= 1.0
    ensures -1.0 <= x * f <= y * f <= 1.0
    ensures x < y ==> x * f < y * f
    ensures (y * f < 0.0 <==> y < 0.0) && (x * f > 0.0 <==> x > 0.0)
  {
    ScaleOne(x, f);
    ScaleOne(y, f);
    ScaleOne(y - x, f);
    assert (y - x) * f == y * f - x * f;
  }

  lemma ScaleOne(x: real, f: real)
    requires 0.0 < f <= 1.0
    ensures x > 0.0 ==> 0.0 < x * f <= x
    ensures x == 0.0 ==> x * f == 0.0
    ensures x < 0.0 ==> x <= x * f < 0.0
  {
  }

  // The interval is ordered, within [-1, 1], and neither clamp binds.
  lemma IntervalWellFormed(b: nat, c: nat, n: nat, alpha: real, sqrt: real -> real)
    requires 1 <= b + c <= n && 0.0 < alpha < 1.0
    ensures var e := Exact(b, c, n, alpha, sqrt);
      && -1.0 <= e.ciLow <= e.ciHigh <= 1.0
      && e.ciLow == ToRiskDifference(Lower(b, b + c, alpha), b + c, n)
      && e.ciHigh == ToRiskDifference(Upper(b, b + c, alpha), b + c, n)
  {
    BoundsOrdered(b, b + c, alpha);
    TransformOrder(Lower(b, b + c, alpha), Upper(b, b + c, alpha), b + c, n);
  }

  // The estimate of any report is (b - c) / n; without a discordant pair the p-value is 1 and the interval
  // runs from minus to plus 1.959963985 times the root of 1 / (4n), cut off at -1 and 1.
  lemma EstimateAndFallback(b: nat, c: nat, n: nat, alpha: real, sqrt: real -> real)
    requires b + c <= n && n > 0
    ensures var e := Exact(b, c, n, alpha, sqrt);
      && e.riskDifference == (b - c) as real / n as real
      && (b + c == 0 ==>
            && e.pValue == 1.0
            && e.ciHigh == (if FallbackHalf(n, sqrt) < 1.0 then FallbackHalf(n, sqrt) else 1.0) && e.ciLow == -e.ciHigh)
  {
  }

  lemma FallbackIs(n: nat, sqrt: real -> real, root: real)
    requires n > 0 && root == sqrt(1.0 / (4.0 * n as real))
    ensures FallbackHalf(n, sqrt) == 1.959963985 * root
    ensures FallbackHalf(0, sqrt) == 1.0
  {
  }

  // ---- the published scale ----

  // If a discordant pair favours the treatment with chance p, the expected risk difference of d
  // discordant pairs among n.
  function TrueDifference(p: real, d: nat, n: nat): real
    requires n > 0
  {
    (p * d as real - (1.0 - p) * d as real) / n as real
  }

  lemma ScaleIsRiskDifference(p: real, d: nat, n: nat)
    requires n > 0
    ensures ToRiskDifference(p, d, n) == TrueDifference(p, d, n)
  {
    var x, y, f := d as real, n as real, Fraction(d, n);
    Ratio(x, x, y);
    Scaled(p, x, y, f, ToRiskDifference(p, d, n), p * x - (1.0 - p) * x);
  }

  lemma Scaled(p: real, x: real, y: real, f: real, image: real, z: real)
    requires y > 0.0 && f * y == x && image == (2.0 * p - 1.0) * f && z == p * x - (1.0 - p) * x
    ensures image == z / y
  {
    var q := 2.0 * p - 1.0;
    Associate(q, f, y);
    assert q * x == p * x - (1.0 - p) * x;
    Quotient(image, y, z);
  }

  lemma Associate(q: real, f: real, y: real)
    ensures (q * f) * y == q * (f * y)
  {
  }

  lemma Quotient(a: real, y: real, z: real)
    requires y > 0.0 && a * y == z
    ensures a == z / y
  {
    Ratio(z, z, y);
    var q := z / y;
    SameProduct(a, q, y);
  }

  lemma SameProduct(a: real, q: real, y: real)
    requires y > 0.0 && a * y == q * y
    ensures a == q
  {
    if a < q {
      KeepsStrictOrder(a, q, y);
    } else if q < a {
      KeepsStrictOrder(q, a, y);
    }
  }

  lemma KeepsStrictOrder(x: real, y: real, f: real)
    requires f > 0.0 && x < y
    ensures x * f < y * f
  {
    var d := y - x;
    Product(d, f);
    Distribute(d, x, f);
    assert d + x == y;
  }

  // The observed share b / (b + c) is published as the estimate (b - c) / n.
  lemma ShareIsPublishedAsEstimate(b: nat, c: nat, n: nat)
    requires 1 <= b + c <= n
    ensures ToRiskDifference(b as real / (b + c) as real, b + c, n) == (b - c) as real / n as real
  {
    var d, m := (b + c) as real, n as real;
    var p := b as real / d;
    Ratio(b as real, b as real, d);
    ScaleIsRiskDifference(p, b + c, n);
    var x, y := p * d, (1.0 - p) * d;
    assert x == b as real;
    Distribute(1.0 - p, p, d);
    assert y == c as real;
    assert x - y == (b - c) as real;
    assert TrueDifference(p, b + c, n) == (x - y) / m;
  }

  // The published interval, each end moved out by the image of half a cell of the bisection grid, leaves
  // out the true difference.
  ghost predicate PublishedMisses(b: nat, d: nat, n: nat, alpha: real, p: real, sqrt: real -> real)
    requires b <= d && n > 0
  {
    var e := Exact(b, d - b, n, alpha, sqrt);
    TrueDifference(p, d, n) < e.ciLow - HalfCellImage(d, n) || e.ciHigh + HalfCellImage(d, n) < TrueDifference(p, d, n)
  }

  ghost function HalfCellImage(d: nat, n: nat): real {
    2.0 * HalfCell() * Fraction(d, n)
  }

  lemma TransformShift(u: real, v: real, d: nat, n: nat)
    requires v == u + HalfCell()
    ensures ToRiskDifference(v, d, n) == ToRiskDifference(u, d, n) + HalfCellImage(d, n)
  {
    var f := Fraction(d, n);
    var q, x := 2.0 * u - 1.0, 2.0 * HalfCell();
    Distribute(q, x, f);
    assert 2.0 * v - 1.0 == q + x;
  }

  lemma Distribute(q: real, x: real, f: real)
    ensures (q + x) * f == q * f + x * f
  {
  }

  lemma TransformReflects(u: real, v: real, d: nat, n: nat)
    requires 1 <= d <= n && ToRiskDifference(u, d, n) < ToRiskDifference(v, d, n)
    ensures u < v
  {
    ScaleBounds(d, n);
    ScaledReflects(2.0 * u - 1.0, 2.0 * v - 1.0, Fraction(d, n));
  }

  lemma ScaledReflects(x: real, y: real, f: real)
    requires f > 0.0 && x * f < y * f
    ensures x < y
  {
    if y <= x {
      KeepsOrder(y, x, f);
    }
  }

  lemma KeepsOrder(x: real, y: real, f: real)
    requires f > 0.0 && x <= y
    ensures x * f <= y * f
  {
    var d := y - x;
    Product(d, f);
    Distribute(d, x, f);
    assert d + x == y;
  }

  lemma PublishedMissIff(b: nat, d: nat, n: nat, alpha: real, p: real, sqrt: real -> real)
    requires b <= d && 1 <= d <= n && 0.0 < alpha < 1.0
    ensures PublishedMisses(b, d, n, alpha, p, sqrt) <==>
      TrueDifference(p, d, n) < ToRiskDifference(Lower(b, d, alpha) - HalfCell(), d, n)
      || ToRiskDifference(Upper(b, d, alpha) + HalfCell(), d, n) < TrueDifference(p, d, n)
  {
    IntervalWellFormed(b, d - b, n, alpha, sqrt);
    TransformShift(Lower(b, d, alpha) - HalfCell(), Lower(b, d, alpha), d, n);
    TransformShift(Upper(b, d, alpha), Upper(b, d, alpha) + HalfCell(), d, n);
  }

  lemma PublishedMissIsMiss(b: nat, d: nat, n: nat, alpha: real, p: real, sqrt: real -> real)
    requires b <= d && 1 <= d <= n && 0.0 < alpha < 1.0 && PublishedMisses(b, d, n, alpha, p, sqrt)
    ensures MissesAbove(b, d, alpha, p) || MissesBelow(b, d, alpha, p)
  {
    PublishedMissIff(b, d, n, alpha, p, sqrt);
    ScaleIsRiskDifference(p, d, n);
    if TrueDifference(p, d, n) < ToRiskDifference(Lower(b, d, alpha) - HalfCell(), d, n) {
      TransformReflects(p, Lower(b, d, alpha) - HalfCell(), d, n);
    } else {
      TransformReflects(Upper(b, d, alpha) + HalfCell(), p, d, n);
    }
  }

  // Coverage on the published scale: whatever the chance p that a discordant pair favours the treatment,
  // the splits of d discordant pairs whose published interval leaves out the true difference weigh at
  // most alpha.
  lemma PublishedIntervalCovers(d: nat, n: nat, alpha: real, p: real, sqrt: real -> real)
    requires 1 <= d <= n && 0.0 < alpha < 1.0 && 0.0 <= p <= 1.0
    ensures Weight(d, p, b => 0 <= b <= d && PublishedMisses(b, d, n, alpha, p, sqrt), 0, d + 1) <= alpha
  {
    var miss := b => 0 <= b <= d && PublishedMisses(b, d, n, alpha, p, sqrt);
    forall b | 0 <= b <= d && miss(b)
      ensures MissesAbove(b, d, alpha, p) || MissesBelow(b, d, alpha, p)
    {
      PublishedMissIsMiss(b, d, n, alpha, p, sqrt);
    }
    MissesAreRare(d, alpha, p, miss);
  }

  lemma TransformKeepsOrder(u: real, v: real, d: nat, n: nat)
    requires 1 <= d <= n && u <= v
    ensures ToRiskDifference(u, d, n) <= ToRiskDifference(v, d, n)
  {
    ScaleBounds(d, n);
    KeepsOrder(2.0 * u - 1.0, 2.0 * v - 1.0, Fraction(d, n));
  }

  lemma ShareIs(b: nat, d: nat) returns (s: real)
    requires b <= d && d >= 1
    ensures s == b as real / d as real && s * d as real == b as real && 0.0 <= s <= 1.0
  {
    s := b as real / d as real;
    Ratio(b as real, d as real, d as real);
    Ratio(0.0, b as real, d as real);
    UnitRatio(d as real);
  }

  // What lies between two bounds as a share lies between their images as an estimate.
  lemma BetweenImages(lo: real, hi: real, b: nat, c: nat, n: nat, s: real)
    requires 1 <= b + c <= n && s == b as real / (b + c) as real && lo <= s <= hi
    ensures ToRiskDifference(lo, b + c, n) <= (b as real - c as real) / n as real <= ToRiskDifference(hi, b + c, n)
  {
    ShareIsPublishedAsEstimate(b, c, n);
    TransformKeepsOrder(lo, s, b + c, n);
    TransformKeepsOrder(s, hi, b + c, n);
  }

  lemma NearImages(lo: real, hi: real, b: nat, c: nat, n: nat, s: real)
    requires 1 <= b + c <= n && s == b as real / (b + c) as real && lo - HalfCell() <= s <= hi + HalfCell()
    ensures ToRiskDifference(lo, b + c, n) - HalfCellImage(b + c, n) <= (b as real - c as real) / n as real
    ensures (b as real - c as real) / n as real <= ToRiskDifference(hi, b + c, n) + HalfCellImage(b + c, n)
  {
    TransformShift(lo - HalfCell(), lo, b + c, n);
    TransformShift(hi, hi + HalfCell(), b + c, n);
    BetweenImages(lo - HalfCell(), hi + HalfCell(), b, c, n, s);
  }

  lemma ShareIsInside(b: nat, d: nat, alpha: real) returns (s: real)
    requires b <= d && d >= 1 && 0.0 < alpha < 1.0
    ensures s == b as real / d as real && Lower(b, d, alpha) - HalfCell() <= s <= Upper(b, d, alpha) + HalfCell()
    ensures SmallCells(d, alpha) ==> Lower(b, d, alpha) <= s <= Upper(b, d, alpha)
  {
    s := ShareIs(b, d);
    LowerUnderShare(b, d, alpha, s);
    UpperOverShare(b, d, alpha, s);
  }

  // The estimate lies in the published interval moved out by half a cell,
  lemma EstimateIsNear(b: nat, c: nat, n: nat, alpha: real, sqrt: real -> real)
    requires 1 <= b + c <= n && 0.0 < alpha < 1.0
    ensures var e, half := Exact(b, c, n, alpha, sqrt), HalfCellImage(b + c, n);
      e.ciLow - half <= e.riskDifference <= e.ciHigh + half
  {
    var s := ShareIsInside(b, b + c, alpha);
    IntervalWellFormed(b, c, n, alpha, sqrt);
    NearImages(Lower(b, b + c, alpha), Upper(b, b + c, alpha), b, c, n, s);
  }

  // and in the interval itself as long as the cells are small against the room that alpha leaves:
  // (b + c) 2^-200 <= 1 - alpha.
  lemma EstimateIsInside(b: nat, c: nat, n: nat, alpha: real, sqrt: real -> real)
    requires 1 <= b + c <= n && 0.0 < alpha < 1.0 && SmallCells(b + c, alpha)
    ensures var e := Exact(b, c, n, alpha, sqrt); e.ciLow <= e.riskDifference <= e.ciHigh
  {
    var s := ShareIsInside(b, b + c, alpha);
    IntervalWellFormed(b, c, n, alpha, sqrt);
    BetweenImages(Lower(b, b + c, alpha), Upper(b, b + c, alpha), b, c, n, s);
  }

  lemma TransformOrderIff(u: real, v: real, d: nat, n: nat)
    requires 1 <= d <= n
    ensures u <= v <==> ToRiskDifference(u, d, n) <= ToRiskDifference(v, d, n)
  {
    ScaleBounds(d, n);
    if u <= v {
      TransformKeepsOrder(u, v, d, n);
    } else {
      KeepsStrictOrder(2.0 * v - 1.0, 2.0 * u - 1.0, Fraction(d, n));
    }
  }

  // In general the estimate lies in the interval exactly when both bounds reach the share b / (b + c) on
  // the grid, where g is the cell it lies in; with one of the counts 0 it always does.
  lemma EstimateIsInsideIff(b: nat, c: nat, n: nat, alpha: real, sqrt: real -> real, s: real, g: int)
    requires 1 <= b + c <= n && 0.0 < alpha < 1.0 && s == b as real / (b + c) as real
    requires b > 0 && c > 0 ==> InCell(s, g)
    ensures var e := Exact(b, c, n, alpha, sqrt);
      e.ciLow <= e.riskDifference <= e.ciHigh <==>
        (b > 0 && c > 0 ==> LowerReaches(b, b + c, alpha, s, g) && UpperReaches(b, b + c, alpha, s, g))
  {
    var d := b + c;
    var share := ShareIs(b, d);
    IntervalWellFormed(b, c, n, alpha, sqrt);
    ShareIsPublishedAsEstimate(b, c, n);
    TransformOrderIff(Lower(b, d, alpha), s, d, n);
    TransformOrderIff(s, Upper(b, d, alpha), d, n);
    if b > 0 && c > 0 {
      LowerReachesIff(b, d, alpha, s, g);
      UpperReachesIff(b, d, alpha, s, g);
    } else {
      EndsReachShare(b, d, alpha, s);
    }
  }

  lemma EndsReachShare(b: nat, d: nat, alpha: real, s: real)
    requires d >= 1 && (b == 0 || b == d) && s == b as real / d as real && 0.0 < alpha < 1.0
    ensures Lower(b, d, alpha) <= s <= Upper(b, d, alpha)
  {
    BoundsOrdered(b, d, alpha);
    UnitRatio(d as real);
    if b == 0 {
      Ratio(0.0, 0.0, d as real);
    }
  }

  // It does not for a single discordant pair for the treatment among more than 2^201: the lower end is
  // half a cell or more, and the share is less.
  lemma EstimateBelowInterval(c: nat, n: nat, alpha: real, sqrt: real -> real)
    requires Pow2(STEPS + 1) <= c && 1 + c <= n && 0.0 < alpha < 1.0
    ensures var e := Exact(1, c, n, alpha, sqrt); e.riskDifference < e.ciLow
  {
    var d := 1 + c;
    PowPositive(STEPS + 1);
    var s := ShareIs(1, d);
    TinyShare(s, d);
    LowerReachesIff(1, d, alpha, s, 0);
    IntervalWellFormed(1, c, n, alpha, sqrt);
    ShareIsPublishedAsEstimate(1, c, n);
    TransformOrderIff(Lower(1, d, alpha), s, d, n);
  }

  lemma TinyShare(s: real, d: nat)
    requires Pow2(STEPS + 1) < d && 0.0 <= s && s * d as real == 1.0
    ensures InCell(s, 0) && s < Point(1, STEPS + 1)
  {
    var half := Point(1, STEPS + 1);
    PowPositive(STEPS + 1);
    PowPositive(STEPS);
    PointScaled(1, STEPS + 1);
    Tinier(s, half, d as real, Pow2(STEPS + 1) as real);
    PointEnds(STEPS);
    PointOrder(1, 1, STEPS);
    PointOrder(1, 2, STEPS + 1);
    assert 2 * 1 == 2 && 0 + 1 == 1;
  }

  lemma Tinier(s: real, t: real, d: real, m: real)
    requires d > m > 0.0 && s * d == 1.0 == t * m
    ensures s < t
  {
    if s >= t {
      Larger(s, t, m);
      Smaller(m, d, s);
    }
  }

  lemma HalfIsGridPoint(s: nat)
    requires s >= 1
    ensures Point(Pow2(s - 1), s) == 0.5 && Pow2(s) == 2 * Pow2(s - 1) && Pow2(s - 1) >= 1
  {
    PowPositive(s - 1);
    PointComplement(Pow2(s - 1), s);
  }

  // Which side of 1/2 a bound falls on is decided by the tail at 1/2, where the first midpoint lies.
  lemma LowerAboveHalf(k: nat, n: nat, alpha: real)
    requires 1 <= n && k <= n && 0.0 < alpha
    ensures Lower(k, n, alpha) > 0.5 <==> k >= 1 && Sf(k, n, 0.5) < alpha / 2.0
  {
    HalfIsGridPoint(STEPS);
    HalfIsGridPoint(STEPS + 1);
    if k >= 1 {
      var j, h := LowIndex(k, n, alpha / 2.0, STEPS), Pow2(STEPS - 1);
      PointOrder(Pow2(STEPS), 2 * j + 1, STEPS + 1);
      if h <= j {
        TailsOrdered(k, n, h, j, STEPS);
      } else {
        TailsOrdered(k, n, j + 1, h, STEPS);
      }
    }
  }

  lemma UpperBelowHalf(k: nat, n: nat, alpha: real)
    requires 1 <= n && k <= n && alpha < 1.0
    ensures Upper(k, n, alpha) < 0.5 <==> k < n && Cdf(k, n, 0.5) <= alpha / 2.0
  {
    HalfIsGridPoint(STEPS);
    HalfIsGridPoint(STEPS + 1);
    if k < n {
      var j, h := HighIndex(k, n, alpha / 2.0, STEPS), Pow2(STEPS - 1);
      PointOrder(2 * j + 1, Pow2(STEPS), STEPS + 1);
      if h <= j {
        TailsOrdered(k, n, h, j, STEPS);
      } else {
        TailsOrdered(k, n, j + 1, h, STEPS);
      }
    }
  }

  // The interval clears zero upwards exactly when the test rejects in favour of T; downwards exactly
  // when it rejects in favour of X or sits on the boundary p == alpha.
  lemma IntervalMatchesTest(b: nat, c: nat, n: nat, alpha: real, sqrt: real -> real)
    requires 1 <= b + c <= n && 0.0 < alpha < 1.0
    ensures var e := Exact(b, c, n, alpha, sqrt);
      && (e.ciLow > 0.0 <==> b > c && e.pValue < alpha)
      && (e.ciHigh < 0.0 <==> c > b && e.pValue <= alpha)
  {
    var d := b + c;
    IntervalWellFormed(b, c, n, alpha, sqrt);
    BoundsOrdered(b, d, alpha);
    TransformOrder(Lower(b, d, alpha), Upper(b, d, alpha), d, n);
    LowerAboveHalf(b, d, alpha);
    UpperBelowHalf(b, d, alpha);
    SfMirrorsCdf(c, d, 0.5);
    SfIsTail(b, d, 0.5);
    SfIsTail(c, d, 0.5);
    HalfAtCentre(b, d);
    HalfAtCentre(c, d);
  }

  lemma AllSucceedStep(d: nat)
    requires d > 0
    ensures Tail(d, d, 0.5) == Tail(d - 1, d - 1, 0.5) / 2.0 && Pow2(d) == 2 * Pow2(d - 1)
  {
    TailAboveIsZero(d, d - 1, 0.5);
  }

  lemma HalfOfFraction(x: real, w: int)
    requires IsFraction(x, w, 1)
    ensures IsFraction(x / 2.0, 2 * w, 1)
  {
  }

  // d heads in a row have the chance 1 / 2^d.
  lemma {:induction false} AllSucceed(d: nat)
    ensures IsFraction(Tail(d, d, 0.5), Pow2(d), 1)
  {
    if d > 0 {
      AllSucceed(d - 1);
      AllSucceedStep(d);
      HalfOfFraction(Tail(d - 1, d - 1, 0.5), Pow2(d - 1));
    }
  }

  // The boundary is reached: d pairs against the treatment and none for it, at alpha = 2^(1-d). For
  // d = 5 that is 1/16.
  lemma BoundaryCase(d: nat, n: nat, alpha: real, sqrt: real -> real)
    requires 2 <= d <= n && alpha * Pow2(d) as real == 2.0
    ensures var e := Exact(0, d, n, alpha, sqrt); e.pValue == alpha && e.ciHigh < 0.0
  {
    OneSidedPValue(d, alpha);
    IntervalMatchesTest(0, d, n, alpha, sqrt);
  }

  lemma OneSidedPValue(d: nat, alpha: real)
    requires 2 <= d && alpha * Pow2(d) as real == 2.0
    ensures PValue(0, d) == alpha && 0.0 < alpha < 1.0
  {
    AllSucceed(d);
    FourAtLeast(d);
    BoundaryAlpha(alpha, Tail(d, d, 0.5), Pow2(d) as real);
    PValueOfAll(d);
  }

  lemma FourAtLeast(d: nat)
    requires d >= 2
    ensures Pow2(d) >= 4
  {
    PowPositive(d - 2);
    assert Pow2(d) == 2 * Pow2(d - 1);
  }

  lemma PValueOfAll(d: nat)
    requires d >= 1
    ensures PValue(0, d) == AtMost(2.0 * Tail(d, d, 0.5), 1.0)
  {
    SfIsTail(d, d, 0.5);
  }

  lemma BoundaryAlpha(alpha: real, t: real, m: real)
    requires alpha * m == 2.0 && t * m == 1.0 && m >= 4.0
    ensures alpha == 2.0 * t && 0.0 < alpha < 1.0
  {
    assert (alpha - 2.0 * t) * m == 0.0;
    assert (1.0 - alpha) * m >= 2.0;
  }

  // Duality at alpha = 0.05: the interval excludes zero exactly when p < alpha, and then lies on the
  // side named by the direction. No p-value ties with 1/20.
  lemma IntervalExcludesZeroIffSignificant(b: nat, c: nat, n: nat, sqrt: real -> real)
    requires b + c <= n
    requires b + c == 0 ==> FallbackHalf(n, sqrt) >= 0.0
    ensures var e := Exact(b, c, n, ALPHA, sqrt);
      && (e.ciLow > 0.0 || e.ciHigh < 0.0 <==> e.pValue < ALPHA)
      && (e.ciLow > 0.0 ==> e.direction == FavoursTreatment)
      && (e.ciHigh < 0.0 ==> e.direction == FavoursControl)
  {
    if b + c >= 1 {
      var d := b + c;
      IntervalMatchesTest(b, c, n, ALPHA, sqrt);
      SfIsTail(Max(b, c), d, 0.5);
      TailMissesOneFortieth(Max(b, c), d, 0.5, 1, 2);
      PValueIsOneIffEven(b, c);
      DirectionFollowsCounts(b, c, n);
    }
  }

  lemma DirectionFollowsCounts(b: nat, c: nat, n: nat)
    requires n >= 1
    ensures DirectionOf(Fraction(b - c, n)) == if b > c then FavoursTreatment else if b < c then FavoursControl else NoDirection
  {
    var x, w := (b - c) as real, n as real;
    assert (x / w) * w == x;
  }

  function Opposite(d: Direction): Direction {
    match d
    case FavoursTreatment => FavoursControl
    case FavoursControl => FavoursTreatment
    case NoDirection => NoDirection
  }

  // Exchanging the arms keeps the p-value and reflects everything else through zero, exactly.
  lemma ExactAntisymmetry(b: nat, c: nat, n: nat, sqrt: real -> real)
    requires b + c <= n
    ensures var e, f := Exact(b, c, n, ALPHA, sqrt), Exact(c, b, n, ALPHA, sqrt);
      && f.pValue == e.pValue
      && f.riskDifference == -e.riskDifference
      && f.ciLow == -e.ciHigh && f.ciHigh == -e.ciLow
      && f.direction == Opposite(e.direction)
  {
    if n > 0 {
      NegatedFraction(b - c, n);
    }
    if b + c > 0 {
      MirrorAtOneTwentieth(b, b + c);
      MirrorAtOneTwentieth(c, b + c);
      MirroredTransform(Lower(b, b + c, ALPHA), b + c, n);
      MirroredTransform(Lower(c, b + c, ALPHA), b + c, n);
    }
  }

  lemma NegatedFraction(x: int, n: nat)
    requires n > 0
    ensures Fraction(-x, n) == -Fraction(x, n)
  {
  }

  lemma MirroredTransform(u: real, d: nat, n: nat)
    ensures ToRiskDifference(1.0 - u, d, n) == -ToRiskDifference(u, d, n)
  {
    var f := Fraction(d, n);
    assert (2.0 * (1.0 - u) - 1.0) * f == -((2.0 * u - 1.0) * f);
  }

  // ---- producer and auditor at another alpha ----

  // The cells that the two loops find at 1/20 hold the crossings at alpha as well.
  ghost predicate SameCells(k: int, n: int, alpha: real) {
    && (k > 0 ==> LowCell(k, n, alpha / 2.0, STEPS, LowIndex(k, n, ALPHA / 2.0, STEPS)))
    && (k < n ==> HighCell(k, n, alpha / 2.0, STEPS, HighIndex(k, n, ALPHA / 2.0, STEPS)))
  }

  lemma SameBoundsIff(k: int, n: int, alpha: real)
    requires n >= 1 && 0 <= k <= n
    ensures Lower(k, n, ALPHA) == Lower(k, n, alpha) && Upper(k, n, ALPHA) == Upper(k, n, alpha) <==> SameCells(k, n, alpha)
  {
    SameLowerIff(k, n, alpha);
    SameUpperIff(k, n, alpha);
  }

  lemma SameLowerIff(k: int, n: int, alpha: real)
    requires n >= 1 && 0 <= k <= n
    ensures Lower(k, n, ALPHA) == Lower(k, n, alpha)
      <==> (k > 0 ==> LowCell(k, n, alpha / 2.0, STEPS, LowIndex(k, n, ALPHA / 2.0, STEPS)))
  {
    var i, j := LowIndex(k, n, ALPHA / 2.0, STEPS), LowIndex(k, n, alpha / 2.0, STEPS);
    SameMiddles(i, j);
    if LowCell(k, n, alpha / 2.0, STEPS, i) {
      LowCellUnique(k, n, alpha / 2.0, STEPS, i, j);
    }
  }

  lemma SameUpperIff(k: int, n: int, alpha: real)
    requires n >= 1 && 0 <= k <= n
    ensures Upper(k, n, ALPHA) == Upper(k, n, alpha)
      <==> (k < n ==> HighCell(k, n, alpha / 2.0, STEPS, HighIndex(k, n, ALPHA / 2.0, STEPS)))
  {
    var i, j := HighIndex(k, n, ALPHA / 2.0, STEPS), HighIndex(k, n, alpha / 2.0, STEPS);
    SameMiddles(i, j);
    if HighCell(k, n, alpha / 2.0, STEPS, i) {
      HighCellUnique(k, n, alpha / 2.0, STEPS, i, j);
    }
  }

  lemma SameMiddles(i: int, j: int)
    ensures Point(2 * i + 1, STEPS + 1) == Point(2 * j + 1, STEPS + 1) <==> i == j
  {
    PointOrder(2 * i + 1, 2 * j + 1, STEPS + 1);
    PointOrder(2 * j + 1, 2 * i + 1, STEPS + 1);
  }

  lemma SameTransformIff(u: real, v: real, d: nat, n: nat)
    requires 1 <= d <= n && 0.0 <= u <= 1.0 && 0.0 <= v <= 1.0
    ensures ToRiskDifference(u, d, n) == ToRiskDifference(v, d, n) <==> u == v
  {
    if u <= v {
      TransformOrder(u, v, d, n);
    } else {
      TransformOrder(v, u, d, n);
    }
  }

  // The producer computes its interval at 1/20 whatever alpha it is given, the auditor at alpha. They
  // agree exactly when no pair is discordant or both crossings fall in the same cells.
  lemma ProducerAgreesIff(b: nat, c: nat, n: nat, alpha: real, sqrt: real -> real)
    requires b + c <= n && 0.0 < alpha < 1.0
    ensures Exact(b, c, n, ALPHA, sqrt) == Exact(b, c, n, alpha, sqrt) <==> b + c == 0 || SameCells(b, b + c, alpha)
  {
    var d := b + c;
    if d > 0 {
      IntervalWellFormed(b, c, n, ALPHA, sqrt);
      IntervalWellFormed(b, c, n, alpha, sqrt);
      BoundsOrdered(b, d, ALPHA);
      BoundsOrdered(b, d, alpha);
      SameTransformIff(Lower(b, d, ALPHA), Lower(b, d, alpha), d, n);
      SameTransformIff(Upper(b, d, ALPHA), Upper(b, d, alpha), d, n);
      SameBoundsIff(b, d, alpha);
    }
  }

  lemma ReportsAgreeIff(s: seq<Observation>, alpha: real, sqrt: real -> real, producer: Report, auditor: Report)
    requires 0.0 < alpha < 1.0 && Reports(producer, s, ALPHA, sqrt) && Reports(auditor, s, alpha, sqrt)
    ensures producer.stats == auditor.stats <==> auditor.d == 0 || SameCells(auditor.b, auditor.d, alpha)
  {
    RowsAddUp(s);
    ProducerAgreesIff(auditor.b, auditor.c, auditor.n, alpha, sqrt);
  }

  // At alpha = 1/2 one discordant pair is enough to set them apart.
  lemma ProducerIgnoresAlpha(n: nat, sqrt: real -> real)
    requires n >= 1
    ensures Exact(1, 0, n, ALPHA, sqrt) != Exact(1, 0, n, 1.0 / 2.0, sqrt)
  {
    ProducerAgreesIff(1, 0, n, 1.0 / 2.0, sqrt);
    var j := LowIndex(1, 1, ALPHA / 2.0, STEPS);
    OneTrial(Point(j, STEPS));
    OneTrial(Point(j + 1, STEPS));
    CellIsNarrow(j);
  }

  // A cell that begins below 1/40 ends below 1/4 and is not the last.
  lemma CellIsNarrow(j: int)
    requires 0 <= j < Pow2(STEPS) && (j == 0 || Point(j, STEPS) < 1.0 / 40.0)
    ensures Point(j + 1, STEPS) < 1.0 / 4.0 && j + 1 < Pow2(STEPS)
  {
    PowPositive(STEPS - 3);
    assert Pow2(STEPS) == 2 * Pow2(STEPS - 1) == 4 * Pow2(STEPS - 2) == 8 * Pow2(STEPS - 3);
    PointScaled(1, STEPS);
    PointInUnit(1, STEPS);
    EighthAtMost(Point(1, STEPS), Pow2(STEPS) as real);
    PointOrder(j, j + 1, STEPS);
    assert j + 1 - j == 1;
    PointEnds(STEPS);
  }

  lemma EighthAtMost(x: real, m: real)
    requires x >= 0.0 && x * m == 1.0 && m >= 8.0
    ensures x <= 1.0 / 8.0
  {
    Product(x, m - 8.0);
    assert x * (m - 8.0) == x * m - 8.0 * x;
  }

  // ---- the same, for whole ledgers ----

  function Swap(s: seq<Observation>): seq<Observation> {
    if s == [] then [] else [s[0].(t := s[0].x, x := s[0].t)] + Swap(s[1..])
  }

  function SwapQuery(q: Query): Query {
    match q
    case Paired(t, x) => Paired(x, t)
    case _ => q
  }

  lemma {:induction false} SwapCounts(s: seq<Observation>, q: Query)
    ensures Count(Swap(s), q) == Count(s, SwapQuery(q)) && |Swap(s)| == |s|
  {
    if s != [] {
      SwapCounts(s[1..], q);
      assert Swap(s)[1..] == Swap(s[1..]);
    }
  }

  // Swapping T and X in every pair: the same missing rows, p-value and totals; n01 and n10 exchanged;
  // estimate and interval reflected through zero.
  lemma SwappedLedger(s: seq<Observation>, sqrt: real -> real, r: Report, r': Report)
    requires Reports(r, s, ALPHA, sqrt) && Reports(r', Swap(s), ALPHA, sqrt)
    ensures r'.n == r.n && r'.nMissing == r.nMissing && r'.n01 == r.n10 && r'.n10 == r.n01 && r'.n00 == r.n00 && r'.n11 == r.n11
    ensures r'.stats.pValue == r.stats.pValue && r'.stats.riskDifference == -r.stats.riskDifference
    ensures r'.stats.ciLow == -r.stats.ciHigh && r'.stats.ciHigh == -r.stats.ciLow
    ensures r'.stats.direction == Opposite(r.stats.direction)
  {
    forall q {
      SwapCounts(s, q);
    }
    RowsAddUp(s);
    assert SwapQuery(Paired(true, false)) == Paired(false, true) && SwapQuery(Paired(false, true)) == Paired(true, false);
    assert SwapQuery(IsComplete) == IsComplete && SwapQuery(IsMissing) == IsMissing;
    assert SwapQuery(Paired(true, true)) == Paired(true, true) && SwapQuery(Paired(false, false)) == Paired(false, false);
    ExactAntisymmetry(r.b, r.c, r.n, sqrt);
  }

  // A report about a ledger is a report about every reordering of it.
  lemma ReportOfMultiset(s: seq<Observation>, s': seq<Observation>, alpha: real, sqrt: real -> real, r: Report)
    requires multiset(s) == multiset(s') && Reports(r, s, alpha, sqrt)
    ensures Reports(r, s', alpha, sqrt)
  {
    forall q {
      CountOfMultiset(s, s', q);
    }
    assert |s| == |multiset(s)| && |s'| == |multiset(s')|;
  }

  // Rows with a missing arm leave the table, the p-value and the interval alone, and are all counted.
  lemma MissingRowsChangeNoStatistic(s: seq<Observation>, extra: seq<Observation>, alpha: real, sqrt: real -> real, r: Report, r': Report)
    requires forall o :: o in extra ==> !Complete(o)
    requires Reports(r, s, alpha, sqrt) && Reports(r', s + extra, alpha, sqrt)
    ensures r'.n == r.n && r'.n00 == r.n00 && r'.n01 == r.n01 && r'.n10 == r.n10 && r'.n11 == r.n11 && r'.stats == r.stats
    ensures r'.nMissing == r.nMissing + |extra| && r'.nTotal == r.nTotal + |extra|
  {
    forall q {
      CountAppend(s, extra, q);
    }
    NoCompleteRow(extra, Paired(true, true));
    NoCompleteRow(extra, Paired(true, false));
    NoCompleteRow(extra, Paired(false, true));
    NoCompleteRow(extra, Paired(false, false));
    NoCompleteRow(extra, IsComplete);
    RowsAddUp(extra);
  }

  lemma NoCompleteRow(extra: seq<Observation>, q: Query)
    requires forall o :: o in extra ==> !Complete(o)
    requires q.Paired? || q.IsComplete?
    ensures Count(extra, q) == 0
  {
    CountPositive(extra, q);
  }

  // Accounting of one report: the table adds up to N, N and the missing rows to the ledger, and the
  // three kinds to the missing rows.
  lemma ReportAddsUp(s: seq<Observation>, alpha: real, sqrt: real -> real, r: Report)
    requires Reports(r, s, alpha, sqrt)
    ensures r.n00 + r.n01 + r.n10 + r.n11 == r.n && r.n + r.nMissing == r.nTotal
    ensures r.gate.infrastructure + r.gate.scientific + r.gate.unknown == r.nMissing == r.gate.missing
  {
    RowsAddUp(s);
  }
}
