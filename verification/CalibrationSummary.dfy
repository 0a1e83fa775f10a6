// summarize_calibration and run_calibration (f2_calibration.py).
module CalibrationSummary {
  import opened PyText
  import opened StableSort
  import opened Counter
  import opened Calibration

  // ---- counting records ----

  datatype Kind = ByTask | SeenByTask | ByCause | ByRerun

  function KeyOf(kind: Kind, r: Record): Option<string> {
    match kind
    case ByTask => if r.valid then Some(r.instanceId) else None
    case SeenByTask => if r.valid && r.endpointObserved then Some(r.instanceId) else None
    case ByCause => if r.valid then None else if r.invalidReason == "" then Some("unspecified") else Some(r.invalidReason)
    case ByRerun => if r.rerunCause == "" then None else Some(r.rerunCause)
  }

  // The records with a key of this kind.
  function Total(recs: seq<Record>, kind: Kind): nat {
    if recs == [] then 0
    else Total(recs[..|recs| - 1], kind) + if KeyOf(kind, recs[|recs| - 1]).Some? then 1 else 0
  }

  // The records with this key.
  function Number(recs: seq<Record>, kind: Kind, key: string): nat {
    if recs == [] then 0
    else Number(recs[..|recs| - 1], kind, key) + if KeyOf(kind, recs[|recs| - 1]) == Some(key) then 1 else 0
  }

  lemma Next(recs: seq<Record>, i: nat)
    requires i < |recs|
    ensures recs[..i + 1][..i] == recs[..i] && recs[..i + 1][i] == recs[i]
  {
  }

  // counts[key] = counts.get(key, 0) + 1, over the records that have a key.
  method Tally(recs: seq<Record>, kind: Kind) returns (d: Dict)
    ensures DistinctKeys(d) && forall key :: Get(d, key) == Number(recs, kind, key)
    ensures Sum(d) == Total(recs, kind)
  {
    d := [];
    for i := 0 to |recs|
      invariant DistinctKeys(d) && forall key :: Get(d, key) == Number(recs[..i], kind, key)
      invariant Sum(d) == Total(recs[..i], kind)
    {
      Next(recs, i);
      var k := KeyOf(kind, recs[i]);
      if k.Some? {
        forall key ensures Get(Bump(d, k.value), key) == Get(d, key) + if key == k.value then 1 else 0 {
          BumpGet(d, k.value, key);
        }
        BumpSum(d, k.value);
        BumpKeys(d, k.value);
        d := Bump(d, k.value);
      }
    }
    assert recs[..|recs|] == recs;
  }

  // ---- per task ----

  // per_task: each task's observations, in order of first appearance.
  type Table = seq<(string, seq<bool>)>

  // per_task.setdefault(key, []).append(b)
  function Put(d: Table, key: string, b: bool): Table {
    if d == [] then [(key, [b])]
    else if d[0].0 == key then [(key, d[0].1 + [b])] + d[1..]
    else [d[0]] + Put(d[1..], key, b)
  }

  function Trues(v: seq<bool>): (n: nat)
    ensures n <= |v|
  {
    if v == [] then 0 else Trues(v[..|v| - 1]) + if v[|v| - 1] then 1 else 0
  }

  function RowOf(d: Table, key: string): seq<bool> {
    if d == [] then [] else if d[0].0 == key then d[0].1 else RowOf(d[1..], key)
  }

  function SizeSum(d: Table): nat {
    if d == [] then 0 else |d[0].1| + SizeSum(d[1..])
  }

  function SeenSum(d: Table): nat {
    if d == [] then 0 else Trues(d[0].1) + SeenSum(d[1..])
  }

  ghost predicate NoEmptyRow(d: Table) {
    forall i :: 0 <= i < |d| ==> d[i].1 != []
  }

  lemma {:induction false} PutRow(d: Table, key: string, b: bool, other: string)
    ensures RowOf(Put(d, key, b), other) == RowOf(d, other) + if other == key then [b] else []
    decreases |d|
  {
    if d != [] && d[0].0 != key {
      PutRow(d[1..], key, b, other);
      assert Put(d, key, b)[1..] == Put(d[1..], key, b);
    } else if d != [] {
      assert Put(d, key, b)[1..] == d[1..];
    }
  }

  lemma {:induction false} PutSums(d: Table, key: string, b: bool)
    ensures SizeSum(Put(d, key, b)) == SizeSum(d) + 1
    ensures SeenSum(Put(d, key, b)) == SeenSum(d) + if b then 1 else 0
    ensures NoEmptyRow(d) ==> NoEmptyRow(Put(d, key, b))
    decreases |d|
  {
    if d == [] {
      assert Put(d, key, b)[1..] == [];
      assert [b][..0] == [];
    } else if d[0].0 == key {
      assert (d[0].1 + [b])[..|d[0].1|] == d[0].1;
      assert Put(d, key, b)[1..] == d[1..];
    } else {
      PutSums(d[1..], key, b);
      assert Put(d, key, b)[1..] == Put(d[1..], key, b);
      if NoEmptyRow(d) {
        assert forall i :: 0 <= i < |d[1..]| ==> d[1..][i] == d[i + 1];
        assert NoEmptyRow(d[1..]);
      }
    }
  }

  // The table holds a task's valid observations, in the order of the records.
  function RowIn(recs: seq<Record>, task: string): seq<bool> {
    if recs == [] then []
    else
      var r := recs[|recs| - 1];
      RowIn(recs[..|recs| - 1], task) + (if r.valid && r.instanceId == task then [r.endpointObserved] else [])
  }

  ghost predicate TableOf(d: Table, recs: seq<Record>) {
    && NoEmptyRow(d)
    && (forall task :: RowOf(d, task) == RowIn(recs, task))
    && SizeSum(d) == Total(recs, ByTask) && SeenSum(d) == Total(recs, SeenByTask)
  }

  method GroupByTask(recs: seq<Record>) returns (d: Table)
    ensures TableOf(d, recs)
  {
    d := [];
    for i := 0 to |recs|
      invariant TableOf(d, recs[..i])
    {
      Next(recs, i);
      if recs[i].valid {
        PutRecord(d, recs[..i], recs[i]);
        assert recs[..i + 1] == recs[..i] + [recs[i]];
        d := Put(d, recs[i].instanceId, recs[i].endpointObserved);
      }
    }
    assert recs[..|recs|] == recs;
  }

  lemma PutRecord(d: Table, recs: seq<Record>, r: Record)
    requires TableOf(d, recs) && r.valid
    ensures TableOf(Put(d, r.instanceId, r.endpointObserved), recs + [r])
  {
    assert (recs + [r])[..|recs|] == recs;
    PutSums(d, r.instanceId, r.endpointObserved);
    forall task ensures RowOf(Put(d, r.instanceId, r.endpointObserved), task) == RowIn(recs + [r], task) {
      PutRow(d, r.instanceId, r.endpointObserved, task);
    }
  }

  // ---- rates ----

  function Ratio(part: int, whole: int): real
    requires whole > 0
  {
    part as real / whole as real
  }

  function RowRate(v: seq<bool>): real
    requires v != []
  {
    Ratio(Trues(v), |v|)
  }

  function Rates(d: Table): (rates: seq<real>)
    requires NoEmptyRow(d)
    ensures |rates| == |d| && forall i :: 0 <= i < |d| ==> rates[i] == RowRate(d[i].1)
  {
    seq(|d|, i requires 0 <= i < |d| && NoEmptyRow(d) => RowRate(d[i].1))
  }

  function SumOf(xs: seq<real>): real {
    if xs == [] then 0.0 else SumOf(xs[..|xs| - 1]) + xs[|xs| - 1]
  }

  function Least(xs: seq<real>): (m: real)
    requires xs != []
    ensures m in xs && forall x :: x in xs ==> m <= x
  {
    if |xs| == 1 then xs[0]
    else
      var m, last := Least(xs[..|xs| - 1]), xs[|xs| - 1];
      assert xs == xs[..|xs| - 1] + [last];
      if last < m then last else m
  }

  function Greatest(xs: seq<real>): (m: real)
    requires xs != []
    ensures m in xs && forall x :: x in xs ==> x <= m
  {
    if |xs| == 1 then xs[0]
    else
      var m, last := Greatest(xs[..|xs| - 1]), xs[|xs| - 1];
      assert xs == xs[..|xs| - 1] + [last];
      if last > m then last else m
  }

  function Mean(xs: seq<real>): real
    requires xs != []
  {
    SumOf(xs) / |xs| as real
  }

  function Square(x: real): real {
    x * x
  }

  function Deviations(xs: seq<real>, c: real): seq<real> {
    seq(|xs|, i requires 0 <= i < |xs| => Square(xs[i] - c))
  }

  // The spread of the task rates; the variance is what sd_task_rate is the root of.
  datatype Spread = Spread(tasks: nat, mean: real, variance: real, min: real, max: real, saturated: nat, never: nat)

  function AtLeastOne(xs: seq<real>): nat {
    if xs == [] then 0 else AtLeastOne(xs[..|xs| - 1]) + if xs[|xs| - 1] >= 1.0 then 1 else 0
  }

  function AtMostZero(xs: seq<real>): nat {
    if xs == [] then 0 else AtMostZero(xs[..|xs| - 1]) + if xs[|xs| - 1] <= 0.0 then 1 else 0
  }

  function SpreadOf(xs: seq<real>): Option<Spread> {
    if xs == [] then None
    else Some(Spread(|xs|, Mean(xs), Mean(Deviations(xs, Mean(xs))), Least(xs), Greatest(xs), AtLeastOne(xs), AtMostZero(xs)))
  }

  lemma OneMore(n: nat, c: real)
    ensures (n + 1) as real * c == n as real * c + c
  {
  }

  ghost predicate Within(xs: seq<real>, lo: real, hi: real) {
    forall i :: 0 <= i < |xs| ==> lo <= xs[i] <= hi
  }

  lemma {:induction false} SumBetween(xs: seq<real>, lo: real, hi: real)
    requires Within(xs, lo, hi)
    ensures |xs| as real * lo <= SumOf(xs) <= |xs| as real * hi
  {
    if xs != [] {
      SumBetween(xs[..|xs| - 1], lo, hi);
      OneMore(|xs| - 1, lo);
      OneMore(|xs| - 1, hi);
    }
  }

  lemma MeanBetween(xs: seq<real>, lo: real, hi: real)
    requires xs != [] && Within(xs, lo, hi)
    ensures lo <= Mean(xs) <= hi
  {
    SumBetween(xs, lo, hi);
  }

  lemma Extremes(xs: seq<real>)
    requires xs != []
    ensures Within(xs, Least(xs), Greatest(xs))
  {
    forall i | 0 <= i < |xs| ensures Least(xs) <= xs[i] <= Greatest(xs) {
      assert xs[i] in xs;
    }
  }

  // The mean task rate lies between the smallest and the largest, and the variance is not negative.
  lemma SpreadIsOrdered(xs: seq<real>)
    requires xs != []
    ensures var s := SpreadOf(xs).value; s.min <= s.mean <= s.max && s.variance >= 0.0
  {
    Extremes(xs);
    MeanBetween(xs, Least(xs), Greatest(xs));
    DeviationsNotNegative(xs, Mean(xs));
  }

  lemma DeviationsNotNegative(xs: seq<real>, c: real)
    requires xs != []
    ensures Mean(Deviations(xs, c)) >= 0.0
  {
    var ds := Deviations(xs, c);
    Extremes(ds);
    forall i | 0 <= i < |ds| ensures 0.0 <= ds[i] <= Greatest(ds) {
      SquareNotNegative(xs[i] - c);
    }
    MeanBetween(ds, 0.0, Greatest(ds));
  }

  lemma SquareNotNegative(x: real)
    ensures Square(x) >= 0.0
  {
  }

  // rate(task) * size(task), over the tasks
  function Weighted(d: Table): real
    requires NoEmptyRow(d)
  {
    if d == [] then 0.0
    else
      assert NoEmptyRow(d[1..]);
      RowRate(d[0].1) * |d[0].1| as real + Weighted(d[1..])
  }

  lemma {:induction false} WeightedIsSeen(d: Table)
    requires NoEmptyRow(d)
    ensures Weighted(d) == SeenSum(d) as real
  {
    if d != [] {
      assert NoEmptyRow(d[1..]);
      WeightedIsSeen(d[1..]);
    }
  }

  // ---- the summary ----

  datatype Summary = Summary(
    nRecords: nat,
    nValid: nat,
    nInvalid: nat,
    endpointRate: Option<real>,
    censoringRate: Option<real>,
    invalidRate: real,
    noEditRate: Option<real>,
    firstEditSteps: seq<int>,
    spread: Option<Spread>,
    perTask: Table,
    invalidCauses: Dict,
    rerunCauses: Dict,
    saturated: Option<bool>)

  datatype Result<T> = Ok(value: T) | Err(problem: Problem)

  predicate NoEdit(r: Record) {
    r.valid && !r.endpointObserved && r.firstEditStep == None
  }

  function NoEdits(recs: seq<Record>): nat {
    if recs == [] then 0 else NoEdits(recs[..|recs| - 1]) + if NoEdit(recs[|recs| - 1]) then 1 else 0
  }

  function Steps(recs: seq<Record>): seq<int> {
    if recs == [] then []
    else
      var r := recs[|recs| - 1];
      Steps(recs[..|recs| - 1]) + (if r.valid && r.endpointObserved && r.firstEditStep.Some? then [r.firstEditStep.value] else [])
  }

  ghost predicate SameEndpoint(recs: seq<Record>) {
    forall i, j :: 0 <= i < |recs| && 0 <= j < |recs| ==> recs[i].endpointHash == recs[j].endpointHash
  }

  ghost predicate DistinctRollouts(recs: seq<Record>) {
    forall i, j :: 0 <= i < j < |recs| ==> recs[i].rolloutId != recs[j].rolloutId
  }

  // What the summary refuses its records for, in the order of its checks.
  ghost function Refusal(recs: seq<Record>, endpointHash: string): Option<Problem> {
    if recs == [] then Some(NoRecords)
    else if !SameEndpoint(recs) then Some(MixedEndpoints)
    else if endpointHash != "" && endpointHash != recs[0].endpointHash then Some(WrongEndpoint)
    else if !DistinctRollouts(recs) then Some(DuplicateRollout)
    else None
  }

  function Rate(part: int, whole: nat): Option<real> {
    if whole == 0 then None else Some(Ratio(part, whole))
  }

  function Same(x: int): int {
    x
  }

  ghost predicate EndpointRateOf(s: Summary, recs: seq<Record>) {
    s.nValid == Total(recs, ByTask) && s.endpointRate == Rate(Total(recs, SeenByTask), s.nValid)
  }

  ghost predicate StepsOf(s: Summary, recs: seq<Record>) {
    s.firstEditSteps == Sort(Steps(recs), Same)
  }

  // The summary of the records, field by field.
  ghost predicate Summarizes(s: Summary, recs: seq<Record>, threshold: real)
    requires recs != []
  {
    && s.nRecords == |recs| && s.nInvalid == Total(recs, ByCause)
    && EndpointRateOf(s, recs)
    && s.censoringRate == Rate(s.nValid - Total(recs, SeenByTask), s.nValid)
    && s.invalidRate == Ratio(s.nInvalid, |recs|)
    && s.noEditRate == Rate(NoEdits(recs), s.nValid)
    && StepsOf(s, recs) && TableOf(s.perTask, recs) && s.spread == SpreadOf(Rates(s.perTask))
    && DistinctKeys(s.invalidCauses) && (forall key :: Get(s.invalidCauses, key) == Number(recs, ByCause, key))
    && Sum(s.invalidCauses) == Total(recs, ByCause)
    && DistinctKeys(s.rerunCauses) && (forall key :: Get(s.rerunCauses, key) == Number(recs, ByRerun, key))
    && Sum(s.rerunCauses) == Total(recs, ByRerun)
    && s.saturated == (if s.nValid >= 3 then Some(s.endpointRate.value >= threshold) else None)
  }

  method CheckRecords(recs: seq<Record>, endpointHash: string) returns (problem: Option<Problem>)
    ensures problem == Refusal(recs, endpointHash)
  {
    if recs == [] {
      return Some(NoRecords);
    }
    for i := 0 to |recs|
      invariant forall k :: 0 <= k < i ==> recs[k].endpointHash == recs[0].endpointHash
    {
      if recs[i].endpointHash != recs[0].endpointHash {
        return Some(MixedEndpoints);
      }
    }
    if endpointHash != "" && endpointHash != recs[0].endpointHash {
      return Some(WrongEndpoint);
    }
    var seen: set<string> := {};
    for i := 0 to |recs|
      invariant seen == set k | 0 <= k < i :: recs[k].rolloutId
      invariant forall k, l :: 0 <= k < l < i ==> recs[k].rolloutId != recs[l].rolloutId
    {
      if recs[i].rolloutId in seen {
        return Some(DuplicateRollout);
      }
      seen := seen + {recs[i].rolloutId};
    }
    return None;
  }

  method Counted(recs: seq<Record>) returns (valid: nat, invalid: nat, observed: nat, noEdit: nat)
    ensures valid == Total(recs, ByTask) && invalid == Total(recs, ByCause)
    ensures observed == Total(recs, SeenByTask) && noEdit == NoEdits(recs)
  {
    valid, invalid, observed, noEdit := 0, 0, 0, 0;
    for i := 0 to |recs|
      invariant valid == Total(recs[..i], ByTask) && invalid == Total(recs[..i], ByCause)
      invariant observed == Total(recs[..i], SeenByTask) && noEdit == NoEdits(recs[..i])
    {
      Next(recs, i);
      var r := recs[i];
      if r.valid {
        valid := valid + 1;
        observed := observed + if r.endpointObserved then 1 else 0;
      } else {
        invalid := invalid + 1;
      }
      noEdit := noEdit + if NoEdit(r) then 1 else 0;
    }
    assert recs[..|recs|] == recs;
  }

  // summarize_calibration
  method Summarize(recs: seq<Record>, endpointHash: string, threshold: real) returns (result: Result<Summary>)
    ensures match Refusal(recs, endpointHash)
      case Some(problem) => result == Err(problem)
      case None => result.Ok? && Summarizes(result.value, recs, threshold)
  {
    var problem := CheckRecords(recs, endpointHash);
    if problem.Some? {
      return Err(problem.value);
    }
    var summary := Describe(recs, threshold);
    return Ok(summary);
  }

  // What it computes from accepted records.
  method Describe(recs: seq<Record>, threshold: real) returns (s: Summary)
    requires recs != []
    ensures Summarizes(s, recs, threshold)
  {
    var valid, invalid, observed, noEdit := Counted(recs);
    var perTask := GroupByTask(recs);
    var invalidCauses := Tally(recs, ByCause);
    var rerunCauses := Tally(recs, ByRerun);
    var endpointRate := Rate(observed, valid);
    s := Summary(|recs|, valid, invalid, endpointRate, Rate(valid as int - observed, valid), Ratio(invalid, |recs|),
                 Rate(noEdit, valid), Sort(Steps(recs), Same), SpreadOf(Rates(perTask)), perTask, invalidCauses, rerunCauses,
                 if valid >= 3 then Some(endpointRate.value >= threshold) else None);
  }

  ghost predicate AllWellFormed(recs: seq<Record>) {
    forall r :: r in recs ==> WellFormed(r)
  }

  lemma {:induction false} TotalsAddUp(recs: seq<Record>)
    requires AllWellFormed(recs)
    ensures Total(recs, ByTask) + Total(recs, ByCause) == |recs|
    ensures Total(recs, SeenByTask) + NoEdits(recs) == Total(recs, ByTask)
    ensures |Steps(recs)| == Total(recs, SeenByTask)
  {
    if recs != [] {
      assert recs[|recs| - 1] in recs;
      TotalsAddUp(recs[..|recs| - 1]);
    }
  }

  lemma RatiosAdd(a: int, b: int, n: int)
    requires n > 0 && a + b == n
    ensures Ratio(a, n) + Ratio(b, n) == 1.0
  {
  }

  lemma RatesAdd(a: int, n: nat)
    ensures Rate(a, n).Some? <==> n > 0
    ensures n > 0 ==> Rate(a, n).value + Rate(n - a, n).value == 1.0
  {
    if n > 0 {
      RatiosAdd(a, n - a, n);
    }
  }

  // The numbers of a summary of well-formed records fit together: the counts, and the rates of endpoint
  // and censoring; an observation without an edit is exactly a censored one.
  lemma RatesConserve(s: Summary, recs: seq<Record>, threshold: real)
    requires recs != [] && AllWellFormed(recs) && Summarizes(s, recs, threshold)
    ensures s.nValid + s.nInvalid == s.nRecords && Sum(s.invalidCauses) == s.nInvalid
    ensures s.endpointRate.Some? <==> s.nValid > 0
    ensures s.noEditRate == s.censoringRate
    ensures s.endpointRate.Some? ==> s.endpointRate.value + s.censoringRate.value == 1.0
  {
    TotalsAddUp(recs);
    RatesAdd(Total(recs, SeenByTask), s.nValid);
  }

  lemma EndpointTimes(s: Summary, recs: seq<Record>)
    requires EndpointRateOf(s, recs) && s.nValid > 0
    ensures s.endpointRate.value * s.nValid as real == Total(recs, SeenByTask) as real
  {
  }

  // The task rates, weighted by the tasks' sizes, recombine to the endpoint rate, and the sizes to the
  // valid records.
  lemma TasksRecombine(s: Summary, recs: seq<Record>)
    requires TableOf(s.perTask, recs) && EndpointRateOf(s, recs) && s.nValid > 0
    ensures SizeSum(s.perTask) == s.nValid && Weighted(s.perTask) == s.endpointRate.value * s.nValid as real
  {
    EndpointTimes(s, recs);
    WeightedIsSeen(s.perTask);
  }

  // Every observed endpoint has its step among the sorted steps.
  lemma StepsMatchRate(s: Summary, recs: seq<Record>)
    requires AllWellFormed(recs) && StepsOf(s, recs) && EndpointRateOf(s, recs) && s.nValid > 0
    ensures |s.firstEditSteps| as real == s.endpointRate.value * s.nValid as real
  {
    TotalsAddUp(recs);
    SameLength(Steps(recs), s.firstEditSteps);
    EndpointTimes(s, recs);
  }

  lemma SameLength(a: seq<int>, b: seq<int>)
    requires b == Sort(a, Same)
    ensures |a| == |b|
  {
    SortIsStable(a, Same, 0);
    assert |multiset(a)| == |multiset(b)|;
  }

  // There is a spread exactly when there is a valid record; then the mean task rate lies between the
  // extremes.
  lemma SpreadOfSummary(s: Summary, recs: seq<Record>, threshold: real)
    requires recs != [] && Summarizes(s, recs, threshold)
    ensures s.spread.Some? <==> s.nValid > 0
    ensures s.spread.Some? ==> s.spread.value.min <= s.spread.value.mean <= s.spread.value.max
  {
    if s.perTask != [] {
      SpreadIsOrdered(Rates(s.perTask));
    }
  }

  // ---- the whole call ----

  // run_calibration
  method RunCalibration(plan: Plan, auth: Option<Authorization>, tape: Tape, maxReruns: int)
    returns (result: Result<(seq<Record>, Summary)>, calls: nat)
    requires auth.Some? ==> Granted(auth.value)
    ensures !Authorised(plan, auth) ==> result == Err(Unauthorized) && calls == 0
    ensures Authorised(plan, auth) ==>
      var run := Run(plan, Cells(plan.taskIds, plan.replicates), tape, maxReruns);
      && calls == run.calls
      && match run
         case Stopped(problem, _) => result == Err(problem)
         case Running(recs, _) =>
           match Refusal(recs, plan.endpointHash)
           case Some(problem) => result == Err(problem)
           case None => result.Ok? && result.value.0 == recs && recs != [] && Summarizes(result.value.1, recs, 0.95)
  {
    if !Authorised(plan, auth) {
      return Err(Unauthorized), 0;
    }
    var run := RunCells(plan, tape, maxReruns);
    calls := run.calls;
    if run.Stopped? {
      return Err(run.problem), calls;
    }
    var summary := Summarize(run.records, plan.endpointHash, 0.95);
    if summary.Err? {
      return Err(summary.problem), calls;
    }
    return Ok((run.records, summary.value)), calls;
  }

  // An authorised run makes at most replicates * tasks * (max_reruns + 1) calls; when none of them stops
  // it, it leaves at least one record for every cell, and its summary can fail only over a rollout id
  // that two records carry: ones that the runner reported, or ones that the run made up, which repeat
  // when the plan lists a task twice.
  lemma AuthorisedRun(plan: Plan, auth: Option<Authorization>, tape: Tape, maxReruns: int)
    requires Authorised(plan, auth) && Granted(auth.value)
    ensures var run := Run(plan, Cells(plan.taskIds, plan.replicates), tape, maxReruns);
      && run.calls <= |plan.taskIds| * plan.replicates * Limit(maxReruns)
      && (run.Running? ==>
            && |plan.taskIds| * plan.replicates <= |run.records| == run.calls
            && (Refusal(run.records, plan.endpointHash).None? <==> DistinctRollouts(run.records))
            && (DistinctRollouts(run.records) || Refusal(run.records, plan.endpointHash) == Some(DuplicateRollout)))
  {
    var cells := Cells(plan.taskIds, plan.replicates);
    CellsCount(plan.taskIds, plan.replicates);
    CallsAreBounded(plan, cells, tape, maxReruns);
    if Run(plan, cells, tape, maxReruns).Running? {
      AtLeastOneEach(plan, cells, tape, maxReruns);
      EveryCallIsKept(plan, cells, tape, maxReruns);
      SomeCells(|plan.taskIds|, plan.replicates);
      OnlyIdsAreRefused(plan, cells, tape, maxReruns);
    }
  }

  lemma SomeCells(n: nat, k: nat)
    requires n >= 1 && k >= 1
    ensures n * k >= 1
  {
  }

  lemma OnlyIdsAreRefused(plan: Plan, cells: seq<Cell>, tape: Tape, maxReruns: int)
    requires cells != [] && Run(plan, cells, tape, maxReruns).Running?
    ensures var recs := Run(plan, cells, tape, maxReruns).records;
      && (Refusal(recs, plan.endpointHash).None? <==> DistinctRollouts(recs))
      && (DistinctRollouts(recs) || Refusal(recs, plan.endpointHash) == Some(DuplicateRollout))
  {
    AtLeastOneEach(plan, cells, tape, maxReruns);
    EveryCallIsKept(plan, cells, tape, maxReruns);
    var recs := Run(plan, cells, tape, maxReruns).records;
    forall k | 0 <= k < |recs| ensures recs[k].endpointHash == plan.endpointHash {
      assert KeptInSome(recs[k], tape(k), plan, cells);
    }
  }

  lemma {:induction false} AtLeastOneEach(plan: Plan, cells: seq<Cell>, tape: Tape, maxReruns: int)
    requires Run(plan, cells, tape, maxReruns).Running?
    ensures |cells| <= Run(plan, cells, tape, maxReruns).calls
  {
    if cells != [] {
      AtLeastOneEach(plan, cells[..|cells| - 1], tape, maxReruns);
    }
  }

  // A completed run of an authorised plan of different tasks whose runner reports no ids is summarised.
  lemma NamelessRunIsSummarised(plan: Plan, auth: Option<Authorization>, tape: Tape, maxReruns: int)
    requires Authorised(plan, auth) && Granted(auth.value)
    requires forall i, j :: 0 <= i < j < |plan.taskIds| ==> plan.taskIds[i] != plan.taskIds[j]
    requires forall n :: tape(n).rolloutId == ""
    ensures var run := Run(plan, Cells(plan.taskIds, plan.replicates), tape, maxReruns);
      run.Running? ==> Refusal(run.records, plan.endpointHash) == None
  {
    AuthorisedRun(plan, auth, tape, maxReruns);
    CellsDiffer(plan.taskIds, plan.replicates);
    MadeUpIdsDiffer(plan, Cells(plan.taskIds, plan.replicates), tape, maxReruns);
  }

  // ---- what the counts count ----

  // The records with a property, by position.
  ghost function Places(recs: seq<Record>, p: Record -> bool): set<nat> {
    set i: nat | i < |recs| && p(recs[i])
  }

  lemma PlacesNext(recs: seq<Record>, p: Record -> bool)
    requires recs != []
    ensures var front, last := recs[..|recs| - 1], recs[|recs| - 1];
      |Places(recs, p)| == |Places(front, p)| + if p(last) then 1 else 0
  {
    var front, n := recs[..|recs| - 1], |recs| - 1;
    var more: set<nat> := if p(recs[n]) then {n} else {};
    assert Places(recs, p) == Places(front, p) + more;
  }

  lemma NoPlaces(p: Record -> bool)
    ensures Places([], p) == {}
  {
  }

  lemma {:induction false} TotalIs(recs: seq<Record>, kind: Kind, p: Record -> bool)
    requires forall r :: p(r) <==> KeyOf(kind, r).Some?
    ensures Total(recs, kind) == |Places(recs, p)|
  {
    if recs == [] {
      NoPlaces(p);
    } else {
      PlacesNext(recs, p);
      TotalIs(recs[..|recs| - 1], kind, p);
    }
  }

  lemma {:induction false} NumberIs(recs: seq<Record>, kind: Kind, key: string, p: Record -> bool)
    requires forall r :: p(r) <==> KeyOf(kind, r) == Some(key)
    ensures Number(recs, kind, key) == |Places(recs, p)|
  {
    if recs == [] {
      NoPlaces(p);
    } else {
      PlacesNext(recs, p);
      NumberIs(recs[..|recs| - 1], kind, key, p);
    }
  }

  lemma {:induction false} NoEditsIs(recs: seq<Record>, p: Record -> bool)
    requires forall r :: p(r) <==> r.valid && !r.endpointObserved && r.firstEditStep == None
    ensures NoEdits(recs) == |Places(recs, p)|
  {
    if recs == [] {
      NoPlaces(p);
    } else {
      PlacesNext(recs, p);
      NoEditsIs(recs[..|recs| - 1], p);
    }
  }

  lemma {:induction false} StepsAre(recs: seq<Record>, x: int, p: Record -> bool)
    requires forall r :: p(r) <==> r.valid && r.endpointObserved && r.firstEditStep == Some(x)
    ensures multiset(Steps(recs))[x] == |Places(recs, p)|
  {
    if recs == [] {
      NoPlaces(p);
    } else {
      var front, r := recs[..|recs| - 1], recs[|recs| - 1];
      PlacesNext(recs, p);
      StepsAre(front, x, p);
      var more := if r.valid && r.endpointObserved && r.firstEditStep.Some? then [r.firstEditStep.value] else [];
      assert Steps(recs) == Steps(front) + more;
    }
  }

  function Valids(): Record -> bool {
    (r: Record) => r.valid
  }

  function Invalids(): Record -> bool {
    (r: Record) => !r.valid
  }

  function Observed(): Record -> bool {
    (r: Record) => r.valid && r.endpointObserved
  }

  function Unedited(): Record -> bool {
    (r: Record) => r.valid && !r.endpointObserved && r.firstEditStep == None
  }

  function FirstEditAt(x: int): Record -> bool {
    (r: Record) => r.valid && r.endpointObserved && r.firstEditStep == Some(x)
  }

  function WithReason(key: string): Record -> bool {
    (r: Record) => !r.valid && (r.invalidReason == key != "" || (r.invalidReason == "" && key == "unspecified"))
  }

  function RerunFor(key: string): Record -> bool {
    (r: Record) => r.rerunCause == key
  }

  // The totals of a summary count the records that are valid, invalid, observed, and not edited.
  lemma SummaryTotals(s: Summary, recs: seq<Record>, threshold: real)
    requires recs != [] && Summarizes(s, recs, threshold)
    ensures s.nValid == |Places(recs, Valids())| && s.nInvalid == |Places(recs, Invalids())|
    ensures s.nValid > 0 ==>
      && s.endpointRate == Some(|Places(recs, Observed())| as real / s.nValid as real)
      && s.noEditRate == Some(|Places(recs, Unedited())| as real / s.nValid as real)
    ensures s.invalidRate == s.nInvalid as real / |recs| as real
  {
    TotalIs(recs, ByTask, Valids());
    TotalIs(recs, ByCause, Invalids());
    TotalIs(recs, SeenByTask, Observed());
    NoEditsIs(recs, Unedited());
  }

  function ValidOf(task: string): Record -> bool {
    (r: Record) => r.valid && r.instanceId == task
  }

  function SeenOf(task: string): Record -> bool {
    (r: Record) => r.valid && r.instanceId == task && r.endpointObserved
  }

  lemma TruesNext(v: seq<bool>, b: bool)
    ensures Trues(v + [b]) == Trues(v) + if b then 1 else 0
  {
    assert (v + [b])[..|v|] == v;
  }

  lemma {:induction false} RowCounts(recs: seq<Record>, task: string, p: Record -> bool, q: Record -> bool)
    requires p == ValidOf(task) && q == SeenOf(task)
    ensures |RowIn(recs, task)| == |Places(recs, p)| && Trues(RowIn(recs, task)) == |Places(recs, q)|
  {
    if recs == [] {
      NoPlaces(p);
      NoPlaces(q);
    } else {
      var front, r := recs[..|recs| - 1], recs[|recs| - 1];
      PlacesNext(recs, p);
      PlacesNext(recs, q);
      RowCounts(front, task, p, q);
      assert RowIn(recs, task) == if r.valid && r.instanceId == task then RowIn(front, task) + [r.endpointObserved] else RowIn(front, task);
      TruesNext(RowIn(front, task), r.endpointObserved);
    }
  }

  // The row of a task counts its valid records by instance id, and those with an endpoint.
  lemma SummaryTasks(s: Summary, recs: seq<Record>, threshold: real, task: string)
    requires recs != [] && Summarizes(s, recs, threshold)
    ensures |RowOf(s.perTask, task)| == |Places(recs, ValidOf(task))|
    ensures Trues(RowOf(s.perTask, task)) == |Places(recs, SeenOf(task))|
  {
    RowCounts(recs, task, ValidOf(task), SeenOf(task));
  }

  // The causes count the invalid records by reason, those without one as "unspecified", and the records
  // that are reruns by cause.
  lemma SummaryCauses(s: Summary, recs: seq<Record>, threshold: real, key: string)
    requires recs != [] && Summarizes(s, recs, threshold)
    ensures Get(s.invalidCauses, key) == |Places(recs, WithReason(key))|
    ensures key != "" ==> Get(s.rerunCauses, key) == |Places(recs, RerunFor(key))|
  {
    NumberIs(recs, ByCause, key, WithReason(key));
    if key != "" {
      NumberIs(recs, ByRerun, key, RerunFor(key));
    }
  }

  // The steps are in order, and each is there as often as it is the first edit of an observed endpoint.
  lemma SummarySteps(s: Summary, recs: seq<Record>, threshold: real, x: int)
    requires recs != [] && Summarizes(s, recs, threshold)
    ensures forall i, j :: 0 <= i < j < |s.firstEditSteps| ==> s.firstEditSteps[i] <= s.firstEditSteps[j]
    ensures multiset(s.firstEditSteps)[x] == |Places(recs, FirstEditAt(x))|
  {
    var steps := s.firstEditSteps;
    SortIsStable(Steps(recs), Same, 0);
    forall i, j | 0 <= i < j < |steps| ensures steps[i] <= steps[j] {
      assert Same(steps[i]) <= Same(steps[j]);
    }
    StepsAre(recs, x, FirstEditAt(x));
  }

  // ---- what the spread says ----

  // q - t a + m c
  function Line(q: real, t: real, a: real, m: real, c: real): real {
    q - t * a + m * c
  }

  lemma LineNext(q: real, t: real, a: real, m: real, c: real, y: real, x: real)
    ensures Line(q + y, t, a + x, m + 1.0, c) == Line(q, t, a, m, c) + (y - t * x + c)
  {
  }

  lemma SquareOfDifference(x: real, c: real)
    ensures Square(x - c) == Square(x) - (2.0 * c) * x + Square(c)
  {
  }

  lemma {:induction false} SumOfDeviations(xs: seq<real>, c: real)
    ensures SumOf(Deviations(xs, c)) == Line(SumOf(Deviations(xs, 0.0)), 2.0 * c, SumOf(xs), |xs| as real, Square(c))
  {
    if xs != [] {
      var front, x := xs[..|xs| - 1], xs[|xs| - 1];
      SumOfDeviations(front, c);
      SquareOfDifference(x, c);
      LineNext(SumOf(Deviations(front, 0.0)), 2.0 * c, SumOf(front), |front| as real, Square(c), Square(x), x);
      DeviationsSnoc(xs, c);
      DeviationsSnoc(xs, 0.0);
      assert x - 0.0 == x && |xs| as real == |front| as real + 1.0;
    }
  }

  lemma DeviationsSnoc(xs: seq<real>, c: real)
    requires xs != []
    ensures SumOf(Deviations(xs, c)) == SumOf(Deviations(xs[..|xs| - 1], c)) + Square(xs[|xs| - 1] - c)
  {
    assert Deviations(xs, c)[..|xs| - 1] == Deviations(xs[..|xs| - 1], c);
  }

  // The mean is the sum over the number, and the variance, times the number, the sum of the squares less
  // the number times the square of the mean.
  lemma MeanOfSpread(xs: seq<real>)
    requires xs != []
    ensures var s := SpreadOf(xs).value;
      s.tasks == |xs| && s.mean == SumOf(xs) / |xs| as real && s.variance == Mean(Deviations(xs, s.mean))
  {
  }

  lemma VarianceTimes(xs: seq<real>, c: real, ds: seq<real>)
    requires xs != [] && c * |xs| as real == SumOf(xs) && ds == Deviations(xs, c)
    ensures |ds| == |xs| && Mean(ds) * |ds| as real == SumOf(Deviations(xs, 0.0)) - |xs| as real * Square(c)
  {
    MeanTimes(ds);
    SquaresAbout(xs, c);
  }

  lemma SquaresAbout(xs: seq<real>, c: real)
    requires c * |xs| as real == SumOf(xs)
    ensures SumOf(Deviations(xs, c)) == SumOf(Deviations(xs, 0.0)) - |xs| as real * Square(c)
  {
    SumOfDeviations(xs, c);
    CentredLine(SumOf(Deviations(xs, 0.0)), c, SumOf(xs), |xs| as real);
  }

  lemma MeanTimes(xs: seq<real>)
    requires xs != []
    ensures Mean(xs) * |xs| as real == SumOf(xs)
  {
  }

  lemma CentredLine(q: real, c: real, sum: real, n: real)
    requires c * n == sum
    ensures Line(q, 2.0 * c, sum, n, Square(c)) == q - n * Square(c)
  {
    assert (2.0 * c) * sum == 2.0 * (c * (c * n));
    assert c * (c * n) == n * (c * c);
  }

  // The rows of a table without an observation b.
  ghost function RowsWithout(d: Table, b: bool): set<nat> {
    set i: nat | i < |d| && b !in d[i].1
  }

  lemma RowsNext(d: Table, b: bool)
    requires d != []
    ensures |RowsWithout(d, b)| == |RowsWithout(d[..|d| - 1], b)| + if b !in d[|d| - 1].1 then 1 else 0
  {
    var front, n := d[..|d| - 1], |d| - 1;
    forall i: nat
      ensures i in RowsWithout(d, b) <==> i in RowsWithout(front, b) || (i == n && b !in d[n].1)
    {
      assert i < n ==> d[i] == front[i];
    }
    var more: set<nat> := if b !in d[n].1 then {n} else {};
    assert RowsWithout(d, b) == RowsWithout(front, b) + more;
  }

  // The tasks that are saturated are those in which every observation saw the endpoint, and the tasks
  // that never reach it those in which none did.
  lemma {:induction false} SaturatedTasks(d: Table)
    requires NoEmptyRow(d)
    ensures AtLeastOne(Rates(d)) == |RowsWithout(d, false)| && AtMostZero(Rates(d)) == |RowsWithout(d, true)|
  {
    if d == [] {
      assert RowsWithout(d, false) == {} && RowsWithout(d, true) == {};
    } else {
      var front, n := d[..|d| - 1], |d| - 1;
      assert NoEmptyRow(front);
      SaturatedTasks(front);
      assert Rates(d)[..n] == Rates(front);
      RateIsOneIff(d[n].1);
      RowsNext(d, false);
      RowsNext(d, true);
    }
  }

  lemma RateIsOneIff(v: seq<bool>)
    requires v != []
    ensures RowRate(v) >= 1.0 <==> false !in v
    ensures RowRate(v) <= 0.0 <==> true !in v
  {
    AllTrues(v);
    QuotientOrder(Trues(v) as real, |v| as real);
  }

  lemma QuotientOrder(x: real, m: real)
    requires m > 0.0
    ensures (x / m >= 1.0 <==> x >= m) && (x / m <= 0.0 <==> x <= 0.0)
  {
    var f := x / m;
    assert f * m == x;
    SignOfProduct(f, m);
    SignOfProduct(f - 1.0, m);
    assert (f - 1.0) * m == f * m - m;
  }

  lemma SignOfProduct(a: real, m: real)
    requires m > 0.0
    ensures (a >= 0.0 <==> a * m >= 0.0) && (a <= 0.0 <==> a * m <= 0.0)
  {
  }

  lemma {:induction false} AllTrues(v: seq<bool>)
    ensures Trues(v) == |v| <==> false !in v
    ensures Trues(v) == 0 <==> true !in v
  {
    if v != [] {
      AllTrues(v[..|v| - 1]);
      assert v == v[..|v| - 1] + [v[|v| - 1]];
    }
  }
}
