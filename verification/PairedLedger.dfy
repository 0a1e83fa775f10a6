// INFRASTRUCTURE_RERUN_CAUSES: the closed list shared by the analysis gate and the rerun policy.
module InfraCauses {
  predicate IsInfraCause(cause: string) {
    cause in {
      "backend_unreachable", "model_endpoint_unreachable", "workspace_preparation_failed", "trajectory_malformed",
      "process_crash", "port_occupied_by_foreign_process", "qdrant_unavailable", "infrastructure_timeout" }
  }
}

// The paired ledger of f2_analysis.py: complete and missing pairs, missing reasons, the
// infrastructure gate and confirmatory eligibility.
module PairedLedger {
  import opened PyText
  import opened InfraCauses
  import opened Counter

  // PairedObservation; None is an endpoint that could not be established.
  datatype Observation = Observation(
    taskId: string,
    seed: int,
    t: Option<bool>,
    x: Option<bool>,
    missingReason: string,
    contamination: string,
    evidence: string)

  datatype Kind = Infrastructure | Scientific | Unknown

  // _SCIENTIFIC_MISSING_REASONS
  predicate IsScientificReason(reason: string) {
    reason in {
      "missing_required_provenance", "failed_base_gold_verification", "contamination_classification",
      "malformed_task", "reproducibility_failure", "missing_required_artifact", "endpoint_unmeasurable",
      "censored", "unspecified", "" }
  }

  const INFRA_PREFIX := "infrastructure:"
  const MIN_PAIRS: nat := 300
  const MAX_INFRA_FRACTION: real := 0.3

  function Classify(reason: string): Kind {
    var text := Strip(reason);
    if text == "" then Scientific
    else if StartsWith(text, INFRA_PREFIX) then
      if IsInfraCause(text[|INFRA_PREFIX|..]) then Infrastructure else Unknown
    else if IsScientificReason(text) then Scientific
    else Unknown
  }

  // The three kinds, by the form of the reason.
  lemma KindIff(reason: string)
    ensures Classify(reason) == Infrastructure <==> NamesInfraCause(reason)
    ensures Classify(reason) == Scientific <==> IsScientificReason(Strip(reason))
    ensures Classify(reason) == Unknown <==> !NamesInfraCause(reason) && !IsScientificReason(Strip(reason))
  {
    var text := Strip(reason);
    assert INFRA_PREFIX == "infrastructure:";
    if StartsWith(text, INFRA_PREFIX) {
      assert text == "infrastructure:" + text[|INFRA_PREFIX|..];
      PrefixIsNotScientific(text);
    }
    forall cause | text == "infrastructure:" + cause
      ensures StartsWith(text, INFRA_PREFIX) && text[|INFRA_PREFIX|..] == cause
    {
    }
  }

  // The reason is "infrastructure:" and a declared cause, with any white space around.
  ghost predicate NamesInfraCause(reason: string) {
    exists cause :: IsInfraCause(cause) && Strip(reason) == "infrastructure:" + cause
  }

  lemma PrefixIsNotScientific(text: string)
    requires StartsWith(text, INFRA_PREFIX)
    ensures !IsScientificReason(text) && text != ""
  {
    assert text[0] == 'i' && |text| >= 15;
  }

  predicate Complete(o: Observation) {
    o.t.Some? && o.x.Some?
  }

  function ReasonKey(o: Observation): string {
    if o.missingReason == "" then "unspecified" else o.missingReason
  }

  // ---- counting rows ----

  datatype Query =
    | Paired(t: bool, x: bool)
    | IsComplete
    | IsMissing
    | CompleteTask(id: string)
    | MissingKey(key: string)
    | MissingKind(kind: Kind)

  predicate Meets(o: Observation, q: Query) {
    match q
    case Paired(t, x) => o.t == Some(t) && o.x == Some(x)
    case IsComplete => Complete(o)
    case IsMissing => !Complete(o)
    case CompleteTask(id) => Complete(o) && o.taskId == id
    case MissingKey(key) => !Complete(o) && ReasonKey(o) == key
    case MissingKind(kind) => !Complete(o) && Classify(ReasonKey(o)) == kind
  }

  function One(o: Observation, q: Query): nat {
    if Meets(o, q) then 1 else 0
  }

  function Count(s: seq<Observation>, q: Query): nat {
    if s == [] then 0 else One(s[0], q) + Count(s[1..], q)
  }

  lemma {:induction false} CountAppend(s: seq<Observation>, r: seq<Observation>, q: Query)
    ensures Count(s + r, q) == Count(s, q) + Count(r, q)
  {
    if s == [] {
      assert s + r == r;
    } else {
      CountAppend(s[1..], r, q);
      assert (s + r)[1..] == s[1..] + r;
    }
  }

  lemma CountSnoc(s: seq<Observation>, o: Observation, q: Query)
    ensures Count(s + [o], q) == Count(s, q) + One(o, q)
  {
    CountAppend(s, [o], q);
    assert [o][1..] == [];
  }

  lemma CountRemove(s: seq<Observation>, i: nat, q: Query)
    requires i < |s|
    ensures Count(s, q) == One(s[i], q) + Count(s[..i] + s[i + 1..], q)
  {
    assert s == (s[..i] + [s[i]]) + s[i + 1..];
    CountAppend(s[..i] + [s[i]], s[i + 1..], q);
    CountSnoc(s[..i], s[i], q);
    CountAppend(s[..i], s[i + 1..], q);
  }

  lemma Cancel<T>(x: T, m: multiset<T>, n: multiset<T>)
    requires multiset{x} + m == multiset{x} + n
    ensures m == n
  {
    assert m == multiset{x} + m - multiset{x};
    assert n == multiset{x} + n - multiset{x};
  }

  lemma DropCommon(s: seq<Observation>, r: seq<Observation>, i: nat)
    requires multiset(s) == multiset(r) && s != [] && i < |r| && r[i] == s[0]
    ensures multiset(s[1..]) == multiset(r[..i] + r[i + 1..])
  {
    assert s == [s[0]] + s[1..] && r == r[..i] + [s[0]] + r[i + 1..];
    Cancel(s[0], multiset(s[1..]), multiset(r[..i] + r[i + 1..]));
  }

  // The rows that meet a query, by position.
  ghost function Rows(s: seq<Observation>, q: Query): set<nat> {
    set i: nat | i < |s| && Meets(s[i], q)
  }

  lemma RowsSnoc(s: seq<Observation>, o: Observation, q: Query)
    ensures |Rows(s + [o], q)| == |Rows(s, q)| + One(o, q)
  {
    var all := s + [o];
    forall k: nat
      ensures k in Rows(all, q) <==> k in Rows(s, q) || (k == |s| && Meets(o, q))
    {
      if k < |s| {
        assert all[k] == s[k];
      } else if k == |s| {
        assert all[k] == o;
      }
    }
    var last: set<nat> := if Meets(o, q) then {|s|} else {};
    assert Rows(all, q) == Rows(s, q) + last;
    assert |s| !in Rows(s, q);
  }

  lemma {:induction false} CountIsRows(s: seq<Observation>, q: Query)
    ensures Count(s, q) == |Rows(s, q)|
    decreases |s|
  {
    if s == [] {
      assert Rows(s, q) == {};
    } else {
      var front, last := s[..|s| - 1], s[|s| - 1];
      CountIsRows(front, q);
      CountSnoc(front, last, q);
      RowsSnoc(front, last, q);
      assert s == front + [last];
    }
  }

  // A count depends on the multiset of rows only.
  lemma {:induction false} CountOfMultiset(s: seq<Observation>, r: seq<Observation>, q: Query)
    requires multiset(s) == multiset(r)
    ensures Count(s, q) == Count(r, q)
    decreases |s|
  {
    if s == [] {
      assert |multiset(r)| == 0;
    } else {
      assert s[0] in multiset(r);
      var i :| 0 <= i < |r| && r[i] == s[0];
      CountRemove(r, i, q);
      DropCommon(s, r, i);
      CountOfMultiset(s[1..], r[..i] + r[i + 1..], q);
    }
  }

  lemma {:induction false} CountPositive(s: seq<Observation>, q: Query)
    ensures Count(s, q) > 0 <==> exists o :: o in s && Meets(o, q)
  {
    if s != [] {
      CountPositive(s[1..], q);
      assert forall o :: o in s <==> o == s[0] || o in s[1..];
    }
  }

  lemma RowAddsUp(o: Observation)
    ensures One(o, Paired(false, false)) + One(o, Paired(false, true))
            + One(o, Paired(true, false)) + One(o, Paired(true, true)) == One(o, IsComplete)
    ensures One(o, IsComplete) + One(o, IsMissing) == 1
    ensures One(o, MissingKind(Infrastructure)) + One(o, MissingKind(Scientific))
            + One(o, MissingKind(Unknown)) == One(o, IsMissing)
  {
    if Complete(o) {
      var t, x := o.t.value, o.x.value;
      assert Meets(o, Paired(t, x)) && !Meets(o, Paired(!t, x)) && !Meets(o, Paired(t, !x)) && !Meets(o, Paired(!t, !x));
    }
  }

  // n00 + n01 + n10 + n11 = N, N + missing = total, and every missing row has one of the three kinds.
  lemma {:induction false} RowsAddUp(s: seq<Observation>)
    ensures Count(s, Paired(false, false)) + Count(s, Paired(false, true))
            + Count(s, Paired(true, false)) + Count(s, Paired(true, true)) == Count(s, IsComplete)
    ensures Count(s, IsComplete) + Count(s, IsMissing) == |s|
    ensures Count(s, MissingKind(Infrastructure)) + Count(s, MissingKind(Scientific))
            + Count(s, MissingKind(Unknown)) == Count(s, IsMissing)
  {
    if s != [] {
      RowsAddUp(s[1..]);
      RowAddsUp(s[0]);
    }
  }

  // ---- splitting the ledger ----

  function Keep(s: seq<Observation>, complete: bool): seq<Observation> {
    if s == [] then []
    else (if Complete(s[0]) == complete then [s[0]] else []) + Keep(s[1..], complete)
  }

  lemma {:induction false} KeepMembers(s: seq<Observation>, complete: bool)
    ensures forall o :: o in Keep(s, complete) <==> o in s && Complete(o) == complete
  {
    if s != [] {
      KeepMembers(s[1..], complete);
      assert forall o :: o in s <==> o == s[0] || o in s[1..];
    }
  }

  // Each side of the split holds every row that can meet a query about that side.
  lemma {:induction false} KeepCount(s: seq<Observation>, complete: bool, q: Query)
    requires forall o :: Meets(o, q) ==> Complete(o) == complete
    ensures Count(Keep(s, complete), q) == Count(s, q)
  {
    if s != [] {
      KeepCount(s[1..], complete, q);
      CountAppend(if Complete(s[0]) == complete then [s[0]] else [], Keep(s[1..], complete), q);
    }
  }

  lemma {:induction false} KeepSize(s: seq<Observation>, complete: bool)
    ensures |Keep(s, complete)| == Count(s, if complete then IsComplete else IsMissing)
  {
    if s != [] {
      KeepSize(s[1..], complete);
    }
  }

  // Two complete pairs carry one non-empty task id.
  ghost predicate Replicated(s: seq<Observation>) {
    exists id: string :: id != "" && Count(s, CompleteTask(id)) >= 2
  }

  // The tasks seen in a prefix of the complete pairs, none of them twice.
  ghost predicate SeenOnce(prefix: seq<Observation>, seen: set<string>) {
    forall id: string :: id != "" ==> Count(prefix, CompleteTask(id)) == if id in seen then 1 else 0
  }

  lemma SeenSnoc(prefix: seq<Observation>, seen: set<string>, o: Observation)
    requires SeenOnce(prefix, seen) && Complete(o)
    ensures o.taskId == "" ==> SeenOnce(prefix + [o], seen)
    ensures o.taskId != "" && o.taskId !in seen ==> SeenOnce(prefix + [o], seen + {o.taskId})
    ensures o.taskId != "" && o.taskId in seen ==> Count(prefix + [o], CompleteTask(o.taskId)) == 2
  {
    forall id: string
      ensures Count(prefix + [o], CompleteTask(id)) == Count(prefix, CompleteTask(id)) + if o.taskId == id then 1 else 0
    {
      CountSnoc(prefix, o, CompleteTask(id));
    }
  }

  // _partition: None is the ValueError for pseudo-replication.
  method Partition(obs: seq<Observation>) returns (r: Option<(seq<Observation>, seq<Observation>)>)
    ensures r.None? <==> Replicated(obs)
    ensures r.Some? ==> r.value == (Keep(obs, true), Keep(obs, false))
  {
    var complete, missing := Keep(obs, true), Keep(obs, false);
    KeepMembers(obs, true);
    var seen: set<string> := {};
    for i := 0 to |complete|
      invariant "" !in seen && SeenOnce(complete[..i], seen)
    {
      var o := complete[i];
      SeenSnoc(complete[..i], seen, o);
      assert complete[..i + 1] == complete[..i] + [o];
      if o.taskId == "" {
        continue;
      }
      if o.taskId in seen {
        PrefixReplicated(obs, i + 1, o.taskId);
        return None;
      }
      seen := seen + {o.taskId};
    }
    assert complete[..|complete|] == complete;
    forall id: string | id != ""
      ensures Count(obs, CompleteTask(id)) <= 1
    {
      KeepCount(obs, true, CompleteTask(id));
    }
    return Some((complete, missing));
  }

  lemma PrefixReplicated(obs: seq<Observation>, n: nat, id: string)
    requires n <= |Keep(obs, true)| && id != "" && Count(Keep(obs, true)[..n], CompleteTask(id)) >= 2
    ensures Replicated(obs)
  {
    var complete := Keep(obs, true);
    assert complete == complete[..n] + complete[n..];
    CountAppend(complete[..n], complete[n..], CompleteTask(id));
    KeepCount(obs, true, CompleteTask(id));
  }

  // ---- missing reasons and the gate ----

  // max(0, count), over the entries of one kind
  function KindTotal(d: Dict, kind: Kind): int {
    if d == [] then 0
    else (if Classify(d[0].0) == kind && d[0].1 > 0 then d[0].1 else 0) + KindTotal(d[1..], kind)
  }

  lemma {:induction false} BumpKind(d: Dict, key: string, kind: Kind)
    requires forall i :: 0 <= i < |d| ==> d[i].1 >= 0
    ensures KindTotal(Bump(d, key), kind) == KindTotal(d, kind) + if Classify(key) == kind then 1 else 0
    ensures forall i :: 0 <= i < |Bump(d, key)| ==> Bump(d, key)[i].1 >= 0
    decreases |d|
  {
    if d == [] {
      assert Bump(d, key)[1..] == [];
    } else if d[0].0 != key {
      BumpKind(d[1..], key, kind);
      assert Bump(d, key)[1..] == Bump(d[1..], key);
    } else {
      assert Bump(d, key)[1..] == d[1..];
    }
  }

  // The missing_by_reason loop of both entry points.
  method MissingByReason(missing: seq<Observation>) returns (d: Dict)
    requires forall o :: o in missing ==> !Complete(o)
    ensures DistinctKeys(d)
    ensures forall key :: Get(d, key) == Count(missing, MissingKey(key))
    ensures forall kind :: KindTotal(d, kind) == Count(missing, MissingKind(kind))
  {
    d := [];
    for i := 0 to |missing|
      invariant forall key :: Get(d, key) == Count(missing[..i], MissingKey(key))
      invariant forall kind :: KindTotal(d, kind) == Count(missing[..i], MissingKind(kind))
      invariant DistinctKeys(d) && forall k :: 0 <= k < |d| ==> d[k].1 >= 0
    {
      var o := missing[i];
      var next := Bump(d, ReasonKey(o));
      assert missing[..i + 1] == missing[..i] + [o];
      forall key
        ensures Get(next, key) == Count(missing[..i + 1], MissingKey(key))
      {
        BumpGet(d, ReasonKey(o), key);
        CountSnoc(missing[..i], o, MissingKey(key));
      }
      forall kind
        ensures KindTotal(next, kind) == Count(missing[..i + 1], MissingKind(kind))
      {
        BumpKind(d, ReasonKey(o), kind);
        CountSnoc(missing[..i], o, MissingKind(kind));
      }
      BumpKind(d, ReasonKey(o), Scientific);
      BumpKeys(d, ReasonKey(o));
      d := next;
    }
    assert missing[..|missing|] == missing;
  }

  datatype Gate = Gate(total: int, missing: int, infrastructure: int, scientific: int, unknown: int, fraction: real, satisfied: bool)

  function Fraction(part: int, whole: int): real {
    if whole != 0 then part as real / whole as real else 0.0
  }

  lemma FractionMeaning(part: int, whole: int, limit: real)
    requires 0 <= part <= whole && limit >= 0.0
    ensures Fraction(part, whole) <= limit <==> part as real <= limit * whole as real
  {
    if whole != 0 {
      var p, w := part as real, whole as real;
      var f := p / w;
      assert f * w == p;
      if f <= limit {
        assert (limit - f) * w >= 0.0;
      } else {
        assert (f - limit) * w > 0.0;
      }
    }
  }

  lemma {:induction false} KindTotalSnoc(d: Dict, e: (string, int), kind: Kind)
    ensures KindTotal(d + [e], kind) == KindTotal(d, kind) + if Classify(e.0) == kind && e.1 > 0 then e.1 else 0
  {
    if d == [] {
      assert (d + [e])[1..] == [];
    } else {
      KindTotalSnoc(d[1..], e, kind);
      assert (d + [e])[1..] == d[1..] + [e];
    }
  }

  // evaluate_infrastructure_gate
  method EvaluateGate(nTotal: int, byReason: Dict, maxFraction: real) returns (g: Gate)
    ensures g.total == (if nTotal > 0 then nTotal else 0)
    ensures g.infrastructure == KindTotal(byReason, Infrastructure) && g.scientific == KindTotal(byReason, Scientific)
    ensures g.unknown == KindTotal(byReason, Unknown)
    ensures g.missing == g.infrastructure + g.scientific + g.unknown
    ensures g.fraction == Fraction(g.infrastructure, g.total) && (g.satisfied <==> g.fraction <= maxFraction)
  {
    var total := if nTotal > 0 then nTotal else 0;
    var infra, sci, unknown := 0, 0, 0;
    for i := 0 to |byReason|
      invariant infra == KindTotal(byReason[..i], Infrastructure)
      invariant sci == KindTotal(byReason[..i], Scientific)
      invariant unknown == KindTotal(byReason[..i], Unknown)
    {
      assert byReason[..i + 1] == byReason[..i] + [byReason[i]];
      KindTotalSnoc(byReason[..i], byReason[i], Infrastructure);
      KindTotalSnoc(byReason[..i], byReason[i], Scientific);
      KindTotalSnoc(byReason[..i], byReason[i], Unknown);
      var n := if byReason[i].1 > 0 then byReason[i].1 else 0;
      if n == 0 {
        continue;
      }
      match Classify(byReason[i].0) {
        case Infrastructure => infra := infra + n;
        case Scientific => sci := sci + n;
        case Unknown => unknown := unknown + n;
      }
    }
    assert byReason[..|byReason|] == byReason;
    var fraction := Fraction(infra, total);
    g := Gate(total, infra + sci + unknown, infra, sci, unknown, fraction, fraction <= maxFraction);
  }

  // ---- eligibility ----

  const CONFIRMATORY := "confirmatory"
  const EXPLORATORY := "exploratory"

  predicate IsSha256Hex(s: string) {
    |s| == 64 && forall c :: c in s ==> '0' <= c <= '9' || 'a' <= c <= 'f'
  }

  predicate UnitOk(o: Observation) {
    Strip(o.taskId) != "" && o.contamination == "POST_CUTOFF" && IsSha256Hex(o.evidence)
  }

  // The share of the whole window lost to declared infrastructure causes is at most 0.30.
  ghost predicate WithinCeiling(s: seq<Observation>) {
    Count(s, MissingKind(Infrastructure)) as real <= MAX_INFRA_FRACTION * |s| as real
  }

  ghost predicate EligibleLedger(s: seq<Observation>, designClass: string) {
    designClass == EXPLORATORY
    || (designClass == CONFIRMATORY && WithinCeiling(s) && Count(s, IsComplete) >= MIN_PAIRS
        && forall o :: o in s && Complete(o) ==> UnitOk(o))
  }

  predicate EligibleUnits(complete: seq<Observation>, gateSatisfied: bool, designClass: string) {
    designClass == CONFIRMATORY && gateSatisfied && |complete| >= MIN_PAIRS && forall o :: o in complete ==> UnitOk(o)
  }

  // evaluate_confirmatory_eligibility, without its explanation text
  method Eligible(complete: seq<Observation>, gateSatisfied: bool, designClass: string) returns (ok: bool)
    ensures ok <==> (designClass == EXPLORATORY || EligibleUnits(complete, gateSatisfied, designClass))
  {
    if designClass == EXPLORATORY {
      return true;
    }
    if designClass != CONFIRMATORY {
      return false;
    }
    if !gateSatisfied {
      return false;
    }
    if |complete| < MIN_PAIRS {
      return false;
    }
    for i := 0 to |complete|
      invariant forall k :: 0 <= k < i ==> UnitOk(complete[k])
    {
      if Strip(complete[i].taskId) == "" || complete[i].contamination != "POST_CUTOFF" || !IsSha256Hex(complete[i].evidence) {
        assert complete[i] in complete;
        return false;
      }
    }
    return true;
  }

  // A missing row whose reason names a declared infrastructure cause.
  ghost predicate LostToInfrastructure(o: Observation) {
    (o.t.None? || o.x.None?) && NamesInfraCause(o.missingReason)
  }

  ghost function Losses(s: seq<Observation>): set<nat> {
    set i: nat | i < |s| && LostToInfrastructure(s[i])
  }

  lemma LostIff(o: Observation)
    ensures Meets(o, MissingKind(Infrastructure)) <==> LostToInfrastructure(o)
  {
    KindIff(o.missingReason);
    if o.missingReason == "" {
      KindIff("unspecified");
      assert Strip("unspecified") == "unspecified" && !StartsWith("unspecified", INFRA_PREFIX);
      assert Strip("") == "";
    }
  }

  // A ledger that passes as confirmatory holds at least 300 complete pairs of pairwise different,
  // non-blank tasks, each after the cut-off and with retained evidence, and lost at most 3 in 10 of its
  // rows to declared infrastructure causes.
  lemma ConfirmatoryMeansDistinctTasks(s: seq<Observation>)
    requires !Replicated(s) && EligibleLedger(s, CONFIRMATORY)
    ensures |Keep(s, true)| >= 300
    ensures 10 * |Losses(s)| <= 3 * |s|
    ensures forall o :: o in Keep(s, true) <==> o in s && o.t.Some? && o.x.Some?
    ensures forall o :: o in Keep(s, true) ==>
      Strip(o.taskId) != "" && o.contamination == "POST_CUTOFF" && |o.evidence| == 64
      && forall c :: c in o.evidence ==> '0' <= c <= '9' || 'a' <= c <= 'f'
    ensures forall i, j :: 0 <= i < j < |Keep(s, true)| ==> Keep(s, true)[i].taskId != Keep(s, true)[j].taskId
  {
    KeepMembers(s, true);
    KeepSize(s, true);
    LossIsBounded(s);
    var c := Keep(s, true);
    forall i, j | 0 <= i < j < |c|
      ensures c[i].taskId != c[j].taskId
    {
      if c[i].taskId == c[j].taskId {
        TwiceIsTwo(c, i, j);
        KeepCount(s, true, CompleteTask(c[i].taskId));
        assert false;
      }
    }
  }

  lemma LostRows(s: seq<Observation>)
    ensures Count(s, MissingKind(Infrastructure)) == |Losses(s)|
  {
    CountIsRows(s, MissingKind(Infrastructure));
    forall i: nat
      ensures i in Rows(s, MissingKind(Infrastructure)) <==> i in Losses(s)
    {
      if i < |s| {
        LostIff(s[i]);
      }
    }
    assert Rows(s, MissingKind(Infrastructure)) == Losses(s);
  }

  // The incomplete rows with a reason, those without one counted as "unspecified".
  ghost function RowsFor(s: seq<Observation>, reason: string): set<nat> {
    set i: nat | i < |s| && (s[i].t.None? || s[i].x.None?) && reason == if s[i].missingReason == "" then "unspecified" else s[i].missingReason
  }

  lemma ReasonRows(s: seq<Observation>, reason: string)
    ensures Count(s, MissingKey(reason)) == |RowsFor(s, reason)|
  {
    CountIsRows(s, MissingKey(reason));
    assert Rows(s, MissingKey(reason)) == RowsFor(s, reason);
  }

  lemma LossIsBounded(s: seq<Observation>)
    ensures WithinCeiling(s) <==> 10 * |Losses(s)| <= 3 * |s|
  {
    LostRows(s);
  }

  lemma TwiceIsTwo(c: seq<Observation>, i: nat, j: nat)
    requires i < j < |c| && Complete(c[i]) && Complete(c[j]) && c[i].taskId == c[j].taskId
    ensures Count(c, CompleteTask(c[i].taskId)) >= 2
  {
    var q := CompleteTask(c[i].taskId);
    CountRemove(c, j, q);
    CountRemove(c[..j] + c[j + 1..], i, q);
  }

  // Row order does not matter to any of the verdicts.
  lemma VerdictsOfMultiset(s: seq<Observation>, r: seq<Observation>, designClass: string)
    requires multiset(s) == multiset(r)
    ensures Replicated(s) == Replicated(r) && EligibleLedger(s, designClass) == EligibleLedger(r, designClass)
    ensures |s| == |r|
  {
    forall q
      ensures Count(s, q) == Count(r, q)
    {
      CountOfMultiset(s, r, q);
    }
    assert |s| == |multiset(s)| && |r| == |multiset(r)|;
    assert forall o :: o in s <==> o in multiset(s);
    assert forall o :: o in r <==> o in multiset(r);
  }
}
