// The calibration run with its rerun policy, and the summary of its records (f2_calibration.py).
module Calibration {
  import opened PyText
  import opened InfraCauses

  datatype Record = Record(
    instanceId: string,
    arm: string,
    rolloutId: string,
    endpointHash: string,
    horizonSteps: int,
    endpointObserved: bool,
    firstEditStep: Option<int>,
    valid: bool,
    invalidReason: string,
    rerunOf: string,
    rerunCause: string,
    taskId: string)

  predicate IsArm(arm: string) {
    arm == "X" || arm == "C0"
  }

  predicate Blank(s: string) {
    Strip(s) == ""
  }

  // CalibrationRecord.__post_init__
  predicate WellFormed(r: Record) {
    && IsArm(r.arm)
    && !Blank(r.instanceId) && !Blank(r.rolloutId) && !Blank(r.endpointHash)
    && (r.valid || !Blank(r.invalidReason))
    && (r.rerunOf == "" || IsInfraCause(r.rerunCause))
    && (r.endpointObserved <==> r.firstEditStep.Some?)
  }

  datatype Plan = Plan(
    taskIds: seq<string>, replicates: int, horizonSteps: int, endpointHash: string, convention: string, arm: string)

  datatype Authorization = Authorization(
    id: string, authorizedBy: string, taskIds: seq<string>, replicates: int, horizonSteps: int,
    convention: string, endpointHash: string, arm: string)

  // CalibrationAuthorization.__post_init__
  predicate Granted(a: Authorization) {
    && !Blank(a.id) && !Blank(a.authorizedBy) && a.taskIds != [] && a.replicates >= 1 && a.horizonSteps >= 1
    && !Blank(a.convention) && !Blank(a.endpointHash) && IsArm(a.arm)
  }

  // _check_authorization
  predicate Authorised(plan: Plan, auth: Option<Authorization>) {
    && auth.Some?
    && plan.arm == auth.value.arm
    && plan.taskIds == auth.value.taskIds
    && plan.replicates == auth.value.replicates
    && plan.horizonSteps == auth.value.horizonSteps
    && !Blank(plan.endpointHash) && plan.endpointHash == auth.value.endpointHash
    && !Blank(plan.convention) && plan.convention == auth.value.convention
  }

  // A plan runs exactly on an authorization that is complete and says the same in every field.
  lemma AuthorisedIff(plan: Plan, a: Authorization)
    ensures Granted(a) && Authorised(plan, Some(a)) <==>
      && Strip(a.id) != "" && Strip(a.authorizedBy) != "" && Strip(a.convention) != "" && Strip(a.endpointHash) != ""
      && a.taskIds != [] && a.replicates >= 1 && a.horizonSteps >= 1 && (a.arm == "X" || a.arm == "C0")
      && plan == Plan(a.taskIds, a.replicates, a.horizonSteps, a.endpointHash, a.convention, a.arm)
    ensures !Authorised(plan, None)
  {
  }

  // A record is refused exactly for a foreign arm, a blank id, hash or reason, an undeclared rerun cause,
  // or an endpoint without a step or a step without an endpoint.
  lemma WellFormedIff(r: Record)
    ensures WellFormed(r) <==>
      && (r.arm == "X" || r.arm == "C0") && Strip(r.instanceId) != "" && Strip(r.rolloutId) != "" && Strip(r.endpointHash) != ""
      && (!r.valid ==> Strip(r.invalidReason) != "") && (r.rerunOf != "" ==> IsInfraCause(r.rerunCause))
      && (if r.endpointObserved then r.firstEditStep.Some? else r.firstEditStep.None?)
  {
  }

  // ObservationOutcome
  datatype Outcome = Outcome(
    instanceId: string,
    arm: string,
    rolloutId: string,
    endpointObserved: bool,
    firstEditStep: Option<int>,
    valid: bool,
    invalidReason: string,
    infraCause: string)

  predicate IsInfra(o: Outcome) {
    o.infraCause != ""
  }

  datatype Problem = Unauthorized | NotAnArm | UnknownCause | BadRecord | NoRecords | MixedEndpoints | WrongEndpoint | DuplicateRollout

  // One (task, replicate) of the plan.
  datatype Cell = Cell(taskId: string, replicate: nat)

  function Rollout(plan: Plan, cell: Cell): (r: string)
    ensures r != ""
  {
    cell.taskId + "::" + plan.arm + "::r" + Digits(cell.replicate)
  }

  function InfraRecord(plan: Plan, cell: Cell, o: Outcome, attempt: nat): Record {
    Record(o.instanceId, o.arm, Rollout(plan, cell) + "::infra" + Digits(attempt), plan.endpointHash, plan.horizonSteps,
           false, None, false, InfraPrefix() + o.infraCause, Rollout(plan, cell), o.infraCause, cell.taskId)
  }

  function InfraPrefix(): string {
    "infrastructure:"
  }

  function ScientificRecord(plan: Plan, cell: Cell, o: Outcome, rerunOf: string, rerunCause: string): Record {
    Record(o.instanceId, o.arm, if o.rolloutId != "" then o.rolloutId else Rollout(plan, cell), plan.endpointHash,
           plan.horizonSteps, o.endpointObserved, o.firstEditStep, o.valid, o.invalidReason, rerunOf, rerunCause, cell.taskId)
  }

  // ---- one cell ----

  // What the runner reports on its n-th call of the whole run.
  type Tape = nat -> Outcome

  // Attempt i (from 0) of a cell whose first call is number `from`.
  function Reported(tape: Tape, from: nat, i: nat): Outcome {
    tape(from + i)
  }

  // The record it leaves.
  function Attempt(plan: Plan, cell: Cell, tape: Tape, from: nat, i: nat): Record {
    var o := Reported(tape, from, i);
    if IsInfra(o) then InfraRecord(plan, cell, o, i + 1)
    else if i == 0 then ScientificRecord(plan, cell, o, "", "")
    else ScientificRecord(plan, cell, o, Rollout(plan, cell), Reported(tape, from, i - 1).infraCause)
  }

  // What an outcome and its record are refused for.
  function Check(o: Outcome, r: Record): Option<Problem> {
    if !IsArm(o.arm) then Some(NotAnArm)
    else if IsInfra(o) && !IsInfraCause(o.infraCause) then Some(UnknownCause)
    else if !WellFormed(r) then Some(BadRecord)
    else None
  }

  function AttemptProblem(plan: Plan, cell: Cell, tape: Tape, from: nat, i: nat): Option<Problem> {
    Check(Reported(tape, from, i), Attempt(plan, cell, tape, from, i))
  }

  // The last attempt of the cell, counted from attempt i: the first that is not an infrastructure
  // failure, or else the one that uses up the reruns.
  function LastAttempt(tape: Tape, from: nat, i: nat, maxReruns: int): (last: nat)
    ensures i <= last && (last == i || last <= maxReruns)
    ensures forall k :: i <= k < last ==> IsInfra(Reported(tape, from, k))
    ensures !IsInfra(Reported(tape, from, last)) || last >= maxReruns
    decreases maxReruns - i
  {
    if !IsInfra(Reported(tape, from, i)) || i + 1 > maxReruns then i else LastAttempt(tape, from, i + 1, maxReruns)
  }

  function Records(plan: Plan, cell: Cell, tape: Tape, from: nat, n: nat): (recs: seq<Record>)
    ensures |recs| == n
    ensures forall i :: 0 <= i < n ==> recs[i] == Attempt(plan, cell, tape, from, i)
  {
    if n == 0 then [] else Records(plan, cell, tape, from, n - 1) + [Attempt(plan, cell, tape, from, n - 1)]
  }

  // The first i below n with bad(i), or n.
  function First(bad: nat -> bool, n: nat): (i: nat)
    ensures i <= n && (i < n ==> bad(i)) && forall k :: 0 <= k < i ==> !bad(k)
  {
    if n == 0 then 0
    else
      var i := First(bad, n - 1);
      if i < n - 1 then i else if bad(n - 1) then n - 1 else n
  }

  // The attempts that end the run with an error.
  function Bad(plan: Plan, cell: Cell, tape: Tape, from: nat): nat -> bool {
    (i: nat) => AttemptProblem(plan, cell, tape, from, i).Some?
  }

  datatype Progress =
    | Running(records: seq<Record>, calls: nat)
    | Stopped(problem: Problem, calls: nat)

  function CellRun(plan: Plan, cell: Cell, tape: Tape, from: nat, maxReruns: int): Progress {
    var n := LastAttempt(tape, from, 0, maxReruns) + 1;
    var bad := First(Bad(plan, cell, tape, from), n);
    if bad < n then Stopped(AttemptProblem(plan, cell, tape, from, bad).value, bad + 1)
    else Running(Records(plan, cell, tape, from, n), n)
  }

  // The cell has come to attempt i without an error.
  ghost predicate Reached(plan: Plan, cell: Cell, tape: Tape, from: nat, maxReruns: int, i: nat) {
    && i <= LastAttempt(tape, from, 0, maxReruns) == LastAttempt(tape, from, i, maxReruns)
    && forall k :: 0 <= k < i ==> !Bad(plan, cell, tape, from)(k)
  }

  lemma StopsHere(plan: Plan, cell: Cell, tape: Tape, from: nat, maxReruns: int, i: nat)
    requires Reached(plan, cell, tape, from, maxReruns, i) && AttemptProblem(plan, cell, tape, from, i).Some?
    ensures CellRun(plan, cell, tape, from, maxReruns) == Stopped(AttemptProblem(plan, cell, tape, from, i).value, i + 1)
  {
    var n := LastAttempt(tape, from, 0, maxReruns) + 1;
    assert Bad(plan, cell, tape, from)(i);
    assert First(Bad(plan, cell, tape, from), n) == i;
  }

  lemma GoesOn(plan: Plan, cell: Cell, tape: Tape, from: nat, maxReruns: int, i: nat)
    requires Reached(plan, cell, tape, from, maxReruns, i) && AttemptProblem(plan, cell, tape, from, i).None?
    ensures IsInfra(Reported(tape, from, i)) && i + 1 <= maxReruns ==> Reached(plan, cell, tape, from, maxReruns, i + 1)
    ensures !(IsInfra(Reported(tape, from, i)) && i + 1 <= maxReruns) ==>
      CellRun(plan, cell, tape, from, maxReruns) == Running(Records(plan, cell, tape, from, i + 1), i + 1)
  {
    assert !Bad(plan, cell, tape, from)(i);
  }

  // The while True loop of one cell.
  method RunCell(plan: Plan, cell: Cell, tape: Tape, from: nat, maxReruns: int) returns (p: Progress)
    ensures p == CellRun(plan, cell, tape, from, maxReruns)
  {
    var first := Rollout(plan, cell);
    var records: seq<Record> := [];
    var attempt := 0;
    var rerunOf, rerunCause := "", "";
    while true
      invariant Reached(plan, cell, tape, from, maxReruns, attempt)
      invariant records == Records(plan, cell, tape, from, attempt)
      invariant attempt == 0 ==> rerunOf == "" && rerunCause == ""
      invariant attempt > 0 ==> rerunOf == first && rerunCause == Reported(tape, from, attempt - 1).infraCause
      decreases LastAttempt(tape, from, 0, maxReruns) - attempt
    {
      var outcome := Reported(tape, from, attempt);
      if !IsArm(outcome.arm) {
        StopsHere(plan, cell, tape, from, maxReruns, attempt);
        return Stopped(NotAnArm, attempt + 1);
      }
      var isInfra := IsInfra(outcome);
      if isInfra && !IsInfraCause(outcome.infraCause) {
        StopsHere(plan, cell, tape, from, maxReruns, attempt);
        return Stopped(UnknownCause, attempt + 1);
      }
      var r := if isInfra then InfraRecord(plan, cell, outcome, attempt + 1)
               else ScientificRecord(plan, cell, outcome, rerunOf, rerunCause);
      assert r == Attempt(plan, cell, tape, from, attempt);
      if !WellFormed(r) {
        StopsHere(plan, cell, tape, from, maxReruns, attempt);
        return Stopped(BadRecord, attempt + 1);
      }
      GoesOn(plan, cell, tape, from, maxReruns, attempt);
      records := records + [r];
      attempt := attempt + 1;
      if !isInfra || attempt > maxReruns {
        break;
      }
      rerunOf := if rerunOf != "" then rerunOf else first;
      rerunCause := outcome.infraCause;
    }
    return Running(records, attempt);
  }

  function Limit(maxReruns: int): nat {
    if maxReruns >= 0 then maxReruns + 1 else 1
  }

  // A cell leaves one record a call: infrastructure failures first, each kept as an invalid record with
  // its cause, and then at most one scientific record, which is that call's outcome as reported. It
  // ends with a scientific record unless all its reruns are used up.
  lemma CellShape(plan: Plan, cell: Cell, tape: Tape, from: nat, maxReruns: int)
    requires CellRun(plan, cell, tape, from, maxReruns).Running?
    ensures var recs, n := CellRun(plan, cell, tape, from, maxReruns).records, CellRun(plan, cell, tape, from, maxReruns).calls;
      && |recs| == n && 1 <= n <= Limit(maxReruns)
      && (forall i :: 0 <= i < n ==> Kept(recs[i], Reported(tape, from, i), plan, cell))
      && (forall i :: 0 <= i < n - 1 ==> IsInfra(Reported(tape, from, i)))
      && (IsInfra(Reported(tape, from, n - 1)) ==> n == Limit(maxReruns))
      && (forall i :: 0 <= i < n && IsInfra(Reported(tape, from, i)) ==> recs[i].rolloutId == Named(plan, cell, i + 1))
      && (!IsInfra(Reported(tape, from, n - 1)) ==>
            if n == 1 then recs[0].rerunOf == "" && recs[0].rerunCause == ""
            else recs[n - 1].rerunOf == Named(plan, cell, 0) && recs[n - 1].rerunCause == Reported(tape, from, n - 2).infraCause)
  {
    var n := LastAttempt(tape, from, 0, maxReruns) + 1;
    forall i | 0 <= i < n ensures Kept(Attempt(plan, cell, tape, from, i), Reported(tape, from, i), plan, cell) {
      assert !Bad(plan, cell, tape, from)(i);
      AttemptIsKept(plan, cell, tape, from, i);
    }
  }

  ghost predicate Kept(r: Record, o: Outcome, plan: Plan, cell: Cell) {
    && Keeps(r, o) && WellFormed(r)
    && r.endpointHash == plan.endpointHash && r.horizonSteps == plan.horizonSteps && r.taskId == cell.taskId
    && (IsInfra(o) ==> r.rerunOf == Named(plan, cell, 0) && exists a: nat :: a > 0 && r.rolloutId == Named(plan, cell, a))
    && (!IsInfra(o) && o.rolloutId == "" ==> r.rolloutId == Named(plan, cell, 0))
  }

  // The ids made up for the records of a cell: of its scientific record, and of its a-th failure.
  function Named(plan: Plan, cell: Cell, a: nat): string {
    var base := cell.taskId + "::" + plan.arm + "::r" + Digits(cell.replicate);
    if a == 0 then base else base + "::infra" + Digits(a)
  }

  lemma AttemptIsKept(plan: Plan, cell: Cell, tape: Tape, from: nat, i: nat)
    requires AttemptProblem(plan, cell, tape, from, i).None?
    ensures Kept(Attempt(plan, cell, tape, from, i), Reported(tape, from, i), plan, cell)
  {
    var o := Reported(tape, from, i);
    if IsInfra(o) {
      assert Attempt(plan, cell, tape, from, i).rolloutId == Named(plan, cell, i + 1);
    }
  }

  // ---- when a run stops ----

  // An outcome the run takes: of a declared arm and a named instance, and either a failure for a declared
  // cause, or a result whose endpoint has a step exactly when it was observed and that gives a reason if invalid.
  ghost predicate Acceptable(o: Outcome, plan: Plan) {
    && (o.arm == "X" || o.arm == "C0") && Strip(o.instanceId) != "" && Strip(plan.endpointHash) != ""
    && if o.infraCause != "" then IsInfraCause(o.infraCause)
       else
         && (o.rolloutId != "" ==> Strip(o.rolloutId) != "") && (!o.valid ==> Strip(o.invalidReason) != "")
         && (if o.endpointObserved then o.firstEditStep.Some? else o.firstEditStep.None?)
  }

  // What an outcome that is not taken is refused for.
  ghost predicate RefusedFor(o: Outcome, problem: Problem) {
    && (problem == NotAnArm <==> o.arm != "X" && o.arm != "C0")
    && (problem == UnknownCause <==> (o.arm == "X" || o.arm == "C0") && o.infraCause != "" && !IsInfraCause(o.infraCause))
    && (problem == NotAnArm || problem == UnknownCause || problem == BadRecord)
  }

  lemma MadeUpIdIsNotBlank(plan: Plan, cell: Cell)
    ensures Strip(Rollout(plan, cell)) != "" && forall tail: string :: Strip(Rollout(plan, cell) + tail) != ""
  {
    var s, i := Rollout(plan, cell), |cell.taskId|;
    assert s[i] == ':';
    NotBlank(s, i);
    forall tail: string ensures Strip(s + tail) != "" {
      assert (s + tail)[i] == ':';
      NotBlank(s + tail, i);
    }
  }

  lemma FailureIsNamed(plan: Plan, cell: Cell, o: Outcome, attempt: nat)
    ensures var r := InfraRecord(plan, cell, o, attempt);
      Strip(r.rolloutId) != "" && Strip(r.invalidReason) != "" && r.rerunOf != ""
  {
    var reason := InfraPrefix() + o.infraCause;
    assert reason[0] == 'i';
    NotBlank(reason, 0);
    MadeUpIdIsNotBlank(plan, cell);
    assert InfraRecord(plan, cell, o, attempt).rolloutId == Rollout(plan, cell) + ("::infra" + Digits(attempt));
  }

  lemma FailureIsAccepted(plan: Plan, cell: Cell, o: Outcome, attempt: nat)
    requires IsInfra(o)
    ensures var check := Check(o, InfraRecord(plan, cell, o, attempt));
      (check.None? <==> Acceptable(o, plan)) && (check.Some? ==> RefusedFor(o, check.value))
  {
    FailureIsNamed(plan, cell, o, attempt);
    WellFormedIff(InfraRecord(plan, cell, o, attempt));
  }

  lemma ResultIsAccepted(plan: Plan, cell: Cell, o: Outcome, rerunOf: string, cause: string)
    requires !IsInfra(o) && (rerunOf == "" || IsInfraCause(cause))
    ensures var check := Check(o, ScientificRecord(plan, cell, o, rerunOf, cause));
      (check.None? <==> Acceptable(o, plan)) && (check.Some? ==> RefusedFor(o, check.value))
  {
    MadeUpIdIsNotBlank(plan, cell);
    WellFormedIff(ScientificRecord(plan, cell, o, rerunOf, cause));
  }

  lemma AttemptIsAccepted(plan: Plan, cell: Cell, tape: Tape, from: nat, i: nat)
    requires i > 0 ==> IsInfra(Reported(tape, from, i - 1)) && Acceptable(Reported(tape, from, i - 1), plan)
    ensures AttemptProblem(plan, cell, tape, from, i).None? <==> Acceptable(Reported(tape, from, i), plan)
    ensures AttemptProblem(plan, cell, tape, from, i).Some? ==>
      RefusedFor(Reported(tape, from, i), AttemptProblem(plan, cell, tape, from, i).value)
  {
    var o := Reported(tape, from, i);
    if IsInfra(o) {
      FailureIsAccepted(plan, cell, o, i + 1);
    } else if i == 0 {
      ResultIsAccepted(plan, cell, o, "", "");
    } else {
      ResultIsAccepted(plan, cell, o, Rollout(plan, cell), Reported(tape, from, i - 1).infraCause);
    }
  }

  // A run takes the outcomes of its calls until one is not acceptable, and stops there.
  ghost predicate StopsRightly(p: Progress, tape: Tape, from: nat, plan: Plan) {
    && (p.Running? ==> forall k: nat :: k < p.calls ==> Acceptable(Reported(tape, from, k), plan))
    && (p.Stopped? ==>
          && p.calls >= 1 && (forall k: nat :: k < p.calls - 1 ==> Acceptable(Reported(tape, from, k), plan))
          && !Acceptable(Reported(tape, from, p.calls - 1), plan) && RefusedFor(Reported(tape, from, p.calls - 1), p.problem))
  }

  lemma {:induction false} AttemptsAccepted(plan: Plan, cell: Cell, tape: Tape, from: nat, n: nat)
    requires forall k: nat :: k + 1 < n ==> IsInfra(Reported(tape, from, k))
    requires forall k: nat :: k < n ==> AttemptProblem(plan, cell, tape, from, k).None?
    ensures forall k: nat :: k < n ==> Acceptable(Reported(tape, from, k), plan)
  {
    if n > 0 {
      AttemptsAccepted(plan, cell, tape, from, n - 1);
      AttemptIsAccepted(plan, cell, tape, from, n - 1);
    }
  }

  lemma CellStopsRightly(plan: Plan, cell: Cell, tape: Tape, from: nat, maxReruns: int)
    ensures StopsRightly(CellRun(plan, cell, tape, from, maxReruns), tape, from, plan)
  {
    var n := LastAttempt(tape, from, 0, maxReruns) + 1;
    var bad := First(Bad(plan, cell, tape, from), n);
    forall k: nat | k < bad ensures AttemptProblem(plan, cell, tape, from, k).None? {
      assert !Bad(plan, cell, tape, from)(k);
    }
    AttemptsAccepted(plan, cell, tape, from, bad);
    if bad < n {
      assert Bad(plan, cell, tape, from)(bad);
      AttemptIsAccepted(plan, cell, tape, from, bad);
    }
  }

  // ---- made-up ids do not clash ----

  predicate EndsInDigit(p: string) {
    p != "" && IsDigit(p[|p| - 1])
  }

  lemma EndIff(p: string, d: string)
    requires !EndsInDigit(p) && forall k :: 0 <= k < |d| ==> IsDigit(d[k])
    ensures EndsInDigit(p + d) <==> d != ""
  {
    if d == "" {
      assert p + d == p;
    } else {
      assert (p + d)[|p + d| - 1] == d[|d| - 1];
    }
  }

  // A number at the end of a text can be told from what is before it.
  lemma {:induction false} SameEnd(p: string, d: string, q: string, e: string)
    requires p + d == q + e && !EndsInDigit(p) && !EndsInDigit(q)
    requires (forall k :: 0 <= k < |d| ==> IsDigit(d[k])) && forall k :: 0 <= k < |e| ==> IsDigit(e[k])
    ensures p == q && d == e
    decreases |d|
  {
    var s := p + d;
    EndIff(p, d);
    EndIff(q, e);
    if d == "" {
      assert s == p && q + e == q;
    } else {
      assert s[|s| - 1] == d[|d| - 1] && s[|s| - 1] == e[|e| - 1];
      assert p + d[..|d| - 1] == s[..|s| - 1] == q + e[..|e| - 1];
      SameEnd(p, d[..|d| - 1], q, e[..|e| - 1]);
      assert d == d[..|d| - 1] + [d[|d| - 1]] && e == e[..|e| - 1] + [e[|e| - 1]];
    }
  }

  lemma SameNumber(p: string, m: nat, q: string, n: nat)
    requires p + Digits(m) == q + Digits(n) && !EndsInDigit(p) && !EndsInDigit(q)
    ensures p == q && m == n
  {
    DigitsAreDigits(m);
    DigitsAreDigits(n);
    SameEnd(p, Digits(m), q, Digits(n));
    DigitsAreOneToOne(m, n);
  }

  lemma SameBase(plan: Plan, c: Cell, d: Cell)
    requires Named(plan, c, 0) == Named(plan, d, 0)
    ensures c == d
  {
    var tail := "::" + plan.arm + "::r";
    var p, q := c.taskId + tail, d.taskId + tail;
    assert Named(plan, c, 0) == p + Digits(c.replicate) && Named(plan, d, 0) == q + Digits(d.replicate);
    assert p[|p| - 1] == 'r' && q[|q| - 1] == 'r';
    SameNumber(p, c.replicate, q, d.replicate);
    assert p[..|p| - |tail|] == c.taskId && q[..|q| - |tail|] == d.taskId;
  }

  // Of one plan, the ids made up for different cells or different failures differ.
  lemma NamesDiffer(plan: Plan, c: Cell, a: nat, d: Cell, b: nat)
    ensures Named(plan, c, a) == Named(plan, d, b) <==> c == d && a == b
  {
    if Named(plan, c, a) == Named(plan, d, b) {
      var p := if a == 0 then c.taskId + "::" + plan.arm + "::r" else Named(plan, c, 0) + "::infra";
      var q := if b == 0 then d.taskId + "::" + plan.arm + "::r" else Named(plan, d, 0) + "::infra";
      assert p[|p| - 1] == if a == 0 then 'r' else 'a';
      assert q[|q| - 1] == if b == 0 then 'r' else 'a';
      SameNumber(p, if a == 0 then c.replicate else a, q, if b == 0 then d.replicate else b);
      if a > 0 {
        assert p[..|p| - 7] == Named(plan, c, 0) && q[..|q| - 7] == Named(plan, d, 0);
      }
      SameBase(plan, c, d);
    }
  }

  // The record of a call: an infrastructure failure is invalid, with its cause and nothing observed; a
  // scientific outcome is recorded as reported.
  predicate Keeps(r: Record, o: Outcome) {
    && r.instanceId == o.instanceId && r.arm == o.arm
    && if o.infraCause != "" then
         && !r.valid && !r.endpointObserved && r.firstEditStep == None && r.rerunOf != ""
         && r.rerunCause == o.infraCause && IsInfraCause(r.rerunCause) && r.invalidReason == "infrastructure:" + o.infraCause
       else
         && r.valid == o.valid && r.endpointObserved == o.endpointObserved && r.firstEditStep == o.firstEditStep
         && r.invalidReason == o.invalidReason && (o.rolloutId != "" ==> r.rolloutId == o.rolloutId)
  }

  // ---- the whole run ----

  function Replicates(taskId: string, n: int): (cells: seq<Cell>) {
    if n <= 0 then [] else Replicates(taskId, n - 1) + [Cell(taskId, n - 1)]
  }

  function Cells(tasks: seq<string>, replicates: int): seq<Cell> {
    if tasks == [] then [] else Cells(tasks[..|tasks| - 1], replicates) + Replicates(tasks[|tasks| - 1], replicates)
  }

  function Then(before: Progress, plan: Plan, cell: Cell, tape: Tape, maxReruns: int): Progress {
    if before.Stopped? then before
    else Joined(before, CellRun(plan, cell, tape, before.calls, maxReruns))
  }

  function Joined(before: Progress, cell: Progress): Progress
    requires before.Running?
  {
    match cell
    case Stopped(problem, calls) => Stopped(problem, before.calls + calls)
    case Running(records, calls) => Running(before.records + records, before.calls + calls)
  }

  function Run(plan: Plan, cells: seq<Cell>, tape: Tape, maxReruns: int): Progress {
    if cells == [] then Running([], 0)
    else Then(Run(plan, cells[..|cells| - 1], tape, maxReruns), plan, cells[|cells| - 1], tape, maxReruns)
  }

  lemma RunNext(plan: Plan, cells: seq<Cell>, cell: Cell, tape: Tape, maxReruns: int)
    ensures Run(plan, cells + [cell], tape, maxReruns) == Then(Run(plan, cells, tape, maxReruns), plan, cell, tape, maxReruns)
  {
    assert (cells + [cell])[..|cells|] == cells;
  }

  // Runs `cells` after a run that stands at `before`.
  function Continue(before: Progress, plan: Plan, cells: seq<Cell>, tape: Tape, maxReruns: int): Progress {
    if cells == [] then before
    else Then(Continue(before, plan, cells[..|cells| - 1], tape, maxReruns), plan, cells[|cells| - 1], tape, maxReruns)
  }

  lemma {:induction false} RunAppend(plan: Plan, cells: seq<Cell>, more: seq<Cell>, tape: Tape, maxReruns: int)
    ensures Run(plan, cells + more, tape, maxReruns) == Continue(Run(plan, cells, tape, maxReruns), plan, more, tape, maxReruns)
  {
    if more == [] {
      assert cells + more == cells;
    } else {
      var m := more[..|more| - 1];
      assert cells + more == cells + m + [more[|more| - 1]];
      RunAppend(plan, cells, m, tape, maxReruns);
      RunNext(plan, cells + m, more[|more| - 1], tape, maxReruns);
    }
  }

  lemma ContinueNext(before: Progress, plan: Plan, cells: seq<Cell>, cell: Cell, tape: Tape, maxReruns: int)
    ensures Continue(before, plan, cells + [cell], tape, maxReruns) ==
      Then(Continue(before, plan, cells, tape, maxReruns), plan, cell, tape, maxReruns)
  {
    assert (cells + [cell])[..|cells|] == cells;
  }

  // A stopped run stays as it is.
  lemma {:induction false} StaysStopped(before: Progress, plan: Plan, cells: seq<Cell>, more: seq<Cell>, tape: Tape, maxReruns: int)
    requires Continue(before, plan, cells, tape, maxReruns).Stopped?
    ensures Continue(before, plan, cells + more, tape, maxReruns) == Continue(before, plan, cells, tape, maxReruns)
  {
    if more == [] {
      assert cells + more == cells;
    } else {
      var front, last := more[..|more| - 1], more[|more| - 1];
      StaysStopped(before, plan, cells, front, tape, maxReruns);
      ContinueNext(before, plan, cells + front, last, tape, maxReruns);
      assert cells + more == cells + front + [last];
    }
  }

  lemma {:induction false} ReplicatesSplit(taskId: string, r: nat, n: nat) returns (more: seq<Cell>)
    requires r <= n
    ensures Replicates(taskId, n) == Replicates(taskId, r) + more
  {
    more := [];
    if r < n {
      more := ReplicatesSplit(taskId, r, n - 1);
      more := more + [Cell(taskId, n - 1)];
    }
  }

  lemma ContinueStopped(before: Progress, plan: Plan, taskId: string, r: nat, n: nat, tape: Tape, maxReruns: int)
    requires r <= n && Continue(before, plan, Replicates(taskId, r), tape, maxReruns).Stopped?
    ensures Continue(before, plan, Replicates(taskId, n), tape, maxReruns) == Continue(before, plan, Replicates(taskId, r), tape, maxReruns)
  {
    var more := ReplicatesSplit(taskId, r, n);
    StaysStopped(before, plan, Replicates(taskId, r), more, tape, maxReruns);
  }

  // The loop over the replicates of one task.
  method RunReplicates(plan: Plan, taskId: string, before: Progress, tape: Tape, maxReruns: int) returns (p: Progress)
    requires before.Running?
    ensures p == Continue(before, plan, Replicates(taskId, plan.replicates), tape, maxReruns)
  {
    p := before;
    var replicate := 0;
    while replicate < plan.replicates
      invariant 0 <= replicate && (replicate <= plan.replicates || replicate == 0)
      invariant p.Running? && p == Continue(before, plan, Replicates(taskId, replicate), tape, maxReruns)
    {
      var cell := Cell(taskId, replicate);
      ContinueNext(before, plan, Replicates(taskId, replicate), cell, tape, maxReruns);
      assert Replicates(taskId, replicate + 1) == Replicates(taskId, replicate) + [cell];
      replicate := replicate + 1;
      var step := RunCell(plan, cell, tape, p.calls, maxReruns);
      p := Joined(p, step);
      if p.Stopped? {
        ContinueStopped(before, plan, taskId, replicate, plan.replicates, tape, maxReruns);
        return;
      }
    }
    assert Replicates(taskId, replicate) == Replicates(taskId, plan.replicates);
  }

  // The loop over the tasks.
  method RunCells(plan: Plan, tape: Tape, maxReruns: int) returns (p: Progress)
    ensures p == Run(plan, Cells(plan.taskIds, plan.replicates), tape, maxReruns)
  {
    var tasks, n := plan.taskIds, plan.replicates;
    p := Running([], 0);
    for t := 0 to |tasks|
      invariant p.Running? && p == Run(plan, Cells(tasks[..t], n), tape, maxReruns)
    {
      RunAppend(plan, Cells(tasks[..t], n), Replicates(tasks[t], n), tape, maxReruns);
      assert tasks[..t + 1][..t] == tasks[..t];
      p := RunReplicates(plan, tasks[t], p, tape, maxReruns);
      if p.Stopped? {
        CellsFront(plan, tasks, t + 1, tape, maxReruns);
        return;
      }
    }
    assert tasks[..|tasks|] == tasks;
  }

  // A run that stops on the first tasks makes no call for the others.
  lemma {:induction false} CellsFront(plan: Plan, tasks: seq<string>, t: nat, tape: Tape, maxReruns: int)
    requires t <= |tasks| && Run(plan, Cells(tasks[..t], plan.replicates), tape, maxReruns).Stopped?
    ensures Run(plan, Cells(tasks, plan.replicates), tape, maxReruns) == Run(plan, Cells(tasks[..t], plan.replicates), tape, maxReruns)
  {
    if t == |tasks| {
      assert tasks[..t] == tasks;
    } else {
      var front, last := tasks[..|tasks| - 1], tasks[|tasks| - 1];
      assert front[..t] == tasks[..t];
      CellsFront(plan, front, t, tape, maxReruns);
      RunAppend(plan, Cells(front, plan.replicates), Replicates(last, plan.replicates), tape, maxReruns);
      ContinueStopped(Run(plan, Cells(front, plan.replicates), tape, maxReruns), plan, last, 0,
                      if plan.replicates > 0 then plan.replicates else 0, tape, maxReruns);
    }
  }

  ghost predicate CellKept(recs: seq<Record>, tape: Tape, from: nat, plan: Plan, cell: Cell) {
    forall i :: 0 <= i < |recs| ==> Kept(recs[i], Reported(tape, from, i), plan, cell)
  }

  lemma CellIsKept(plan: Plan, cell: Cell, tape: Tape, from: nat, maxReruns: int)
    ensures var p := CellRun(plan, cell, tape, from, maxReruns);
      p.Running? ==> |p.records| == p.calls && CellKept(p.records, tape, from, plan, cell)
  {
    if CellRun(plan, cell, tape, from, maxReruns).Running? {
      CellShape(plan, cell, tape, from, maxReruns);
    }
  }

  ghost predicate AllKept(recs: seq<Record>, tape: Tape, plan: Plan, cells: seq<Cell>) {
    forall k :: 0 <= k < |recs| ==> KeptInSome(recs[k], tape(k), plan, cells)
  }

  ghost predicate KeptInSome(r: Record, o: Outcome, plan: Plan, cells: seq<Cell>) {
    exists cell :: cell in cells && Kept(r, o, plan, cell)
  }

  // Every call of the runner leaves exactly its own record, in the order of the calls.
  lemma {:induction false} EveryCallIsKept(plan: Plan, cells: seq<Cell>, tape: Tape, maxReruns: int)
    ensures AllCallsKept(Run(plan, cells, tape, maxReruns), tape, plan, cells)
  {
    if cells != [] {
      var front, cell := cells[..|cells| - 1], cells[|cells| - 1];
      assert cells == front + [cell];
      EveryCallIsKept(plan, front, tape, maxReruns);
      KeptNext(Run(plan, front, tape, maxReruns), plan, front, cell, tape, maxReruns);
    }
  }

  ghost predicate AllCallsKept(p: Progress, tape: Tape, plan: Plan, cells: seq<Cell>) {
    p.Running? ==> |p.records| == p.calls && AllKept(p.records, tape, plan, cells)
  }

  lemma KeptNext(before: Progress, plan: Plan, front: seq<Cell>, cell: Cell, tape: Tape, maxReruns: int)
    requires AllCallsKept(before, tape, plan, front)
    ensures AllCallsKept(Then(before, plan, cell, tape, maxReruns), tape, plan, front + [cell])
  {
    if before.Running? {
      CellIsKept(plan, cell, tape, before.calls, maxReruns);
      var step := CellRun(plan, cell, tape, before.calls, maxReruns);
      if step.Running? {
        AllKeptNext(before.records, step.records, tape, plan, front, cell);
      }
    }
  }

  lemma AllKeptNext(a: seq<Record>, b: seq<Record>, tape: Tape, plan: Plan, front: seq<Cell>, cell: Cell)
    requires AllKept(a, tape, plan, front)
    requires CellKept(b, tape, |a|, plan, cell)
    ensures AllKept(a + b, tape, plan, front + [cell])
  {
    var recs, cells := a + b, front + [cell];
    forall k | 0 <= k < |recs| ensures KeptInSome(recs[k], tape(k), plan, cells) {
      if k < |a| {
        assert KeptInSome(a[k], tape(k), plan, front);
        var c :| c in front && Kept(a[k], tape(k), plan, c);
        assert c in cells;
      } else {
        assert cell in cells && Kept(b[k - |a|], Reported(tape, |a|, k - |a|), plan, cell);
      }
    }
  }

  // ---- when no two records share an id ----

  ghost predicate DistinctIds(recs: seq<Record>) {
    forall i, j :: 0 <= i < j < |recs| ==> recs[i].rolloutId != recs[j].rolloutId
  }

  // Every record has an id made up for one of the cells.
  ghost predicate NamedFor(r: Record, plan: Plan, cells: seq<Cell>) {
    exists cell, a: nat :: cell in cells && r.rolloutId == Named(plan, cell, a)
  }

  ghost predicate AllNamed(recs: seq<Record>, plan: Plan, cells: seq<Cell>) {
    forall k :: 0 <= k < |recs| ==> NamedFor(recs[k], plan, cells)
  }

  // The records of one cell, when the runner reports no ids.
  lemma CellIds(plan: Plan, cell: Cell, tape: Tape, from: nat, maxReruns: int)
    requires forall n :: tape(n).rolloutId == ""
    ensures var p := CellRun(plan, cell, tape, from, maxReruns);
      p.Running? ==> DistinctIds(p.records) && AllNamed(p.records, plan, [cell])
  {
    if CellRun(plan, cell, tape, from, maxReruns).Running? {
      CellShape(plan, cell, tape, from, maxReruns);
      var recs := CellRun(plan, cell, tape, from, maxReruns).records;
      forall i | 0 <= i < |recs| ensures recs[i].rolloutId == Named(plan, cell, NameIndex(tape, from, i)) && cell in [cell] {
        assert Kept(recs[i], Reported(tape, from, i), plan, cell);
      }
      forall i, j | 0 <= i < j < |recs| ensures recs[i].rolloutId != recs[j].rolloutId {
        NamesDiffer(plan, cell, NameIndex(tape, from, i), cell, NameIndex(tape, from, j));
      }
    }
  }

  function NameIndex(tape: Tape, from: nat, i: nat): nat {
    if IsInfra(Reported(tape, from, i)) then i + 1 else 0
  }

  lemma IdsNext(a: seq<Record>, b: seq<Record>, plan: Plan, front: seq<Cell>, cell: Cell)
    requires DistinctIds(a) && AllNamed(a, plan, front) && DistinctIds(b) && AllNamed(b, plan, [cell]) && cell !in front
    ensures DistinctIds(a + b) && AllNamed(a + b, plan, front + [cell])
  {
    var all, cells := a + b, front + [cell];
    forall i, j | 0 <= i < |a| && 0 <= j < |b| ensures a[i].rolloutId != b[j].rolloutId {
      assert NamedFor(a[i], plan, front) && NamedFor(b[j], plan, [cell]);
      var c, m: nat :| c in front && a[i].rolloutId == Named(plan, c, m);
      var d, n: nat :| d in [cell] && b[j].rolloutId == Named(plan, d, n);
      NamesDiffer(plan, c, m, d, n);
    }
    forall k | 0 <= k < |all| ensures NamedFor(all[k], plan, cells) {
      if k < |a| {
        assert NamedFor(a[k], plan, front);
        var c, m: nat :| c in front && a[k].rolloutId == Named(plan, c, m);
        assert c in cells;
      } else {
        assert NamedFor(b[k - |a|], plan, [cell]);
        var d, n: nat :| d in [cell] && b[k - |a|].rolloutId == Named(plan, d, n);
        assert d in cells;
      }
    }
    forall i, j | 0 <= i < j < |all| ensures all[i].rolloutId != all[j].rolloutId {
      if i < |a| && j >= |a| {
        assert all[j] == b[j - |a|];
      } else if i >= |a| {
        assert all[i] == b[i - |a|] && all[j] == b[j - |a|];
      }
    }
  }

  ghost predicate DistinctCells(cells: seq<Cell>) {
    forall i, j :: 0 <= i < j < |cells| ==> cells[i] != cells[j]
  }

  // A run over different cells whose runner reports no ids makes up different ones.
  lemma {:induction false} MadeUpIdsDiffer(plan: Plan, cells: seq<Cell>, tape: Tape, maxReruns: int)
    requires DistinctCells(cells) && forall n :: tape(n).rolloutId == ""
    ensures var p := Run(plan, cells, tape, maxReruns); p.Running? ==> DistinctIds(p.records) && AllNamed(p.records, plan, cells)
  {
    if cells != [] {
      var front, cell := cells[..|cells| - 1], cells[|cells| - 1];
      assert cells == front + [cell];
      MadeUpIdsDiffer(plan, front, tape, maxReruns);
      var before := Run(plan, front, tape, maxReruns);
      if before.Running? {
        CellIds(plan, cell, tape, before.calls, maxReruns);
        var step := CellRun(plan, cell, tape, before.calls, maxReruns);
        if step.Running? {
          IdsNext(before.records, step.records, plan, front, cell);
        }
      }
    }
  }

  lemma {:induction false} CellsAreOfTasks(tasks: seq<string>, replicates: int)
    ensures forall c :: c in Cells(tasks, replicates) ==> c.taskId in tasks
  {
    if tasks != [] {
      CellsAreOfTasks(tasks[..|tasks| - 1], replicates);
      ReplicatesDiffer(tasks[|tasks| - 1], replicates);
    }
  }

  lemma {:induction false} ReplicatesDiffer(taskId: string, n: int)
    ensures DistinctCells(Replicates(taskId, n))
    ensures forall c :: c in Replicates(taskId, n) ==> c.taskId == taskId && c.replicate < n
  {
    if n > 0 {
      ReplicatesDiffer(taskId, n - 1);
    }
  }

  // A plan of different tasks has different cells.
  lemma {:induction false} CellsDiffer(tasks: seq<string>, replicates: int)
    requires forall i, j :: 0 <= i < j < |tasks| ==> tasks[i] != tasks[j]
    ensures DistinctCells(Cells(tasks, replicates))
  {
    if tasks != [] {
      var front, last := tasks[..|tasks| - 1], tasks[|tasks| - 1];
      CellsDiffer(front, replicates);
      CellsAreOfTasks(front, replicates);
      ReplicatesDiffer(last, replicates);
      var a, b := Cells(front, replicates), Replicates(last, replicates);
      forall i, j | 0 <= i < |a| && 0 <= j < |b| ensures a[i] != b[j] {
        assert a[i] in a && b[j] in b;
      }
      var all := a + b;
      forall i, j | 0 <= i < j < |all| ensures all[i] != all[j] {
        if i < |a| && j >= |a| {
          assert all[j] == b[j - |a|];
        } else if i >= |a| {
          assert all[i] == b[i - |a|] && all[j] == b[j - |a|];
        }
      }
    }
  }

  // A run stops exactly at the first call whose outcome is not acceptable, and says what for.
  lemma {:induction false} RunStopsRightly(plan: Plan, cells: seq<Cell>, tape: Tape, maxReruns: int)
    ensures StopsRightly(Run(plan, cells, tape, maxReruns), tape, 0, plan)
  {
    if cells != [] {
      var before := Run(plan, cells[..|cells| - 1], tape, maxReruns);
      RunStopsRightly(plan, cells[..|cells| - 1], tape, maxReruns);
      if before.Running? {
        CellStopsRightly(plan, cells[|cells| - 1], tape, before.calls, maxReruns);
        StopsJoined(before, CellRun(plan, cells[|cells| - 1], tape, before.calls, maxReruns), tape, plan);
      }
    }
  }

  lemma StopsJoined(before: Progress, cell: Progress, tape: Tape, plan: Plan)
    requires before.Running? && StopsRightly(before, tape, 0, plan) && StopsRightly(cell, tape, before.calls, plan)
    ensures StopsRightly(Joined(before, cell), tape, 0, plan)
  {
    var n := before.calls;
    forall k: nat | k < n + cell.calls && (k < n || Acceptable(Reported(tape, n, k - n), plan))
      ensures Acceptable(Reported(tape, 0, k), plan)
    {
      assert k >= n ==> n + (k - n) == k;
    }
    if cell.Stopped? {
      assert Reported(tape, 0, n + cell.calls - 1) == Reported(tape, n, cell.calls - 1);
    }
  }

  // However the runner behaves, the run ends after at most replicates * tasks * (max_reruns + 1) calls.
  lemma {:induction false} CallsAreBounded(plan: Plan, cells: seq<Cell>, tape: Tape, maxReruns: int)
    ensures Run(plan, cells, tape, maxReruns).calls <= |cells| * Limit(maxReruns)
  {
    if cells != [] {
      CallsAreBounded(plan, cells[..|cells| - 1], tape, maxReruns);
      OneMoreCell(|cells| - 1, Limit(maxReruns));
    }
  }

  lemma OneMoreCell(n: nat, k: nat)
    ensures (n + 1) * k == n * k + k
  {
  }

  lemma {:induction false} CellsCount(tasks: seq<string>, replicates: nat)
    ensures |Cells(tasks, replicates)| == |tasks| * replicates
  {
    if tasks != [] {
      CellsCount(tasks[..|tasks| - 1], replicates);
      ReplicatesCount(tasks[|tasks| - 1], replicates);
      OneMoreCell(|tasks| - 1, replicates);
    }
  }

  lemma {:induction false} ReplicatesCount(taskId: string, n: nat)
    ensures |Replicates(taskId, n)| == n
  {
    if n > 0 {
      ReplicatesCount(taskId, n - 1);
    }
  }

  // Reruns do not depend on outcomes: two runners that fail for infrastructure reasons on the same
  // calls are called equally often in every cell, whatever else they report.
  lemma {:induction false} RerunsAreBlind(plan: Plan, cells: seq<Cell>, a: Tape, b: Tape, maxReruns: int)
    requires forall n :: IsInfra(a(n)) <==> IsInfra(b(n))
    requires Run(plan, cells, a, maxReruns).Running? && Run(plan, cells, b, maxReruns).Running?
    ensures Run(plan, cells, a, maxReruns).calls == Run(plan, cells, b, maxReruns).calls
  {
    if cells != [] {
      RerunsAreBlind(plan, cells[..|cells| - 1], a, b, maxReruns);
      SameLastAttempt(a, b, Run(plan, cells[..|cells| - 1], a, maxReruns).calls, 0, maxReruns);
    }
  }

  lemma {:induction false} SameLastAttempt(a: Tape, b: Tape, from: nat, i: nat, maxReruns: int)
    requires forall n :: IsInfra(a(n)) <==> IsInfra(b(n))
    ensures LastAttempt(a, from, i, maxReruns) == LastAttempt(b, from, i, maxReruns)
    decreases maxReruns - i
  {
    if IsInfra(a(from + i)) && i + 1 <= maxReruns {
      SameLastAttempt(a, b, from, i + 1, maxReruns);
    }
  }
}
