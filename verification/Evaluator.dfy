// The evaluator's verdict over retained JUnit evidence (f2_evaluator.py).
module Evaluator {
  import opened PyText
  import opened NodeId

  // A <testcase> element: its attributes, if present, and the tags of its children.
  datatype TestCase = TestCase(classname: Option<string>, name: Option<string>, tags: set<string>)

  // Retained bytes: refused before or by the XML parser, or a document with these test cases.
  datatype Evidence = Unreadable | Document(cases: seq<TestCase>)

  datatype Status = Passed | Failed | Error | Skipped | Missing

  // ---- the evidence ----

  // A skipped tag outweighs an error, which outweighs a failure.
  function StatusOf(c: TestCase): Status {
    if "skipped" in c.tags then Skipped
    else if "error" in c.tags then Error
    else if "failure" in c.tags then Failed
    else Passed
  }

  lemma StatusIff(c: TestCase)
    ensures StatusOf(c) == Skipped <==> "skipped" in c.tags
    ensures StatusOf(c) == Error <==> "error" in c.tags && "skipped" !in c.tags
    ensures StatusOf(c) == Failed <==> "failure" in c.tags && "error" !in c.tags && "skipped" !in c.tags
    ensures StatusOf(c) == Passed <==> "failure" !in c.tags && "error" !in c.tags && "skipped" !in c.tags
  {
  }

  predicate Named(c: TestCase) {
    c.classname.Some? && c.name.Some?
  }

  function CaseIdentity(c: TestCase): Identity
    requires Named(c)
  {
    Identity(c.classname.value, c.name.value)
  }

  ghost predicate DistinctCases(cases: seq<TestCase>) {
    && (forall i :: 0 <= i < |cases| ==> Named(cases[i]))
    && forall i, j :: 0 <= i < j < |cases| ==> CaseIdentity(cases[i]) != CaseIdentity(cases[j])
  }

  // Evidence that decides every identity: at least one case, all named, none twice.
  ghost predicate Unambiguous(cases: seq<TestCase>) {
    cases != [] && DistinctCases(cases)
  }

  ghost predicate Recorded(statuses: map<Identity, Status>, c: TestCase) {
    Named(c) && CaseIdentity(c) in statuses && statuses[CaseIdentity(c)] == StatusOf(c)
  }

  // One entry a case.
  ghost predicate Records(statuses: map<Identity, Status>, cases: seq<TestCase>) {
    && |statuses| == |cases|
    && (forall i :: 0 <= i < |cases| ==> Recorded(statuses, cases[i]))
    && forall id :: id in statuses ==> exists i :: 0 <= i < |cases| && Named(cases[i]) && CaseIdentity(cases[i]) == id
  }

  // parse_junit_xml, after XML parsing
  method ParseJUnit(evidence: Evidence) returns (r: Option<map<Identity, Status>>)
    ensures r.Some? <==> evidence.Document? && Unambiguous(evidence.cases)
    ensures r.Some? ==> Records(r.value, evidence.cases)
  {
    if evidence.Unreadable? {
      return None;
    }
    var cases := evidence.cases;
    var statuses: map<Identity, Status> := map[];
    for i := 0 to |cases|
      invariant Records(statuses, cases[..i]) && DistinctCases(cases[..i])
    {
      if !Named(cases[i]) {
        return None;
      }
      var ident := CaseIdentity(cases[i]);
      assert cases[..i + 1] == cases[..i] + [cases[i]];
      if ident in statuses {
        RepeatedCase(statuses, cases, i);
        return None;
      }
      RecordsNext(statuses, cases[..i], cases[i]);
      statuses := statuses[ident := StatusOf(cases[i])];
    }
    assert cases[..|cases|] == cases;
    if cases == [] {
      return None;
    }
    return Some(statuses);
  }

  lemma RepeatedCase(statuses: map<Identity, Status>, cases: seq<TestCase>, i: nat)
    requires i < |cases| && Records(statuses, cases[..i]) && Named(cases[i]) && CaseIdentity(cases[i]) in statuses
    ensures !Unambiguous(cases)
  {
    var k :| 0 <= k < i && Named(cases[..i][k]) && CaseIdentity(cases[..i][k]) == CaseIdentity(cases[i]);
    assert cases[..i][k] == cases[k];
  }

  lemma RecordsNext(statuses: map<Identity, Status>, cases: seq<TestCase>, c: TestCase)
    requires Records(statuses, cases) && DistinctCases(cases) && Named(c) && CaseIdentity(c) !in statuses
    ensures Records(statuses[CaseIdentity(c) := StatusOf(c)], cases + [c]) && DistinctCases(cases + [c])
  {
    var next, all := statuses[CaseIdentity(c) := StatusOf(c)], cases + [c];
    forall i | 0 <= i < |cases| ensures Recorded(next, all[i]) && CaseIdentity(all[i]) != CaseIdentity(c) {
      assert Recorded(statuses, cases[i]);
    }
    forall id | id in next ensures exists i :: 0 <= i < |all| && Named(all[i]) && CaseIdentity(all[i]) == id {
      if id == CaseIdentity(c) {
        assert all[|cases|] == c;
      } else {
        var i :| 0 <= i < |cases| && Named(cases[i]) && CaseIdentity(cases[i]) == id;
        assert all[i] == cases[i];
      }
    }
  }

  // ---- the verdict ----

  // What the evidence says of a declared node id.
  function StatusIn(cases: seq<TestCase>, id: Identity): Status {
    if cases == [] then Missing
    else if Named(cases[0]) && CaseIdentity(cases[0]) == id then StatusOf(cases[0])
    else StatusIn(cases[1..], id)
  }

  lemma {:induction false} StatusInIs(cases: seq<TestCase>, id: Identity)
    requires DistinctCases(cases)
    ensures forall i :: 0 <= i < |cases| && CaseIdentity(cases[i]) == id ==> StatusIn(cases, id) == StatusOf(cases[i])
    ensures (forall i :: 0 <= i < |cases| ==> CaseIdentity(cases[i]) != id) ==> StatusIn(cases, id) == Missing
  {
    if cases != [] {
      StatusInIs(cases[1..], id);
      assert forall i :: 0 < i < |cases| ==> cases[i] == cases[1..][i - 1];
    }
  }

  // Declared node ids and their statuses, in the declared order.
  type Verdicts = seq<(string, Status)>

  // _normalise_declaration: stripped, without the empty ones
  function Declared(values: seq<string>): seq<string> {
    if values == [] then []
    else Declared(values[..|values| - 1]) + (if Strip(values[|values| - 1]) == "" then [] else [Strip(values[|values| - 1])])
  }

  ghost predicate NoRepeats(ids: seq<string>) {
    forall i, j :: 0 <= i < j < |ids| ==> ids[i] != ids[j]
  }

  ghost predicate Decomposable(ids: seq<string>) {
    forall i :: 0 <= i < |ids| ==> IdentityOf(ids[i]).Some?
  }

  ghost predicate Resolves(v: Verdicts, ids: seq<string>, cases: seq<TestCase>) {
    && |v| == |ids|
    && forall i :: 0 <= i < |ids| ==>
         IdentityOf(ids[i]).Some? && v[i] == (ids[i], StatusIn(cases, IdentityOf(ids[i]).value))
  }

  datatype Outcome = Outcome(result: string, failToPass: Verdicts, passToPass: Verdicts, emitted: nat)

  method Normalise(values: seq<string>) returns (r: Option<seq<string>>)
    ensures r == if NoRepeats(Declared(values)) then Some(Declared(values)) else None
  {
    var out: seq<string> := [];
    var seen: set<string> := {};
    var repeated := false;
    for i := 0 to |values|
      invariant out == Declared(values[..i])
      invariant forall x :: x in seen <==> x in out
      invariant repeated <==> !NoRepeats(out)
    {
      assert values[..i + 1][..i] == values[..i];
      var text := Strip(values[i]);
      if text != "" {
        RepeatsNext(out, text);
        repeated := repeated || text in seen;
        seen := seen + {text};
        out := out + [text];
      }
    }
    assert values[..|values|] == values;
    return if repeated then None else Some(out);
  }

  lemma RepeatsNext(ids: seq<string>, id: string)
    ensures NoRepeats(ids + [id]) <==> NoRepeats(ids) && id !in ids
  {
    var all := ids + [id];
    if NoRepeats(all) {
      forall i, j | 0 <= i < j < |ids| ensures ids[i] != ids[j] {
        assert all[i] != all[j];
      }
      forall i | 0 <= i < |ids| ensures ids[i] != id {
        assert all[i] != all[|ids|];
      }
    }
  }

  function Found(statuses: map<Identity, Status>, id: Identity): Status {
    if id in statuses then statuses[id] else Missing
  }

  // The dict and the cases say the same.
  lemma FoundIs(statuses: map<Identity, Status>, cases: seq<TestCase>, id: Identity)
    requires DistinctCases(cases) && Records(statuses, cases)
    ensures Found(statuses, id) == StatusIn(cases, id)
  {
    StatusInIs(cases, id);
    if i :| 0 <= i < |cases| && CaseIdentity(cases[i]) == id {
      assert Recorded(statuses, cases[i]);
    }
  }

  lemma ResolvesNext(v: Verdicts, ids: seq<string>, i: nat, cases: seq<TestCase>)
    requires i < |ids| && IdentityOf(ids[i]).Some? && Resolves(v, ids[..i], cases)
    ensures Resolves(v + [(ids[i], StatusIn(cases, IdentityOf(ids[i]).value))], ids[..i + 1], cases)
  {
    var all, more := ids[..i + 1], v + [(ids[i], StatusIn(cases, IdentityOf(ids[i]).value))];
    forall k | 0 <= k < |all|
      ensures IdentityOf(all[k]).Some? && more[k] == (all[k], StatusIn(cases, IdentityOf(all[k]).value))
    {
      assert k < i ==> all[k] == ids[..i][k];
    }
  }

  lemma ResolvedIds(v: Verdicts, ids: seq<string>, cases: seq<TestCase>)
    requires Resolves(v, ids, cases)
    ensures Decomposable(ids)
  {
  }

  method Resolve(ids: seq<string>, statuses: map<Identity, Status>, ghost cases: seq<TestCase>) returns (r: Option<Verdicts>)
    requires Unambiguous(cases) && Records(statuses, cases)
    ensures r.Some? <==> Decomposable(ids)
    ensures r.Some? ==> Resolves(r.value, ids, cases)
  {
    var v: Verdicts := [];
    for i := 0 to |ids|
      invariant Resolves(v, ids[..i], cases)
    {
      var ident := IdentityOf(ids[i]);
      if ident.None? {
        return None;
      }
      FoundIs(statuses, cases, ident.value);
      ResolvesNext(v, ids, i, cases);
      v := v + [(ids[i], Found(statuses, ident.value))];
    }
    assert ids[..|ids|] == ids;
    ResolvedIds(v, ids, cases);
    return Some(v);
  }

  predicate AllPassed(v: Verdicts) {
    forall i :: 0 <= i < |v| ==> v[i].1 == Passed
  }

  ghost predicate Accepted(evidence: Evidence, f2p: seq<string>, p2p: seq<string>) {
    && evidence.Document? && Unambiguous(evidence.cases)
    && Declared(f2p) != [] && NoRepeats(Declared(f2p)) && Decomposable(Declared(f2p))
    && NoRepeats(Declared(p2p)) && Decomposable(Declared(p2p))
  }

  // What the evaluator reports for accepted evidence.
  ghost predicate Reports(o: Outcome, cases: seq<TestCase>, f2p: seq<string>, p2p: seq<string>) {
    && Resolves(o.failToPass, Declared(f2p), cases) && Resolves(o.passToPass, Declared(p2p), cases)
    && o.result == (if AllPassed(o.failToPass) then "pass" else "fail") && o.emitted == |cases|
  }

  // evaluate_execution
  method EvaluateExecution(evidence: Evidence, f2p: seq<string>, p2p: seq<string>) returns (r: Option<Outcome>)
    ensures r.Some? <==> Accepted(evidence, f2p, p2p)
    ensures r.Some? ==> Reports(r.value, evidence.cases, f2p, p2p)
  {
    var ids := Normalise(f2p);
    var otherIds := Normalise(p2p);
    if ids.None? || otherIds.None? || ids.value == [] {
      return None;
    }
    var statuses := ParseJUnit(evidence);
    if statuses.None? {
      return None;
    }
    var resolved := Resolve(ids.value, statuses.value, evidence.cases);
    if resolved.None? {
      return None;
    }
    var others := Resolve(otherIds.value, statuses.value, evidence.cases);
    if others.None? {
      return None;
    }
    var result := if AllPassed(resolved.value) then "pass" else "fail";
    return Some(Outcome(result, resolved.value, others.value, |statuses.value|));
  }

  // A declared test passes: it occurs, with no skipped, error or failure tag.
  ghost predicate Passes(nodeId: string, cases: seq<TestCase>) {
    exists i :: 0 <= i < |cases| && Named(cases[i]) && IdentityOf(nodeId) == Some(CaseIdentity(cases[i]))
      && "skipped" !in cases[i].tags && "error" !in cases[i].tags && "failure" !in cases[i].tags
  }

  ghost predicate AllPass(ids: seq<string>, cases: seq<TestCase>) {
    forall i :: 0 <= i < |ids| ==> Passes(ids[i], cases)
  }

  lemma PassesIff(nodeId: string, cases: seq<TestCase>)
    requires Unambiguous(cases) && IdentityOf(nodeId).Some?
    ensures StatusIn(cases, IdentityOf(nodeId).value) == Passed <==> Passes(nodeId, cases)
  {
    StatusInIs(cases, IdentityOf(nodeId).value);
  }

  // For accepted evidence the result is pass exactly when every declared FAIL_TO_PASS test passes.
  lemma PassIff(o: Outcome, cases: seq<TestCase>, f2p: seq<string>, p2p: seq<string>)
    requires Unambiguous(cases) && Reports(o, cases, f2p, p2p)
    ensures o.result == "pass" || o.result == "fail"
    ensures o.result == "pass" <==> AllPass(Declared(f2p), cases)
  {
    var ids := Declared(f2p);
    forall i | 0 <= i < |ids| ensures o.failToPass[i].1 == Passed <==> Passes(ids[i], cases) {
      PassesIff(ids[i], cases);
    }
    assert AllPassed(o.failToPass) <==> AllPass(ids, cases);
    assert "pass"[0] != "fail"[0];
  }

  // ---- whose result counts ----

  // An executed test: its node id and the tags of its case.
  type Execution = seq<(string, set<string>)>

  // pytest gives every executed test an identity.
  ghost predicate Reported(run: Execution) {
    forall i :: 0 <= i < |run| ==> PytestIdentity(run[i].0).Some?
  }

  // The cases pytest writes for the executed tests, with any parametrisation bracket intact.
  ghost function CasesOf(run: Execution): (cases: seq<TestCase>)
    requires Reported(run)
    ensures |cases| == |run|
    ensures forall i :: 0 <= i < |run| ==> cases[i] == CaseOf(run[i])
  {
    seq(|run|, i requires 0 <= i < |run| && PytestIdentity(run[i].0).Some? => CaseOf(run[i]))
  }

  function CaseOf(test: (string, set<string>)): TestCase
    requires PytestIdentity(test.0).Some?
  {
    TestCase(Some(PytestIdentity(test.0).value.classname), Some(PytestIdentity(test.0).value.name), test.1)
  }

  predicate Clean(tags: set<string>) {
    "skipped" !in tags && "error" !in tags && "failure" !in tags
  }

  // The declared test itself was executed, and passed.
  ghost predicate RanClean(nodeId: string, run: Execution) {
    exists i :: 0 <= i < |run| && Strip(run[i].0) == Strip(nodeId) && Clean(run[i].1)
  }

  // What a declared test needs is a clean case that pytest writes under the identity the evaluator derives
  // from it: its own, or that of any executed test it collides with.
  lemma PassesMeans(nodeId: string, run: Execution)
    requires IdentityOf(nodeId).Some? && Reported(run)
    ensures Passes(nodeId, CasesOf(run)) <==>
      exists i :: 0 <= i < |run| && PytestIdentity(run[i].0) == IdentityOf(nodeId) && Clean(run[i].1)
  {
    var cases := CasesOf(run);
    forall i | 0 <= i < |run|
      ensures Named(cases[i]) && Some(CaseIdentity(cases[i])) == PytestIdentity(run[i].0) && cases[i].tags == run[i].1
    {
      assert cases[i] == CaseOf(run[i]);
    }
  }

  // A plain id of so many classes, with no "::" in its parametrisation.
  ghost predicate Ordinary(nodeId: string, depth: nat) {
    Plain(nodeId) && |Classes(nodeId)| == depth && PytestIdentity(nodeId).Some? && NoSeparator(Parametrisation(nodeId))
  }

  ghost predicate OrdinaryRun(run: Execution, depth: nat) {
    Reported(run) && forall i :: 0 <= i < |run| ==> Ordinary(run[i].0, depth)
  }

  // Under that condition no two tests collide, and a pass is reported exactly when every declared
  // FAIL_TO_PASS test was itself executed and passed.
  lemma PassMeansOwnTests(o: Outcome, run: Execution, f2p: seq<string>, p2p: seq<string>, depth: nat)
    requires OrdinaryRun(run, depth) && forall i :: 0 <= i < |Declared(f2p)| ==> Ordinary(Declared(f2p)[i], depth)
    requires Unambiguous(CasesOf(run)) && Reports(o, CasesOf(run), f2p, p2p)
    ensures o.result == "pass" <==> forall i :: 0 <= i < |Declared(f2p)| ==> RanClean(Declared(f2p)[i], run)
  {
    var ids, cases := Declared(f2p), CasesOf(run);
    PassIff(o, cases, f2p, p2p);
    forall i | 0 <= i < |ids| ensures Passes(ids[i], cases) <==> RanClean(ids[i], run) {
      OwnTestOnly(ids[i], run, depth);
    }
  }

  lemma OwnTestOnly(id: string, run: Execution, depth: nat)
    requires Ordinary(id, depth) && OrdinaryRun(run, depth)
    ensures Passes(id, CasesOf(run)) <==> RanClean(id, run)
  {
    PassesMeans(id, run);
    forall i | 0 <= i < |run| ensures PytestIdentity(run[i].0) == IdentityOf(id) <==> Strip(run[i].0) == Strip(id) {
      OrdinaryIsOneToOne(run[i].0, id, depth);
    }
  }

  lemma OrdinaryIsOneToOne(ran: string, id: string, depth: nat)
    requires Ordinary(ran, depth) && Ordinary(id, depth)
    ensures PytestIdentity(ran) == IdentityOf(id) <==> Strip(ran) == Strip(id)
  {
    IntactIff(ran);
    OneToOneWhenPlain(ran, id);
  }

  // Without it another test can stand in: whenever pytest writes q under the identity derived from p,
  // evidence that holds only the clean case of q reports a pass for the declared test p.
  lemma ForeignTestPasses(p: string, q: string)
    requires Strip(p) != "" && IdentityOf(Strip(p)) == PytestIdentity(q) && PytestIdentity(q).Some?
    ensures Accepted(Document([CaseOf((q, {}))]), [p], [])
    ensures Reports(Outcome("pass", [(Strip(p), Passed)], [], 1), [CaseOf((q, {}))], [p], [])
  {
    var cases := [CaseOf((q, {}))];
    assert [p][..0] == [];
    assert Declared([p]) == [Strip(p)];
    assert StatusIn(cases, PytestIdentity(q).value) == Passed;
  }

  // And a declared test that ran clean can be missed: its own clean case alone passes it exactly when its
  // parametrisation holds no "::".
  lemma OwnCaseCountsIff(p: string)
    requires IdentityOf(p).Some? && PytestIdentity(p).Some?
    ensures Passes(p, [CaseOf((p, {}))]) <==> NoSeparator(Parametrisation(p))
    ensures !NoSeparator(Parametrisation(p)) ==> StatusIn([CaseOf((p, {}))], IdentityOf(p).value) == Missing
  {
    IntactIff(p);
    var cases := [CaseOf((p, {}))];
    assert CaseIdentity(cases[0]) == PytestIdentity(p).value;
  }

  // PASS_TO_PASS never changes the result.
  lemma PassToPassDoesNotMatter(o: Outcome, q: Outcome, cases: seq<TestCase>, f2p: seq<string>, p2p: seq<string>, other: seq<string>)
    requires Reports(o, cases, f2p, p2p) && Reports(q, cases, f2p, other)
    ensures o.result == q.result && o.failToPass == q.failToPass
  {
    assert forall i :: 0 <= i < |o.failToPass| ==> o.failToPass[i] == q.failToPass[i];
  }

  // The order of the test cases changes nothing.
  lemma CaseOrderDoesNotMatter(o: Outcome, q: Outcome, cases: seq<TestCase>, shuffled: seq<TestCase>, f2p: seq<string>, p2p: seq<string>)
    requires Unambiguous(cases) && Unambiguous(shuffled) && multiset(cases) == multiset(shuffled)
    requires Reports(o, cases, f2p, p2p) && Reports(q, shuffled, f2p, p2p)
    ensures o == q
  {
    forall id ensures StatusIn(cases, id) == StatusIn(shuffled, id) {
      SameStatus(cases, shuffled, id);
    }
    assert o.failToPass == q.failToPass && o.passToPass == q.passToPass;
    assert |multiset(cases)| == |multiset(shuffled)|;
  }

  lemma SameStatus(cases: seq<TestCase>, shuffled: seq<TestCase>, id: Identity)
    requires Unambiguous(cases) && Unambiguous(shuffled) && multiset(cases) == multiset(shuffled)
    ensures StatusIn(cases, id) == StatusIn(shuffled, id)
  {
    StatusInIs(cases, id);
    StatusInIs(shuffled, id);
    forall c ensures c in cases <==> c in shuffled {
      assert c in multiset(cases) <==> c in multiset(shuffled);
    }
    if i :| 0 <= i < |cases| && CaseIdentity(cases[i]) == id {
      assert cases[i] in shuffled;
    } else {
      forall j | 0 <= j < |shuffled| ensures CaseIdentity(shuffled[j]) != id {
        assert shuffled[j] in cases;
      }
    }
  }
}
