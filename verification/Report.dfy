// The evaluator's report: rendering, parsing and the verdict read from it (f2_evaluator.py).
module Report {
  import opened PyText
  import opened CanonicalJson
  import Evaluator

  // What render_report is given beside the outcome.
  datatype Context = Context(
    implementation: string, instanceId: string, repository: string, baseCommit: string, executionState: string, detail: string)

  function StatusText(s: Evaluator.Status): string {
    match s
    case Passed => "passed"
    case Failed => "failed"
    case Error => "error"
    case Skipped => "skipped"
    case Missing => "missing"
  }

  function ToFields(v: Evaluator.Verdicts): Fields {
    if v == [] then NoField else Field(v[0].0, Str(StatusText(v[0].1)), ToFields(v[1..]))
  }

  // SHA-256 in hexadecimal, taken to be one-to-one: the digest text names the text it was taken of.
  function HexDigest(text: string): string {
    "sha256:" + text
  }

  lemma HexDigestIsOneToOne(s: string, t: string)
    ensures HexDigest(s) == HexDigest(t) <==> s == t
  {
    assert HexDigest(s)[7..] == s && HexDigest(t)[7..] == t;
  }

  // compute_report_digest
  function ReportDigest(payload: Fields): string {
    HexDigest(CanonicalText(Obj(Remove(payload, "report_digest")), true))
  }

  // ---- dicts written as key/value pairs ----

  type Entries = seq<(string, Json)>

  function Dict(ps: Entries): Fields {
    if ps == [] then NoField else Field(ps[0].0, ps[0].1, Dict(ps[1..]))
  }

  ghost predicate DistinctNames(ps: Entries) {
    forall i, j :: 0 <= i < j < |ps| ==> ps[i].0 != ps[j].0
  }

  lemma {:induction false} DictFacts(ps: Entries)
    requires DistinctNames(ps) && forall i :: 0 <= i < |ps| ==> IsRecord(ps[i].1)
    ensures DistinctKeys(Dict(ps)) && FieldsAreRecords(Dict(ps))
    ensures forall i :: 0 <= i < |ps| ==> Has(Dict(ps), ps[i].0) && Lookup(Dict(ps), ps[i].0) == ps[i].1
    ensures forall k :: Has(Dict(ps), k) ==> exists i :: 0 <= i < |ps| && ps[i].0 == k
  {
    if ps != [] {
      var rest := ps[1..];
      assert forall i :: 0 <= i < |rest| ==> rest[i] == ps[i + 1];
      DictFacts(rest);
      assert forall i :: 0 < i < |ps| ==> ps[i] == rest[i - 1];
    }
  }

  // ---- rendering ----

  function Body(o: Evaluator.Outcome, c: Context): Entries {
    [("schema", Str("f2_evaluator_report_v1")),
     ("evaluator_id", Str("f2_pytest_junit_evaluator")),
     ("evaluator_version", Str("1.0.0")),
     ("procedure_id", Str("f2_pytest_junit_identity_v1")),
     ("protocol_version", Str("f2_experiment_j_v1")),
     ("implementation_digest", Str(c.implementation)),
     ("instance_id", Str(c.instanceId)),
     ("repository", Str(c.repository)),
     ("base_commit", Str(c.baseCommit)),
     ("execution_state_identity", Str(c.executionState)),
     ("declared_result", Str(o.result)),
     ("detail", Str(c.detail)),
     ("emitted_identities", Int(o.emitted)),
     ("fail_to_pass", Obj(ToFields(o.failToPass))),
     ("pass_to_pass", Obj(ToFields(o.passToPass)))]
  }

  // the digest is added last
  function Whole(o: Evaluator.Outcome, c: Context): Entries {
    Body(o, c) + [("report_digest", Str(ReportDigest(Dict(Body(o, c)))))]
  }

  // render_report
  function Render(o: Evaluator.Outcome, c: Context): string {
    CanonicalText(Obj(Dict(Whole(o, c))), true)
  }

  // ---- reading ----

  // parse_report
  function ParseReport(text: string): Option<Fields> {
    if text == "" || !Encodable(text) then None
    else
      match Loads(text, false)
      case None => None
      case Some(v) =>
        if !v.Obj? then None
        else if GetOr(v.fields, "schema") != Str("f2_evaluator_report_v1") then None
        else if GetOr(v.fields, "evaluator_id") != Str("f2_pytest_junit_evaluator") then None
        else if GetOr(v.fields, "declared_result") != Str("pass") && GetOr(v.fields, "declared_result") != Str("fail") then None
        else if GetOr(v.fields, "report_digest") != Str(ReportDigest(v.fields)) then None
        else Some(v.fields)
  }

  // bytes that decode as ASCII
  predicate Encodable(text: string) {
    forall i :: 0 <= i < |text| ==> text[i] < '\U{80}'
  }

  // str() of a JSON value; arrays and objects are shown by their JSON text.
  function PyStr(v: Json): string {
    match v
    case Str(s) => s
    case Null => "None"
    case Bool(b) => if b then "True" else "False"
    case _ => Write(v, true)
  }

  // str(payload.get(key) or "")
  function TextOf(payload: Fields, key: string): string {
    var v := GetOr(payload, key);
    if Falsy(v) then "" else PyStr(v)
  }

  predicate Clash(want: string, got: string) {
    want != "" && got != "" && want != got
  }

  // NOT_PASSED
  function NotPassed(): set<string> {
    {"failed", "error", "skipped", "missing"}
  }

  // ---- the verdict of a report ----

  predicate IsStatus(v: Json) {
    v.Str? && (v.s == "passed" || v.s in NotPassed())
  }

  // FAIL_TO_PASS is a map with at least one test, and every value in it is a status.
  ghost predicate Decided(f2p: Json) {
    f2p.Obj? && f2p.fields.Field? && forall k :: Has(f2p.fields, k) ==> IsStatus(Lookup(f2p.fields, k))
  }

  ghost predicate EveryTestPassed(f2p: Fields) {
    forall k :: Has(f2p, k) ==> Lookup(f2p, k) == Str("passed")
  }

  // What a report says, or None where it says nothing.
  ghost function Verdict(payload: Fields): Option<string> {
    var f2p := GetOr(payload, "fail_to_pass");
    if !Decided(f2p) then None else if EveryTestPassed(f2p.fields) then Some("pass") else Some("fail")
  }

  // ---- the two readers ----

  // {str(k): str(v) for k, v in f2p.items()}
  method Texts(f2p: Fields) returns (statuses: map<string, string>)
    requires DistinctKeys(f2p)
    ensures TextsOf(statuses, f2p)
  {
    statuses := map[];
    var left := f2p;
    while left.Field?
      invariant DistinctKeys(left) && forall k :: Has(left, k) ==> Has(f2p, k) && Lookup(left, k) == Lookup(f2p, k)
      invariant forall k :: k in statuses <==> Has(f2p, k) && !Has(left, k)
      invariant forall k :: k in statuses ==> statuses[k] == PyStr(Lookup(f2p, k))
      decreases left
    {
      assert Has(left, left.key) && Lookup(left, left.key) == left.value;
      statuses := statuses[left.key := PyStr(left.value)];
      left := left.rest;
    }
  }

  ghost predicate TextsOf(statuses: map<string, string>, f2p: Fields) {
    && (forall k :: k in statuses <==> Has(f2p, k))
    && forall k :: k in statuses ==> statuses[k] == PyStr(Lookup(f2p, k))
  }

  // verdict_from_report_payload
  method VerdictFromPayload(payload: Fields) returns (r: Option<string>)
    requires IsRecord(Obj(payload))
    ensures r == Verdict(payload)
  {
    var f2p := GetOr(payload, "fail_to_pass");
    if !f2p.Obj? || f2p.fields.NoField? {
      return None;
    }
    FieldIsRecord(payload, "fail_to_pass");
    var statuses := Texts(f2p.fields);
    var unknown: set<string> := {};
    var notPassed: map<string, string> := map[];
    var keys := statuses.Keys;
    while keys != {}
      invariant keys <= statuses.Keys
      invariant forall x :: x in unknown <==> exists k :: k in statuses.Keys - keys && statuses[k] == x != "passed"
      invariant forall k :: k in notPassed <==> k in statuses.Keys - keys && statuses[k] in NotPassed()
      decreases keys
    {
      var k :| k in keys;
      if statuses[k] != "passed" {
        unknown := unknown + {statuses[k]};
      }
      if statuses[k] in NotPassed() {
        notPassed := notPassed[k := statuses[k]];
      }
      keys := keys - {k};
    }
    unknown := unknown - NotPassed();
    SoundCounts(statuses, f2p.fields, unknown, notPassed);
    if unknown != {} {
      return None;
    }
    return Some(if notPassed == map[] then "pass" else "fail");
  }

  // derive_result_protocol; the context holds the expected execution state and instance id, "" for none.
  // It reads the map a second time, by its own comprehensions.
  method DeriveResult(text: string, implementation: string, wantState: string, wantInstance: string) returns (r: Option<string>)
    ensures r == Derived(text, implementation, wantState, wantInstance)
  {
    var report := ParseReport(text);
    if report.None? {
      return None;
    }
    LoadsGivesRecords(text, false);
    var payload := report.value;
    if GetOr(payload, "implementation_digest") != Str(implementation) {
      return None;
    }
    if Clash(wantState, TextOf(payload, "execution_state_identity")) || Clash(wantInstance, TextOf(payload, "instance_id")) {
      return None;
    }
    var f2p := GetOr(payload, "fail_to_pass");
    if !f2p.Obj? || f2p.fields.NoField? {
      return None;
    }
    FieldIsRecord(payload, "fail_to_pass");
    var statuses := Texts(f2p.fields);
    var unknown := (set k | k in statuses && statuses[k] != "passed" :: statuses[k]) - NotPassed();
    var notPassed := map k | k in statuses && statuses[k] in NotPassed() :: statuses[k];
    SoundCounts(statuses, f2p.fields, unknown, notPassed);
    if unknown != {} {
      return None;
    }
    return Some(if notPassed == map[] then "pass" else "fail");
  }

  // What the second reader has to return.
  ghost function Derived(text: string, implementation: string, wantState: string, wantInstance: string): Option<string> {
    match ParseReport(text)
    case None => None
    case Some(payload) =>
      if GetOr(payload, "implementation_digest") != Str(implementation) then None
      else if Clash(wantState, TextOf(payload, "execution_state_identity")) then None
      else if Clash(wantInstance, TextOf(payload, "instance_id")) then None
      else Verdict(payload)
  }

  lemma FieldIsRecord(payload: Fields, key: string)
    requires IsRecord(Obj(payload))
    ensures IsRecord(GetOr(payload, key))
  {
    if Has(payload, key) {
      HasFieldRecord(payload, key);
    }
  }

  // The two counts over the texts decide what the values say: no value but a status prints as one.
  lemma SoundCounts(statuses: map<string, string>, f2p: Fields, unknown: set<string>, notPassed: map<string, string>)
    requires TextsOf(statuses, f2p) && f2p.Field?
    requires forall x :: x in unknown <==> (exists k :: k in statuses && statuses[k] == x != "passed") && x !in NotPassed()
    requires forall k :: k in notPassed <==> k in statuses && statuses[k] in NotPassed()
    ensures unknown == {} <==> Decided(Obj(f2p))
    ensures unknown == {} ==> (notPassed == map[] <==> EveryTestPassed(f2p))
  {
    forall k | Has(f2p, k)
      ensures IsStatus(Lookup(f2p, k)) <==> statuses[k] == "passed" || statuses[k] in NotPassed()
      ensures statuses[k] in unknown <==> !IsStatus(Lookup(f2p, k))
      ensures Lookup(f2p, k) == Str("passed") <==> statuses[k] == "passed"
    {
      OnlyStatusesPrintSo(Lookup(f2p, k));
      assert k in statuses;
    }
    if unknown != {} {
      var x :| x in unknown;
      var k :| k in statuses && statuses[k] == x;
      assert Has(f2p, k);
    }
    if notPassed != map[] {
      var k :| k in notPassed;
      assert Has(f2p, k) && statuses[k] != "passed" by {
        StatusesDiffer();
      }
    }
  }

  lemma StatusesDiffer()
    ensures "passed" !in NotPassed()
  {
    assert "passed"[0] == 'p' && "failed"[0] == 'f' && "error"[0] == 'e' && "skipped"[0] == 's' && "missing"[0] == 'm';
  }

  lemma OnlyStatusesPrintSo(v: Json)
    ensures PyStr(v) == "passed" || PyStr(v) in NotPassed() <==> IsStatus(v)
    ensures PyStr(v) == "passed" <==> v == Str("passed")
  {
    if !v.Str? {
      var c := PyStr(v)[0];
      assert c !in {'p', 'f', 'e', 's', 'm'} by {
        if v.Int? {
          DigitsAreDigits(if v.i < 0 then -v.i else v.i);
        }
      }
      assert "passed"[0] == 'p' && "failed"[0] == 'f' && "error"[0] == 'e' && "skipped"[0] == 's' && "missing"[0] == 'm';
    }
  }

  // On any text at all the two readers agree: the second says nothing, or what the first one says of the
  // same payload.
  method ReadBoth(text: string, implementation: string, wantState: string, wantInstance: string)
    returns (first: Option<string>, second: Option<string>)
    ensures second.Some? ==> first == second
    ensures second.None? && first.Some? && ParseReport(text).Some? ==>
      var payload := ParseReport(text).value;
      || GetOr(payload, "implementation_digest") != Str(implementation)
      || Clash(wantState, TextOf(payload, "execution_state_identity")) || Clash(wantInstance, TextOf(payload, "instance_id"))
    ensures ParseReport(text).None? ==> first == None == second
  {
    var report := ParseReport(text);
    first := None;
    if report.Some? {
      LoadsGivesRecords(text, false);
      first := VerdictFromPayload(report.value);
    }
    second := DeriveResult(text, implementation, wantState, wantInstance);
  }

  // ---- the third reading: the declared result ----

  // The result an accepted report declares is what its readers derive exactly when its FAIL_TO_PASS map
  // decides one and the declaration is right about it; parsing does not look.
  lemma DeclaredAgreesIff(text: string)
    requires ParseReport(text).Some?
    ensures var payload := ParseReport(text).value; var f2p := GetOr(payload, "fail_to_pass");
      && (GetOr(payload, "declared_result") == Str("pass") || GetOr(payload, "declared_result") == Str("fail"))
      && (Verdict(payload) == Some(GetOr(payload, "declared_result").s) <==>
            Decided(f2p) && (GetOr(payload, "declared_result") == Str("pass") <==> EveryTestPassed(f2p.fields)))
  {
    assert "pass"[0] != "fail"[0];
  }

  // ---- the field names are distinct ----

  function Code(s: string): int {
    if |s| < 2 then -1 else |s| * 1000 + s[0] as int + 10 * s[1] as int
  }

  ghost predicate HasCodes(ps: Entries, codes: seq<int>) {
    |ps| == |codes| && forall i :: 0 <= i < |ps| ==> Code(ps[i].0) == codes[i]
  }

  function Codes(): seq<int> {
    [7105, 13281, 18281, 13252, 17252, 22195, 12205, 11124, 12068, 25301, 16110, 7110, 19191, 13072, 13082, 14124]
  }

  lemma CodesDiffer()
    ensures forall i, j :: 0 <= i < j < |Codes()| ==> Codes()[i] != Codes()[j]
  {
  }

  lemma WholeHasCodes(o: Evaluator.Outcome, c: Context)
    ensures HasCodes(Whole(o, c), Codes())
  {
    FirstCodes();
    LastCodes();
  }

  lemma FirstCodes()
    ensures Code("schema") == 7105 && Code("evaluator_id") == 13281 && Code("evaluator_version") == 18281
    ensures Code("procedure_id") == 13252 && Code("protocol_version") == 17252 && Code("implementation_digest") == 22195
    ensures Code("instance_id") == 12205 && Code("repository") == 11124
  {
  }

  lemma LastCodes()
    ensures Code("base_commit") == 12068 && Code("execution_state_identity") == 25301 && Code("declared_result") == 16110
    ensures Code("detail") == 7110 && Code("emitted_identities") == 19191 && Code("fail_to_pass") == 13072
    ensures Code("pass_to_pass") == 13082 && Code("report_digest") == 14124
  {
  }

  lemma NamesAreDistinct(o: Evaluator.Outcome, c: Context)
    ensures DistinctNames(Whole(o, c)) && DistinctNames(Body(o, c))
  {
    WholeHasCodes(o, c);
    CodesDiffer();
    var ps := Whole(o, c);
    forall i, j | 0 <= i < j < |ps| ensures ps[i].0 != ps[j].0 {
      assert Code(ps[i].0) == Codes()[i] && Code(ps[j].0) == Codes()[j];
    }
    assert forall i :: 0 <= i < |Body(o, c)| ==> Body(o, c)[i] == ps[i];
  }

  // ---- digests ----

  // The digest covers exactly the other fields: the order of keys does not matter, anything else does.
  lemma DigestCovers(f: Fields, g: Fields)
    requires IsRecord(Obj(f)) && IsRecord(Obj(g))
    ensures ReportDigest(f) == ReportDigest(g) <==>
      Same(Obj(Remove(f, "report_digest")), Obj(Remove(g, "report_digest")))
  {
    RemoveFacts(f, "report_digest");
    RemoveFacts(g, "report_digest");
    var x, y := Obj(Remove(f, "report_digest")), Obj(Remove(g, "report_digest"));
    HexDigestIsOneToOne(CanonicalText(x, true), CanonicalText(y, true));
    CanonicalTextIdentifies(x, y, true);
  }

  // A report with any other field changed and the old digest left in place is refused.
  lemma AlteredReportIsRefused(text: string, altered: string)
    requires ParseReport(text).Some? && Loads(altered, false).Some? && Loads(altered, false).value.Obj?
    requires var f, g := ParseReport(text).value, Loads(altered, false).value.fields;
      && GetOr(g, "report_digest") == GetOr(f, "report_digest")
      && !Same(Obj(Remove(f, "report_digest")), Obj(Remove(g, "report_digest")))
    ensures ParseReport(altered) == None
  {
    LoadsGivesRecords(text, false);
    LoadsGivesRecords(altered, false);
    DigestCovers(ParseReport(text).value, Loads(altered, false).value.fields);
  }

  // Fields that agree but for the digest, up to the order of keys inside them, have one digest.
  lemma SameDigest(f: Fields, g: Fields)
    requires IsRecord(Obj(f)) && IsRecord(Obj(g))
    requires forall k :: k != "report_digest" ==> (Has(f, k) <==> Has(g, k))
    requires forall k :: k != "report_digest" && Has(f, k) && Has(g, k) ==> Canon(Lookup(f, k)) == Canon(Lookup(g, k))
    ensures ReportDigest(f) == ReportDigest(g)
  {
    var x, y := Remove(f, "report_digest"), Remove(g, "report_digest");
    RemoveFacts(f, "report_digest");
    RemoveFacts(g, "report_digest");
    CanonFieldsFacts(x);
    CanonFieldsFacts(y);
    SortedUnique(CanonFields(x), CanonFields(y));
  }

  // ---- reading a rendered report ----

  ghost predicate DistinctIds(v: Evaluator.Verdicts) {
    forall i, j :: 0 <= i < j < |v| ==> v[i].0 != v[j].0
  }

  lemma {:induction false} ToFieldsFacts(v: Evaluator.Verdicts)
    requires DistinctIds(v)
    ensures DistinctKeys(ToFields(v)) && FieldsAreRecords(ToFields(v))
    ensures forall k :: Has(ToFields(v), k) ==> exists i :: 0 <= i < |v| && v[i].0 == k
    ensures forall i :: 0 <= i < |v| ==> Has(ToFields(v), v[i].0) && Lookup(ToFields(v), v[i].0) == Str(StatusText(v[i].1))
  {
    if v != [] {
      var rest := v[1..];
      assert forall i :: 0 <= i < |rest| ==> rest[i] == v[i + 1];
      ToFieldsFacts(rest);
      assert forall i :: 0 < i < |v| ==> v[i] == rest[i - 1];
    }
  }

  // An outcome as far as rendering and parsing look at it.
  ghost predicate Renderable(o: Evaluator.Outcome) {
    DistinctIds(o.failToPass) && DistinctIds(o.passToPass) && (o.result == "pass" || o.result == "fail")
  }

  // The outcome of an evaluation.
  ghost predicate Consistent(o: Evaluator.Outcome) {
    && Renderable(o) && o.failToPass != []
    && o.result == if Evaluator.AllPassed(o.failToPass) then "pass" else "fail"
  }

  lemma WholeIsRecord(o: Evaluator.Outcome, c: Context)
    requires Renderable(o)
    ensures forall i :: 0 <= i < |Whole(o, c)| ==> IsRecord(Whole(o, c)[i].1)
  {
    ToFieldsFacts(o.failToPass);
    ToFieldsFacts(o.passToPass);
  }

  // The parsed report: the rendered fields with sorted keys.
  function Parsed(o: Evaluator.Outcome, c: Context): Fields {
    CanonFields(Dict(Whole(o, c)))
  }

  lemma ParsedField(o: Evaluator.Outcome, c: Context, i: nat)
    requires Renderable(o) && i < |Whole(o, c)|
    ensures GetOr(Parsed(o, c), Whole(o, c)[i].0) == Canon(Whole(o, c)[i].1)
  {
    var ps := Whole(o, c);
    NamesAreDistinct(o, c);
    WholeIsRecord(o, c);
    DictFacts(ps);
    CanonFieldsFacts(Dict(ps));
    assert Has(Dict(ps), ps[i].0) && Lookup(Dict(ps), ps[i].0) == ps[i].1;
  }

  lemma ParsedDigest(o: Evaluator.Outcome, c: Context)
    requires Renderable(o)
    ensures IsRecord(Obj(Parsed(o, c)))
    ensures ReportDigest(Parsed(o, c)) == ReportDigest(Dict(Body(o, c)))
  {
    var ps, body := Whole(o, c), Body(o, c);
    NamesAreDistinct(o, c);
    WholeIsRecord(o, c);
    DictFacts(ps);
    assert forall i :: 0 <= i < |body| ==> body[i] == ps[i];
    DictFacts(body);
    var p, f, b := Dict(ps), Parsed(o, c), Dict(body);
    CanonFieldsFacts(p);
    CanonIsRecord(Obj(p));
    forall k | k != "report_digest"
      ensures Has(f, k) <==> Has(b, k)
      ensures Has(f, k) && Has(b, k) ==> Canon(Lookup(f, k)) == Canon(Lookup(b, k))
    {
      if Has(p, k) {
        var i :| 0 <= i < |ps| && ps[i].0 == k;
        assert i < |body| && Lookup(p, k) == body[i].1 && Lookup(b, body[i].0) == body[i].1;
        CanonIdempotent(body[i].1);
      }
    }
    SameDigest(f, b);
  }

  lemma LoadsRendered(o: Evaluator.Outcome, c: Context)
    requires Renderable(o)
    ensures Render(o, c) != "" && Encodable(Render(o, c)) && Loads(Render(o, c), false) == Some(Obj(Parsed(o, c)))
  {
    var v := Obj(Dict(Whole(o, c)));
    NamesAreDistinct(o, c);
    WholeIsRecord(o, c);
    DictFacts(Whole(o, c));
    LoadsCanonicalText(v, true, false);
    TextIsAscii(Canon(v));
    FirstChar(Canon(v), true);
  }

  lemma ParsedText(o: Evaluator.Outcome, c: Context, i: nat, name: string, text: string)
    requires Renderable(o) && i < |Whole(o, c)| && Whole(o, c)[i] == (name, Str(text))
    ensures GetOr(Parsed(o, c), name) == Str(text)
  {
    ParsedField(o, c, i);
  }

  // Rendering and then parsing succeeds and gives every field back.
  lemma ParseRendered(o: Evaluator.Outcome, c: Context)
    requires Renderable(o)
    ensures ParseReport(Render(o, c)) == Some(Parsed(o, c))
  {
    LoadsRendered(o, c);
    ParsedText(o, c, 0, "schema", "f2_evaluator_report_v1");
    ParsedText(o, c, 1, "evaluator_id", "f2_pytest_junit_evaluator");
    ParsedText(o, c, 10, "declared_result", o.result);
    ParsedDigest(o, c);
    ParsedText(o, c, 15, "report_digest", ReportDigest(Dict(Body(o, c))));
  }

  // ---- what a written report says ----

  // The text of a status.
  ghost predicate Spells(t: Json, s: Evaluator.Status) {
    && (t == Str("passed") <==> s == Evaluator.Passed) && (t == Str("failed") <==> s == Evaluator.Failed)
    && (t == Str("error") <==> s == Evaluator.Error) && (t == Str("skipped") <==> s == Evaluator.Skipped)
    && (t == Str("missing") <==> s == Evaluator.Missing)
  }

  // A dict with these test ids and no other, each with its own status.
  ghost predicate Lists(v: Json, tests: Evaluator.Verdicts) {
    && v.Obj?
    && (forall id :: Has(v.fields, id) <==> exists i :: 0 <= i < |tests| && tests[i].0 == id)
    && forall i :: 0 <= i < |tests| ==> Spells(GetOr(v.fields, tests[i].0), tests[i].1)
  }

  lemma StatusIsSpelled(s: Evaluator.Status)
    ensures Spells(Str(StatusText(s)), s)
  {
    assert "passed"[0] == 'p' && "failed"[0] == 'f' && "error"[0] == 'e' && "skipped"[0] == 's' && "missing"[0] == 'm';
  }

  lemma SortedLists(v: Evaluator.Verdicts)
    requires DistinctIds(v)
    ensures Lists(Obj(CanonFields(ToFields(v))), v)
  {
    var f, g := ToFields(v), CanonFields(ToFields(v));
    ToFieldsFacts(v);
    CanonFieldsFacts(f);
    forall i | 0 <= i < |v| ensures Has(g, v[i].0) && Spells(GetOr(g, v[i].0), v[i].1) {
      StatusIsSpelled(v[i].1);
      assert Has(f, v[i].0);
    }
  }

  // The parsed report, field by field.
  lemma ReportSays(o: Evaluator.Outcome, c: Context)
    requires Renderable(o)
    ensures ParseReport(Render(o, c)).Some?
    ensures var f := ParseReport(Render(o, c)).value;
      && Lists(GetOr(f, "fail_to_pass"), o.failToPass) && Lists(GetOr(f, "pass_to_pass"), o.passToPass)
      && GetOr(f, "declared_result") == Str(o.result) && GetOr(f, "emitted_identities") == Int(o.emitted)
      && GetOr(f, "detail") == Str(c.detail)
  {
    ParseRendered(o, c);
    SortedLists(o.failToPass);
    SortedLists(o.passToPass);
    ParsedField(o, c, 13);
    ParsedField(o, c, 14);
    ParsedField(o, c, 12);
    ParsedText(o, c, 10, "declared_result", o.result);
    ParsedText(o, c, 11, "detail", c.detail);
  }

  lemma ReportIdentifies(o: Evaluator.Outcome, c: Context)
    requires Renderable(o)
    ensures ParseReport(Render(o, c)).Some?
    ensures var f := ParseReport(Render(o, c)).value;
      && GetOr(f, "schema") == Str("f2_evaluator_report_v1") && GetOr(f, "evaluator_id") == Str("f2_pytest_junit_evaluator")
      && GetOr(f, "evaluator_version") == Str("1.0.0") && GetOr(f, "procedure_id") == Str("f2_pytest_junit_identity_v1")
      && GetOr(f, "protocol_version") == Str("f2_experiment_j_v1") && GetOr(f, "implementation_digest") == Str(c.implementation)
  {
    ParseRendered(o, c);
    ParsedText(o, c, 0, "schema", "f2_evaluator_report_v1");
    ParsedText(o, c, 1, "evaluator_id", "f2_pytest_junit_evaluator");
    ParsedText(o, c, 2, "evaluator_version", "1.0.0");
    ParsedText(o, c, 3, "procedure_id", "f2_pytest_junit_identity_v1");
    ParsedText(o, c, 4, "protocol_version", "f2_experiment_j_v1");
    ParsedText(o, c, 5, "implementation_digest", c.implementation);
  }

  lemma ReportLocates(o: Evaluator.Outcome, c: Context)
    requires Renderable(o)
    ensures ParseReport(Render(o, c)).Some?
    ensures var f := ParseReport(Render(o, c)).value;
      && GetOr(f, "instance_id") == Str(c.instanceId) && GetOr(f, "repository") == Str(c.repository)
      && GetOr(f, "base_commit") == Str(c.baseCommit) && GetOr(f, "execution_state_identity") == Str(c.executionState)
  {
    ParseRendered(o, c);
    ParsedText(o, c, 6, "instance_id", c.instanceId);
    ParsedText(o, c, 7, "repository", c.repository);
    ParsedText(o, c, 8, "base_commit", c.baseCommit);
    ParsedText(o, c, 9, "execution_state_identity", c.executionState);
  }

  // Every accepted text is of this schema and evaluator, declares one of the two results and carries the
  // digest of its other fields; and every ASCII text of a dict that does so is accepted.
  lemma AcceptedIff(text: string)
    ensures ParseReport(text).Some? <==>
      && text != "" && (forall i :: 0 <= i < |text| ==> text[i] < '\U{80}')
      && Loads(text, false).Some? && Loads(text, false).value.Obj?
      && var f := Loads(text, false).value.fields;
        && GetOr(f, "schema") == Str("f2_evaluator_report_v1") && GetOr(f, "evaluator_id") == Str("f2_pytest_junit_evaluator")
        && GetOr(f, "declared_result") in {Str("pass"), Str("fail")}
        && GetOr(f, "report_digest") == Str(HexDigest(CanonicalText(Obj(Remove(f, "report_digest")), true)))
  {
  }

  // ---- the verdicts ----

  lemma StatusTexts(s: Evaluator.Status)
    ensures IsStatus(Str(StatusText(s))) && (StatusText(s) == "passed" <==> s == Evaluator.Passed)
  {
    StatusesDiffer();
  }

  // A rendered report says what its map says, whatever it declares.
  lemma VerdictOfRendered(o: Evaluator.Outcome, c: Context)
    requires Renderable(o) && o.failToPass != []
    ensures Verdict(Parsed(o, c)) == Some(if Evaluator.AllPassed(o.failToPass) then "pass" else "fail")
  {
    var v := o.failToPass;
    ParsedField(o, c, 13);
    assert GetOr(Parsed(o, c), "fail_to_pass") == Obj(CanonFields(ToFields(v)));
    SortedStatuses(v);
  }

  lemma SortedStatuses(v: Evaluator.Verdicts)
    requires DistinctIds(v) && v != []
    ensures Decided(Obj(CanonFields(ToFields(v)))) && (EveryTestPassed(CanonFields(ToFields(v))) <==> Evaluator.AllPassed(v))
  {
    var f, g := ToFields(v), CanonFields(ToFields(v));
    ToFieldsFacts(v);
    CanonFieldsFacts(f);
    assert Has(g, v[0].0);
    forall i | 0 <= i < |v| ensures Has(g, v[i].0) && Lookup(g, v[i].0) == Str(StatusText(v[i].1)) {
      assert Has(f, v[i].0);
    }
    forall k | Has(g, k) ensures IsStatus(Lookup(g, k)) {
      var i :| 0 <= i < |v| && v[i].0 == k;
      StatusTexts(v[i].1);
    }
    forall i | 0 <= i < |v| ensures Lookup(g, v[i].0) == Str("passed") <==> v[i].1 == Evaluator.Passed {
      StatusTexts(v[i].1);
    }
  }

  // All three readings of a rendered report give the evaluator's own result; the second exactly when the
  // implementation is the expected one and nothing in its context contradicts the report.
  lemma ReadersReproduceTheResult(o: Evaluator.Outcome, c: Context, implementation: string, wantState: string, wantInstance: string)
    requires Consistent(o)
    ensures ParseReport(Render(o, c)) == Some(Parsed(o, c))
    ensures Verdict(Parsed(o, c)) == Some(o.result) && GetOr(Parsed(o, c), "declared_result") == Str(o.result)
    ensures Derived(Render(o, c), implementation, wantState, wantInstance) ==
      if c.implementation == implementation
        && (wantState == "" || c.executionState == "" || wantState == c.executionState)
        && (wantInstance == "" || c.instanceId == "" || wantInstance == c.instanceId)
      then Some(o.result) else None
  {
    ParseRendered(o, c);
    VerdictOfRendered(o, c);
    ParsedContext(o, c);
    ParsedText(o, c, 10, "declared_result", o.result);
  }

  // A field that is missing, null or otherwise empty contradicts nothing.
  lemma NothingClashes(payload: Fields, key: string, want: string)
    requires !Has(payload, key) || Lookup(payload, key) in {Null, Bool(false), Int(0), Str(""), Arr(NoItem), Obj(NoField)}
    ensures TextOf(payload, key) == "" && !Clash(want, TextOf(payload, key))
  {
  }

  lemma ParsedContext(o: Evaluator.Outcome, c: Context)
    requires Renderable(o)
    ensures GetOr(Parsed(o, c), "implementation_digest") == Str(c.implementation)
    ensures TextOf(Parsed(o, c), "instance_id") == c.instanceId
    ensures TextOf(Parsed(o, c), "execution_state_identity") == c.executionState
  {
    ParsedText(o, c, 5, "implementation_digest", c.implementation);
    ParsedText(o, c, 6, "instance_id", c.instanceId);
    ParsedText(o, c, 9, "execution_state_identity", c.executionState);
  }

  // The digest has no key, so it does not vouch for the declaration: for every map with a test that did
  // not pass there is a text that is accepted, declares "pass", and is read as "fail".
  lemma ForgedDeclaration(o: Evaluator.Outcome, c: Context)
    requires Renderable(o) && o.failToPass != [] && !Evaluator.AllPassed(o.failToPass) && o.result == "pass"
    ensures ParseReport(Render(o, c)) == Some(Parsed(o, c))
    ensures GetOr(Parsed(o, c), "declared_result") == Str("pass") && Verdict(Parsed(o, c)) == Some("fail")
  {
    ParseRendered(o, c);
    VerdictOfRendered(o, c);
    ParsedText(o, c, 10, "declared_result", o.result);
  }

  lemma AcceptedIsConsistent(o: Evaluator.Outcome, evidence: Evaluator.Evidence, f2p: seq<string>, p2p: seq<string>)
    requires Evaluator.Accepted(evidence, f2p, p2p) && Evaluator.Reports(o, evidence.cases, f2p, p2p)
    ensures Consistent(o)
  {
    var a, b := Evaluator.Declared(f2p), Evaluator.Declared(p2p);
    forall i, j | 0 <= i < j < |a| ensures o.failToPass[i].0 != o.failToPass[j].0 {
      assert a[i] != a[j];
    }
    forall i, j | 0 <= i < j < |b| ensures o.passToPass[i].0 != o.passToPass[j].0 {
      assert b[i] != b[j];
    }
  }

  // From the evidence to the last reader: a pass is derived from the written report exactly when every
  // declared FAIL_TO_PASS identity occurs and has no skipped, error or failure tag.
  lemma EvidenceDecidesTheVerdict(
    o: Evaluator.Outcome, evidence: Evaluator.Evidence, f2p: seq<string>, p2p: seq<string>, c: Context, wantState: string, wantInstance: string)
    requires Evaluator.Accepted(evidence, f2p, p2p) && Evaluator.Reports(o, evidence.cases, f2p, p2p)
    requires !Clash(wantState, c.executionState) && !Clash(wantInstance, c.instanceId)
    ensures var d := Derived(Render(o, c), c.implementation, wantState, wantInstance);
      d == Some(if Evaluator.AllPass(Evaluator.Declared(f2p), evidence.cases) then "pass" else "fail")
  {
    AcceptedIsConsistent(o, evidence, f2p, p2p);
    ReadersReproduceTheResult(o, c, c.implementation, wantState, wantInstance);
    Evaluator.PassIff(o, evidence.cases, f2p, p2p);
  }
}
