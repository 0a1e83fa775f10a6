// Signed grants (f2_authorization.py): which record authorises which execution, and the canonical
// binding an execution is tied to.
module Authorization {
  import opened PyText
  import opened CanonicalJson

  // BINDING_FIELDS
  predicate IsBindingField(name: string) {
    name in {
      "protocol_digest", "population_digest", "population_manifest_digest", "acquired_inputs_digest",
      "repository_revision", "experiment_id", "protocol_version", "run_id", "rollout_id", "arm" }
  }

  const CONF := "CONF-001"
  const CONF_RUN := "confirmatory_run"
  const REVISION := "repository_revision"
  const SCHEMA := "f2-authorization/v1"

  // _REQUIRED
  function RequiredFields(): set<string> {
    {"id", "schema", "stage", "operations", "approver", "not_before", "not_after", "protocol_digest"}
  }

  // STAGE_OPERATIONS
  function StageOperations(stage: string): set<string> {
    if stage == "POP-001" then {"acquire", "register"}
    else if stage == "EXPL-001" then {"exploratory_run"}
    else if stage == CONF then {CONF_RUN}
    else {}
  }

  // OPERATION_REQUIRED_BINDINGS
  function RequiredBindings(stage: string, operation: string): set<string> {
    if stage == "POP-001" && operation == "acquire" then {"repository_revision"}
    else if stage == "POP-001" && operation == "register" then
      {"repository_revision", "population_manifest_digest", "acquired_inputs_digest"}
    else if (stage == "EXPL-001" && operation == "exploratory_run") || (stage == CONF && operation == CONF_RUN) then
      {"repository_revision", "experiment_id", "protocol_version", "arm"}
    else {}
  }

  // What the outside world says during one verification: git, and everything about trust roots,
  // signatures, validity windows and revocation.
  datatype World = World(revision: string, dirty: bool, trusted: (Fields, Fields) -> bool)

  // _check_binding
  ghost predicate BindingChecks(record: Fields, required: set<string>, supplied: Fields, w: World) {
    && (REVISION in required || Has(record, REVISION) || Has(supplied, REVISION) ==>
          && (REVISION in required ==> Has(record, REVISION))
          && (GetOr(record, REVISION) == Null || GetOr(record, REVISION) == Str(w.revision))
          && (GetOr(supplied, REVISION) == Null || GetOr(supplied, REVISION) == Str(w.revision))
          && (required != {} ==> !w.dirty))
    && (forall name :: name in required && name != REVISION ==>
          Has(record, name) && GetOr(supplied, name) != Null && Lookup(record, name) == GetOr(supplied, name))
    && (forall name :: IsBindingField(name) && name !in required && Has(record, name) && Has(supplied, name) ==>
          Lookup(record, name) == Lookup(supplied, name))
  }

  ghost predicate ScopeCovers(ops: Items, operation: string, stage: string) {
    && InList(ops, Str(operation))
    && (forall o :: InList(ops, o) ==> o.Str? && o.s in StageOperations(stage))
    && NoRepeat(ops)
  }

  predicate InList(ops: Items, o: Json) {
    ops.Item? && (ops.head == o || InList(ops.tail, o))
  }

  predicate NoRepeat(ops: Items) {
    ops.Item? ==> !InList(ops.tail, ops.head) && NoRepeat(ops.tail)
  }

  // The fields every record needs, whatever it authorises.
  ghost predicate WellFormed(record: Fields) {
    && (forall name :: name in RequiredFields() ==> Has(record, name))
    && GetOr(record, "schema") == Str(SCHEMA)
    && GetOr(record, "id").Str? && GetOr(record, "id").s != ""
    && GetOr(record, "revoked") != Bool(true) && Falsy(GetOr(record, "superseded_by"))
  }

  // verify_authorization on a document parsed with duplicate keys rejected (CanonicalJson.Loads, whose
  // results are records): the record in it, when it authorises the operation.
  ghost predicate Authorises(doc: Json, stage: string, operation: string, supplied: Fields, w: World) {
    && doc.Obj? && IsRecord(doc)
    && GetOr(doc.fields, "record").Obj? && GetOr(doc.fields, "signature").Obj?
    && var record := GetOr(doc.fields, "record").fields;
      && WellFormed(record)
      && GetOr(record, "stage") == Str(stage)
      && GetOr(record, "operations").Arr? && ScopeCovers(GetOr(record, "operations").items, operation, stage)
      && (forall name :: Has(supplied, name) ==> IsBindingField(name))
      && BindingChecks(record, RequiredBindings(stage, operation), supplied, w)
      && w.trusted(record, GetOr(doc.fields, "signature").fields)
  }

  // ---- the binding document ----

  predicate GoodField(name: string, value: Json) {
    IsBindingField(name) && value.Str? && value.s != ""
  }

  // A binding document: stage and operation, and the supplied fields, each a non-empty string.
  ghost predicate Normalized(full: Fields, stage: string, operation: string, supplied: Fields) {
    && DistinctKeys(full) && FieldsAreRecords(full)
    && (forall k :: Has(full, k) <==> k == "stage" || k == "operation" || Has(supplied, k))
    && GetOr(full, "stage") == Str(stage) && GetOr(full, "operation") == Str(operation)
    && (forall k :: Has(supplied, k) ==> GoodField(k, Lookup(supplied, k)) && GetOr(full, k) == Lookup(supplied, k))
  }

  lemma NotBindingFields()
    ensures !IsBindingField("stage") && !IsBindingField("operation")
  {
    forall k | IsBindingField(k)
      ensures k != "stage" && k != "operation"
    {
      assert "stage"[1] == 't' && "operation"[0] == 'o';
    }
  }

  lemma BareBinding(stage: string, operation: string)
    ensures var f := Field("stage", Str(stage), Field("operation", Str(operation), NoField));
      && DistinctKeys(f) && (forall k :: Has(f, k) <==> k == "stage" || k == "operation")
      && GetOr(f, "stage") == Str(stage) && GetOr(f, "operation") == Str(operation)
  {
    var rest := Field("operation", Str(operation), NoField);
    var f := Field("stage", Str(stage), rest);
    assert forall k :: Has(rest, k) <==> k == "operation" || Has(NoField, k);
    assert "stage"[0] != "operation"[0];
    assert "stage" != "operation";
    assert Has(rest, "operation") && Has(f, "operation");
    assert Lookup(rest, "operation") == Str(operation);
    assert Lookup(f, "operation") == Lookup(rest, "operation");
  }

  // normalize_execution_binding; None is an AuthorizationError
  method NormalizeExecutionBinding(stage: string, operation: string, supplied: Fields) returns (r: Option<Fields>)
    requires DistinctKeys(supplied)
    ensures r.Some? <==> forall k :: Has(supplied, k) ==>
      IsBindingField(k) && Lookup(supplied, k).Str? && Lookup(supplied, k).s != ""
    ensures r.Some? ==> Normalized(r.value, stage, operation, supplied)
  {
    NotBindingFields();
    var full := Field("stage", Str(stage), Field("operation", Str(operation), NoField));
    BareBinding(stage, operation);
    var left := supplied;
    while left.Field?
      invariant DistinctKeys(full) && FieldsAreRecords(full) && DistinctKeys(left)
      invariant forall k :: Has(left, k) ==> Has(supplied, k) && Lookup(supplied, k) == Lookup(left, k)
      invariant forall k :: Has(full, k) <==> k == "stage" || k == "operation" || (Has(supplied, k) && !Has(left, k))
      invariant GetOr(full, "stage") == Str(stage) && GetOr(full, "operation") == Str(operation)
      invariant forall k :: Has(supplied, k) && !Has(left, k) ==> GoodField(k, Lookup(supplied, k)) && GetOr(full, k) == Lookup(supplied, k)
      decreases left
    {
      var name, value := left.key, left.value;
      assert Has(left, name) && Lookup(left, name) == value;
      if !IsBindingField(name) || !value.Str? || value.s == "" {
        assert Has(supplied, name) && Lookup(supplied, name) == value;
        return None;
      }
      AppendFacts(full, name, value);
      full := Append(full, name, value);
      left := left.rest;
    }
    r := Some(full);
  }

  // The binding documents of one request all have one digest; different requests have different ones.
  lemma BindingDigestIdentifies(f: Fields, g: Fields, stage: string, operation: string, stage': string, operation': string, a: Fields, b: Fields)
    requires Normalized(f, stage, operation, a) && Normalized(g, stage', operation', b)
    ensures DigestOf(Obj(f)) == DigestOf(Obj(g)) <==>
      (stage == stage' && operation == operation' && forall k :: GetOr(a, k) == GetOr(b, k))
  {
    CanonicalTextIdentifies(Obj(f), Obj(g), false);
    NotBindingFields();
    if Same(Obj(f), Obj(g)) {
      assert Has(f, "stage") && Has(g, "stage") && Has(f, "operation") && Has(g, "operation");
      assert Same(Lookup(f, "stage"), Lookup(g, "stage")) && Same(Lookup(f, "operation"), Lookup(g, "operation"));
      forall k
        ensures GetOr(a, k) == GetOr(b, k)
      {
        assert Has(f, k) <==> Has(g, k);
        if Has(f, k) {
          assert Same(Lookup(f, k), Lookup(g, k));
        }
      }
    } else if stage == stage' && operation == operation' && forall k :: GetOr(a, k) == GetOr(b, k) {
      forall k
        ensures Has(f, k) <==> Has(g, k)
        ensures Has(f, k) ==> Same(Lookup(f, k), Lookup(g, k))
      {
        assert GetOr(a, k) == GetOr(b, k);
      }
      assert false;
    }
  }

  datatype Verified = Verified(record: Json, digest: Digest, stage: string, operation: string, binding: Fields, bindingDigest: Digest)

  // verify_and_bind succeeded with v.
  ghost predicate VerifiesAs(doc: Json, stage: string, operation: string, supplied: Fields, w: World, v: Verified) {
    && Authorises(doc, stage, operation, supplied, w) && v.record == GetOr(doc.fields, "record")
    && Normalized(v.binding, stage, operation, supplied)
    && v.stage == stage && v.operation == operation
    && v.digest == DigestOf(v.record) && v.bindingDigest == DigestOf(Obj(v.binding))
  }

  lemma LookupIsRecord(f: Fields, k: string)
    requires FieldsAreRecords(f)
    ensures IsRecord(GetOr(f, k))
  {
    if Has(f, k) {
      HasFieldRecord(f, k);
    }
  }

  lemma ConfirmatoryBindings()
    ensures RequiredBindings(CONF, CONF_RUN) == {"repository_revision", "experiment_id", "protocol_version", "arm"}
    ensures IsBindingField("rollout_id") && "rollout_id" !in RequiredBindings(CONF, CONF_RUN)
    ensures "repository_revision" !in {"experiment_id", "protocol_version", "arm"}
  {
    assert "rollout_id"[1] == 'o' && "repository_revision"[1] == 'e' && "experiment_id"[1] == 'x';
    assert "protocol_version"[1] == 'r' && "arm"[1] == 'r' && "protocol_version"[0] == 'p';
  }

  // A record that stands as a confirmatory grant: this schema, stage and scope, neither revoked nor
  // superseded by anything that Python takes for true, and complete.
  ghost predicate Stands(record: Fields) {
    && GetOr(record, "schema") == Str("f2-authorization/v1")
    && GetOr(record, "stage") == Str("CONF-001")
    && GetOr(record, "operations") == Arr(Item(Str("confirmatory_run"), NoItem))
    && GetOr(record, "id").Str? && GetOr(record, "id").s != ""
    && GetOr(record, "revoked") != Bool(true)
    && GetOr(record, "superseded_by") in {Null, Bool(false), Int(0), Str(""), Arr(NoItem), Obj(NoField)}
    && Has(record, "approver") && Has(record, "not_before") && Has(record, "not_after") && Has(record, "protocol_digest")
  }

  // Its signature, in the document it came in, is trusted.
  ghost predicate SignedIn(record: Json, doc: Json, w: World) {
    && record.Obj? && doc.Obj? && GetOr(doc.fields, "record") == record && GetOr(doc.fields, "signature").Obj?
    && w.trusted(record.fields, GetOr(doc.fields, "signature").fields)
  }

  // A confirmatory grant covers the confirmatory run and nothing else.
  lemma ConfirmatoryScope(ops: Items)
    requires ScopeCovers(ops, CONF_RUN, CONF)
    ensures ops == Item(Str("confirmatory_run"), NoItem)
  {
    assert "POP-001"[0] == 'P' && "EXPL-001"[0] == 'E' && CONF[0] == 'C';
    assert InList(ops, ops.head);
    if ops.tail.Item? {
      assert InList(ops.tail, ops.tail.head) && InList(ops, ops.tail.head);
    }
  }

  lemma AuthorisedStands(doc: Json, supplied: Fields, w: World)
    requires Authorises(doc, CONF, CONF_RUN, supplied, w)
    ensures SignedIn(GetOr(doc.fields, "record"), doc, w) && Stands(GetOr(doc.fields, "record").fields)
    ensures forall name :: Has(supplied, name) ==> IsBindingField(name)
  {
    var record := GetOr(doc.fields, "record").fields;
    ConfirmatoryScope(GetOr(record, "operations").items);
    assert forall name :: name in RequiredFields() ==> Has(record, name);
  }

  // A verified confirmatory record is signed by someone trusted, stands as a grant of the confirmatory
  // run, and names the very arm, experiment and protocol it was verified for, in a clean checkout; a
  // rollout id it names must agree as well. It has the key of the repository revision, and the value is
  // the revision of the checkout exactly when it is not null.
  lemma VerifiedRecordBinds(doc: Json, supplied: Fields, w: World, v: Verified)
    requires VerifiesAs(doc, CONF, CONF_RUN, supplied, w, v)
    ensures IsRecord(v.record) && SignedIn(v.record, doc, w) && Stands(v.record.fields) && !w.dirty
    ensures forall name :: Has(supplied, name) ==> IsBindingField(name)
    ensures forall name :: name in {"experiment_id", "protocol_version", "arm"} ==>
      Has(v.record.fields, name) && Has(supplied, name) && Lookup(v.record.fields, name) == Lookup(supplied, name)
    ensures Has(v.record.fields, "rollout_id") && Has(supplied, "rollout_id") ==>
      Lookup(v.record.fields, "rollout_id") == Lookup(supplied, "rollout_id")
    ensures Has(v.record.fields, REVISION)
    ensures Lookup(v.record.fields, REVISION) == Str(w.revision) <==> Lookup(v.record.fields, REVISION) != Null
  {
    LookupIsRecord(doc.fields, "record");
    AuthorisedStands(doc, supplied, w);
    RecordBinds(v.record.fields, supplied, w);
    RevisionBinds(v.record.fields, RequiredBindings(CONF, CONF_RUN), supplied, w);
  }

  // Whatever is authorised, at any stage, is an operation of that stage, in a record that has the key of
  // the revision, and in a clean checkout.
  lemma OperationsOfStages(doc: Json, stage: string, operation: string, supplied: Fields, w: World)
    requires Authorises(doc, stage, operation, supplied, w)
    ensures (stage == "POP-001" && (operation == "acquire" || operation == "register"))
      || (stage == "EXPL-001" && operation == "exploratory_run") || (stage == "CONF-001" && operation == "confirmatory_run")
    ensures Has(GetOr(doc.fields, "record").fields, REVISION) && !w.dirty
    ensures operation == "register" ==>
      Has(GetOr(doc.fields, "record").fields, "population_manifest_digest") && Has(GetOr(doc.fields, "record").fields, "acquired_inputs_digest")
    ensures operation == "exploratory_run" ==> Has(GetOr(doc.fields, "record").fields, "arm")
  {
    assert |"acquire"| == 7 && |"register"| == 8 && |"exploratory_run"| == 15 && |"confirmatory_run"| == 16;
    var record := GetOr(doc.fields, "record").fields;
    assert InList(GetOr(record, "operations").items, Str(operation));
    BindingChecksMeaning(record, RequiredBindings(stage, operation), supplied, w);
    assert |"repository_revision"| == 19 && |"population_manifest_digest"| == 26 && |"acquired_inputs_digest"| == 22 && |"arm"| == 3;
  }

  lemma RevisionBinds(record: Fields, required: set<string>, supplied: Fields, w: World)
    requires REVISION in required && BindingChecks(record, required, supplied, w)
    ensures Has(record, REVISION)
    ensures Lookup(record, REVISION) == Str(w.revision) <==> Lookup(record, REVISION) != Null
  {
  }

  // Where the revision is required, a record that passes one checkout passes every other clean one
  // exactly when neither it nor the request names a revision: a null value stands for all of them.
  lemma NullRevisionPassesEverywhere(record: Fields, required: set<string>, supplied: Fields, w: World)
    requires REVISION in required && BindingChecks(record, required, supplied, w)
    ensures (forall revision :: BindingChecks(record, required, supplied, w.(revision := revision))) <==>
      GetOr(record, REVISION) == Null && GetOr(supplied, REVISION) == Null
  {
    var other := w.(revision := w.revision + "x");
    assert BindingChecks(record, required, supplied, other) ==> GetOr(record, REVISION) != Str(w.revision);
    assert BindingChecks(record, required, supplied, other) ==> GetOr(supplied, REVISION) != Str(w.revision);
  }

  // ---- a grant ----

  // What a grant says besides the execution it is for.
  datatype Terms = Terms(id: string, approver: string, notBefore: string, notAfter: string, protocolDigest: string)

  // The arm, experiment and protocol of one execution, and the revision it is bound to.
  function Bound(experiment: string, protocol: string, arm: string, revision: Json): Fields {
    Field("experiment_id", Str(experiment), Field("protocol_version", Str(protocol),
      Field("arm", Str(arm), Field(REVISION, revision, NoField))))
  }

  function Dated(t: Terms, bound: Fields): Fields {
    Field("approver", Str(t.approver), Field("not_before", Str(t.notBefore),
      Field("not_after", Str(t.notAfter), Field("protocol_digest", Str(t.protocolDigest), bound))))
  }

  function Scoped(t: Terms, dated: Fields): Fields {
    Field("id", Str(t.id), Field("schema", Str(SCHEMA), Field("stage", Str(CONF),
      Field("operations", Arr(Item(Str(CONF_RUN), NoItem)), dated))))
  }

  function GrantRecord(t: Terms, experiment: string, protocol: string, arm: string, revision: Json): Fields {
    Scoped(t, Dated(t, Bound(experiment, protocol, arm, revision)))
  }

  function Signed(record: Fields, signature: Fields): Json {
    Obj(Field("record", Obj(record), Field("signature", Obj(signature), NoField)))
  }

  // Four fields in front of others.
  lemma FourFields(a: string, x: Json, b: string, y: Json, c: string, z: Json, d: string, v: Json, rest: Fields)
    requires a != b && a != c && a != d && b != c && b != d && c != d
    ensures var f := Field(a, x, Field(b, y, Field(c, z, Field(d, v, rest))));
      && (forall k :: Has(f, k) <==> k in {a, b, c, d} || Has(rest, k))
      && GetOr(f, a) == x && GetOr(f, b) == y && GetOr(f, c) == z && GetOr(f, d) == v
      && (forall k :: k !in {a, b, c, d} ==> GetOr(f, k) == GetOr(rest, k))
      && (DistinctKeys(f) <==> DistinctKeys(rest) && !Has(rest, a) && !Has(rest, b) && !Has(rest, c) && !Has(rest, d))
      && (FieldsAreRecords(f) <==> IsRecord(x) && IsRecord(y) && IsRecord(z) && IsRecord(v) && FieldsAreRecords(rest))
  {
    var f3 := Field(d, v, rest);
    var f2 := Field(c, z, f3);
    var f1 := Field(b, y, f2);
    var f := Field(a, x, f1);
    OneField(f);
    OneField(f1);
    OneField(f2);
    OneField(f3);
  }

  lemma OneField(f: Fields)
    requires f.Field?
    ensures forall k :: Has(f, k) <==> k == f.key || Has(f.rest, k)
    ensures GetOr(f, f.key) == f.value && forall k :: k != f.key ==> GetOr(f, k) == GetOr(f.rest, k)
    ensures DistinctKeys(f) <==> !Has(f.rest, f.key) && DistinctKeys(f.rest)
    ensures FieldsAreRecords(f) <==> IsRecord(f.value) && FieldsAreRecords(f.rest)
  {
  }

  lemma BoundFields(experiment: string, protocol: string, arm: string, revision: Json)
    ensures var f := Bound(experiment, protocol, arm, revision);
      && DistinctKeys(f) && (forall k :: Has(f, k) <==> k in {"experiment_id", "protocol_version", "arm", REVISION})
      && GetOr(f, "experiment_id") == Str(experiment) && GetOr(f, "protocol_version") == Str(protocol)
      && GetOr(f, "arm") == Str(arm) && GetOr(f, REVISION) == revision
      && (IsRecord(revision) ==> FieldsAreRecords(f))
  {
    assert "experiment_id"[0] == 'e' && "protocol_version"[0] == 'p' && "arm"[0] == 'a' && REVISION[0] == 'r';
    FourFields("experiment_id", Str(experiment), "protocol_version", Str(protocol), "arm", Str(arm), REVISION, revision, NoField);
  }

  lemma DatedFields(t: Terms, bound: Fields)
    requires DistinctKeys(bound) && forall k :: Has(bound, k) ==> k in {"experiment_id", "protocol_version", "arm", REVISION}
    ensures var f := Dated(t, bound);
      && DistinctKeys(f) && (forall k :: Has(f, k) <==> k in {"approver", "not_before", "not_after", "protocol_digest"} || Has(bound, k))
      && (forall k :: Has(bound, k) ==> GetOr(f, k) == GetOr(bound, k))
      && (FieldsAreRecords(bound) ==> FieldsAreRecords(f))
  {
    assert |"approver"| == 8 && |"not_before"| == 10 && |"not_after"| == 9 && |"protocol_digest"| == 15;
    assert |"experiment_id"| == 13 && |"protocol_version"| == 16 && |"arm"| == 3 && |REVISION| == 19;
    FourFields("approver", Str(t.approver), "not_before", Str(t.notBefore), "not_after", Str(t.notAfter),
               "protocol_digest", Str(t.protocolDigest), bound);
  }

  lemma ScopedFields(t: Terms, dated: Fields)
    requires DistinctKeys(dated)
    requires !Has(dated, "id") && !Has(dated, "schema") && !Has(dated, "stage") && !Has(dated, "operations")
    ensures var f := Scoped(t, dated);
      && DistinctKeys(f) && (forall k :: Has(f, k) <==> k in {"id", "schema", "stage", "operations"} || Has(dated, k))
      && GetOr(f, "id") == Str(t.id) && GetOr(f, "schema") == Str(SCHEMA) && GetOr(f, "stage") == Str(CONF)
      && GetOr(f, "operations") == Arr(Item(Str(CONF_RUN), NoItem))
      && (forall k :: Has(dated, k) ==> GetOr(f, k) == GetOr(dated, k))
      && (FieldsAreRecords(dated) ==> FieldsAreRecords(f))
  {
    assert |"id"| == 2 && |"schema"| == 6 && |"stage"| == 5 && |"operations"| == 10;
    FourFields("id", Str(t.id), "schema", Str(SCHEMA), "stage", Str(CONF), "operations", Arr(Item(Str(CONF_RUN), NoItem)), dated);
  }

  lemma KeysOfGrant(k: string)
    requires k in {"approver", "not_before", "not_after", "protocol_digest", "experiment_id", "protocol_version", "arm", REVISION}
    ensures k !in {"id", "schema", "stage", "operations"} && k != "revoked" && k != "superseded_by"
  {
    assert |"id"| == 2 && |"schema"| == 6 && |"stage"| == 5;
    assert |"approver"| == 8 && |"not_before"| == 10 && |"not_after"| == 9 && |"protocol_digest"| == 15;
    assert |"experiment_id"| == 13 && |"protocol_version"| == 16 && |"arm"| == 3 && |REVISION| == 19;
    assert "not_before"[0] == 'n' && "operations"[0] == 'o' && "experiment_id"[0] == 'e' && "superseded_by"[0] == 's';
    assert |"operations"| == 10 && |"revoked"| == 7 && |"superseded_by"| == 13;
  }

  lemma DatedGrant(t: Terms, experiment: string, protocol: string, arm: string, revision: Json)
    ensures var bound := Bound(experiment, protocol, arm, revision); var f := Dated(t, bound);
      && DistinctKeys(f) && (IsRecord(revision) ==> FieldsAreRecords(f))
      && (forall k :: Has(f, k) <==>
           k in {"approver", "not_before", "not_after", "protocol_digest"} || k in {"experiment_id", "protocol_version", "arm", REVISION})
      && (forall k :: k in {"experiment_id", "protocol_version", "arm", REVISION} ==> GetOr(f, k) == GetOr(bound, k))
      && !Has(f, "id") && !Has(f, "schema") && !Has(f, "stage") && !Has(f, "operations")
      && !Has(f, "revoked") && !Has(f, "superseded_by")
  {
    var bound := Bound(experiment, protocol, arm, revision);
    BoundFields(experiment, protocol, arm, revision);
    DatedFields(t, bound);
    forall k | Has(Dated(t, bound), k)
      ensures k !in {"id", "schema", "stage", "operations"} && k != "revoked" && k != "superseded_by"
    {
      KeysOfGrant(k);
    }
  }

  lemma GrantKeys(t: Terms, experiment: string, protocol: string, arm: string, revision: Json)
    ensures var f := GrantRecord(t, experiment, protocol, arm, revision);
      && DistinctKeys(f) && (IsRecord(revision) ==> FieldsAreRecords(f))
      && (forall k :: Has(f, k) <==> k in RequiredFields() || k in {"experiment_id", "protocol_version", "arm", REVISION})
  {
    DatedGrant(t, experiment, protocol, arm, revision);
    ScopedFields(t, Dated(t, Bound(experiment, protocol, arm, revision)));
    assert RequiredFields() ==
      {"id", "schema", "stage", "operations"} + {"approver", "not_before", "not_after", "protocol_digest"};
  }

  lemma GrantStands(t: Terms, experiment: string, protocol: string, arm: string, revision: Json)
    ensures var f := GrantRecord(t, experiment, protocol, arm, revision); !Has(f, "revoked") && !Has(f, "superseded_by")
  {
    DatedGrant(t, experiment, protocol, arm, revision);
    ScopedFields(t, Dated(t, Bound(experiment, protocol, arm, revision)));
    assert |"id"| == 2 && |"schema"| == 6 && |"stage"| == 5 && |"operations"| == 10 && |"revoked"| == 7 && |"superseded_by"| == 13;
  }

  lemma GrantScope(t: Terms, experiment: string, protocol: string, arm: string, revision: Json)
    ensures var f := GrantRecord(t, experiment, protocol, arm, revision);
      && GetOr(f, "id") == Str(t.id) && GetOr(f, "schema") == Str(SCHEMA) && GetOr(f, "stage") == Str(CONF)
      && GetOr(f, "operations") == Arr(Item(Str(CONF_RUN), NoItem))
  {
    DatedGrant(t, experiment, protocol, arm, revision);
    ScopedFields(t, Dated(t, Bound(experiment, protocol, arm, revision)));
  }

  lemma GrantNames(t: Terms, experiment: string, protocol: string, arm: string, revision: Json)
    ensures var f := GrantRecord(t, experiment, protocol, arm, revision);
      && GetOr(f, "experiment_id") == Str(experiment) && GetOr(f, "protocol_version") == Str(protocol)
      && GetOr(f, "arm") == Str(arm) && GetOr(f, REVISION) == revision
  {
    var dated := Dated(t, Bound(experiment, protocol, arm, revision));
    BoundFields(experiment, protocol, arm, revision);
    DatedGrant(t, experiment, protocol, arm, revision);
    ScopedFields(t, dated);
    forall k | k in {"experiment_id", "protocol_version", "arm", REVISION}
      ensures GetOr(Scoped(t, dated), k) == GetOr(Bound(experiment, protocol, arm, revision), k)
    {
      assert Has(dated, k);
    }
  }

  lemma GrantIsWellFormed(t: Terms, experiment: string, protocol: string, arm: string, revision: Json)
    requires t.id != "" && IsRecord(revision)
    ensures var f := GrantRecord(t, experiment, protocol, arm, revision); WellFormed(f) && IsRecord(Obj(f))
  {
    GrantKeys(t, experiment, protocol, arm, revision);
    GrantStands(t, experiment, protocol, arm, revision);
    GrantScope(t, experiment, protocol, arm, revision);
  }

  lemma BindingShape(k: string)
    requires IsBindingField(k)
    ensures |k| >= 3 && k[0] in {'p', 'a', 'r', 'e'} && (k[0] == 'a' ==> k[1] != 'p')
  {
  }

  // A request names an execution: its fields are binding fields other than the revision and the protocol
  // digest, and these three among them.
  ghost predicate Requests(supplied: Fields, experiment: string, protocol: string, arm: string) {
    && (forall k :: Has(supplied, k) ==> IsBindingField(k) && k != REVISION && k != "protocol_digest")
    && GetOr(supplied, "experiment_id") == Str(experiment) && GetOr(supplied, "protocol_version") == Str(protocol)
    && GetOr(supplied, "arm") == Str(arm)
  }

  lemma GrantBinds(t: Terms, experiment: string, protocol: string, arm: string, revision: Json, supplied: Fields, w: World)
    requires !w.dirty && Requests(supplied, experiment, protocol, arm)
    ensures BindingChecks(GrantRecord(t, experiment, protocol, arm, revision), RequiredBindings(CONF, CONF_RUN), supplied, w)
      <==> revision == Null || revision == Str(w.revision)
  {
    GrantKeys(t, experiment, protocol, arm, revision);
    GrantNames(t, experiment, protocol, arm, revision);
    ConfirmatoryBindings();
    GrantOverlap(t, experiment, protocol, arm, revision, supplied);
    assert !Has(supplied, REVISION);
  }

  // The request names nothing else that the record names.
  lemma GrantOverlap(t: Terms, experiment: string, protocol: string, arm: string, revision: Json, supplied: Fields)
    requires Requests(supplied, experiment, protocol, arm)
    ensures forall k :: Has(GrantRecord(t, experiment, protocol, arm, revision), k) && Has(supplied, k) ==>
      k in {"experiment_id", "protocol_version", "arm"}
  {
    GrantKeys(t, experiment, protocol, arm, revision);
    forall k | Has(GrantRecord(t, experiment, protocol, arm, revision), k) && Has(supplied, k)
      ensures k in {"experiment_id", "protocol_version", "arm"}
    {
      BindingShape(k);
    }
  }

  // A whole document: signed by someone trusted, it authorises the confirmatory run of its arm,
  // experiment and protocol in a clean checkout exactly when its revision is that of the checkout, or null.
  lemma GrantAuthorises(
    t: Terms, experiment: string, protocol: string, arm: string, revision: Json, signature: Fields, supplied: Fields, w: World)
    requires t.id != "" && IsRecord(revision) && IsRecord(Obj(signature))
    requires !w.dirty && w.trusted(GrantRecord(t, experiment, protocol, arm, revision), signature)
    requires Requests(supplied, experiment, protocol, arm)
    ensures Authorises(Signed(GrantRecord(t, experiment, protocol, arm, revision), signature), CONF, CONF_RUN, supplied, w)
      <==> revision == Null || revision == Str(w.revision)
  {
    var f := GrantRecord(t, experiment, protocol, arm, revision);
    GrantScope(t, experiment, protocol, arm, revision);
    GrantIsWellFormed(t, experiment, protocol, arm, revision);
    GrantBinds(t, experiment, protocol, arm, revision, supplied, w);
    SignedParts(f, signature);
    ScopeOfGrant(GetOr(f, "operations").items);
  }

  lemma SignedParts(record: Fields, signature: Fields)
    ensures var doc := Signed(record, signature);
      && GetOr(doc.fields, "record") == Obj(record) && GetOr(doc.fields, "signature") == Obj(signature)
      && (IsRecord(doc) <==> IsRecord(Obj(record)) && IsRecord(Obj(signature)))
  {
    assert "record"[0] == 'r' && "signature"[0] == 's';
    var rest := Field("signature", Obj(signature), NoField);
    var all := Field("record", Obj(record), rest);
    OneField(all);
    OneField(rest);
    assert GetOr(all, "signature") == GetOr(rest, "signature");
    assert IsRecord(Obj(all)) <==> DistinctKeys(all) && FieldsAreRecords(all);
    assert rest.rest == NoField && FieldsAreRecords(NoField) && DistinctKeys(NoField);
  }

  lemma ScopeOfGrant(ops: Items)
    requires ops == Item(Str(CONF_RUN), NoItem)
    ensures ScopeCovers(ops, CONF_RUN, CONF)
  {
    assert "POP-001"[0] == 'P' && "EXPL-001"[0] == 'E' && CONF[0] == 'C';
    assert ops.tail == NoItem;
  }

  // With a null revision one document authorises its run in every clean checkout.
  lemma UnpinnedAuthorises(
    t: Terms, experiment: string, protocol: string, arm: string, signature: Fields, supplied: Fields, w: World)
    requires t.id != "" && IsRecord(Obj(signature))
    requires !w.dirty && w.trusted(GrantRecord(t, experiment, protocol, arm, Null), signature)
    requires Requests(supplied, experiment, protocol, arm)
    ensures forall revision ::
      Authorises(Signed(GrantRecord(t, experiment, protocol, arm, Null), signature), CONF, CONF_RUN, supplied, w.(revision := revision))
  {
    forall revision {
      GrantAuthorises(t, experiment, protocol, arm, Null, signature, supplied, w.(revision := revision));
    }
  }

  lemma RecordBinds(record: Fields, supplied: Fields, w: World)
    requires BindingChecks(record, RequiredBindings(CONF, CONF_RUN), supplied, w)
    ensures !w.dirty
    ensures forall name :: name in {"experiment_id", "protocol_version", "arm"} ==>
      Has(record, name) && Has(supplied, name) && Lookup(record, name) == Lookup(supplied, name)
    ensures Has(record, "rollout_id") && Has(supplied, "rollout_id") ==> Lookup(record, "rollout_id") == Lookup(supplied, "rollout_id")
  {
    BindingChecksMeaning(record, RequiredBindings(CONF, CONF_RUN), supplied, w);
    ConfirmatoryBindings();
  }

  lemma BindingChecksMeaning(record: Fields, required: set<string>, supplied: Fields, w: World)
    requires BindingChecks(record, required, supplied, w)
    ensures forall name :: name in required && name != "repository_revision" ==>
      Has(record, name) && Has(supplied, name) && Lookup(record, name) == Lookup(supplied, name)
    ensures forall name :: IsBindingField(name) && name !in required && Has(record, name) && Has(supplied, name) ==>
      Lookup(record, name) == Lookup(supplied, name)
    ensures "repository_revision" in required ==> !w.dirty
  {
  }
}
