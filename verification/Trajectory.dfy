// From a trajectory to its endpoint (tool_calls_from_trajectory and endpoint_from_trajectory in
// f2_calibration.py).
module Trajectory {
  import opened PyText
  import opened Endpoint

  // A record of the trajectory: a step with its own step id, or anything else.
  datatype StepRecord = StepRecord(stepId: Raw, calls: seq<Item>) | OtherRecord

  // A step id on the record takes the place of the call's own.
  function Stamp(c: Item, stepId: Raw): Item {
    if c.Call? && !stepId.Absent? && !stepId.Null? then c.(stepId := stepId) else c
  }

  function Stamped(calls: seq<Item>, stepId: Raw): seq<Item> {
    if calls == [] then []
    else
      var last := calls[|calls| - 1];
      Stamped(calls[..|calls| - 1], stepId) + (if last.Call? then [Stamp(last, stepId)] else [])
  }

  function ToolCallsOf(records: seq<StepRecord>): seq<Item> {
    if records == [] then []
    else
      var last := records[|records| - 1];
      ToolCallsOf(records[..|records| - 1]) + (if last.StepRecord? then Stamped(last.calls, last.stepId) else [])
  }

  // tool_calls_from_trajectory
  method ToolCalls(records: seq<StepRecord>) returns (out: seq<Item>)
    ensures out == ToolCallsOf(records)
  {
    out := [];
    for i := 0 to |records|
      invariant out == ToolCallsOf(records[..i])
    {
      assert records[..i + 1][..i] == records[..i];
      var rec := records[i];
      if rec.OtherRecord? {
        continue;
      }
      ghost var before := out;
      for k := 0 to |rec.calls|
        invariant out == before + Stamped(rec.calls[..k], rec.stepId)
      {
        assert rec.calls[..k + 1][..k] == rec.calls[..k];
        if rec.calls[k].Call? {
          assert out + [Stamp(rec.calls[k], rec.stepId)] == before + (Stamped(rec.calls[..k], rec.stepId) + [Stamp(rec.calls[k], rec.stepId)]);
          out := out + [Stamp(rec.calls[k], rec.stepId)];
        }
      }
      assert rec.calls[..|rec.calls|] == rec.calls;
    }
    assert records[..|records|] == records;
  }

  lemma {:induction false} StampedMembers(calls: seq<Item>, stepId: Raw)
    ensures forall x :: x in Stamped(calls, stepId) <==> exists c :: c in calls && c.Call? && x == Stamp(c, stepId)
  {
    if calls != [] {
      var last, front := calls[|calls| - 1], calls[..|calls| - 1];
      assert calls == front + [last];
      StampedMembers(front, stepId);
    }
  }

  ghost predicate MadeIn(x: Item, records: seq<StepRecord>) {
    exists r :: r in records && r.StepRecord? && x in Stamped(r.calls, r.stepId)
  }

  lemma {:induction false} ToolCallsMembers(records: seq<StepRecord>)
    ensures forall x :: x in ToolCallsOf(records) <==> MadeIn(x, records)
  {
    if records != [] {
      var last, front := records[|records| - 1], records[..|records| - 1];
      assert records == front + [last];
      ToolCallsMembers(front);
      forall x ensures x in ToolCallsOf(records) <==> MadeIn(x, records) {
        if MadeIn(x, front) {
          var r :| r in front && r.StepRecord? && x in Stamped(r.calls, r.stepId);
          assert r in records;
        }
        if last.StepRecord? && x in Stamped(last.calls, last.stepId) {
          assert last in records;
        }
      }
    }
  }

  // The step the endpoint sees in a call of this record: the record's id where it has one, and the
  // call's own otherwise.
  function StepIn(stepId: Raw, c: Item): int {
    match stepId
    case Number(n) => n
    case NotANumber => 0
    case _ => Step(c)
  }

  // A record made a qualifying call at this step.
  ghost predicate EditedAt(records: seq<StepRecord>, spec: Spec, step: int) {
    exists r, c :: r in records && r.StepRecord? && c in r.calls && Qualifies(c, spec.files) && StepIn(r.stepId, c) == step
  }

  ghost predicate CallAt(items: seq<Item>, spec: Spec, step: int) {
    exists x :: x in items && Qualifies(x, spec.files) && Step(x) == step
  }

  lemma StampKeeps(c: Item, stepId: Raw, files: seq<string>)
    requires c.Call?
    ensures Qualifies(Stamp(c, stepId), files) <==> Qualifies(c, files)
    ensures Step(Stamp(c, stepId)) == StepIn(stepId, c)
  {
  }

  lemma EditIsCall(records: seq<StepRecord>, spec: Spec, step: int)
    requires EditedAt(records, spec, step)
    ensures CallAt(ToolCallsOf(records), spec, step)
  {
    ToolCallsMembers(records);
    var r, c :| r in records && r.StepRecord? && c in r.calls && Qualifies(c, spec.files) && StepIn(r.stepId, c) == step;
    StampedMembers(r.calls, r.stepId);
    StampKeeps(c, r.stepId, spec.files);
    var x := Stamp(c, r.stepId);
    assert x in Stamped(r.calls, r.stepId);
    assert MadeIn(x, records);
  }

  lemma CallIsEdit(records: seq<StepRecord>, spec: Spec, step: int)
    requires CallAt(ToolCallsOf(records), spec, step)
    ensures EditedAt(records, spec, step)
  {
    ToolCallsMembers(records);
    var x :| x in ToolCallsOf(records) && Qualifies(x, spec.files) && Step(x) == step;
    assert MadeIn(x, records);
    var r :| r in records && r.StepRecord? && x in Stamped(r.calls, r.stepId);
    StampedMembers(r.calls, r.stepId);
    var c :| c in r.calls && c.Call? && x == Stamp(c, r.stepId);
    StampKeeps(c, r.stepId, spec.files);
  }

  // A trajectory has an endpoint exactly when some record made a qualifying call within the horizon, and
  // then its step is the least such; where the record has a step id, what the call says does not count.
  lemma EndpointOfTrajectory(records: seq<StepRecord>, spec: Spec)
    ensures var hit := QualifyingFirstEdit(ToolCallsOf(records), spec);
      && (hit.None? <==> forall step :: EditedAt(records, spec, step) ==> step > spec.horizon)
      && (hit.Some? ==> hit.value.step <= spec.horizon && EditedAt(records, spec, hit.value.step))
      && (hit.Some? ==> forall step :: EditedAt(records, spec, step) ==> hit.value.step <= step)
  {
    forall step ensures EditedAt(records, spec, step) <==> CallAt(ToolCallsOf(records), spec, step) {
      if EditedAt(records, spec, step) {
        EditIsCall(records, spec, step);
      } else if CallAt(ToolCallsOf(records), spec, step) {
        CallIsEdit(records, spec, step);
      }
    }
    FirstEditIsLeast(ToolCallsOf(records), spec);
  }

  lemma FirstEditIsLeast(items: seq<Item>, spec: Spec)
    ensures var hit := QualifyingFirstEdit(items, spec);
      && (hit.None? <==> forall step :: CallAt(items, spec, step) ==> step > spec.horizon)
      && (hit.Some? ==> hit.value.step <= spec.horizon && CallAt(items, spec, hit.value.step))
      && (hit.Some? ==> forall step :: CallAt(items, spec, step) ==> hit.value.step <= step)
  {
    if QualifyingFirstEdit(items, spec).Some? {
      HitIsLeast(items, spec);
    } else {
      NoHit(items, spec);
    }
  }

  lemma NoHit(items: seq<Item>, spec: Spec)
    requires QualifyingFirstEdit(items, spec).None?
    ensures forall step :: CallAt(items, spec, step) ==> step > spec.horizon
  {
    DetectorIsCorrect(items, spec);
  }

  lemma HitIsLeast(items: seq<Item>, spec: Spec)
    requires QualifyingFirstEdit(items, spec).Some?
    ensures var step := QualifyingFirstEdit(items, spec).value.step;
      && step <= spec.horizon && CallAt(items, spec, step)
      && forall other :: CallAt(items, spec, other) ==> step <= other
  {
    DetectorIsCorrect(items, spec);
    var i: nat :| IsFirstEdit(items, spec, i) && Step(items[i]) <= spec.horizon
      && QualifyingFirstEdit(items, spec) == Some(HitOf(items[i], spec));
    assert items[i] in items;
  }
}
