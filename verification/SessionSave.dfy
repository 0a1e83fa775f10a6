// SessionState.save (organism_console/state_store.py): background saves numbered under a lock, written to
// private temporary files, and promoted under the lock in number order.
module SessionSave {

  type Tid = nat

  // What one save wrote: its number, and the number of changes to the session that had been made when
  // the history was deep-copied and when the fields shared by reference were serialised.
  datatype Payload = Payload(number: nat, copied: nat, shared: nat)

  datatype Content = Partial | Whole(payload: Payload)

  // The session file: whatever an earlier process left, or something written by this one.
  datatype File = Earlier | Written(content: Content)

  // One _do_save thread.
  datatype Phase =
    | Begun(number: nat)
    | Copied(number: nat, at: nat)                 // the snapshot under the lock
    | Rendered(payload: Payload)                   // json.dumps returned
    | Writing(payload: Payload)                    // temporary file open
    | Ready(payload: Payload)                      // temporary file complete
    | Leaving(number: nat, failed: bool)           // about to run the finally block
    | Finished(number: nat, failed: bool)

  // `calls[i]`: how many changes had been made when save() was called for the (i+1)-th time.
  // `promoted`: the numbers moved onto the session file, in order. `stuck`: temporaries whose removal failed.
  datatype State = State(
    changes: nat, calls: seq<nat>, writtenSeq: int, file: File,
    temps: map<Tid, Content>, threads: map<Tid, Phase>, promoted: seq<nat>, stuck: set<Tid>)

  function Number(p: Phase): nat {
    match p
    case Rendered(q) => q.number
    case Writing(q) => q.number
    case Ready(q) => q.number
    case Begun(n) => n
    case Copied(n, _) => n
    case Leaving(n, _) => n
    case Finished(n, _) => n
  }

  datatype Step = Change | Call | Copy | Render | Open | Fill | Promote | Fail | Clean(removed: bool)

  function SetThread(s: State, tid: Tid, p: Phase): State {
    s.(threads := s.threads[tid := p])
  }

  predicate CanStep(s: State, tid: Tid, step: Step) {
    match step
    case Change => true
    case Call => tid !in s.threads && tid !in s.temps
    case Copy => tid in s.threads && s.threads[tid].Begun?
    case Render => tid in s.threads && s.threads[tid].Copied?
    case Open => tid in s.threads && s.threads[tid].Rendered?
    case Fill => tid in s.threads && s.threads[tid].Writing?
    case Promote => tid in s.threads && s.threads[tid].Ready? && tid in s.temps
    case Fail => tid in s.threads && !s.threads[tid].Leaving? && !s.threads[tid].Finished?
    case Clean(_) => tid in s.threads && s.threads[tid].Leaving?
  }

  // The state after one atomic step of thread `tid`.
  function After(s: State, tid: Tid, step: Step): State
    requires CanStep(s, tid, step)
  {
    match step
    case Change => s.(changes := s.changes + 1)
    case Call => SetThread(s, tid, Begun(|s.calls| + 1)).(calls := s.calls + [s.changes])
    case Copy => SetThread(s, tid, Copied(s.threads[tid].number, s.changes))
    case Render => SetThread(s, tid, Rendered(Payload(s.threads[tid].number, s.threads[tid].at, s.changes)))
    case Open => SetThread(s, tid, Writing(s.threads[tid].payload)).(temps := s.temps[tid := Partial])
    case Fill => SetThread(s, tid, Ready(s.threads[tid].payload)).(temps := s.temps[tid := Whole(s.threads[tid].payload)])
    case Promote =>
      var n := s.threads[tid].payload.number;
      var done := SetThread(s, tid, Leaving(n, false));
      if n > s.writtenSeq then
        done.(file := Written(s.temps[tid]), temps := s.temps - {tid}, writtenSeq := n, promoted := s.promoted + [n])
      else done
    case Fail => SetThread(s, tid, Leaving(Number(s.threads[tid]), true))
    case Clean(removed) =>
      var done := SetThread(s, tid, Finished(s.threads[tid].number, s.threads[tid].failed));
      if tid !in s.temps then done
      else if removed then done.(temps := s.temps - {tid})
      else done.(stuck := s.stuck + {tid})
  }

  // A fresh SessionState: _save_written_seq counts as -1 until the first promotion.
  predicate Init(s: State) {
    s.calls == [] && s.writtenSeq == -1 && s.file == Earlier && s.temps == map[] && s.threads == map[]
    && s.promoted == [] && s.stuck == {}
  }

  // ---- the invariant ----

  // A payload was taken no earlier than the save() call it carries the number of.
  predicate Fresh(s: State, p: Payload) {
    1 <= p.number <= |s.calls| && s.calls[p.number - 1] <= p.copied <= p.shared <= s.changes
  }

  predicate PhaseOk(s: State, tid: Tid) {
    tid in s.threads && 1 <= Number(s.threads[tid]) <= |s.calls|
    && match s.threads[tid]
       case Begun(_) => tid !in s.temps
       case Copied(n, at) => tid !in s.temps && s.calls[n - 1] <= at <= s.changes
       case Rendered(p) => tid !in s.temps && Fresh(s, p)
       case Writing(p) => tid in s.temps && Fresh(s, p)
       case Ready(p) => Fresh(s, p) && tid in s.temps && s.temps[tid] == Whole(p)
       case Leaving(n, failed) => failed || n <= s.writtenSeq
       case Finished(n, failed) => (failed || n <= s.writtenSeq) && (tid in s.temps ==> tid in s.stuck)
  }

  ghost predicate FileOk(s: State) {
    match s.file
    case Earlier => s.writtenSeq == -1 && s.promoted == []
    case Written(c) => c.Whole? && c.payload.number == s.writtenSeq && Fresh(s, c.payload)
                       && s.promoted != [] && s.promoted[|s.promoted| - 1] == s.writtenSeq
                       && exists tid :: LeftWith(s, tid, s.writtenSeq)
  }

  // Thread `tid` got through promotion with this number without failing.
  predicate LeftWith(s: State, tid: Tid, n: int) {
    tid in s.threads && (s.threads[tid].Leaving? || s.threads[tid].Finished?)
    && !s.threads[tid].failed && s.threads[tid].number == n
  }

  ghost predicate Inv(s: State) {
    && (forall tid :: tid in s.threads ==> PhaseOk(s, tid))
    && (forall tid :: tid in s.temps ==> tid in s.threads)
    && NumbersDistinct(s)
    && FileOk(s)
    && Increasing(s.promoted)
    && (forall i :: 0 <= i < |s.calls| ==> s.calls[i] <= s.changes)
  }

  ghost predicate NumbersDistinct(s: State) {
    forall a, b :: a in s.threads && b in s.threads && a != b ==> Number(s.threads[a]) != Number(s.threads[b])
  }

  predicate Increasing(numbers: seq<nat>) {
    forall i, j :: 0 <= i < j < |numbers| ==> numbers[i] < numbers[j]
  }

  type Sound = s: State | Inv(s) ghost witness State(0, [], -1, Earlier, map[], map[], [], {})

  lemma MovedPhaseOk(s: Sound, tid: Tid, step: Step)
    requires CanStep(s, tid, step) && !step.Change?
    ensures PhaseOk(After(s, tid, step), tid)
  {
    if tid in s.threads {
      assert PhaseOk(s, tid);
    }
  }

  lemma OtherPhaseOk(s: Sound, tid: Tid, step: Step, t: Tid)
    requires CanStep(s, tid, step) && t in s.threads && (t != tid || step.Change?)
    ensures After(s, tid, step).threads[t] == s.threads[t] && PhaseOk(After(s, tid, step), t)
  {
    assert PhaseOk(s, t);
  }

  lemma StepKeepsPhases(s: Sound, tid: Tid, step: Step)
    requires CanStep(s, tid, step)
    ensures forall t :: t in After(s, tid, step).threads ==> PhaseOk(After(s, tid, step), t)
  {
    forall t | t in After(s, tid, step).threads
      ensures PhaseOk(After(s, tid, step), t)
    {
      if t == tid && !step.Change? {
        MovedPhaseOk(s, tid, step);
      } else {
        OtherPhaseOk(s, tid, step, t);
      }
    }
  }

  // A thread can always go on until it has finished, and fail until it is leaving: nothing else holds it up.
  lemma EveryThreadGoesOn(s: Sound, tid: Tid, step: Step)
    requires tid in s.threads && step != Change
    ensures CanStep(s, tid, step) <==>
      match s.threads[tid]
      case Begun(_) => step == Copy || step == Fail
      case Copied(_, _) => step == Render || step == Fail
      case Rendered(_) => step == Open || step == Fail
      case Writing(_) => step == Fill || step == Fail
      case Ready(_) => step == Promote || step == Fail
      case Leaving(_, _) => step == Clean(true) || step == Clean(false)
      case Finished(_, _) => false
  {
    assert PhaseOk(s, tid);
  }

  lemma NumbersDiffer(s: Sound, tid: Tid, step: Step, a: Tid, b: Tid)
    requires CanStep(s, tid, step) && a != b
    requires a in After(s, tid, step).threads && b in After(s, tid, step).threads
    ensures Number(After(s, tid, step).threads[a]) != Number(After(s, tid, step).threads[b])
  {
    if step.Call? {
      var other := if a == tid then b else a;
      assert PhaseOk(s, other);
    }
  }

  lemma LeftStays(s: State, tid: Tid, step: Step, t: Tid, n: int)
    requires CanStep(s, tid, step) && LeftWith(s, t, n)
    ensures LeftWith(After(s, tid, step), t, n)
  {
  }

  lemma PromotionKeepsFile(s: Sound, tid: Tid)
    requires CanStep(s, tid, Promote) && s.threads[tid].payload.number > s.writtenSeq
    ensures FileOk(After(s, tid, Promote))
  {
    assert PhaseOk(s, tid);
    assert LeftWith(After(s, tid, Promote), tid, s.threads[tid].payload.number);
  }

  lemma StepKeepsFile(s: Sound, tid: Tid, step: Step)
    requires CanStep(s, tid, step)
    ensures FileOk(After(s, tid, step))
  {
    if step.Promote? && s.threads[tid].payload.number > s.writtenSeq {
      PromotionKeepsFile(s, tid);
    } else {
      OtherStepKeepsFile(s, tid, step);
    }
  }

  lemma OtherStepKeepsFile(s: State, tid: Tid, step: Step)
    requires CanStep(s, tid, step) && FileOk(s)
    requires forall i :: 0 <= i < |s.calls| ==> s.calls[i] <= s.changes
    requires step.Promote? ==> s.threads[tid].payload.number <= s.writtenSeq
    ensures FileOk(After(s, tid, step))
  {
    if s.file.Written? {
      var t :| LeftWith(s, t, s.writtenSeq);
      LeftStays(s, tid, step, t, s.writtenSeq);
    }
  }

  lemma StepKeepsNumbers(s: Sound, tid: Tid, step: Step)
    requires CanStep(s, tid, step)
    ensures NumbersDistinct(After(s, tid, step))
  {
    forall a, b | a in After(s, tid, step).threads && b in After(s, tid, step).threads && a != b
      ensures Number(After(s, tid, step).threads[a]) != Number(After(s, tid, step).threads[b])
    {
      NumbersDiffer(s, tid, step, a, b);
    }
  }

  lemma StepKeepsOrder(s: Sound, tid: Tid, step: Step)
    requires CanStep(s, tid, step)
    ensures Increasing(After(s, tid, step).promoted)
  {
    if step.Promote? && s.promoted != [] {
      assert s.promoted[|s.promoted| - 1] == s.writtenSeq;
    }
  }

  lemma StepKeepsInv(s: Sound, tid: Tid, step: Step)
    requires CanStep(s, tid, step)
    ensures Inv(After(s, tid, step))
  {
    StepKeepsPhases(s, tid, step);
    StepKeepsFile(s, tid, step);
    StepKeepsNumbers(s, tid, step);
    StepKeepsOrder(s, tid, step);
  }

  // ---- all interleavings ----

  datatype Run = Start(state: State) | Then(before: Run, tid: Tid, step: Step, state: State)

  ghost predicate IsRun(r: Run) {
    match r
    case Start(s) => Init(s)
    case Then(before, tid, step, s) => IsRun(before) && CanStep(before.state, tid, step) && s == After(before.state, tid, step)
  }

  type Trace = r: Run | IsRun(r) ghost witness Start(State(0, [], -1, Earlier, map[], map[], [], {}))

  lemma {:induction false} RunKeepsInv(r: Trace)
    ensures Inv(r.state)
  {
    if r.Then? {
      RunKeepsInv(r.before);
      StepKeepsInv(r.before.state, r.tid, r.step);
    }
  }

  // In every interleaving with any failures, and at every moment: the session file is what an earlier
  // process left or the complete output of one save, copied and serialised no earlier than the save()
  // call whose number it carries; numbers reach the file in strictly increasing order.
  lemma FileIsWholeAndOrdered(r: Trace)
    ensures r.state.file.Written? ==> r.state.file.content.Whole? && Fresh(r.state, r.state.file.content.payload)
    ensures forall i, j :: 0 <= i < j < |r.state.promoted| ==> r.state.promoted[i] < r.state.promoted[j]
  {
    RunKeepsInv(r);
  }

  // ---- one moment or two ----

  // Thread `tid` is between its copy of the history and its serialisation of the shared fields.
  predicate Serializing(s: State, tid: Tid, n: nat) {
    tid in s.threads && s.threads[tid].Copied? && s.threads[tid].number == n
  }

  ghost predicate InSave(s: State, n: nat) {
    exists tid :: Serializing(s, tid, n)
  }

  // How many changes of the run fell there in save number n.
  ghost function ChangesInSave(r: Run, n: nat): nat {
    match r
    case Start(_) => 0
    case Then(before, _, step, _) => ChangesInSave(before, n) + if step.Change? && InSave(before.state, n) then 1 else 0
  }

  ghost predicate Accounts(r: Run, p: Payload) {
    p.shared == p.copied + ChangesInSave(r, p.number)
  }

  ghost predicate PhaseAccounts(r: Run, tid: Tid)
    requires tid in r.state.threads
  {
    match r.state.threads[tid]
    case Begun(n) => ChangesInSave(r, n) == 0
    case Copied(n, at) => r.state.changes == at + ChangesInSave(r, n)
    case Rendered(p) => Accounts(r, p)
    case Writing(p) => Accounts(r, p)
    case Ready(p) => Accounts(r, p)
    case Leaving(_, _) => true
    case Finished(_, _) => true
  }

  // Numbers are unique, so a save that is past its serialisation, or not yet called, is not in it.
  lemma OnlyOneInSave(s: Sound, tid: Tid)
    requires tid in s.threads && !s.threads[tid].Copied?
    ensures !InSave(s, Number(s.threads[tid]))
  {
  }

  lemma NotYetInSave(s: Sound, n: nat)
    requires n > |s.calls|
    ensures !InSave(s, n)
  {
    forall tid | tid in s.threads
      ensures !Serializing(s, tid, n)
    {
      assert PhaseOk(s, tid);
    }
  }

  lemma {:induction false} NotYetCalled(r: Trace, n: nat)
    requires n > |r.state.calls|
    ensures ChangesInSave(r, n) == 0
  {
    if r.Then? {
      RunKeepsInv(r.before);
      NotYetCalled(r.before, n);
      NotYetInSave(r.before.state, n);
    }
  }

  // A thread that a step leaves alone,
  lemma StillAccounts(r: Trace, tid: Tid)
    requires r.Then? && tid in r.before.state.threads && (r.tid != tid || r.step.Change?)
    requires PhaseAccounts(r.before, tid)
    ensures PhaseAccounts(r, tid)
  {
    var s := r.before.state;
    assert r.state.threads[tid] == s.threads[tid];
    RunKeepsInv(r.before);
    if s.threads[tid].Copied? {
      assert Serializing(s, tid, s.threads[tid].number);
    } else {
      OnlyOneInSave(s, tid);
    }
  }

  // and one that it moves.
  lemma MovedAccounts(r: Trace, tid: Tid)
    requires r.Then? && tid in r.before.state.threads && r.tid == tid && !r.step.Change?
    requires PhaseAccounts(r.before, tid)
    ensures PhaseAccounts(r, tid)
  {
  }

  lemma {:induction false} ThreadAccounts(r: Trace, tid: Tid)
    requires tid in r.state.threads
    ensures PhaseAccounts(r, tid)
  {
    if r.Then? {
      if tid !in r.before.state.threads {
        NotYetCalled(r.before, |r.before.state.calls| + 1);
      } else {
        ThreadAccounts(r.before, tid);
        if r.tid == tid && !r.step.Change? {
          MovedAccounts(r, tid);
        } else {
          StillAccounts(r, tid);
        }
      }
    }
  }

  // The save that is in the file has left, so no later change falls in it.
  lemma SavedIsNotInSave(s: Sound)
    requires s.file.Written? && s.file.content.Whole?
    ensures !InSave(s, s.file.content.payload.number)
  {
    var t :| LeftWith(s, t, s.writtenSeq);
    OnlyOneInSave(s, t);
  }

  lemma OnlyPromotionChangesFile(s: Sound, tid: Tid, step: Step)
    requires CanStep(s, tid, step) && After(s, tid, step).file != s.file
    ensures step.Promote? && After(s, tid, step).file == Written(Whole(s.threads[tid].payload))
  {
    assert PhaseOk(s, tid);
  }

  lemma {:induction false} FileAccounts(r: Trace)
    requires r.state.file.Written? && r.state.file.content.Whole?
    ensures Accounts(r, r.state.file.content.payload)
  {
    if r.Then? {
      RunKeepsInv(r.before);
      if r.state.file == r.before.state.file {
        FileAccounts(r.before);
        SavedIsNotInSave(r.before.state);
      } else {
        OnlyPromotionChangesFile(r.before.state, r.tid, r.step);
        ThreadAccounts(r.before, r.tid);
      }
    }
  }

  // The history in the file is of the moment of the copy; the fields shared by reference are later by as
  // many changes as fell between the copy and json.dumps. So the file shows one moment of the session
  // exactly when none did.
  lemma FileIsOfOneMomentIff(r: Trace)
    requires r.state.file.Written? && r.state.file.content.Whole?
    ensures var p := r.state.file.content.payload;
      && p.shared - p.copied == ChangesInSave(r, p.number)
      && (p.copied == p.shared <==> ChangesInSave(r, p.number) == 0)
  {
    FileAccounts(r);
  }

  // The run that begins in s and has one change between thread 0's copy and its json.dumps.
  function Mixed(s: State): State
    requires CanStep(s, 0, Call)
  {
    var copied := After(After(s, 0, Call), 0, Copy);
    var rendered := After(After(copied, 0, Change), 0, Render);
    After(After(After(rendered, 0, Open), 0, Fill), 0, Promote)
  }

  ghost function Extended(r: Trace, tid: Tid, step: Step): (t: Trace)
    requires CanStep(r.state, tid, step)
  {
    Then(r, tid, step, After(r.state, tid, step))
  }

  // It happens: one complete file, of no moment of the session.
  lemma FileOfTwoMoments(s: State) returns (r: Trace)
    requires Init(s)
    ensures r.state == Mixed(s)
    ensures r.state.file == Written(Whole(Payload(1, s.changes, s.changes + 1)))
  {
    r := Extended(Extended(Start(s), 0, Call), 0, Copy);
    r := Extended(Extended(r, 0, Change), 0, Render);
    r := Extended(Extended(r, 0, Open), 0, Fill);
    r := Extended(r, 0, Promote);
  }

  // ---- at rest ----

  ghost predicate Quiet(s: State) {
    forall tid :: tid in s.threads ==> s.threads[tid].Finished?
  }

  // Once every thread has finished: a temporary remains only where its removal failed, and the file
  // carries the highest number among the saves that did not fail.
  lemma QuietState(r: Trace)
    requires Quiet(r.state)
    ensures forall tid :: tid in r.state.temps ==> tid in r.state.stuck
    ensures forall tid :: tid in r.state.threads && !r.state.threads[tid].failed ==> r.state.threads[tid].number <= r.state.writtenSeq
    ensures r.state.file.Written? ==>
      exists tid :: tid in r.state.threads && r.state.threads[tid].number == r.state.writtenSeq && !r.state.threads[tid].failed
    ensures r.state.file == Earlier ==> forall tid :: tid in r.state.threads ==> r.state.threads[tid].failed
  {
    RunKeepsInv(r);
    var s := r.state;
    forall tid | tid in s.threads
      ensures !s.threads[tid].failed ==> s.threads[tid].number <= s.writtenSeq && s.file.Written?
      ensures tid in s.temps ==> tid in s.stuck
    {
      assert PhaseOk(s, tid);
    }
    if s.file.Written? {
      var tid :| LeftWith(s, tid, s.writtenSeq);
      assert s.threads[tid].Finished?;
    }
  }

  // If the last save() did not fail, the file then holds every change made before that call.
  lemma LastSaveIsOnDisk(r: Trace, tid: Tid)
    requires Quiet(r.state) && tid in r.state.threads
    requires r.state.calls != [] && r.state.threads[tid] == Finished(|r.state.calls|, false)
    ensures r.state.file.Written? && r.state.file.content.Whole?
    ensures var p := r.state.file.content.payload;
      p.number == |r.state.calls| && r.state.calls[|r.state.calls| - 1] <= p.copied <= p.shared
  {
    QuietState(r);
    RunKeepsInv(r);
    assert PhaseOk(r.state, tid);
  }

  // From the snapshot to the complete temporary file, in a row.
  function WrittenOut(s: State, tid: Tid): State
    requires CanStep(s, tid, Copy)
  {
    var s2 := After(s, tid, Copy);
    var s3 := After(s2, tid, Render);
    var s4 := After(s3, tid, Open);
    After(s4, tid, Fill)
  }

  // All steps of one save in a row, on a working disk.
  function Undisturbed(s: State, tid: Tid): State
    requires CanStep(s, tid, Call)
  {
    After(After(WrittenOut(After(s, tid, Call), tid), tid, Promote), tid, Clean(true))
  }

  lemma UndisturbedSave(s: Sound, tid: Tid)
    requires CanStep(s, tid, Call)
    ensures var t := Undisturbed(s, tid);
      && t.file == Written(Whole(Payload(|s.calls| + 1, s.changes, s.changes)))
      && t.writtenSeq == |s.calls| + 1 && t.temps == s.temps && t.changes == s.changes
      && t.calls == s.calls + [s.changes]
  {
    assert s.writtenSeq <= |s.calls|;
  }

  // ---- the object ----

  class SessionState {
    var changes: nat
    var calls: seq<nat>
    var saveSeq: nat
    var writtenSeq: int
    var file: File
    var temps: map<Tid, Content>
    var threads: map<Tid, Phase>
    var promoted: seq<nat>
    var stuck: set<Tid>

    function Abs(): State
      reads this
    {
      State(changes, calls, writtenSeq, file, temps, threads, promoted, stuck)
    }

    ghost predicate Valid()
      reads this
    {
      Inv(Abs()) && saveSeq == |calls|
    }

    constructor ()
      ensures Valid() && Init(Abs())
    {
      changes, calls, saveSeq, writtenSeq, file := 0, [], 0, -1, Earlier;
      temps, threads, promoted, stuck := map[], map[], [], {};
    }

    // Any assignment to the session's fields between saves.
    method Mutate()
      requires Valid()
      modifies this
      ensures Valid() && Abs() == After(old(Abs()), 0, Change)
    {
      StepKeepsInv(Abs(), 0, Change);
      changes := changes + 1;
    }

    // save(): take the next number under the lock and hand it to a thread.
    method Save(tid: Tid)
      requires Valid() && CanStep(Abs(), tid, Call)
      modifies this
      ensures Valid() && saveSeq == old(saveSeq) + 1 && Abs() == After(old(Abs()), tid, Call)
    {
      StepKeepsInv(Abs(), tid, Call);
      saveSeq := saveSeq + 1;
      calls := calls + [changes];
      threads := threads[tid := Begun(saveSeq)];
    }

    // _snapshot_and_serialize, its locked half
    method Snapshot(tid: Tid)
      requires Valid() && CanStep(Abs(), tid, Copy)
      modifies this
      ensures Valid() && saveSeq == old(saveSeq) && Abs() == After(old(Abs()), tid, Copy)
    {
      StepKeepsInv(Abs(), tid, Copy);
      threads := threads[tid := Copied(threads[tid].number, changes)];
    }

    // its unlocked half, json.dumps
    method Serialize(tid: Tid)
      requires Valid() && CanStep(Abs(), tid, Render)
      modifies this
      ensures Valid() && saveSeq == old(saveSeq) && Abs() == After(old(Abs()), tid, Render)
    {
      StepKeepsInv(Abs(), tid, Render);
      threads := threads[tid := Rendered(Payload(threads[tid].number, threads[tid].at, changes))];
    }

    method OpenTemp(tid: Tid)
      requires Valid() && CanStep(Abs(), tid, Open)
      modifies this
      ensures Valid() && saveSeq == old(saveSeq) && Abs() == After(old(Abs()), tid, Open)
    {
      StepKeepsInv(Abs(), tid, Open);
      temps := temps[tid := Partial];
      threads := threads[tid := Writing(threads[tid].payload)];
    }

    method WriteTemp(tid: Tid)
      requires Valid() && CanStep(Abs(), tid, Fill)
      modifies this
      ensures Valid() && saveSeq == old(saveSeq) && Abs() == After(old(Abs()), tid, Fill)
    {
      StepKeepsInv(Abs(), tid, Fill);
      temps := temps[tid := Whole(threads[tid].payload)];
      threads := threads[tid := Ready(threads[tid].payload)];
    }

    // The second locked region: os.replace, unless a later number is already on disk.
    method PromoteTemp(tid: Tid)
      requires Valid() && CanStep(Abs(), tid, Promote)
      modifies this
      ensures Valid() && saveSeq == old(saveSeq) && Abs() == After(old(Abs()), tid, Promote)
    {
      StepKeepsInv(Abs(), tid, Promote);
      ghost var s := Abs();
      var number := threads[tid].payload.number;
      if number > writtenSeq {
        file := Written(temps[tid]);
        temps := temps - {tid};
        writtenSeq := number;
        promoted := promoted + [number];
      }
      threads := threads[tid := Leaving(number, false)];
      assert Abs() == After(s, tid, Promote);
    }

    // An exception anywhere in the try block.
    method Raise(tid: Tid)
      requires Valid() && CanStep(Abs(), tid, Fail)
      modifies this
      ensures Valid() && saveSeq == old(saveSeq) && Abs() == After(old(Abs()), tid, Fail)
    {
      StepKeepsInv(Abs(), tid, Fail);
      threads := threads[tid := Leaving(Number(threads[tid]), true)];
    }

    // The finally block; `removable` is whether unlink works.
    method CleanUp(tid: Tid, removable: bool)
      requires Valid() && CanStep(Abs(), tid, Clean(removable))
      modifies this
      ensures Valid() && saveSeq == old(saveSeq) && Abs() == After(old(Abs()), tid, Clean(removable))
    {
      ghost var s := Abs();
      StepKeepsInv(s, tid, Clean(removable));
      if tid in temps {
        if removable {
          temps := temps - {tid};
        } else {
          stuck := stuck + {tid};
        }
      }
      threads := threads[tid := Finished(threads[tid].number, threads[tid].failed)];
      assert Abs() == After(s, tid, Clean(removable));
    }

    // The try block of _do_save up to the complete temporary file.
    method WriteSnapshot(tid: Tid)
      requires Valid() && CanStep(Abs(), tid, Copy)
      modifies this
      ensures Valid() && saveSeq == old(saveSeq) && Abs() == WrittenOut(old(Abs()), tid)
    {
      Snapshot(tid);
      Serialize(tid);
      OpenTemp(tid);
      WriteTemp(tid);
    }

    // save(sync=True) on a working disk, undisturbed: the file is this very state.
    method SaveSync(tid: Tid)
      requires Valid() && CanStep(Abs(), tid, Call)
      modifies this
      ensures Valid() && Abs() == Undisturbed(old(Abs()), tid)
      ensures file == Written(Whole(Payload(saveSeq, changes, changes))) && saveSeq == old(saveSeq) + 1
      ensures writtenSeq == saveSeq && temps == old(temps) && changes == old(changes)
    {
      UndisturbedSave(Abs(), tid);
      Save(tid);
      WriteSnapshot(tid);
      PromoteTemp(tid);
      CleanUp(tid, true);
    }
  }
}
