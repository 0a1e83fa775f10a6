// Single use and end-to-end agreement: any number of orchestrators, workers and adapters, interleaved
// step by step over one ledger directory, each of which may stop for good after any step.
module GrantProtocol {
  import opened PyText
  import opened CanonicalJson
  import opened Authorization
  import opened Ledger

  type Pid = nat

  // The identities the frozen, verified manifest of an arm carries.
  datatype Manifest = Manifest(experimentId: string, protocolVersion: string, arm: string)

  // SWARM_F2_AUTHZ_* and SWARM_F2_ROLLOUT_ID as a process finds them. Nothing below assumes that a
  // consuming parent set them.
  datatype Environ = Environ(
    stage: string, operation: string, binding: Option<Json>,
    consumptionId: string, recordDigest: Option<Digest>, bindingDigest: Option<Digest>, rollout: string)

  datatype Request = Request(stage: string, operation: string, manifest: Manifest, rollout: string)

  datatype Job =
    | WorkerJob(stage: string, operation: string, manifest: Manifest, env: Environ)
    | AdapterJob(stage: string, operation: string, manifest: Manifest, env: Environ, rollout: string)

  // One process, by how far it has come.
  datatype Proc =
    | Asked(req: Request)                                        // run_f2_arm before verify_and_consume
    | Opening(v: Verified)                                       // verified; about to create the file
    | Writing(v: Verified)                                       // file created, nothing written yet
    | Wrote(v: Verified)                                         // entry written and synced
    | Consumed(v: Verified)                                      // consume returned
    | Checking(job: Job)                                         // worker or adapter, before its checks
    | Listing(job: Job, v: Verified, present: set<Name>)         // verified; about to list the directory
    | Scanning(job: Job, v: Verified, todo: seq<Name>, found: Option<Entry>)
    | Passed(job: Job, v: Verified)                              // every check passed
    | Ended                                                      // refused, or launched

  // `wins`: consumes that returned an entry. `spawns`: production launches.
  datatype Win = Win(pid: Pid, v: Verified)
  datatype Spawn = Spawn(v: Verified, manifest: Manifest, rollout: string)
  datatype State = State(files: Files, procs: map<Pid, Proc>, wins: seq<Win>, spawns: seq<Spawn>)

  // The binding run_f2_arm consumes with, and the one the adapter rebuilds from the manifest.
  function BindingOf(m: Manifest, rollout: string): Fields {
    Field("experiment_id", Str(m.experimentId), Field("protocol_version", Str(m.protocolVersion),
      Field("arm", Str(m.arm), Field("rollout_id", Str(rollout), NoField))))
  }

  // The worker keeps the BINDING_FIELDS of its parent's binding.
  function KnownFields(f: Fields): Fields {
    if f.NoField? then NoField
    else if IsBindingField(f.key) then Field(f.key, f.value, KnownFields(f.rest))
    else KnownFields(f.rest)
  }

  // The checks of run_worker before it re-verifies.
  predicate WorkerAdmits(job: Job)
    requires job.WorkerJob?
  {
    && job.stage == CONF && job.operation == CONF_RUN
    && job.env.binding.Some? && job.env.binding.value.Obj?
    && job.env.consumptionId != "" && job.env.recordDigest.Some?
    && job.env.stage == job.stage && job.env.operation == job.operation
    && var b := job.env.binding.value.fields;
      && GetOr(b, "stage") == Str(job.stage) && GetOr(b, "operation") == Str(job.operation)
      && (job.env.rollout == "" || GetOr(b, "rollout_id") == Str("") || GetOr(b, "rollout_id") == Str(job.env.rollout))
      && GetOr(b, "arm") == Str(job.manifest.arm)
      && GetOr(b, "experiment_id") == Str(job.manifest.experimentId)
      && GetOr(b, "protocol_version") == Str(job.manifest.protocolVersion)
  }

  // What a checker must present: the binding it re-verifies the record against.
  function Supplied(job: Job): Fields {
    match job
    case WorkerJob(_, _, _, env) => if env.binding.Some? && env.binding.value.Obj? then KnownFields(env.binding.value.fields) else NoField
    case AdapterJob(_, _, m, _, rollout) => BindingOf(m, rollout)
  }

  // All checks of a worker or adapter up to the ledger.
  ghost predicate Checks(job: Job, doc: Json, w: World, v: Verified) {
    && (job.WorkerJob? ==> WorkerAdmits(job))
    && (job.AdapterJob? ==> job.stage == CONF && job.operation == CONF_RUN && job.env.consumptionId != "")
    && VerifiesAs(doc, job.stage, job.operation, Supplied(job), w, v)
    && job.env.recordDigest == Some(v.digest) && job.env.bindingDigest == Some(v.bindingDigest)
  }

  // One file of the ledger scan; None is a denial.
  function ScanStep(c: Content, n: Name, id: string, found: Option<Entry>): Option<Option<Entry>> {
    if !JsonName(n) || !c.Doc? then None
    else if c.entry.id != id then Some(found)
    else if found.Some? then None
    else Some(Some(c.entry))
  }

  datatype Step =
    | Arrive(proc: Proc)                                   // any process starts, with any arguments
    | VerifyGrant(doc: Json, w: World, v: Verified)     // verify_and_bind inside verify_and_consume
    | Create                                               // O_CREAT | O_EXCL
    | WriteOut(id: string)                                 // os.write and fsync
    | WriteShort                                           // os.write stops short, without raising
    | Return
    | Check(doc: Json, w: World, v: Verified)
    | List(names: seq<Name>)                               // _entries lists the directory
    | ScanOne
    | Accept                                               // the scan is over and the entry matches
    | Launch                                               // _start_real_p2
    | Refuse                                               // any check fails, or any call raises

  // The process created the file of its grant.
  predicate Owns(p: Proc) {
    p.Writing? || p.Wrote? || p.Consumed?
  }

  // A directory listing: every file that was there when it began, and of those created meanwhile some.
  ghost predicate ListsAtLeast(names: seq<Name>, present: set<Name>, files: Files) {
    && (forall n :: n in names ==> n in files) && (forall n :: n in present ==> n in names)
    && forall i, j :: 0 <= i < j < |names| ==> names[i] != names[j]
  }

  // No step is ever forced: a process that crashes, or whose write raises, is one that never moves
  // again, and a created file it leaves behind stays torn.
  ghost predicate Moves(s: State, t: State, pid: Pid, step: Step) {
    if step.Arrive? then
      && pid !in s.procs && (step.proc.Asked? || step.proc.Checking?)
      && t == s.(procs := s.procs[pid := step.proc])
    else
      && pid in s.procs
      && var p := s.procs[pid];
        match step
        case VerifyGrant(doc, w, v) =>
          && p.Asked? && VerifiesAs(doc, p.req.stage, p.req.operation, BindingOf(p.req.manifest, p.req.rollout), w, v)
          && t == s.(procs := s.procs[pid := Opening(v)])
        case Create =>
          && p.Opening? && Grant(p.v.digest) !in s.files
          && t == s.(files := s.files[Grant(p.v.digest) := Torn], procs := s.procs[pid := Writing(p.v)])
        case WriteOut(id) =>
          && p.Writing?
          && var e := Entry(id, p.v.digest, p.v.bindingDigest, p.v.binding, p.v.stage, p.v.operation);
            t == s.(files := s.files[Grant(p.v.digest) := Doc(e)], procs := s.procs[pid := Wrote(p.v)])
        case Return =>
          && p.Wrote?
          && t == s.(wins := s.wins + [Win(pid, p.v)], procs := s.procs[pid := Consumed(p.v)])
        case WriteShort =>
          && p.Writing?
          && t == s.(procs := s.procs[pid := Wrote(p.v)])
        case Check(doc, w, v) =>
          && p.Checking? && Checks(p.job, doc, w, v)
          && t == s.(procs := s.procs[pid := Listing(p.job, v, s.files.Keys)])
        case List(names) =>
          && p.Listing? && ListsAtLeast(names, p.present, s.files)
          && t == s.(procs := s.procs[pid := Scanning(p.job, p.v, names, None)])
        case ScanOne =>
          && p.Scanning? && p.todo != [] && p.todo[0] in s.files
          && var r := ScanStep(s.files[p.todo[0]], p.todo[0], p.job.env.consumptionId, p.found);
            && r.Some?
            && t == s.(procs := s.procs[pid := Scanning(p.job, p.v, p.todo[1..], r.value)])
        case Accept =>
          && p.Scanning? && p.todo == [] && p.found.Some?
          && p.found.value.recordDigest == p.v.digest && p.found.value.bindingDigest == p.v.bindingDigest
          && t == s.(procs := s.procs[pid := Passed(p.job, p.v)])
        case Launch =>
          && p.Passed? && p.job.AdapterJob?
          && t == s.(spawns := s.spawns + [Spawn(p.v, p.job.manifest, p.job.rollout)], procs := s.procs[pid := Ended])
        case Refuse =>
          && !Owns(p) && t == s.(procs := s.procs[pid := Ended])
  }

  // An entry as consume writes it.
  ghost predicate GoodEntry(key: Digest, e: Entry) {
    e.recordDigest == key && IsBinding(e.binding, e.stage, e.operation) && e.bindingDigest == DigestOf(Obj(e.binding))
  }

  ghost predicate IsBinding(f: Fields, stage: string, operation: string) {
    exists supplied :: Normalized(f, stage, operation, supplied)
  }

  // A directory that only consume has ever written to.
  ghost predicate WellKept(files: Files) {
    forall n :: n in files ==> n.Grant? && !files[n].Foreign? && (files[n].Doc? ==> GoodEntry(n.key, files[n].entry))
  }

  // The ledger may hold entries and torn files of earlier runs; no process is running.
  ghost predicate Init(s: State) {
    WellKept(s.files) && s.procs == map[] && s.wins == [] && s.spawns == []
  }

  // ---- the invariant ----

  ghost predicate SoundVerified(v: Verified) {
    IsBinding(v.binding, v.stage, v.operation) && v.bindingDigest == DigestOf(Obj(v.binding))
  }

  ghost predicate HasEntry(files: Files, e: Entry) {
    Grant(e.recordDigest) in files && files[Grant(e.recordDigest)] == Doc(e)
  }

  // The ledger proves that this verified grant was consumed with this binding.
  ghost predicate Corroborated(files: Files, v: Verified) {
    && Grant(v.digest) in files && files[Grant(v.digest)].Doc?
    && files[Grant(v.digest)].entry.bindingDigest == v.bindingDigest
  }

  // The file of a process that has written: torn if the write stopped short.
  ghost predicate WrittenOrTorn(files: Files, v: Verified) {
    Grant(v.digest) in files && (files[Grant(v.digest)] == Torn || Corroborated(files, v))
  }

  ghost predicate ProcOk(p: Proc, files: Files) {
    match p
    case Opening(v) => SoundVerified(v)
    case Writing(v) => SoundVerified(v) && Grant(v.digest) in files && files[Grant(v.digest)] == Torn
    case Wrote(v) => SoundVerified(v) && WrittenOrTorn(files, v)
    case Consumed(v) => WrittenOrTorn(files, v)
    case Listing(job, v, _) => JobVerified(job, v)
    case Scanning(job, v, _, found) => JobVerified(job, v) && (found.Some? ==> HasEntry(files, found.value))
    case Passed(job, v) => JobVerified(job, v) && Corroborated(files, v)
    case _ => true
  }

  ghost predicate JobVerified(job: Job, v: Verified) {
    exists doc, w :: Checks(job, doc, w, v)
  }

  // A launch was made for a confirmatory record whose consumed entry carries the manifest's identities.
  ghost predicate SpawnOk(x: Spawn, files: Files) {
    && Corroborated(files, x.v)
    && (exists doc, w :: VerifiesAs(doc, CONF, CONF_RUN, BindingOf(x.manifest, x.rollout), w, x.v))
  }

  ghost predicate Inv(s: State) {
    && WellKept(s.files)
    && (forall p :: p in s.procs ==> ProcOk(s.procs[p], s.files))
    && OwnersDistinct(s)
    && WinsOk(s)
    && (forall i :: 0 <= i < |s.spawns| ==> SpawnOk(s.spawns[i], s.files))
  }

  ghost predicate OwnersDistinct(s: State) {
    forall p, q :: p in s.procs && q in s.procs && p != q && Owns(s.procs[p]) && Owns(s.procs[q]) ==>
      s.procs[p].v.digest != s.procs[q].v.digest
  }

  ghost predicate WinsOk(s: State) {
    && (forall i :: 0 <= i < |s.wins| ==> s.wins[i].pid in s.procs && s.procs[s.wins[i].pid] == Consumed(s.wins[i].v))
    && (forall i, j :: 0 <= i < j < |s.wins| ==> s.wins[i].pid != s.wins[j].pid)
  }

  type Sound = s: State | Inv(s) ghost witness State(map[], map[], [], [])

  // Files appear, and torn files become entries; nothing else ever happens to a file.
  ghost predicate Grows(files: Files, files': Files) {
    forall n :: n in files ==> n in files' && (files[n] == Torn || files'[n] == files[n])
  }

  lemma StepGrows(s: Sound, t: State, pid: Pid, step: Step)
    requires Moves(s, t, pid, step)
    ensures Grows(s.files, t.files)
  {
    if step.WriteOut? {
      assert ProcOk(s.procs[pid], s.files);
    }
  }

  lemma StepKeepsFiles(s: Sound, t: State, pid: Pid, step: Step)
    requires Moves(s, t, pid, step)
    ensures WellKept(t.files)
  {
    if step.WriteOut? {
      assert ProcOk(s.procs[pid], s.files);
    }
  }

  lemma MovedProcOk(s: Sound, t: State, pid: Pid, step: Step)
    requires Moves(s, t, pid, step)
    ensures ProcOk(t.procs[pid], t.files)
  {
    StepGrows(s, t, pid, step);
    if !step.Arrive? {
      var p := s.procs[pid];
      assert ProcOk(p, s.files);
      match step {
        case VerifyGrant(doc, w, v) => assert Normalized(v.binding, v.stage, v.operation, BindingOf(p.req.manifest, p.req.rollout));
        case Check(doc, w, v) => assert Checks(p.job, doc, w, v);
        case ScanOne => ScannedEntryStands(s, p.todo[0]);
        case _ =>
      }
    }
  }

  lemma ScannedEntryStands(s: Sound, n: Name)
    requires n in s.files && s.files[n].Doc?
    ensures HasEntry(s.files, s.files[n].entry)
  {
  }

  lemma OtherProcsOk(s: Sound, t: State, pid: Pid, step: Step, q: Pid)
    requires Moves(s, t, pid, step) && q in s.procs && q != pid
    ensures q in t.procs && t.procs[q] == s.procs[q] && ProcOk(t.procs[q], t.files)
  {
    StepGrows(s, t, pid, step);
    assert ProcOk(s.procs[q], s.files);
    if step.WriteOut? {
      assert ProcOk(s.procs[pid], s.files);
      if Owns(s.procs[q]) {
        assert s.procs[q].v.digest != s.procs[pid].v.digest;
      }
    }
  }

  // A create succeeds only on a grant that no process owns.
  lemma CreatedIsUnowned(s: Sound, pid: Pid, q: Pid)
    requires pid in s.procs && s.procs[pid].Opening? && Grant(s.procs[pid].v.digest) !in s.files
    requires q in s.procs && Owns(s.procs[q])
    ensures s.procs[q].v.digest != s.procs[pid].v.digest
  {
    assert ProcOk(s.procs[q], s.files);
  }

  lemma OwnersDiffer(s: Sound, t: State, pid: Pid, step: Step, p: Pid, q: Pid)
    requires Moves(s, t, pid, step)
    requires p in t.procs && q in t.procs && p != q && Owns(t.procs[p]) && Owns(t.procs[q])
    ensures t.procs[p].v.digest != t.procs[q].v.digest
  {
    if step.Create? {
      if p == pid {
        CreatedIsUnowned(s, pid, q);
      } else if q == pid {
        CreatedIsUnowned(s, pid, p);
      }
    }
  }

  lemma SpawnsStayOk(s: Sound, t: State, pid: Pid, step: Step)
    requires Moves(s, t, pid, step)
    ensures forall i :: 0 <= i < |t.spawns| ==> SpawnOk(t.spawns[i], t.files)
  {
    StepGrows(s, t, pid, step);
    forall i | 0 <= i < |t.spawns|
      ensures SpawnOk(t.spawns[i], t.files)
    {
      if i < |s.spawns| {
        assert SpawnOk(s.spawns[i], s.files);
      } else {
        assert ProcOk(s.procs[pid], s.files);
      }
    }
  }

  lemma StepKeepsInv(s: Sound, t: State, pid: Pid, step: Step)
    requires Moves(s, t, pid, step)
    ensures Inv(t)
  {
    StepKeepsFiles(s, t, pid, step);
    forall q | q in t.procs
      ensures ProcOk(t.procs[q], t.files)
    {
      if q == pid {
        MovedProcOk(s, t, pid, step);
      } else {
        OtherProcsOk(s, t, pid, step, q);
      }
    }
    OwnersStayDistinct(s, t, pid, step);
    WinsStayOk(s, t, pid, step);
    SpawnsStayOk(s, t, pid, step);
  }

  lemma OwnersStayDistinct(s: Sound, t: State, pid: Pid, step: Step)
    requires Moves(s, t, pid, step)
    ensures OwnersDistinct(t)
  {
    forall p, q | p in t.procs && q in t.procs && p != q && Owns(t.procs[p]) && Owns(t.procs[q])
      ensures t.procs[p].v.digest != t.procs[q].v.digest
    {
      OwnersDiffer(s, t, pid, step, p, q);
    }
  }

  // A win is of a process that no step moves on, and only a process that has written wins.
  lemma WinStays(s: Sound, t: State, pid: Pid, step: Step, i: nat)
    requires Moves(s, t, pid, step) && i < |t.wins|
    ensures t.wins[i].pid in t.procs && t.procs[t.wins[i].pid] == Consumed(t.wins[i].v)
    ensures if i < |s.wins| then t.wins[i] == s.wins[i] else t.wins[i].pid == pid && s.procs[pid].Wrote? && i == |s.wins|
  {
  }

  lemma WinsStayOk(s: Sound, t: State, pid: Pid, step: Step)
    requires Moves(s, t, pid, step)
    ensures WinsOk(t)
  {
    forall i | 0 <= i < |t.wins|
      ensures t.wins[i].pid in t.procs && t.procs[t.wins[i].pid] == Consumed(t.wins[i].v)
      ensures if i < |s.wins| then t.wins[i] == s.wins[i] else t.wins[i].pid == pid && s.procs[pid].Wrote? && i == |s.wins|
    {
      WinStays(s, t, pid, step, i);
    }
  }

  // ---- runs ----

  datatype Run = Start(state: State) | Then(before: Run, pid: Pid, step: Step, state: State)

  ghost predicate IsRun(r: Run) {
    match r
    case Start(s) => Init(s)
    case Then(before, pid, step, s) => IsRun(before) && Moves(before.state, s, pid, step)
  }

  type Trace = r: Run | IsRun(r) ghost witness Start(State(map[], map[], [], []))

  // Run r continues run e.
  ghost predicate Continues(r: Run, e: Run) {
    r == e || (r.Then? && Continues(r.before, e))
  }

  lemma {:induction false} RunKeepsInv(r: Trace)
    ensures Inv(r.state)
  {
    if r.Then? {
      RunKeepsInv(r.before);
      StepKeepsInv(r.before.state, r.state, r.pid, r.step);
    }
  }

  // Single use: in every interleaving, with every process free to stop anywhere, no two consumes of
  // one record ever return - whatever their bindings.
  lemma AtMostOneConsume(r: Trace, a: nat, b: nat)
    requires a < |r.state.wins| && b < |r.state.wins|
    requires r.state.wins[a].v.digest == r.state.wins[b].v.digest
    ensures a == b
  {
    RunKeepsInv(r);
    var s := r.state;
    assert s.procs[s.wins[a].pid] == Consumed(s.wins[a].v) && s.procs[s.wins[b].pid] == Consumed(s.wins[b].v);
  }

  // A win for this record comes from a process that already owned the record's file.
  ghost predicate WonByOwner(s: State, t: State, digest: Digest) {
    && s.wins <= t.wins
    && (forall k :: |s.wins| <= k < |t.wins| && t.wins[k].v.digest == digest ==>
          t.wins[k].pid in s.procs && Owns(s.procs[t.wins[k].pid]) && s.procs[t.wins[k].pid].v.digest == digest)
    && (forall p :: p in t.procs && Owns(t.procs[p]) && t.procs[p].v.digest == digest ==>
          p in s.procs && Owns(s.procs[p]) && s.procs[p].v.digest == digest)
    && Grant(digest) in t.files
  }

  // Owning a record's file is decided by the time the file exists.
  lemma OwnersAreOld(s: Sound, t: State, pid: Pid, step: Step, digest: Digest, p: Pid)
    requires Moves(s, t, pid, step) && Grant(digest) in s.files
    requires p in t.procs && Owns(t.procs[p]) && t.procs[p].v.digest == digest
    ensures p in s.procs && Owns(s.procs[p]) && s.procs[p].v.digest == digest
  {
  }

  lemma WinIsOwned(s: Sound, t: State, pid: Pid, step: Step, k: nat)
    requires Moves(s, t, pid, step) && |s.wins| <= k < |t.wins|
    ensures t.wins[k].pid == pid && pid in s.procs && s.procs[pid] == Wrote(t.wins[k].v)
  {
  }

  lemma StepKeepsOwners(s: Sound, t: State, pid: Pid, step: Step, digest: Digest)
    requires Moves(s, t, pid, step) && Grant(digest) in s.files
    ensures WonByOwner(s, t, digest)
  {
    StepGrows(s, t, pid, step);
    forall k | |s.wins| <= k < |t.wins| {
      WinIsOwned(s, t, pid, step, k);
    }
    forall p | p in t.procs && Owns(t.procs[p]) && t.procs[p].v.digest == digest {
      OwnersAreOld(s, t, pid, step, digest, p);
    }
  }

  lemma WonByOwnerChain(r: State, s: State, t: State, digest: Digest)
    requires WonByOwner(r, s, digest) && WonByOwner(s, t, digest)
    ensures WonByOwner(r, t, digest)
  {
    assert forall k :: 0 <= k < |s.wins| ==> t.wins[k] == s.wins[k];
  }

  lemma {:induction false} WonByOwnerInRun(r: Trace, e: Run, digest: Digest)
    requires Continues(r, e) && Grant(digest) in e.state.files
    ensures WonByOwner(e.state, r.state, digest)
  {
    if r != e {
      WonByOwnerInRun(r.before, e, digest);
      RunKeepsInv(r.before);
      StepKeepsOwners(r.before.state, r.state, r.pid, r.step, digest);
      WonByOwnerChain(e.state, r.before.state, r.state, digest);
    }
  }

  lemma {:induction false} ContinuedIsRun(r: Trace, e: Run)
    requires Continues(r, e)
    ensures IsRun(e)
  {
    if r != e {
      ContinuedIsRun(r.before, e);
    }
  }

  // A process past its write has left the grant's file torn.
  ghost predicate LeftTorn(s: State, pid: Pid, digest: Digest) {
    && pid in s.procs && (s.procs[pid].Wrote? || s.procs[pid].Consumed?) && s.procs[pid].v.digest == digest
    && Grant(digest) in s.files && s.files[Grant(digest)] == Torn
  }

  lemma StepKeepsTorn(s: Sound, t: State, mover: Pid, step: Step, pid: Pid, digest: Digest)
    requires Moves(s, t, mover, step) && LeftTorn(s, pid, digest)
    ensures LeftTorn(t, pid, digest)
  {
    if step.WriteOut? {
      assert mover != pid && Owns(s.procs[mover]) && Owns(s.procs[pid]);
    }
  }

  lemma {:induction false} TornInRun(r: Trace, e: Run, pid: Pid, digest: Digest)
    requires Continues(r, e) && LeftTorn(e.state, pid, digest)
    ensures LeftTorn(r.state, pid, digest)
  {
    if r != e {
      TornInRun(r.before, e, pid, digest);
      RunKeepsInv(r.before);
      StepKeepsTorn(r.before.state, r.state, r.pid, r.step, pid, digest);
    }
  }

  // After a torn write the grant is never launched, however the run goes on.
  lemma TornNeverLaunches(r: Trace, e: Run, pid: Pid, digest: Digest, k: nat)
    requires Continues(r, e) && LeftTorn(e.state, pid, digest) && k < |r.state.spawns|
    ensures r.state.spawns[k].v.digest != digest
  {
    TornInRun(r, e, pid, digest);
    RunKeepsInv(r);
    assert SpawnOk(r.state.spawns[k], r.state.files);
  }

  // Once a grant's file exists - entry or torn - the file stays, and a consume that had not created it
  // by then never returns, under any binding.
  lemma NoLaterConsume(r: Trace, e: Run, k: nat, digest: Digest)
    requires Continues(r, e) && Grant(digest) in e.state.files
    requires k < |r.state.wins| && r.state.wins[k].v.digest == digest
    ensures r.state.wins[k].pid in e.state.procs && Owns(e.state.procs[r.state.wins[k].pid])
    ensures Grant(digest) in r.state.files
  {
    WonByOwnerInRun(r, e, digest);
    if k < |e.state.wins| {
      ContinuedIsRun(r, e);
      RunKeepsInv(e);
      assert r.state.wins[k] == e.state.wins[k];
    }
  }

  // ---- what a launch proves ----

  lemma BindingOfValues(m: Manifest, rollout: string)
    ensures var f := BindingOf(m, rollout);
      && GetOr(f, "experiment_id") == Str(m.experimentId)
      && GetOr(f, "protocol_version") == Str(m.protocolVersion)
      && GetOr(f, "arm") == Str(m.arm)
      && GetOr(f, "rollout_id") == Str(rollout)
  {
    var d := Field("rollout_id", Str(rollout), NoField);
    var c := Field("arm", Str(m.arm), d);
    var b := Field("protocol_version", Str(m.protocolVersion), c);
    assert "rollout_id" != "arm" && "arm" != "protocol_version" && "rollout_id" != "protocol_version" by {
      assert "rollout_id"[0] == 'r' && "arm"[0] == 'a' && "protocol_version"[0] == 'p';
    }
    assert "experiment_id"[0] == 'e' && "rollout_id"[0] == 'r' && "arm"[0] == 'a' && "protocol_version"[0] == 'p';
    assert GetOr(d, "rollout_id") == Str(rollout);
    assert GetOr(c, "rollout_id") == Str(rollout) && GetOr(c, "arm") == Str(m.arm);
    assert GetOr(b, "rollout_id") == Str(rollout) && GetOr(b, "arm") == Str(m.arm);
    assert GetOr(b, "protocol_version") == Str(m.protocolVersion);
  }

  // Two bindings of one digest have the same identities.
  lemma SameDigestSameIdentities(f: Fields, g: Fields, m: Manifest, rollout: string, stage: string, operation: string, b: Fields)
    requires Normalized(f, CONF, CONF_RUN, BindingOf(m, rollout)) && Normalized(g, stage, operation, b)
    requires DigestOf(Obj(f)) == DigestOf(Obj(g))
    ensures stage == CONF && operation == CONF_RUN
    ensures GetOr(g, "experiment_id") == Str(m.experimentId) && GetOr(g, "protocol_version") == Str(m.protocolVersion)
    ensures GetOr(g, "arm") == Str(m.arm) && GetOr(g, "rollout_id") == Str(rollout)
  {
    BindingDigestIdentifies(f, g, CONF, CONF_RUN, stage, operation, BindingOf(m, rollout), b);
    BindingOfValues(m, rollout);
    forall k | k in {"experiment_id", "protocol_version", "arm", "rollout_id"}
      ensures GetOr(g, k) == GetOr(BindingOf(m, rollout), k)
    {
      assert GetOr(b, k) == GetOr(BindingOf(m, rollout), k);
      assert Has(b, k);
    }
  }

  // A production launch happens only for a record whose ledger entry was consumed at stage CONF-001 with
  // exactly the manifest's arm, experiment and protocol and the launch's rollout id.
  lemma LaunchIsCorroborated(r: Trace, k: nat)
    requires k < |r.state.spawns|
    ensures var x, files := r.state.spawns[k], r.state.files;
      && Grant(x.v.digest) in files && files[Grant(x.v.digest)].Doc?
      && var e := files[Grant(x.v.digest)].entry;
        && e.recordDigest == x.v.digest && e.stage == CONF && e.operation == CONF_RUN
        && GetOr(e.binding, "arm") == Str(x.manifest.arm)
        && GetOr(e.binding, "experiment_id") == Str(x.manifest.experimentId)
        && GetOr(e.binding, "protocol_version") == Str(x.manifest.protocolVersion)
        && GetOr(e.binding, "rollout_id") == Str(x.rollout)
  {
    RunKeepsInv(r);
    var x, files := r.state.spawns[k], r.state.files;
    assert SpawnOk(x, files);
    var e := files[Grant(x.v.digest)].entry;
    var b :| Normalized(e.binding, e.stage, e.operation, b);
    SameDigestSameIdentities(x.v.binding, e.binding, x.manifest, x.rollout, e.stage, e.operation, b);
  }

  // The grant of a launch: someone trusted has signed a record, in a document, that stands as a grant of
  // the confirmatory run and names the manifest's arm, experiment and protocol; it was verified in a
  // clean checkout of a revision that is the record's unless that is null; and its digest is the grant's.
  ghost predicate LaunchedBy(x: Spawn, doc: Json, w: World) {
    && SignedIn(x.v.record, doc, w) && Stands(x.v.record.fields) && x.v.digest == DigestOf(x.v.record) && !w.dirty
    && GetOr(x.v.record.fields, "arm") == Str(x.manifest.arm)
    && GetOr(x.v.record.fields, "experiment_id") == Str(x.manifest.experimentId)
    && GetOr(x.v.record.fields, "protocol_version") == Str(x.manifest.protocolVersion)
    && GetOr(x.v.record.fields, REVISION) in {Null, Str(w.revision)}
  }

  lemma VerifiedSpawn(x: Spawn, doc: Json, w: World)
    requires VerifiesAs(doc, CONF, CONF_RUN, BindingOf(x.manifest, x.rollout), w, x.v)
    ensures LaunchedBy(x, doc, w)
  {
    VerifiedRecordBinds(doc, BindingOf(x.manifest, x.rollout), w, x.v);
    BindingOfValues(x.manifest, x.rollout);
    forall name | name in {"experiment_id", "protocol_version", "arm"}
      ensures GetOr(x.v.record.fields, name) == GetOr(BindingOf(x.manifest, x.rollout), name)
    {
      assert Has(x.v.record.fields, name);
    }
  }

  // Every launch, in every run, is of a grant that someone trusted has signed.
  lemma LaunchIsSigned(r: Trace, k: nat)
    requires k < |r.state.spawns|
    ensures exists doc, w :: LaunchedBy(r.state.spawns[k], doc, w)
  {
    RunKeepsInv(r);
    var x := r.state.spawns[k];
    assert SpawnOk(x, r.state.files);
    var doc, w :| VerifiesAs(doc, CONF, CONF_RUN, BindingOf(x.manifest, x.rollout), w, x.v);
    VerifiedSpawn(x, doc, w);
  }

  // Two launches under one grant, however far apart in the run, agree on every identity - and on the
  // record itself.
  lemma LaunchesAgree(r: Trace, k: nat, l: nat)
    requires k < |r.state.spawns| && l < |r.state.spawns|
    requires r.state.spawns[k].v.digest == r.state.spawns[l].v.digest
    ensures r.state.spawns[k].manifest == r.state.spawns[l].manifest
    ensures r.state.spawns[k].rollout == r.state.spawns[l].rollout
    ensures Same(r.state.spawns[k].v.record, r.state.spawns[l].v.record)
  {
    LaunchIsCorroborated(r, k);
    LaunchIsCorroborated(r, l);
    RunKeepsInv(r);
    var x, y := r.state.spawns[k], r.state.spawns[l];
    assert SpawnOk(x, r.state.files) && SpawnOk(y, r.state.files);
    var doc, w :| VerifiesAs(doc, CONF, CONF_RUN, BindingOf(x.manifest, x.rollout), w, x.v);
    var doc', w' :| VerifiesAs(doc', CONF, CONF_RUN, BindingOf(y.manifest, y.rollout), w', y.v);
    VerifiedRecordBinds(doc, BindingOf(x.manifest, x.rollout), w, x.v);
    VerifiedRecordBinds(doc', BindingOf(y.manifest, y.rollout), w', y.v);
    CanonicalTextIdentifies(x.v.record, y.v.record, false);
  }

  lemma {:induction false} KnownFieldsKeep(f: Fields, k: string)
    requires IsBindingField(k)
    ensures GetOr(KnownFields(f), k) == GetOr(f, k)
  {
    if f.Field? {
      KnownFieldsKeep(f.rest, k);
    }
  }

  // A worker that gets past its checks has the arguments, stage and digests that its environment carries,
  // and holds a manifest and a rollout with the identities its grant was consumed for.
  lemma WorkerIsCorroborated(r: Trace, pid: Pid)
    requires pid in r.state.procs
    requires r.state.procs[pid].Passed? && r.state.procs[pid].job.WorkerJob?
    ensures var p, files := r.state.procs[pid], r.state.files;
      && Grant(p.v.digest) in files && files[Grant(p.v.digest)].Doc?
      && var e := files[Grant(p.v.digest)].entry;
        && e.stage == CONF && e.operation == CONF_RUN
        && GetOr(e.binding, "arm") == Str(p.job.manifest.arm)
        && GetOr(e.binding, "experiment_id") == Str(p.job.manifest.experimentId)
        && GetOr(e.binding, "protocol_version") == Str(p.job.manifest.protocolVersion)
        && (p.job.env.rollout != "" ==> GetOr(e.binding, "rollout_id") == Str(p.job.env.rollout))
    ensures Carries(r.state.procs[pid].job, r.state.procs[pid].v)
  {
    RunKeepsInv(r);
    var p, files := r.state.procs[pid], r.state.files;
    assert ProcOk(p, files);
    var doc, w :| Checks(p.job, doc, w, p.v);
    var e := files[Grant(p.v.digest)].entry;
    var b :| Normalized(e.binding, e.stage, e.operation, b);
    var mine := Supplied(p.job);
    BindingDigestIdentifies(p.v.binding, e.binding, CONF, CONF_RUN, e.stage, e.operation, mine, b);
    SuppliedStands(p.job, p.v, e.binding, e.stage, e.operation, b);
  }

  // The environment carries the stage and operation of the arguments, and the digests of what was verified.
  ghost predicate Carries(job: Job, v: Verified) {
    && job.env.recordDigest == Some(v.digest) && job.env.bindingDigest == Some(v.bindingDigest) && job.env.consumptionId != ""
    && job.stage == job.env.stage == "CONF-001" && job.operation == job.env.operation == "confirmatory_run"
  }

  lemma SuppliedStands(job: Job, v: Verified, f: Fields, stage: string, operation: string, b: Fields)
    requires job.WorkerJob? && WorkerAdmits(job)
    requires Normalized(v.binding, CONF, CONF_RUN, Supplied(job)) && Normalized(f, stage, operation, b)
    requires forall k :: GetOr(Supplied(job), k) == GetOr(b, k)
    ensures GetOr(f, "arm") == Str(job.manifest.arm) && GetOr(f, "experiment_id") == Str(job.manifest.experimentId)
    ensures GetOr(f, "protocol_version") == Str(job.manifest.protocolVersion)
    ensures job.env.rollout != "" ==> GetOr(f, "rollout_id") == Str(job.env.rollout)
  {
    var parent, mine := job.env.binding.value.fields, Supplied(job);
    forall k | k in {"arm", "experiment_id", "protocol_version", "rollout_id"} && GetOr(parent, k) != Null
      ensures GetOr(f, k) == GetOr(parent, k) && GetOr(parent, k) != Str("")
    {
      KnownFieldsKeep(parent, k);
      assert Has(mine, k) && Has(b, k);
    }
  }

  // ---- the scan is verify_consumption ----

  // The scan of a listing from start to end.
  function ScanAll(files: Files, todo: seq<Name>, id: string, found: Option<Entry>): Option<Option<Entry>>
    requires forall n :: n in todo ==> n in files
  {
    if todo == [] then Some(found)
    else
      match ScanStep(files[todo[0]], todo[0], id, found)
      case None => None
      case Some(next) => ScanAll(files, todo[1..], id, next)
  }

  ghost predicate Full(names: seq<Name>, files: Files) {
    (forall n :: n in names <==> n in files) && forall i, j :: 0 <= i < j < |names| ==> names[i] != names[j]
  }

  lemma {:induction false} ScanAllFinds(files: Files, todo: seq<Name>, id: string, found: Option<Entry>)
    requires forall n :: n in todo ==> n in files && JsonName(n) && files[n].Doc?
    requires forall i, j :: 0 <= i < j < |todo| ==> todo[i] != todo[j]
    requires found.Some? ==> found.value.id == id && forall n :: n in todo ==> files[n].entry.id != id
    requires forall m, n :: m in todo && n in todo && files[m].entry.id == id == files[n].entry.id ==> m == n
    ensures ScanAll(files, todo, id, found).Some?
    ensures var r := ScanAll(files, todo, id, found).value;
      if found.Some? then r == found
      else if exists n :: n in todo && files[n].entry.id == id
      then r.Some? && exists n :: n in todo && files[n] == Doc(r.value) && r.value.id == id
      else r == None
  {
    if todo != [] {
      var n := todo[0];
      assert n in todo && forall m :: m in todo <==> m == n || m in todo[1..];
      assert n !in todo[1..];
      ScanAllFinds(files, todo[1..], id, if files[n].entry.id == id then Some(files[n].entry) else found);
    }
  }

  // A scan that ends well has read entries only, and at most one of them with the id.
  lemma {:induction false} ScanAllReads(files: Files, todo: seq<Name>, id: string, found: Option<Entry>)
    requires forall n :: n in todo ==> n in files
    requires ScanAll(files, todo, id, found).Some?
    ensures forall n :: n in todo ==> JsonName(n) && files[n].Doc?
    ensures var r := ScanAll(files, todo, id, found).value;
      && (found.Some? ==> r == found && forall n :: n in todo ==> files[n].entry.id != id)
      && (found.None? && r.Some? ==> exists k :: 0 <= k < |todo| && OnlyAt(files, todo, id, r.value, k))
  {
    if todo != [] {
      var n := todo[0];
      assert n in todo && forall m :: m in todo <==> m == n || m in todo[1..];
      var next := if files[n].entry.id == id then Some(files[n].entry) else found;
      ScanAllReads(files, todo[1..], id, next);
      var r := ScanAll(files, todo, id, found).value;
      if found.None? && r.Some? {
        if next.Some? {
          assert OnlyAt(files, todo, id, r.value, 0);
        } else {
          var k :| 0 <= k < |todo[1..]| && OnlyAt(files, todo[1..], id, r.value, k);
          assert OnlyAt(files, todo, id, r.value, k + 1);
        }
      }
    }
  }

  // The entry at place k of the listing is e, and it alone has the id.
  ghost predicate OnlyAt(files: Files, todo: seq<Name>, id: string, e: Entry, k: int)
    requires forall n :: n in todo ==> n in files && files[n].Doc?
  {
    && 0 <= k < |todo| && files[todo[k]] == Doc(e) && e.id == id
    && forall i :: 0 <= i < |todo| && i != k ==> files[todo[i]].entry.id != id
  }

  // On an undisturbed ledger the scan of any full listing returns an entry exactly when
  // AuthorizationLedger.VerifyConsumption, looking for the same id, finds every file readable and that
  // entry alone with the id.
  lemma ScanIsVerifyConsumption(files: Files, todo: seq<Name>, id: string, e: Entry)
    requires Full(todo, files)
    ensures ScanAll(files, todo, id, None) == Some(Some(e)) <==> Healthy(files) && OneWithId(files, id, e)
  {
    if Healthy(files) && OneWithId(files, id, e) {
      ScanAllFinds(files, todo, id, None);
      var n :| n in files && files[n] == Doc(e);
      assert n in todo;
      var r := ScanAll(files, todo, id, None).value.value;
      var m :| m in todo && files[m] == Doc(r) && r.id == id;
      assert m == n;
    }
    if ScanAll(files, todo, id, None) == Some(Some(e)) {
      ScanAllReads(files, todo, id, None);
      var k :| 0 <= k < |todo| && OnlyAt(files, todo, id, e, k);
      assert todo[k] in files && files[todo[k]] == Doc(e);
    }
  }

  // ---- one process alone ----

  // Run r continues run e with steps of one process only.
  ghost predicate Alone(r: Run, e: Run, pid: Pid) {
    r == e || (r.Then? && r.pid == pid && Alone(r.before, e, pid))
  }

  // What VerifyConsumption accepts from this job, for a record verified as v.
  ghost predicate Receipt(files: Files, job: Job, v: Verified) {
    && job.env.consumptionId != "" && Healthy(files)
    && exists e :: OneWithId(files, job.env.consumptionId, e) && e.recordDigest == v.digest && e.bindingDigest == v.bindingDigest
  }

  // Some full listing, scanned so far, leaves todo and found.
  ghost predicate Midway(files: Files, id: string, todo: seq<Name>, found: Option<Entry>)
    requires forall n :: n in todo ==> n in files
  {
    exists names :: Full(names, files) && ScanAll(files, names, id, None) == ScanAll(files, todo, id, found)
  }

  // How far an adapter can have come from the state s0 in which it was about to check.
  ghost predicate AloneOk(s0: State, s: State, pid: Pid, job: Job)
    requires job.AdapterJob?
  {
    && s.files == s0.files && pid in s.procs
    && match s.procs[pid]
       case Checking(j) => j == job && s.spawns == s0.spawns
       case Listing(j, v, present) => j == job && JobVerified(job, v) && present == s.files.Keys && s.spawns == s0.spawns
       case Scanning(j, v, todo, found) =>
         && j == job && JobVerified(job, v) && s.spawns == s0.spawns
         && (forall n :: n in todo ==> n in s.files) && Midway(s.files, job.env.consumptionId, todo, found)
       case Passed(j, v) => j == job && JobVerified(job, v) && s.spawns == s0.spawns && Receipt(s.files, job, v)
       case Ended => s.spawns == s0.spawns || exists v :: JobVerified(job, v) && Receipt(s.files, job, v)
       case _ => false
  }

  lemma AloneStep(s0: State, s: State, t: State, pid: Pid, job: Job, step: Step)
    requires job.AdapterJob? && AloneOk(s0, s, pid, job) && Moves(s, t, pid, step)
    ensures AloneOk(s0, t, pid, job)
  {
    match step
    case Check(doc, w, v) => assert Checks(job, doc, w, v);
    case List(names) => assert Full(names, s.files);
    case ScanOne => MidwayStep(s.files, job.env.consumptionId, s.procs[pid].todo, s.procs[pid].found);
    case Accept =>
      var v := s.procs[pid].v;
      MidwayEnds(s.files, job, v, s.procs[pid].found.value);
    case _ =>
  }

  lemma MidwayStep(files: Files, id: string, todo: seq<Name>, found: Option<Entry>)
    requires (forall n :: n in todo ==> n in files) && todo != []
    requires Midway(files, id, todo, found) && ScanStep(files[todo[0]], todo[0], id, found).Some?
    ensures Midway(files, id, todo[1..], ScanStep(files[todo[0]], todo[0], id, found).value)
  {
    var names :| Full(names, files) && ScanAll(files, names, id, None) == ScanAll(files, todo, id, found);
    assert ScanAll(files, names, id, None) == ScanAll(files, todo[1..], id, ScanStep(files[todo[0]], todo[0], id, found).value);
  }

  lemma MidwayEnds(files: Files, job: Job, v: Verified, e: Entry)
    requires JobVerified(job, v) && job.AdapterJob? && Midway(files, job.env.consumptionId, [], Some(e))
    requires e.recordDigest == v.digest && e.bindingDigest == v.bindingDigest
    ensures Receipt(files, job, v)
  {
    var names :| Full(names, files) && ScanAll(files, names, job.env.consumptionId, None) == ScanAll(files, [], job.env.consumptionId, Some(e));
    ScanIsVerifyConsumption(files, names, job.env.consumptionId, e);
    var doc, w :| Checks(job, doc, w, v);
  }

  lemma {:induction false} AloneStaysOk(r: Trace, e: Run, pid: Pid, job: Job)
    requires Alone(r, e, pid) && job.AdapterJob? && AloneOk(e.state, e.state, pid, job)
    ensures AloneOk(e.state, r.state, pid, job)
  {
    if r != e {
      AloneStaysOk(r.before, e, pid, job);
      AloneStep(e.state, r.before.state, r.state, pid, job, r.step);
    }
  }

  // The run so far, and one more step.
  lemma Extend(r: Trace, pid: Pid, step: Step, t: State) returns (r': Trace)
    requires Moves(r.state, t, pid, step)
    ensures r'.state == t && r' == Then(r, pid, step, t)
  {
    r' := Then(r, pid, step, t);
  }

  lemma ExtendAlone(r: Trace, e: Run, pid: Pid, step: Step, t: State) returns (r': Trace)
    requires Alone(r, e, pid) && Moves(r.state, t, pid, step)
    ensures Alone(r', e, pid) && r'.state == t
  {
    r' := Then(r, pid, step, t);
  }

  lemma {:induction false} ScanOn(r: Trace, e: Run, pid: Pid, job: Job, v: Verified, todo: seq<Name>, found: Option<Entry>, hit: Entry)
    returns (r': Trace)
    requires Alone(r, e, pid) && pid in r.state.procs && r.state.procs[pid] == Scanning(job, v, todo, found)
    requires forall n :: n in todo ==> n in r.state.files
    requires ScanAll(r.state.files, todo, job.env.consumptionId, found) == Some(Some(hit))
    ensures Alone(r', e, pid)
    ensures r'.state == r.state.(procs := r.state.procs[pid := Scanning(job, v, [], Some(hit))])
    decreases |todo|
  {
    if todo == [] {
      r' := r;
      assert r.state.procs == r.state.procs[pid := Scanning(job, v, [], Some(hit))];
    } else {
      var next := ScanStep(r.state.files[todo[0]], todo[0], job.env.consumptionId, found).value;
      var mid := r.state.procs[pid := Scanning(job, v, todo[1..], next)];
      ScanMoves(r.state, pid, job, v, todo, found, next);
      r' := ExtendAlone(r, e, pid, ScanOne, r.state.(procs := mid));
      r' := ScanOn(r', e, pid, job, v, todo[1..], next, hit);
      assert mid[pid := Scanning(job, v, [], Some(hit))] == r.state.procs[pid := Scanning(job, v, [], Some(hit))];
    }
  }

  lemma ScanMoves(s: State, pid: Pid, job: Job, v: Verified, todo: seq<Name>, found: Option<Entry>, next: Option<Entry>)
    requires pid in s.procs && s.procs[pid] == Scanning(job, v, todo, found) && todo != [] && todo[0] in s.files
    requires ScanStep(s.files[todo[0]], todo[0], job.env.consumptionId, found) == Some(next)
    ensures Moves(s, s.(procs := s.procs[pid := Scanning(job, v, todo[1..], next)]), pid, ScanOne)
  {
  }

  // An adapter whose record has verified and whose receipt is good launches.
  lemma LaunchFrom(r: Trace, e: Run, pid: Pid, job: Job, v: Verified, names: seq<Name>) returns (r': Trace)
    requires Alone(r, e, pid) && job.AdapterJob?
    requires pid in r.state.procs && r.state.procs[pid] == Listing(job, v, r.state.files.Keys)
    requires Receipt(r.state.files, job, v) && Full(names, r.state.files)
    ensures Alone(r', e, pid) && r'.state.files == r.state.files && r'.state.wins == r.state.wins
    ensures r'.state.spawns == r.state.spawns + [Spawn(v, job.manifest, job.rollout)]
    ensures r'.state.procs.Keys == r.state.procs.Keys
  {
    var hit := ReceiptScans(r.state.files, job, v, names);
    var t := r.state.(procs := r.state.procs[pid := Scanning(job, v, names, None)]);
    ListMoves(r.state, t, pid, job, v, names);
    r' := ExtendAlone(r, e, pid, List(names), t);
    r' := ScanOn(r', e, pid, job, v, names, None, hit);
    r' := PassAndLaunch(r', e, pid, job, v, hit);
  }

  lemma ReceiptScans(files: Files, job: Job, v: Verified, names: seq<Name>) returns (hit: Entry)
    requires Receipt(files, job, v) && Full(names, files)
    ensures ScanAll(files, names, job.env.consumptionId, None) == Some(Some(hit))
    ensures hit.recordDigest == v.digest && hit.bindingDigest == v.bindingDigest
  {
    hit :| OneWithId(files, job.env.consumptionId, hit) && hit.recordDigest == v.digest && hit.bindingDigest == v.bindingDigest;
    ScanIsVerifyConsumption(files, names, job.env.consumptionId, hit);
  }

  lemma CheckFrom(r: Trace, pid: Pid, job: Job, v: Verified) returns (r': Trace)
    requires pid in r.state.procs && r.state.procs[pid] == Checking(job) && JobVerified(job, v)
    ensures Alone(r', r, pid)
    ensures r'.state == r.state.(procs := r.state.procs[pid := Listing(job, v, r.state.files.Keys)])
  {
    var doc, w :| Checks(job, doc, w, v);
    r' := Extend(r, pid, Check(doc, w, v), r.state.(procs := r.state.procs[pid := Listing(job, v, r.state.files.Keys)]));
  }

  lemma ListMoves(s: State, t: State, pid: Pid, job: Job, v: Verified, names: seq<Name>)
    requires pid in s.procs && s.procs[pid] == Listing(job, v, s.files.Keys) && Full(names, s.files)
    requires t.files == s.files && t.wins == s.wins && t.spawns == s.spawns
    requires t.procs == s.procs[pid := Scanning(job, v, names, None)]
    ensures Moves(s, t, pid, List(names))
  {
  }

  lemma PassAndLaunch(r: Trace, e: Run, pid: Pid, job: Job, v: Verified, hit: Entry) returns (r': Trace)
    requires Alone(r, e, pid) && job.AdapterJob?
    requires pid in r.state.procs && r.state.procs[pid] == Scanning(job, v, [], Some(hit))
    requires hit.recordDigest == v.digest && hit.bindingDigest == v.bindingDigest
    ensures Alone(r', e, pid) && r'.state.files == r.state.files && r'.state.wins == r.state.wins
    ensures r'.state.spawns == r.state.spawns + [Spawn(v, job.manifest, job.rollout)]
    ensures r'.state.procs.Keys == r.state.procs.Keys
  {
    r' := ExtendAlone(r, e, pid, Accept, r.state.(procs := r.state.procs[pid := Passed(job, v)]));
    r' := ExtendAlone(r', e, pid, Launch,
                 r'.state.(spawns := r'.state.spawns + [Spawn(v, job.manifest, job.rollout)], procs := r'.state.procs[pid := Ended]));
  }

  lemma {:induction false} SomeListing(all: set<Name>) returns (names: seq<Name>)
    ensures (forall n :: n in names <==> n in all) && forall i, j :: 0 <= i < j < |names| ==> names[i] != names[j]
  {
    if all == {} {
      names := [];
    } else {
      var n :| n in all;
      names := SomeListing(all - {n});
      names := names + [n];
    }
  }

  // However far a run has come and whatever it has launched: an adapter that is about to check can, left
  // alone, launch exactly when the signed record verifies for its manifest and rollout, with the digests
  // it was handed, and verify_consumption accepts the receipt. Nothing in it depends on earlier launches.
  lemma LaunchPossibleIff(r: Trace, pid: Pid, job: Job)
    requires pid in r.state.procs && r.state.procs[pid] == Checking(job) && job.AdapterJob?
    ensures LaunchPossible(r, pid) <==> Launchable(r.state.files, job)
  {
    if LaunchPossible(r, pid) {
      var r': Trace :| Alone(r', r, pid) && r'.state.spawns != r.state.spawns;
      AloneStaysOk(r', r, pid, job);
    }
    if Launchable(r.state.files, job) {
      LaunchableLaunches(r, pid, job);
    }
  }

  // That is: a document verifies for CONF-001 and confirmatory_run, with the arm, experiment and protocol
  // of the manifest and the rollout; the environment carries the two digests; and on a readable ledger
  // exactly one entry has the id, with both of them.
  lemma LaunchableIff(files: Files, job: Job)
    requires job.AdapterJob?
    ensures Launchable(files, job) <==>
      && job.stage == "CONF-001" && job.operation == "confirmatory_run" && job.env.consumptionId != "" && Healthy(files)
      && exists doc, w, v, e ::
           && VerifiesAs(doc, "CONF-001", "confirmatory_run", BindingOf(job.manifest, job.rollout), w, v)
           && job.env.recordDigest == Some(v.digest) && job.env.bindingDigest == Some(v.bindingDigest)
           && OneWithId(files, job.env.consumptionId, e) && e.recordDigest == v.digest && e.bindingDigest == v.bindingDigest
  {
    if Launchable(files, job) {
      var v :| JobVerified(job, v) && Receipt(files, job, v);
      var doc, w :| Checks(job, doc, w, v);
      var e :| OneWithId(files, job.env.consumptionId, e) && e.recordDigest == v.digest && e.bindingDigest == v.bindingDigest;
      assert VerifiesAs(doc, "CONF-001", "confirmatory_run", BindingOf(job.manifest, job.rollout), w, v);
    } else if job.stage == CONF && job.operation == CONF_RUN && job.env.consumptionId != "" && Healthy(files) {
      forall doc, w, v, e | VerifiesAs(doc, CONF, CONF_RUN, BindingOf(job.manifest, job.rollout), w, v)
          && job.env.recordDigest == Some(v.digest) && job.env.bindingDigest == Some(v.bindingDigest)
        ensures !(OneWithId(files, job.env.consumptionId, e) && e.recordDigest == v.digest && e.bindingDigest == v.bindingDigest)
      {
        assert Checks(job, doc, w, v) && JobVerified(job, v);
      }
    }
  }

  // Some continuation of the run by this process alone launches.
  ghost predicate LaunchPossible(r: Run, pid: Pid) {
    exists r': Trace :: Alone(r', r, pid) && r'.state.spawns != r.state.spawns
  }

  ghost predicate Launchable(files: Files, job: Job) {
    exists v :: JobVerified(job, v) && Receipt(files, job, v)
  }

  lemma LaunchableLaunches(r: Trace, pid: Pid, job: Job)
    requires pid in r.state.procs && r.state.procs[pid] == Checking(job) && job.AdapterJob?
    requires Launchable(r.state.files, job)
    ensures LaunchPossible(r, pid)
  {
    var v :| JobVerified(job, v) && Receipt(r.state.files, job, v);
    var names := SomeListing(r.state.files.Keys);
    assert Full(names, r.state.files);
    var r1 := CheckFrom(r, pid, job, v);
    var r' := LaunchFrom(r1, r, pid, job, v, names);
    assert |r'.state.spawns| == |r.state.spawns| + 1;
  }

  // In any run the receipt of a written grant is the id and the binding digest of its entry, while the
  // ledger is readable and no other entry has the id.
  lemma ReceiptIsOfTheEntry(r: Trace, job: Job, v: Verified)
    requires Healthy(r.state.files) && !TwoWithId(r.state.files, job.env.consumptionId)
    ensures Receipt(r.state.files, job, v) <==>
      var files, n := r.state.files, Grant(v.digest);
      && job.env.consumptionId != "" && n in files
      && files[n].entry.id == job.env.consumptionId && files[n].entry.bindingDigest == v.bindingDigest
  {
    RunKeepsInv(r);
    var files, n := r.state.files, Grant(v.digest);
    if n in files && files[n].entry.id == job.env.consumptionId {
      assert files[n] == Doc(files[n].entry) && OneWithId(files, job.env.consumptionId, files[n].entry);
    }
    if e :| OneWithId(files, job.env.consumptionId, e) && e.recordDigest == v.digest {
      var m :| m in files && files[m] == Doc(e);
      assert m == n;
    }
  }

  // ---- the protocol does let the honest execution through ----

  // Some document verifies for the request.
  ghost predicate RequestVerified(req: Request, v: Verified) {
    exists doc, w :: VerifiesAs(doc, req.stage, req.operation, BindingOf(req.manifest, req.rollout), w, v)
  }

  lemma HonestVerify(req: Request, v: Verified) returns (r: Trace)
    requires RequestVerified(req, v)
    ensures r.state == State(map[], map[0 := Opening(v)], [], [])
  {
    r := AskFirst(req);
    r := VerifyFirst(r, req, v);
  }

  lemma AskFirst(req: Request) returns (r: Trace)
    ensures r.state == State(map[], map[0 := Asked(req)], [], [])
  {
    r := Start(State(map[], map[], [], []));
    r := Extend(r, 0, Arrive(Asked(req)), State(map[], map[][0 := Asked(req)], [], []));
  }

  lemma VerifyFirst(r: Trace, req: Request, v: Verified) returns (r': Trace)
    requires r.state == State(map[], map[0 := Asked(req)], [], []) && RequestVerified(req, v)
    ensures r'.state == State(map[], map[0 := Opening(v)], [], [])
  {
    var doc, w :| VerifiesAs(doc, req.stage, req.operation, BindingOf(req.manifest, req.rollout), w, v);
    var t := State(map[], map[0 := Opening(v)], [], []);
    VerifyMoves(r.state, t, req, doc, w, v);
    r' := Extend(r, 0, VerifyGrant(doc, w, v), t);
  }

  lemma VerifyMoves(s: State, t: State, req: Request, doc: Json, w: World, v: Verified)
    requires s == State(map[], map[0 := Asked(req)], [], []) && t == State(map[], map[0 := Opening(v)], [], [])
    requires VerifiesAs(doc, req.stage, req.operation, BindingOf(req.manifest, req.rollout), w, v)
    ensures Moves(s, t, 0, VerifyGrant(doc, w, v))
  {
    assert s.procs[0 := Opening(v)] == t.procs;
  }

  function EntryOf(v: Verified, id: string): Entry {
    Entry(id, v.digest, v.bindingDigest, v.binding, v.stage, v.operation)
  }

  // A process that is about to create its grant's file and is left alone does what
  // AuthorizationLedger.Consume does: the same directory for every behaviour of the disk, and a win
  // exactly when consume returns its entry.
  lemma ConsumeInSteps(r: Trace, pid: Pid, v: Verified, id: string, disk: Disk) returns (r': Trace)
    requires pid in r.state.procs && r.state.procs[pid] == Opening(v)
    ensures Alone(r', r, pid) && r'.state.spawns == r.state.spawns && r'.state.procs.Keys == r.state.procs.Keys
    ensures r'.state.files == AfterConsume(r.state.files, EntryOf(v, id), disk).1
    ensures r'.state.wins == r.state.wins + (if AfterConsume(r.state.files, EntryOf(v, id), disk).0.Ok? then [Win(pid, v)] else [])
  {
    var n, s := Grant(v.digest), r.state;
    if disk == OpenFails || n in s.files {
      r' := r;
    } else {
      r' := ExtendAlone(r, r, pid, Create, s.(files := s.files[n := Torn], procs := s.procs[pid := Writing(v)]));
      if disk == SyncFails || disk == Works {
        var after := r'.state.files[n := Doc(EntryOf(v, id))];
        r' := ExtendAlone(r', r, pid, WriteOut(id), r'.state.(files := after, procs := r'.state.procs[pid := Wrote(v)]));
        assert after == s.files[n := Doc(EntryOf(v, id))];
      } else if disk == WritesShort {
        r' := ExtendAlone(r', r, pid, WriteShort, r'.state.(procs := r'.state.procs[pid := Wrote(v)]));
      }
      if disk == Works || disk == WritesShort {
        r' := ExtendAlone(r', r, pid, Return, r'.state.(wins := r'.state.wins + [Win(pid, v)], procs := r'.state.procs[pid := Consumed(v)]));
      }
    }
  }

  // What the parent hands to the adapter.
  function Handed(v: Verified, m: Manifest, rollout: string, id: string): Job {
    AdapterJob(CONF, CONF_RUN, m, Environ(CONF, CONF_RUN, Some(Obj(v.binding)), id, Some(v.digest), Some(v.bindingDigest), rollout), rollout)
  }

  lemma HandedChecks(doc: Json, w: World, v: Verified, m: Manifest, rollout: string, id: string)
    requires VerifiesAs(doc, CONF, CONF_RUN, BindingOf(m, rollout), w, v) && id != ""
    ensures JobVerified(Handed(v, m, rollout, id), v)
  {
    assert Checks(Handed(v, m, rollout, id), doc, w, v);
  }

  // The next adapter with what the parent handed out launches, on a ledger that holds the entry alone.
  lemma NextLaunch(r: Trace, pid: Pid, v: Verified, m: Manifest, rollout: string, id: string) returns (r': Trace)
    requires pid !in r.state.procs && id != ""
    requires JobVerified(Handed(v, m, rollout, id), v)
    requires r.state.files == map[Grant(v.digest) := Doc(EntryOf(v, id))]
    ensures r'.state.files == r.state.files && r'.state.wins == r.state.wins
    ensures r'.state.procs.Keys == r.state.procs.Keys + {pid}
    ensures r'.state.spawns == r.state.spawns + [Spawn(v, m, rollout)]
  {
    var job := Handed(v, m, rollout, id);
    r' := ArriveAndCheck(r, pid, job, v);
    MovedTwice(r.state.procs, pid, Checking(job), Listing(job, v, r.state.files.Keys));
    LoneEntry(r.state.files, v, id, job);
    r' := LaunchFrom(r', r', pid, job, v, [Grant(v.digest)]);
  }

  lemma ArriveAndCheck(r: Trace, pid: Pid, job: Job, v: Verified) returns (r': Trace)
    requires pid !in r.state.procs && JobVerified(job, v)
    ensures r'.state == r.state.(procs := r.state.procs[pid := Checking(job)][pid := Listing(job, v, r.state.files.Keys)])
  {
    r' := ArriveToCheck(r, pid, job);
    r' := CheckFrom(r', pid, job, v);
  }

  lemma MovedTwice(procs: map<Pid, Proc>, pid: Pid, p: Proc, q: Proc)
    ensures procs[pid := p][pid := q].Keys == procs.Keys + {pid} && procs[pid := p][pid := q][pid] == q
  {
  }

  lemma ArriveToCheck(r: Trace, pid: Pid, job: Job) returns (r': Trace)
    requires pid !in r.state.procs
    ensures r'.state == r.state.(procs := r.state.procs[pid := Checking(job)])
  {
    r' := Extend(r, pid, Arrive(Checking(job)), r.state.(procs := r.state.procs[pid := Checking(job)]));
  }

  lemma LoneEntry(files: Files, v: Verified, id: string, job: Job)
    requires files == map[Grant(v.digest) := Doc(EntryOf(v, id))] && job.env.consumptionId == id != ""
    ensures Receipt(files, job, v) && Full([Grant(v.digest)], files)
  {
    assert Grant(v.digest) in files && files[Grant(v.digest)] == Doc(EntryOf(v, id));
    assert OneWithId(files, id, EntryOf(v, id));
  }

  // A manifest and a rollout that make a request: none of its texts is empty.
  predicate Named(m: Manifest, rollout: string) {
    m.experimentId != "" && m.protocolVersion != "" && m.arm != "" && rollout != ""
  }

  lemma BindingFields(m: Manifest, rollout: string)
    ensures var f := BindingOf(m, rollout);
      && DistinctKeys(f) && FieldsAreRecords(f)
      && (forall k :: Has(f, k) <==> k in {"experiment_id", "protocol_version", "arm", "rollout_id"})
      && GetOr(f, "experiment_id") == Str(m.experimentId) && GetOr(f, "protocol_version") == Str(m.protocolVersion)
      && GetOr(f, "arm") == Str(m.arm) && GetOr(f, "rollout_id") == Str(rollout)
  {
    assert |"experiment_id"| == 13 && |"protocol_version"| == 16 && |"arm"| == 3 && |"rollout_id"| == 10;
    FourFields("experiment_id", Str(m.experimentId), "protocol_version", Str(m.protocolVersion), "arm", Str(m.arm),
               "rollout_id", Str(rollout), NoField);
  }

  lemma RequestOf(m: Manifest, rollout: string)
    ensures Requests(BindingOf(m, rollout), m.experimentId, m.protocolVersion, m.arm)
  {
    BindingFields(m, rollout);
    assert |"experiment_id"| == 13 && |"protocol_version"| == 16 && |"arm"| == 3 && |"rollout_id"| == 10;
    assert |REVISION| == 19 && |"protocol_digest"| == 15;
  }

  function FullBinding(m: Manifest, rollout: string): Fields {
    Field("stage", Str(CONF), Field("operation", Str(CONF_RUN), BindingOf(m, rollout)))
  }

  lemma FullBindingIsNormalized(m: Manifest, rollout: string)
    requires Named(m, rollout)
    ensures Normalized(FullBinding(m, rollout), CONF, CONF_RUN, BindingOf(m, rollout))
  {
    var f := FullBinding(m, rollout);
    BindingFields(m, rollout);
    RequestOf(m, rollout);
    NotBindingFields();
    assert |"stage"| == 5 && |"operation"| == 9;
    OneField(f);
    OneField(f.rest);
  }

  function VerifiedGrant(record: Fields, m: Manifest, rollout: string): Verified {
    Verified(Obj(record), DigestOf(Obj(record)), CONF, CONF_RUN, FullBinding(m, rollout), DigestOf(Obj(FullBinding(m, rollout))))
  }

  // A signed grant of a manifest's execution, pinned to the checkout or with a null revision, verifies in
  // every clean checkout that trusts its signature.
  lemma GrantVerifies(t: Terms, m: Manifest, rollout: string, revision: Json, signature: Fields, w: World)
    requires t.id != "" && Named(m, rollout) && IsRecord(Obj(signature)) && !w.dirty
    requires revision == Null || revision == Str(w.revision)
    requires w.trusted(GrantRecord(t, m.experimentId, m.protocolVersion, m.arm, revision), signature)
    ensures var record := GrantRecord(t, m.experimentId, m.protocolVersion, m.arm, revision);
      VerifiesAs(Signed(record, signature), CONF, CONF_RUN, BindingOf(m, rollout), w, VerifiedGrant(record, m, rollout))
  {
    var record := GrantRecord(t, m.experimentId, m.protocolVersion, m.arm, revision);
    RequestOf(m, rollout);
    GrantAuthorises(t, m.experimentId, m.protocolVersion, m.arm, revision, signature, BindingOf(m, rollout), w);
    FullBindingIsNormalized(m, rollout);
    SignedParts(record, signature);
  }

  // A grant is verified, consumed and launched.
  lemma HonestLaunch(doc: Json, w: World, v: Verified, m: Manifest, rollout: string, id: string) returns (r: Trace)
    requires VerifiesAs(doc, CONF, CONF_RUN, BindingOf(m, rollout), w, v) && id != ""
    ensures r.state.files == map[Grant(v.digest) := Doc(EntryOf(v, id))]
    ensures r.state.wins == [Win(0, v)] && r.state.spawns == [Spawn(v, m, rollout)] && r.state.procs.Keys == {0, 1}
  {
    assert RequestVerified(Request(CONF, CONF_RUN, m, rollout), v);
    r := HonestVerify(Request(CONF, CONF_RUN, m, rollout), v);
    HandedChecks(doc, w, v, m, rollout, id);
    r := ConsumeAndLaunch(r, v, m, rollout, id);
  }

  lemma ConsumeAndLaunch(start: Trace, v: Verified, m: Manifest, rollout: string, id: string) returns (r: Trace)
    requires start.state == State(map[], map[0 := Opening(v)], [], [])
    requires JobVerified(Handed(v, m, rollout, id), v) && id != ""
    ensures r.state.files == map[Grant(v.digest) := Doc(EntryOf(v, id))]
    ensures r.state.wins == [Win(0, v)] && r.state.spawns == [Spawn(v, m, rollout)] && r.state.procs.Keys == {0, 1}
  {
    r := ConsumeInSteps(start, 0, v, id, Works);
    assert r.state.wins == [Win(0, v)];
    r := NextLaunch(r, 1, v, m, rollout, id);
    assert r.state.spawns == [Spawn(v, m, rollout)];
  }

  // The documentation promises one execution per grant. The code does not enforce it: after one consume
  // two adapters with the same receipt both launch.
  lemma OneGrantTwoLaunches(doc: Json, w: World, v: Verified, m: Manifest, rollout: string, id: string) returns (r: Trace)
    requires VerifiesAs(doc, CONF, CONF_RUN, BindingOf(m, rollout), w, v) && id != ""
    ensures r.state.wins == [Win(0, v)] && r.state.spawns == [Spawn(v, m, rollout), Spawn(v, m, rollout)]
  {
    HandedChecks(doc, w, v, m, rollout, id);
    var r1 := HonestLaunch(doc, w, v, m, rollout, id);
    r := SecondLaunch(r1, v, m, rollout, id);
  }

  // Nothing is assumed here that cannot be: a grant with a null revision, say, of any execution, launched
  // twice after one consume.
  lemma TwoLaunchesHappen(t: Terms, m: Manifest, rollout: string, id: string) returns (r: Trace)
    requires t.id != "" && Named(m, rollout) && id != ""
    ensures var v := VerifiedGrant(GrantRecord(t, m.experimentId, m.protocolVersion, m.arm, Null), m, rollout);
      r.state.wins == [Win(0, v)] && r.state.spawns == [Spawn(v, m, rollout), Spawn(v, m, rollout)]
  {
    var w := World("", false, (record: Fields, signature: Fields) => true);
    var record := GrantRecord(t, m.experimentId, m.protocolVersion, m.arm, Null);
    GrantVerifies(t, m, rollout, Null, NoField, w);
    r := OneGrantTwoLaunches(Signed(record, NoField), w, VerifiedGrant(record, m, rollout), m, rollout, id);
  }

  lemma SecondLaunch(r1: Trace, v: Verified, m: Manifest, rollout: string, id: string) returns (r: Trace)
    requires r1.state.files == map[Grant(v.digest) := Doc(EntryOf(v, id))] && r1.state.procs.Keys == {0, 1}
    requires r1.state.spawns == [Spawn(v, m, rollout)] && JobVerified(Handed(v, m, rollout, id), v) && id != ""
    ensures r.state.wins == r1.state.wins && r.state.spawns == [Spawn(v, m, rollout), Spawn(v, m, rollout)]
  {
    r := NextLaunch(r1, 2, v, m, rollout, id);
    assert r.state.spawns == [Spawn(v, m, rollout)] + [Spawn(v, m, rollout)];
  }
}
