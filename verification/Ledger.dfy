// The single-use consumption ledger (f2_authz_ledger.py): one file per grant, created if absent,
// never changed or removed.
module Ledger {
  import opened PyText
  import opened CanonicalJson

  // The consumption entry. The clock and process id of the source only feed `id`.
  datatype Entry = Entry(
    id: string,
    recordDigest: Digest,
    bindingDigest: Digest,
    binding: Fields,
    stage: string,
    operation: string)

  // What a reader finds in a file: text that does not parse (a creator crashed before or while
  // writing), JSON that is not an entry of this schema, or an entry.
  datatype Content = Torn | Foreign | Doc(entry: Entry)

  // <digest>.json, or any other name; `json` is whether its suffix is .json.
  datatype Name = Grant(key: Digest) | Stray(name: string, json: bool)

  type Files = map<Name, Content>

  datatype Refusal =
    | Unavailable | Corrupt | InvalidSchema | UnexpectedFile
    | AlreadyConsumed | ConsumedWithOtherBinding
    | MissingId | DuplicateId | NotFound | RecordMismatch | BindingMismatch
    | WriteError

  datatype Result<+T> = Ok(value: T) | Err(why: Refusal)

  // How the operating system treats one consume: the open, the write or the sync may raise, and a write
  // may stop short without raising.
  datatype Disk = Works | OpenFails | WriteFails | SyncFails | WritesShort

  predicate JsonName(n: Name) {
    n.Grant? || n.json
  }

  // Every file is a readable entry.
  ghost predicate Healthy(files: Files) {
    forall n :: n in files ==> JsonName(n) && files[n].Doc?
  }

  // Entries of two different files carry this id.
  ghost predicate TwoWithId(files: Files, id: string) {
    exists m, n :: m in files && n in files && m != n
                   && files[m].Doc? && files[n].Doc? && files[m].entry.id == id == files[n].entry.id
  }

  ghost predicate OneWithId(files: Files, id: string, e: Entry) {
    && (exists n :: n in files && files[n] == Doc(e))
    && e.id == id && !TwoWithId(files, id)
  }

  // The refusal a consume reports when the grant's file is already there.
  function PriorRefusal(c: Content, bindingDigest: Digest): Refusal {
    match c
    case Torn => Corrupt
    case Foreign => InvalidSchema
    case Doc(e) => if e.bindingDigest == bindingDigest then AlreadyConsumed else ConsumedWithOtherBinding
  }

  // What consume returns, and the directory it leaves. Only an error of the open is turned into a
  // refusal of the ledger; one of the write or the sync passes through. A write that stops short is not
  // noticed: the entry is returned although the file is torn.
  function AfterConsume(files: Files, e: Entry, disk: Disk): (Result<Entry>, Files) {
    var n := Grant(e.recordDigest);
    if disk == OpenFails then (Err(Unavailable), files)
    else if n in files then (Err(PriorRefusal(files[n], e.bindingDigest)), files)
    else
      match disk
      case WriteFails => (Err(WriteError), files[n := Torn])
      case SyncFails => (Err(WriteError), files[n := Doc(e)])
      case WritesShort => (Ok(e), files[n := Torn])
      case _ => (Ok(e), files[n := Doc(e)])
  }

  // What _entries returns for these files: each file once, with its entry.
  ghost predicate Lists(s: seq<(Name, Entry)>, files: Files) {
    && (forall i :: 0 <= i < |s| ==> s[i].0 in files && files[s[i].0] == Doc(s[i].1))
    && (forall i, j :: 0 <= i < j < |s| ==> s[i].0 != s[j].0)
    && (forall n :: n in files ==> exists i :: 0 <= i < |s| && s[i].0 == n)
  }

  // The search loop of verify_consumption.
  method EntryWithId(s: seq<(Name, Entry)>, ghost files: Files, id: string) returns (r: Result<Entry>)
    requires Lists(s, files)
    ensures r.Ok? ==> OneWithId(files, id, r.value)
    ensures r.Err? ==> r.why in {DuplicateId, NotFound}
    ensures r == Err(DuplicateId) <==> TwoWithId(files, id)
    ensures r == Err(NotFound) <==> forall n, e :: n in files && files[n] == Doc(e) ==> e.id != id
  {
    var match': Option<Entry> := None;
    ghost var at := 0;
    for i := 0 to |s|
      invariant match'.None? ==> forall k :: 0 <= k < i ==> s[k].1.id != id
      invariant match'.Some? ==> 0 <= at < i && s[at].1 == match'.value && match'.value.id == id
      invariant match'.Some? ==> forall k :: 0 <= k < i && s[k].1.id == id ==> k == at
    {
      if s[i].1.id == id {
        if match'.Some? {
          assert files[s[at].0] == Doc(s[at].1) && files[s[i].0] == Doc(s[i].1) && s[at].0 != s[i].0;
          return Err(DuplicateId);
        }
        match', at := Some(s[i].1), i;
      }
    }
    if match'.None? {
      return Err(NotFound);
    }
    assert files[s[at].0] == Doc(match'.value);
    r := Ok(match'.value);
  }

  class AuthorizationLedger {
    // The ledger directory; a directory that does not exist yet has no files.
    var files: Files

    constructor ()
      ensures files == map[]
    {
      files := map[];
    }

    // os.open with O_CREAT | O_EXCL
    method CreateExclusive(name: Name) returns (created: bool)
      modifies this
      ensures created <==> name !in old(files)
      ensures files == if created then old(files)[name := Torn] else old(files)
    {
      created := name !in files;
      if created {
        files := files[name := Torn];
      }
    }

    // os.write and os.fsync on the descriptor the create returned; false is an OSError
    method WriteEntry(name: Name, e: Entry, disk: Disk) returns (done: bool)
      requires name in files && files[name] == Torn
      modifies this
      ensures done <==> disk != WriteFails && disk != SyncFails
      ensures files == if disk == WriteFails || disk == WritesShort then old(files) else old(files)[name := Doc(e)]
    {
      if disk == WriteFails {
        return false;
      }
      if disk != WritesShort {
        files := files[name := Doc(e)];
      }
      done := disk != SyncFails;
    }

    // Succeeds only on a grant whose file does not exist.
    method Consume(id: string, recordDigest: Digest, binding: Fields, bindingDigest: Digest, stage: string, operation: string, disk: Disk)
      returns (r: Result<Entry>)
      modifies this
      ensures var after := AfterConsume(old(files), Entry(id, recordDigest, bindingDigest, binding, stage, operation), disk);
        r == after.0 && files == after.1
      ensures r.Ok? ==> Grant(recordDigest) !in old(files)
      ensures Grant(recordDigest) in old(files) ==> files == old(files) && r.Err?
      ensures var prior := if Grant(recordDigest) in old(files) then old(files)[Grant(recordDigest)] else Torn;
        Grant(recordDigest) in old(files) && disk != OpenFails ==>
          && (r.why == Corrupt <==> prior == Torn) && (r.why == InvalidSchema <==> prior == Foreign)
          && (r.why == AlreadyConsumed <==> prior.Doc? && prior.entry.bindingDigest == bindingDigest)
          && (r.why == ConsumedWithOtherBinding <==> prior.Doc? && prior.entry.bindingDigest != bindingDigest)
      ensures r.Ok? && disk == Works ==> files == old(files)[Grant(recordDigest) := Doc(r.value)]
    {
      var name := Grant(recordDigest);
      var entry := Entry(id, recordDigest, bindingDigest, binding, stage, operation);
      if disk == OpenFails {
        return Err(Unavailable);
      }
      var created := CreateExclusive(name);
      if !created {
        return Err(PriorRefusal(files[name], bindingDigest));
      }
      var done := WriteEntry(name, entry, disk);
      if !done {
        return Err(WriteError);
      }
      r := Ok(entry);
    }

    // _entries: the files read, each with its entry, in whatever order the directory lists them
    method Entries() returns (r: Result<seq<(Name, Entry)>>)
      ensures r.Ok? <==> Healthy(files)
      ensures r.Err? ==> r.why in {UnexpectedFile, Corrupt, InvalidSchema}
      ensures r == Err(UnexpectedFile) ==> exists n :: n in files && n.Stray? && !n.json
      ensures r == Err(Corrupt) ==> exists n :: n in files && files[n] == Torn
      ensures r == Err(InvalidSchema) ==> exists n :: n in files && files[n] == Foreign
      ensures r.Ok? ==> Lists(r.value, files) && forall n :: n in files ==> n.Grant? || n.json
    {
      var out: seq<(Name, Entry)> := [];
      var left := files.Keys;
      while left != {}
        invariant left <= files.Keys
        invariant forall n :: n in files && n !in left ==> JsonName(n) && files[n].Doc?
        invariant forall i :: 0 <= i < |out| ==> out[i].0 in files && out[i].0 !in left && files[out[i].0] == Doc(out[i].1)
        invariant forall i, j :: 0 <= i < j < |out| ==> out[i].0 != out[j].0
        invariant forall n :: n in files && n !in left ==> exists i :: 0 <= i < |out| && out[i].0 == n
        decreases left
      {
        var n :| n in left;
        if !JsonName(n) {
          return Err(UnexpectedFile);
        }
        if files[n] == Torn {
          return Err(Corrupt);
        }
        if files[n] == Foreign {
          return Err(InvalidSchema);
        }
        ghost var before := out;
        out := out + [(n, files[n].entry)];
        assert out[|before|].0 == n && forall i :: 0 <= i < |before| ==> out[i] == before[i];
        left := left - {n};
      }
      r := Ok(out);
    }

    // find: the entry of this grant, when its file exists and the whole ledger is readable
    method Find(recordDigest: Digest) returns (r: Result<Option<Entry>>)
      ensures Grant(recordDigest) !in files ==> r == Ok(None)
      ensures Grant(recordDigest) in files ==> (r.Ok? <==> Healthy(files))
      ensures Grant(recordDigest) in files && r.Ok? && r.value.Some? ==>
        r.value.value.recordDigest == recordDigest && exists n :: n in files && files[n] == Doc(r.value.value)
      ensures Grant(recordDigest) in files && r == Ok(None) ==>
        forall n, e :: n in files && files[n] == Doc(e) ==> e.recordDigest != recordDigest
    {
      if Grant(recordDigest) !in files {
        return Ok(None);
      }
      var all := Entries();
      if all.Err? {
        return Err(all.why);
      }
      for i := 0 to |all.value|
        invariant forall k :: 0 <= k < i ==> all.value[k].1.recordDigest != recordDigest
      {
        if all.value[i].1.recordDigest == recordDigest {
          return Ok(Some(all.value[i].1));
        }
      }
      r := Ok(None);
    }

    // verify_consumption: reads only. It returns the one entry with this id, when that entry was
    // written for this record and this binding.
    method VerifyConsumption(id: string, recordDigest: Digest, bindingDigest: Digest) returns (r: Result<Entry>)
      ensures forall e :: r == Ok(e) <==>
        id != "" && Healthy(files) && OneWithId(files, id, e) && e.recordDigest == recordDigest && e.bindingDigest == bindingDigest
      ensures id == "" <==> r == Err(MissingId)
      ensures r == Err(DuplicateId) <==> id != "" && Healthy(files) && TwoWithId(files, id)
      ensures r == Err(NotFound) <==> id != "" && Healthy(files) && forall n, e :: n in files && files[n] == Doc(e) ==> e.id != id
      ensures r == Err(RecordMismatch) <==>
        id != "" && Healthy(files) && exists e :: OneWithId(files, id, e) && e.recordDigest != recordDigest
      ensures r == Err(BindingMismatch) <==>
        id != "" && Healthy(files) && exists e :: OneWithId(files, id, e) && e.recordDigest == recordDigest && e.bindingDigest != bindingDigest
    {
      if id == "" {
        return Err(MissingId);
      }
      var all := Entries();
      if all.Err? {
        return Err(all.why);
      }
      var hit := EntryWithId(all.value, files, id);
      if hit.Err? {
        return Err(hit.why);
      }
      forall e | OneWithId(files, id, e)
        ensures e == hit.value
      {
      }
      if hit.value.recordDigest != recordDigest {
        return Err(RecordMismatch);
      }
      if hit.value.bindingDigest != bindingDigest {
        return Err(BindingMismatch);
      }
      r := Ok(hit.value);
    }
  }
}
