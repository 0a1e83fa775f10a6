// The first-edit endpoint: f2_endpoint.py, and the older detector of f1_infra.py.
module Endpoint {
  import opened PyText
  import opened StableSort

  // extra["step_id"] or extra["turn"]: missing, None, something int() reads, or something it refuses.
  datatype Raw = Absent | Null | Number(n: int) | NotANumber

  // An element of the trajectory: a tool call, or anything that is not a mapping. A missing text is "".
  datatype Item =
    | Call(function_: string, operation: string, path: string, filePath: string, stepId: Raw, turn: Raw)
    | NotAMapping

  datatype Spec = Spec(files: seq<string>, horizon: int)

  datatype Hit = Hit(step: int, operation: string, target: string, file: string, horizon: int)

  predicate IsQualifyingOperation(operation: string) {
    operation in ["write", "patch", "edit", "create"]
  }

  // ---- paths ----

  function Slashes(s: string): (r: string)
    ensures |r| == |s| && forall i :: 0 <= i < |s| ==> r[i] == if s[i] == '\\' then '/' else s[i]
  {
    seq(|s|, i requires 0 <= i < |s| => if s[i] == '\\' then '/' else s[i])
  }

  // str.lstrip("./")
  function WithoutLeadingDots(s: string): (r: string)
    ensures EndsWith(s, r) && (r == "" || (r[0] != '.' && r[0] != '/'))
    ensures forall i :: 0 <= i < |s| - |r| ==> s[i] == '.' || s[i] == '/'
  {
    if s != "" && (s[0] == '.' || s[0] == '/') then
      assert forall i :: 0 < i < |s| ==> s[i] == s[1..][i - 1];
      WithoutLeadingDots(s[1..])
    else s
  }

  // What follows the last '/', or the whole text.
  function LastSegment(s: string): (r: string)
    ensures EndsWith(s, r) && '/' !in r
    ensures |r| == |s| || s[|s| - |r| - 1] == '/'
  {
    if s == "" || s[|s| - 1] == '/' then ""
    else LastSegment(s[..|s| - 1]) + [s[|s| - 1]]
  }

  // PurePosixPath(s).name: the last segment that is neither empty nor "."
  function PathName(s: string): string {
    var last := LastSegment(s);
    if last != "" && last != "." then last
    else if |last| == |s| then ""
    else PathName(s[..|s| - |last| - 1])
  }

  // _matches. Equal names have equal suffixes, so the suffix comparison adds nothing.
  function Matches(target: string, file: string): bool {
    if target == "" then false
    else
      var t, r := Slashes(target), WithoutLeadingDots(Slashes(file));
      if t == r then true
      else if EndsWith(t, "/" + r) then true
      else if PathName(t) == PathName(r) then '/' !in r || EndsWith(t, r)
      else false
  }

  // A relevant file as _matches compares it.
  function Relative(file: string): string {
    WithoutLeadingDots(Slashes(file))
  }

  predicate ProperName(r: string) {
    LastSegment(r) != "" && LastSegment(r) != "."
  }

  ghost predicate AtBoundary(t: string, r: string) {
    t == r || EndsWith(t, "/" + r)
  }

  // For a file in a directory: a target matches exactly when it ends with it, at a segment boundary or
  // with the same name; a file that ends in a proper name leaves no more to ask.
  lemma MatchesNestedIff(target: string, file: string)
    requires '/' in Relative(file)
    ensures Matches(target, file) <==>
      var t, r := Slashes(target), Relative(file); EndsWith(t, r) && (AtBoundary(t, r) || PathName(t) == PathName(r))
    ensures ProperName(Relative(file)) ==> (Matches(target, file) <==> EndsWith(Slashes(target), Relative(file)))
  {
    var t, r := Slashes(target), Relative(file);
    EndAfterSlash(t, r);
    if ProperName(r) && EndsWith(t, r) {
      SameName(t, r);
    }
  }

  lemma EndAfterSlash(t: string, r: string)
    ensures AtBoundary(t, r) ==> EndsWith(t, r)
  {
    if EndsWith(t, "/" + r) {
      assert ("/" + r)[1..] == r;
      assert t[|t| - |r|..] == t[|t| - |r| - 1..][1..];
    }
  }

  lemma SameName(t: string, r: string)
    requires EndsWith(t, r) && '/' in r && ProperName(r)
    ensures PathName(t) == PathName(r)
  {
    LastSegmentOfEnd(t, r);
  }

  // An end that holds a '/' holds the whole last segment.
  lemma LastSegmentOfEnd(t: string, r: string)
    requires EndsWith(t, r) && '/' in r
    ensures LastSegment(t) == LastSegment(r)
  {
    assert forall i :: 0 <= i < |r| ==> r[i] == t[|t| - |r| + i];
  }

  // For a bare file name: exactly when it is the target's last segment, seen as a path.
  lemma MatchesBareIff(target: string, file: string)
    requires Relative(file) != "" && '/' !in Relative(file)
    ensures Matches(target, file) <==> PathName(Slashes(target)) == Relative(file)
  {
    var t, r := Slashes(target), Relative(file);
    WholeSegment(r);
    if EndsWith(t, "/" + r) {
      SegmentAfterSlash(t, r);
    }
  }

  lemma WholeSegment(r: string)
    requires r != "" && '/' !in r && r[0] != '.'
    ensures LastSegment(r) == r && PathName(r) == r
  {
  }

  lemma SegmentAfterSlash(t: string, r: string)
    requires r != "" && '/' !in r && r[0] != '.' && EndsWith(t, "/" + r)
    ensures LastSegment(t) == r && PathName(t) == r
  {
    var x := "/" + r;
    assert x[0] == '/';
    LastSegmentOfEnd(t, x);
    assert x[1..] == r && EndsWith(x, r);
  }

  // A file made of dots and slashes only matches every directory and every target without a name.
  lemma MatchesNamelessIff(target: string, file: string)
    requires Relative(file) == ""
    ensures Matches(target, file) <==> target != "" && (EndsWith(Slashes(target), "/") || PathName(Slashes(target)) == "")
  {
    assert "/" + "" == "/";
    assert LastSegment("") == "";
  }

  // The documentation promises a match only at a segment boundary. The code keeps that promise exactly
  // when the character before the file name is not part of a longer segment.
  lemma BoundaryMissedIff(target: string, file: string)
    requires '/' in Relative(file) && ProperName(Relative(file))
    ensures var t, r := Slashes(target), Relative(file);
      Matches(target, file) && !AtBoundary(t, r) <==> EndsWith(t, r) && |t| > |r| && t[|t| - |r| - 1] != '/'
  {
    MatchesNestedIff(target, file);
    var t, r := Slashes(target), Relative(file);
    if EndsWith(t, r) {
      BoundaryIff(t, r);
    }
  }

  lemma BoundaryIff(t: string, r: string)
    requires EndsWith(t, r)
    ensures AtBoundary(t, r) <==> |t| == |r| || t[|t| - |r| - 1] == '/'
  {
    var x := "/" + r;
    assert x[0] == '/' && x[1..] == r;
    if |t| > |r| {
      var k := |t| - |r| - 1;
      assert t[k..] == [t[k]] + r;
    }
  }

  // "mysrc/a.py" matches "src/a.py".
  lemma BoundaryMissed()
    ensures Matches("mysrc/a.py", "src/a.py") && !AtBoundary(Slashes("mysrc/a.py"), Relative("src/a.py"))
  {
    var t, r := "mysrc/a.py", "src/a.py";
    KeptAsIs(t);
    KeptAsIs(r);
    assert r[3] == '/' && t[2..] == r;
    NameOfNested(r);
    BoundaryMissedIff(t, r);
  }

  lemma KeptAsIs(r: string)
    requires '\\' !in r && r != "" && r[0] != '.' && r[0] != '/'
    ensures Slashes(r) == r && Relative(r) == r
  {
    assert Slashes(r) == r;
  }

  lemma NameOfNested(r: string)
    requires r != "" && r[|r| - 1] != '/' && r[|r| - 1] != '.'
    ensures ProperName(r)
  {
  }

  // What PurePosixPath names below the first segment of r, if anything.
  function NameBelow(r: string): string {
    if r == "" then "" else if r[0] == '/' then PathName(r[1..]) else NameBelow(r[1..])
  }

  // A relevant file matches its own path exactly when no dot is stripped from a name, or there is a name
  // below the segment from which it is stripped: the dot goes from the file and not from the target.
  lemma OwnPathIff(file: string)
    requires file != ""
    ensures var r := Relative(file); var k := |file| - |r|;
      Matches(file, file) <==>
        (k == 0 || Slashes(file)[k - 1] == '/' || (if r == "" then PathName(Slashes(file)) == "" else NameBelow(r) != ""))
  {
    var t, r := Slashes(file), Relative(file);
    var k := |file| - |r|;
    if r == "" {
      MatchesNamelessIff(file, file);
    } else if k > 0 {
      BoundaryIff(t, r);
      if t[k - 1] != '/' {
        assert t == t[..k] + r;
        OwnNameIff(t[..k], r);
      }
    }
  }

  // r follows a dot that belongs to its first segment: the two have one name exactly when it is below.
  lemma OwnNameIff(dots: string, r: string)
    requires dots != "" && dots[|dots| - 1] != '/' && r != "" && r[0] != '.' && r[0] != '/'
    ensures PathName(dots + r) == PathName(r) <==> NameBelow(r) != ""
  {
    if '/' in r {
      var g, x := FirstSegment(r);
      assert dots + r == (dots + g) + "/" + x;
      NameBelowFirst(g, x);
      NameOfEnd(dots + g, x);
      NameOfEnd(g, x);
      NamesDiffer(dots, g);
    } else {
      NameBelowFirst(r, "");
      NamesDiffer(dots, r);
    }
  }

  lemma NamesDiffer(dots: string, g: string)
    requires dots != "" && dots[|dots| - 1] != '/' && g != "" && '/' !in g && g[0] != '.'
    ensures PathName(dots + g) != PathName(g)
  {
    WholeSegment(g);
    LongerSegment(dots + g, g);
  }

  lemma {:induction false} FirstSegment(r: string) returns (g: string, x: string)
    requires '/' in r
    ensures r == g + "/" + x && '/' !in g && (r[0] != '/' ==> g != "" && g[0] == r[0])
  {
    if r[0] == '/' {
      g, x := "", r[1..];
    } else {
      assert r == [r[0]] + r[1..];
      g, x := FirstSegment(r[1..]);
      g := [r[0]] + g;
    }
  }

  lemma {:induction false} NameBelowFirst(g: string, x: string)
    requires '/' !in g
    ensures NameBelow(g) == "" && NameBelow(g + "/" + x) == PathName(x)
  {
    var r := g + "/" + x;
    if g == "" {
      assert r[1..] == x;
    } else {
      assert r[1..] == g[1..] + "/" + x;
      NameBelowFirst(g[1..], x);
    }
  }

  // The name of a path is that of its end, if the end has one.
  lemma {:induction false} NameOfEnd(p: string, x: string)
    ensures PathName(p + "/" + x) == if PathName(x) != "" then PathName(x) else PathName(p)
    decreases |x|
  {
    var g := LastSegment(x);
    if |g| == |x| {
      AddSegment(p, x);
    } else {
      var y := x[..|x| - |g| - 1];
      assert x == y + "/" + g;
      assert p + "/" + x == (p + "/" + y) + "/" + g;
      AddSegment(p + "/" + y, g);
      AddSegment(y, g);
      NameOfEnd(p, y);
    }
  }

  lemma AddSegment(p: string, g: string)
    requires '/' !in g
    ensures PathName(p + "/" + g) == if g != "" && g != "." then g else PathName(p)
  {
    var t := p + "/" + g;
    assert t[|p|] == '/' && t[..|p|] == p && t[|p| + 1..] == g;
    LastAfterSlash(p, g);
  }

  lemma {:induction false} LastAfterSlash(p: string, g: string)
    requires '/' !in g
    ensures LastSegment(p + "/" + g) == g
  {
    var t := p + "/" + g;
    if g != "" {
      var h := g[..|g| - 1];
      assert t[..|t| - 1] == p + "/" + h && g == h + [g[|g| - 1]];
      LastAfterSlash(p, h);
    }
  }

  lemma LongerSegment(t: string, r: string)
    requires EndsWith(t, r) && |t| > |r| && r != "" && '/' !in r && t[|t| - |r| - 1] != '/'
    ensures |LastSegment(t)| > |r| && PathName(t) == LastSegment(t)
  {
    assert forall i :: 0 <= i < |r| ==> r[i] == t[|t| - |r| + i];
  }

  // A frozen ".coveragerc" is met by edits of "coveragerc", and never by its own.
  lemma HiddenFileIsNotMatched(g: string, target: string)
    requires g != "" && g[0] != '.' && '/' !in g && '\\' !in g
    ensures Matches(target, "." + g) <==> PathName(Slashes(target)) == g
    ensures !Matches("." + g, "." + g)
  {
    var f := "." + g;
    assert Slashes(f) == f && f[1..] == g;
    assert WithoutLeadingDots(g) == g && Relative(f) == g;
    MatchesBareIff(target, f);
    MatchesBareIff(f, f);
    NamesDiffer(".", g);
  }

  // ---- the detector ----

  // _step
  function Step(c: Item): int {
    if c.NotAMapping? then 0
    else
      var raw := if c.stepId.Absent? || c.stepId.Null? then c.turn else c.stepId;
      if raw.Number? then raw.n else 0
  }

  // _normalize_target
  function Target(c: Item): string {
    if c.NotAMapping? then "" else Strip(Slashes(if c.path != "" then c.path else c.filePath))
  }

  function FirstMatch(target: string, files: seq<string>): Option<string> {
    if files == [] then None
    else if Matches(target, files[0]) then Some(files[0])
    else FirstMatch(target, files[1..])
  }

  // The first of the files, in their order, that the target matches.
  ghost predicate IsFirstMatch(target: string, files: seq<string>, file: string) {
    exists i :: 0 <= i < |files| && files[i] == file && Matches(target, file)
      && forall j :: 0 <= j < i ==> !Matches(target, files[j])
  }

  lemma {:induction false} FirstMatchIs(target: string, files: seq<string>)
    ensures FirstMatch(target, files).None? <==> forall f :: f in files ==> !Matches(target, f)
    ensures FirstMatch(target, files).Some? ==> IsFirstMatch(target, files, FirstMatch(target, files).value)
  {
    if files != [] {
      FirstMatchIs(target, files[1..]);
      if !Matches(target, files[0]) && FirstMatch(target, files[1..]).Some? {
        var file := FirstMatch(target, files[1..]).value;
        var i :| 0 <= i < |files[1..]| && files[1..][i] == file && forall j :: 0 <= j < i ==> !Matches(target, files[1..][j]);
        forall j | 0 <= j < i + 1 ensures !Matches(target, files[j]) {
          assert j > 0 ==> files[j] == files[1..][j - 1];
        }
        assert files[i + 1] == file;
      }
    }
  }

  // A call qualifies exactly when it edits, through the filesystem tool, a target that matches some file.
  lemma QualifiesIff(c: Item, files: seq<string>)
    ensures Qualifies(c, files) <==>
      && c.Call? && c.function_ == "filesystem"
      && (c.operation == "write" || c.operation == "patch" || c.operation == "edit" || c.operation == "create")
      && exists f :: f in files && Matches(Strip(Slashes(if c.path != "" then c.path else c.filePath)), f)
  {
    FirstMatchIs(Target(c), files);
  }

  // Its step: step_id, or turn where step_id is missing or None, and 0 where that is no number.
  lemma StepReads(c: Item)
    requires c.Call?
    ensures forall n :: c.stepId == Number(n) ==> Step(c) == n
    ensures forall n :: (c.stepId == Absent || c.stepId == Null) && c.turn == Number(n) ==> Step(c) == n
    ensures c.stepId == NotANumber || (!c.stepId.Number? && !c.turn.Number?) ==> Step(c) == 0
  {
  }

  predicate Qualifies(c: Item, files: seq<string>) {
    && c.Call?
    && c.function_ == "filesystem"
    && IsQualifyingOperation(c.operation)
    && FirstMatch(Target(c), files).Some?
  }

  function Mappings(items: seq<Item>): seq<Item> {
    if items == [] then [] else (if items[0].Call? then [items[0]] else []) + Mappings(items[1..])
  }

  // The scan of the sorted calls.
  function Scan(calls: seq<Item>, spec: Spec): Option<Hit> {
    if calls == [] then None
    else
      var c, rest := calls[0], calls[1..];
      if c.NotAMapping? || c.function_ != "filesystem" then Scan(rest, spec)
      else if !IsQualifyingOperation(c.operation) then Scan(rest, spec)
      else
        match FirstMatch(Target(c), spec.files)
        case None => Scan(rest, spec)
        case Some(file) =>
          if Step(c) > spec.horizon then None
          else Some(Hit(Step(c), c.operation, Target(c), file, spec.horizon))
  }

  function QualifyingFirstEdit(items: seq<Item>, spec: Spec): Option<Hit> {
    Scan(Sort(Mappings(items), Step), spec)
  }

  function HitOf(c: Item, spec: Spec): Hit
    requires Qualifies(c, spec.files)
  {
    Hit(Step(c), c.operation, Target(c), FirstMatch(Target(c), spec.files).value, spec.horizon)
  }

  function Within(c: Option<Item>, spec: Spec): Option<Hit>
    requires c.Some? ==> Qualifies(c.value, spec.files)
  {
    if c.Some? && Step(c.value) <= spec.horizon then Some(HitOf(c.value, spec)) else None
  }

  lemma {:induction false} ScanFinds(calls: seq<Item>, spec: Spec)
    ensures var c := Find(calls, c => Qualifies(c, spec.files));
      (c.Some? ==> Qualifies(c.value, spec.files)) && Scan(calls, spec) == Within(c, spec)
  {
    if calls != [] {
      ScanFinds(calls[1..], spec);
    }
  }

  lemma {:induction false} MappingsKeepEarliest(items: seq<Item>, files: seq<string>)
    ensures EarliestLeast(Mappings(items), Step, c => Qualifies(c, files)) == EarliestLeast(items, Step, c => Qualifies(c, files))
  {
    if items != [] {
      MappingsKeepEarliest(items[1..], files);
      if items[0].Call? {
        assert ([items[0]] + Mappings(items[1..]))[1..] == Mappings(items[1..]);
      } else {
        assert Mappings(items) == Mappings(items[1..]);
      }
    }
  }

  function Earliest(items: seq<Item>, spec: Spec): Option<Item> {
    EarliestLeast(items, Step, c => Qualifies(c, spec.files))
  }

  lemma DetectsEarliest(items: seq<Item>, spec: Spec)
    ensures var c := Earliest(items, spec);
      (c.Some? ==> Qualifies(c.value, spec.files)) && QualifyingFirstEdit(items, spec) == Within(c, spec)
  {
    var calls := Mappings(items);
    ScanFinds(Sort(calls, Step), spec);
    FindInSorted(calls, Step, c => Qualifies(c, spec.files));
    MappingsKeepEarliest(items, spec.files);
  }

  // The call at i is the earliest in the input among the qualifying calls of least step.
  ghost predicate IsFirstEdit(items: seq<Item>, spec: Spec, i: nat) {
    && i < |items| && Qualifies(items[i], spec.files)
    && (forall j :: 0 <= j < |items| && Qualifies(items[j], spec.files) ==> Step(items[i]) <= Step(items[j]))
    && (forall j :: 0 <= j < i && Qualifies(items[j], spec.files) ==> Step(items[i]) < Step(items[j]))
  }

  // The early exit at the horizon loses nothing: there is no endpoint exactly when no qualifying call
  // is within the horizon, and the endpoint reported is that of the first edit.
  lemma DetectorIsCorrect(items: seq<Item>, spec: Spec)
    ensures QualifyingFirstEdit(items, spec).None? <==>
      forall j :: 0 <= j < |items| && Qualifies(items[j], spec.files) ==> Step(items[j]) > spec.horizon
    ensures QualifyingFirstEdit(items, spec).Some? ==>
      exists i: nat :: IsFirstEdit(items, spec, i) && Step(items[i]) <= spec.horizon
        && QualifyingFirstEdit(items, spec) == Some(HitOf(items[i], spec))
  {
    DetectsEarliest(items, spec);
    var i := EarliestLeastAt(items, Step, c => Qualifies(c, spec.files));
    if Earliest(items, spec).Some? {
      assert IsFirstEdit(items, spec, i);
    }
  }

  // What is reported of it: its own step, operation and target, the first of the files that the target
  // matches, and the horizon.
  lemma HitReports(items: seq<Item>, spec: Spec) returns (i: nat)
    requires QualifyingFirstEdit(items, spec).Some?
    ensures IsFirstEdit(items, spec, i)
    ensures var hit, c := QualifyingFirstEdit(items, spec).value, items[i];
      && hit.step == Step(c) <= spec.horizon && hit.operation == c.operation && hit.horizon == spec.horizon
      && hit.target == Strip(Slashes(if c.path != "" then c.path else c.filePath))
      && IsFirstMatch(hit.target, spec.files, hit.file)
  {
    DetectorIsCorrect(items, spec);
    i :| IsFirstEdit(items, spec, i) && Step(items[i]) <= spec.horizon
      && QualifyingFirstEdit(items, spec) == Some(HitOf(items[i], spec));
    FirstMatchIs(Target(items[i]), spec.files);
  }

  function StepOf(hit: Option<Hit>): Option<int> {
    if hit.Some? then Some(hit.value.step) else None
  }

  // The order of the calls does not change the step.
  lemma OrderDoesNotMatter(a: seq<Item>, b: seq<Item>, spec: Spec)
    requires multiset(a) == multiset(b)
    ensures StepOf(QualifyingFirstEdit(a, spec)) == StepOf(QualifyingFirstEdit(b, spec))
  {
    StepAtMost(a, b, spec);
    StepAtMost(b, a, spec);
  }

  lemma StepAtMost(a: seq<Item>, b: seq<Item>, spec: Spec)
    requires multiset(a) == multiset(b)
    ensures var x, y := QualifyingFirstEdit(a, spec), QualifyingFirstEdit(b, spec);
      y.Some? ==> x.Some? && x.value.step <= y.value.step
  {
    DetectorIsCorrect(a, spec);
    DetectorIsCorrect(b, spec);
    if QualifyingFirstEdit(b, spec).Some? {
      var k: nat :| IsFirstEdit(b, spec, k) && Step(b[k]) <= spec.horizon
        && QualifyingFirstEdit(b, spec) == Some(HitOf(b[k], spec));
      assert b[k] in multiset(a);
      var j :| 0 <= j < |a| && a[j] == b[k];
    }
  }

  predicate Counts(c: Item, spec: Spec) {
    Qualifies(c, spec.files) && Step(c) <= spec.horizon
  }

  function Counting(items: seq<Item>, spec: Spec): seq<Item> {
    if items == [] then [] else (if Counts(items[0], spec) then [items[0]] else []) + Counting(items[1..], spec)
  }

  // Only qualifying calls within the horizon, in their order, have any influence on the result.
  lemma OnlyCountingCallsMatter(items: seq<Item>, spec: Spec)
    ensures QualifyingFirstEdit(items, spec) == QualifyingFirstEdit(Counting(items, spec), spec)
  {
    CountingKeepsEarliest(items, spec);
    DetectsEarliest(items, spec);
    DetectsEarliest(Counting(items, spec), spec);
  }

  lemma {:induction false} CountingKeepsEarliest(items: seq<Item>, spec: Spec)
    ensures var a, b := Earliest(items, spec), Earliest(Counting(items, spec), spec);
      && (a.Some? ==> Qualifies(a.value, spec.files)) && (b.Some? ==> Counts(b.value, spec))
      && (if a.Some? && Step(a.value) <= spec.horizon then a == b else b == None)
  {
    if items != [] {
      CountingKeepsEarliest(items[1..], spec);
      var rest := Counting(items[1..], spec);
      if Counts(items[0], spec) {
        assert ([items[0]] + rest)[1..] == rest;
      } else {
        assert Counting(items, spec) == rest;
      }
    }
  }

  lemma {:induction false} CountingAppend(a: seq<Item>, b: seq<Item>, spec: Spec)
    ensures Counting(a + b, spec) == Counting(a, spec) + Counting(b, spec)
  {
    if a == [] {
      assert a + b == b;
    } else {
      assert (a + b)[1..] == a[1..] + b;
      CountingAppend(a[1..], b, spec);
    }
  }

  // Calls that come later than the horizon change nothing.
  lemma LateCallsChangeNothing(items: seq<Item>, more: seq<Item>, spec: Spec)
    requires forall c :: c in more ==> !Counts(c, spec)
    ensures QualifyingFirstEdit(items + more, spec) == QualifyingFirstEdit(items, spec)
  {
    CountingAppend(items, more, spec);
    CountingNone(more, spec);
    OnlyCountingCallsMatter(items + more, spec);
    OnlyCountingCallsMatter(items, spec);
    assert Counting(items, spec) + [] == Counting(items, spec);
  }

  lemma {:induction false} CountingNone(items: seq<Item>, spec: Spec)
    requires forall c :: c in items ==> !Counts(c, spec)
    ensures Counting(items, spec) == []
  {
    if items != [] {
      assert items[0] in items;
      assert forall c :: c in items[1..] ==> c in items;
      CountingNone(items[1..], spec);
    }
  }

  // ---- the older detector (find_qualifying_first_edit) ----

  predicate WholeOrAbsent(raw: Raw) {
    raw.Number? || raw.Absent?
  }

  // Steps its sort can compare and its int() can read.
  predicate F1Readable(c: Item) {
    c.Call? ==> WholeOrAbsent(c.stepId) && WholeOrAbsent(c.turn)
  }

  ghost predicate AllReadable(items: seq<Item>) {
    forall c :: c in items ==> F1Readable(c)
  }

  function F1Key(c: Item): int {
    if c.NotAMapping? then 0
    else if c.stepId.Number? then c.stepId.n
    else if c.turn.Number? then c.turn.n
    else 0
  }

  // step_id, or turn where step_id is missing or 0.
  function F1Step(c: Item): Option<int>
    requires c.Call?
  {
    if c.stepId.Number? && c.stepId.n != 0 then Some(c.stepId.n)
    else if c.turn.Number? then Some(c.turn.n)
    else None
  }

  function F1Target(c: Item): string
    requires c.Call?
  {
    Slashes(if c.path != "" then c.path else c.filePath)
  }

  predicate F1Qualifies(c: Item, files: seq<string>) {
    && c.Call?
    && c.function_ == "filesystem"
    && IsQualifyingOperation(c.operation)
    && exists f :: f in files && EndsWith(F1Target(c), f)
  }

  function F1Scan(calls: seq<Item>, files: seq<string>, horizon: int): Option<int> {
    if calls == [] then None
    else if F1Qualifies(calls[0], files) && F1Step(calls[0]).Some? then
      if F1Step(calls[0]).value > horizon then None else F1Step(calls[0])
    else F1Scan(calls[1..], files, horizon)
  }

  function FindQualifyingFirstEdit(items: seq<Item>, files: seq<string>, horizon: int): Option<int>
    requires AllReadable(items)
  {
    F1Scan(Sort(Mappings(items), F1Key), files, horizon)
  }

  // Both detectors score this call alike, whatever the horizon.
  predicate SameScore(c: Item, files: seq<string>) {
    c.Call? ==>
      if Qualifies(c, files) then F1Qualifies(c, files) && F1Step(c) == Some(Step(c))
      else !(F1Qualifies(c, files) && F1Step(c).Some?)
  }

  ghost predicate Comparable(items: seq<Item>, files: seq<string>) {
    forall c :: c in items ==> F1Readable(c) && SameScore(c, files)
  }

  // The two detectors give the same step when they score every call alike.
  lemma DetectorsAgree(items: seq<Item>, spec: Spec)
    requires AllReadable(items) && Comparable(items, spec.files)
    ensures FindQualifyingFirstEdit(items, spec.files, spec.horizon) == StepOf(QualifyingFirstEdit(items, spec))
  {
    var calls := Mappings(items);
    MappingsMembers(items);
    SortMembers(calls, Step);
    SortSame(calls, Step, F1Key);
    ScansAgree(Sort(calls, Step), spec);
  }

  // And only then: a call they score differently, alone, is an input on which they differ.
  lemma SameScoreIsNeeded(c: Item, files: seq<string>)
    requires c.Call? && F1Readable(c)
    ensures AgreeOn(c, files) <==> SameScore(c, files)
  {
    var a := if F1Qualifies(c, files) then F1Step(c) else None;
    var b := if Qualifies(c, files) then Some(Step(c)) else None;
    if SameScore(c, files) {
      forall h ensures AgreeAt(c, files, h) {
        LoneCall(c, files, h);
      }
    } else {
      var h := if a.Some? && b.Some? then (if a.value < b.value then a.value else b.value) else if a.Some? then a.value else Step(c);
      LoneCall(c, files, h);
      assert !AgreeAt(c, files, h);
    }
  }

  ghost predicate AgreeOn(c: Item, files: seq<string>)
    requires F1Readable(c)
  {
    forall h :: AgreeAt(c, files, h)
  }

  predicate AgreeAt(c: Item, files: seq<string>, h: int)
    requires F1Readable(c)
  {
    FindQualifyingFirstEdit([c], files, h) == StepOf(QualifyingFirstEdit([c], Spec(files, h)))
  }

  lemma LoneCall(c: Item, files: seq<string>, h: int)
    requires c.Call? && F1Readable(c)
    ensures StepOf(QualifyingFirstEdit([c], Spec(files, h))) == if Qualifies(c, files) && Step(c) <= h then Some(Step(c)) else None
    ensures FindQualifyingFirstEdit([c], files, h) ==
      if F1Qualifies(c, files) && F1Step(c).Some? && F1Step(c).value <= h then F1Step(c) else None
  {
    assert [c][1..] == [] && [c] + [] == [c];
    assert Mappings([c]) == [c];
    SortOne(c, Step);
    SortOne(c, F1Key);
    ScanStep(c, [], Spec(files, h));
    F1ScanStep(c, [], Spec(files, h));
  }

  lemma SortOne<T>(x: T, key: T -> int)
    ensures Sort([x], key) == [x]
  {
    assert [x][1..] == [];
    assert Sort([x][1..], key) == [];
  }

  // A target with no surrounding white space.
  predicate CleanTarget(c: Item) {
    c.Call? ==> Strip(F1Target(c)) == F1Target(c)
  }

  // Files inside a directory, with a proper name, spelled without leading dots or backslashes.
  predicate NestedFiles(files: seq<string>) {
    forall f :: f in files ==> Relative(f) == f && '/' in f && ProperName(f)
  }

  // The step both read: a step_id that is not 0, or a turn where step_id is missing or both are 0.
  predicate StepsAlike(c: Item)
    requires c.Call?
  {
    (c.stepId.Number? && c.stepId.n != 0) || (c.turn.Number? && (c.stepId.Absent? || c.turn.n == 0))
  }

  lemma StepsAlikeIff(c: Item)
    requires c.Call? && F1Readable(c)
    ensures F1Step(c) == Some(Step(c)) <==> StepsAlike(c)
  {
  }

  // For such files and targets a call is scored alike exactly when it does not qualify or both read the
  // same step.
  lemma SameScoreIff(c: Item, files: seq<string>)
    requires c.Call? && F1Readable(c) && NestedFiles(files) && CleanTarget(c)
    ensures SameScore(c, files) <==> !Qualifies(c, files) || StepsAlike(c)
  {
    SameQualification(c, files);
    StepsAlikeIff(c);
  }

  // With step_id 0 the older detector reads the turn instead.
  lemma StepZeroDiffers(c: Item, files: seq<string>, h: int)
    requires c.Call? && c.stepId == Number(0) && c.turn == Number(5) && h >= 5
    requires Qualifies(c, files) && F1Qualifies(c, files)
    ensures FindQualifyingFirstEdit([c], files, h) == Some(5) && StepOf(QualifyingFirstEdit([c], Spec(files, h))) == Some(0)
  {
    LoneCall(c, files, h);
  }

  lemma SortMembers<T>(s: seq<T>, key: T -> int)
    ensures forall c :: c in Sort(s, key) <==> c in s
  {
    SortIsStable(s, key, 0);
    assert forall c :: c in Sort(s, key) <==> c in multiset(Sort(s, key));
  }

  lemma {:induction false} MappingsMembers(items: seq<Item>)
    ensures forall c :: c in Mappings(items) ==> c in items && c.Call?
  {
    if items != [] {
      MappingsMembers(items[1..]);
    }
  }

  lemma {:induction false} SortSame<T>(s: seq<T>, f: T -> int, g: T -> int)
    requires forall x :: x in s ==> f(x) == g(x)
    ensures Sort(s, f) == Sort(s, g)
  {
    if s != [] {
      SortSame(s[1..], f, g);
      var sorted := Sort(s[1..], f);
      SortIsStable(s[1..], f, 0);
      forall y | y in sorted ensures f(y) == g(y) {
        assert y in multiset(sorted);
        assert y in multiset(s[1..]);
      }
      InsertSame(s[0], Sort(s[1..], f), f, g);
    }
  }

  lemma {:induction false} InsertSame<T>(x: T, s: seq<T>, f: T -> int, g: T -> int)
    requires f(x) == g(x) && forall y :: y in s ==> f(y) == g(y)
    ensures Insert(x, s, f) == Insert(x, s, g)
  {
    if s != [] {
      assert s[0] in s;
      InsertSame(x, s[1..], f, g);
    }
  }

  lemma {:induction false} ScansAgree(calls: seq<Item>, spec: Spec)
    requires Comparable(calls, spec.files)
    requires forall c :: c in calls ==> c.Call?
    ensures F1Scan(calls, spec.files, spec.horizon) == StepOf(Scan(calls, spec))
  {
    if calls != [] {
      var c, rest := calls[0], calls[1..];
      assert c in calls;
      ScansAgree(rest, spec);
      ScanStep(c, rest, spec);
      F1ScanStep(c, rest, spec);
      assert calls == [c] + rest;
    }
  }

  lemma ScanStep(c: Item, rest: seq<Item>, spec: Spec)
    ensures StepOf(Scan([c] + rest, spec)) ==
      if !Qualifies(c, spec.files) then StepOf(Scan(rest, spec))
      else if Step(c) > spec.horizon then None else Some(Step(c))
  {
    assert ([c] + rest)[1..] == rest;
  }

  lemma F1ScanStep(c: Item, rest: seq<Item>, spec: Spec)
    requires c.Call?
    ensures F1Scan([c] + rest, spec.files, spec.horizon) ==
      if !(F1Qualifies(c, spec.files) && F1Step(c).Some?) then F1Scan(rest, spec.files, spec.horizon)
      else if F1Step(c).value > spec.horizon then None else F1Step(c)
  {
    assert ([c] + rest)[1..] == rest;
  }

  lemma SameQualification(c: Item, files: seq<string>)
    requires NestedFiles(files) && c.Call? && CleanTarget(c)
    ensures F1Qualifies(c, files) <==> Qualifies(c, files)
  {
    assert Target(c) == F1Target(c);
    FirstMatchIff(Target(c), files);
  }

  lemma {:induction false} FirstMatchIff(target: string, files: seq<string>)
    requires NestedFiles(files) && Slashes(target) == target
    ensures FirstMatch(target, files).Some? <==> exists f :: f in files && EndsWith(target, f)
  {
    if files != [] {
      assert files[0] in files;
      MatchesNestedIff(target, files[0]);
      FirstMatchIff(target, files[1..]);
      assert forall f :: f in files <==> f == files[0] || f in files[1..];
    }
  }
}
