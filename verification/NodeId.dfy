// pytest node ids and the identity under which JUnit evidence reports them (nodeid_to_junit_identity in
// f2_evaluator.py).
module NodeId {
  import opened PyText

  datatype Identity = Identity(classname: string, name: string)

  // s.split("::")
  function Split(s: string): (parts: seq<string>)
    ensures parts != []
  {
    if |s| < 2 then [s]
    else if s[0] == ':' && s[1] == ':' then [""] + Split(s[2..])
    else
      var parts := Split(s[1..]);
      [[s[0]] + parts[0]] + parts[1..]
  }

  function Dotted(path: string): (r: string)
    ensures |r| == |path| && forall i :: 0 <= i < |path| ==> r[i] == if path[i] == '/' || path[i] == '\\' then '.' else path[i]
  {
    seq(|path|, i requires 0 <= i < |path| => if path[i] == '/' || path[i] == '\\' then '.' else path[i])
  }

  // A path without its ".py".
  function Stem(path: string): string {
    if EndsWith(path, ".py") then path[..|path| - 3] else path
  }

  function Module(path: string): string {
    Dotted(Stem(path))
  }

  // sep.join(parts)
  function Join(sep: string, parts: seq<string>): string {
    if parts == [] then "" else if |parts| == 1 then parts[0] else parts[0] + sep + Join(sep, parts[1..])
  }

  function Parts(nodeId: string): seq<string> {
    Split(Strip(nodeId))
  }

  // The identity of a path, classes and a name.
  function IdentityOfParts(parts: seq<string>): Option<Identity> {
    if |parts| < 2 || parts[0] == "" || "" in parts[1..] || Module(parts[0]) == "" then None
    else Some(Identity(Join(".", [Module(parts[0])] + parts[1..|parts| - 1]), parts[|parts| - 1]))
  }

  // nodeid_to_junit_identity
  function IdentityOf(nodeId: string): Option<Identity> {
    IdentityOfParts(Parts(nodeId))
  }

  // ---- splitting and joining ----

  ghost predicate NoSeparator(s: string) {
    forall i :: 0 < i < |s| ==> !(s[i - 1] == ':' && s[i] == ':')
  }

  // A part that may be followed by "::".
  ghost predicate Inner(s: string) {
    NoSeparator(s) && (s == "" || s[|s| - 1] != ':')
  }

  ghost predicate WellParted(parts: seq<string>) {
    parts != [] && NoSeparator(parts[|parts| - 1]) && forall i :: 0 <= i < |parts| - 1 ==> Inner(parts[i])
  }

  lemma {:induction false} SplitLast(s: string)
    requires NoSeparator(s)
    ensures Split(s) == [s]
  {
    if |s| >= 2 {
      assert !(s[0] == ':' && s[1] == ':');
      assert s == [s[0]] + s[1..];
      SplitLast(s[1..]);
    }
  }

  lemma {:induction false} SplitHead(s: string, rest: string)
    requires Inner(s)
    ensures Split(s + "::" + rest) == [s] + Split(rest)
  {
    var t := s + "::" + rest;
    if s == "" {
      assert t[0] == ':' && t[1] == ':' && t[2..] == rest;
    } else {
      assert t[1..] == s[1..] + "::" + rest;
      assert s == [s[0]] + s[1..];
      assert !(t[0] == ':' && t[1] == ':');
      SplitHead(s[1..], rest);
    }
  }

  // Splitting undoes joining,
  lemma {:induction false} SplitJoin(parts: seq<string>)
    requires WellParted(parts)
    ensures Split(Join("::", parts)) == parts
  {
    if |parts| == 1 {
      SplitLast(parts[0]);
    } else {
      SplitHead(parts[0], Join("::", parts[1..]));
      SplitJoin(parts[1..]);
    }
  }

  // and joining undoes splitting, for every text.
  lemma {:induction false} JoinSplit(s: string)
    ensures Join("::", Split(s)) == s
  {
    if |s| >= 2 {
      if s[0] == ':' && s[1] == ':' {
        JoinSplit(s[2..]);
        var parts := Split(s[2..]);
        assert ([""] + parts)[1..] == parts;
      } else {
        JoinSplit(s[1..]);
        JoinHead(s[0], Split(s[1..]));
      }
    }
  }

  lemma JoinHead(c: char, parts: seq<string>)
    requires parts != []
    ensures Join("::", [[c] + parts[0]] + parts[1..]) == [c] + Join("::", parts)
  {
    var all := [[c] + parts[0]] + parts[1..];
    assert all[1..] == parts[1..];
  }

  // The identity of a node id spelled as pytest spells it: path, classes and name come out as classname
  // and name. A single colon inside a part does no harm.
  lemma IdentityOfNodeId(path: string, classes: seq<string>, name: string)
    requires WellParted([path] + classes + [name])
    requires path != "" && Module(path) != "" && name != "" && "" !in classes
    requires var id := Join("::", [path] + classes + [name]); Strip(id) == id
    ensures IdentityOf(Join("::", [path] + classes + [name])) == Some(Identity(Join(".", [Module(path)] + classes), name))
  {
    var parts := [path] + classes + [name];
    SplitJoin(parts);
    IdentityOfWhole(path, classes, name);
  }

  // A node id is refused exactly when it has no "::", an empty part, or ".py" for its file.
  lemma RefusedIff(nodeId: string)
    ensures IdentityOf(nodeId).None? <==> var parts := Parts(nodeId); |parts| == 1 || "" in parts || parts[0] == ".py"
  {
    var parts := Parts(nodeId);
    assert parts == [parts[0]] + parts[1..];
    assert "" in parts <==> parts[0] == "" || "" in parts[1..];
    assert Module(parts[0]) == "" <==> parts[0] == "" || parts[0] == ".py" by {
      assert |Stem(parts[0])| == |Module(parts[0])|;
      if EndsWith(parts[0], ".py") && |parts[0]| == 3 {
        assert parts[0] == parts[0][0..];
      }
    }
  }

  // ---- when two ids share an identity ----

  // s.split(sep) for one character
  function SplitOn(s: string, sep: char): (parts: seq<string>)
    ensures parts != []
  {
    if s == "" then [""]
    else
      var parts := SplitOn(s[1..], sep);
      if s[0] == sep then [""] + parts else [[s[0]] + parts[0]] + parts[1..]
  }

  ghost predicate Without(parts: seq<string>, c: char) {
    forall i :: 0 <= i < |parts| ==> c !in parts[i]
  }

  lemma {:induction false} SplitOnHead(s: string, rest: string, sep: char)
    requires sep !in s
    ensures SplitOn(s, sep) == [s] && SplitOn(s + [sep] + rest, sep) == [s] + SplitOn(rest, sep)
  {
    var t := s + [sep] + rest;
    if s == "" {
      assert t[1..] == rest;
    } else {
      assert t[1..] == s[1..] + [sep] + rest && s == [s[0]] + s[1..];
      SplitOnHead(s[1..], rest, sep);
    }
  }

  lemma {:induction false} SplitOnJoin(parts: seq<string>)
    requires parts != [] && Without(parts, '.')
    ensures SplitOn(Join(".", parts), '.') == parts
  {
    if |parts| == 1 {
      SplitOnHead(parts[0], "", '.');
    } else {
      SplitOnHead(parts[0], Join(".", parts[1..]), '.');
      assert parts[0] + "." + Join(".", parts[1..]) == parts[0] + ['.'] + Join(".", parts[1..]);
      SplitOnJoin(parts[1..]);
    }
  }

  lemma {:induction false} SplitOnWithout(s: string, sep: char)
    ensures Without(SplitOn(s, sep), sep)
  {
    if s != "" {
      SplitOnWithout(s[1..], sep);
    }
  }

  lemma {:induction false} JoinOn(s: string, sep: char)
    ensures Join([sep], SplitOn(s, sep)) == s
  {
    if s != "" {
      JoinOn(s[1..], sep);
      var parts := SplitOn(s[1..], sep);
      if s[0] == sep {
        assert ([""] + parts)[1..] == parts;
      } else {
        var all := [[s[0]] + parts[0]] + parts[1..];
        assert all[1..] == parts[1..];
      }
    }
  }

  lemma {:induction false} JoinCat(a: seq<string>, b: seq<string>)
    requires a != [] && b != []
    ensures Join(".", a + b) == Join(".", a) + "." + Join(".", b)
  {
    assert (a + b)[1..] == a[1..] + b;
    if |a| > 1 {
      JoinCat(a[1..], b);
    } else {
      assert a[1..] + b == b;
    }
  }

  // All segments of some dotted texts.
  function Pieces(parts: seq<string>): seq<string> {
    if parts == [] then [] else SplitOn(parts[0], '.') + Pieces(parts[1..])
  }

  lemma {:induction false} PiecesJoin(parts: seq<string>)
    requires parts != []
    ensures Pieces(parts) != [] && Without(Pieces(parts), '.') && Join(".", Pieces(parts)) == Join(".", parts)
  {
    JoinOn(parts[0], '.');
    SplitOnWithout(parts[0], '.');
    if |parts| == 1 {
      assert Pieces(parts[1..]) == [];
      assert Pieces(parts) == SplitOn(parts[0], '.');
    } else {
      PiecesJoin(parts[1..]);
      JoinCat(SplitOn(parts[0], '.'), Pieces(parts[1..]));
    }
  }

  lemma {:induction false} PiecesOfPlain(parts: seq<string>)
    requires Without(parts, '.')
    ensures Pieces(parts) == parts
  {
    if parts != [] {
      SplitOnHead(parts[0], "", '.');
      PiecesOfPlain(parts[1..]);
    }
  }

  // The dotted path splits where the path does.
  lemma {:induction false} DottedSegments(stem: string)
    requires '.' !in stem && '\\' !in stem
    ensures SplitOn(Dotted(stem), '.') == SplitOn(stem, '/')
  {
    if stem == "" {
      assert Dotted(stem) == "";
    } else {
      DottedSegments(stem[1..]);
      assert Dotted(stem) == [if stem[0] == '/' then '.' else stem[0]] + Dotted(stem[1..]);
      assert Dotted(stem)[1..] == Dotted(stem[1..]);
    }
  }

  function Classes(nodeId: string): seq<string> {
    var parts := Parts(nodeId);
    if |parts| < 2 then [] else parts[1..|parts| - 1]
  }

  // Directories, file and classes, and what else the dots in their names set apart, in order.
  function Segments(nodeId: string): seq<string> {
    Pieces([Module(Parts(nodeId)[0])] + Classes(nodeId))
  }

  lemma ClassnameOf(nodeId: string)
    requires IdentityOf(nodeId).Some?
    ensures Join(".", Segments(nodeId)) == IdentityOf(nodeId).value.classname
    ensures SplitOn(IdentityOf(nodeId).value.classname, '.') == Segments(nodeId)
  {
    PiecesJoin([Module(Parts(nodeId)[0])] + Classes(nodeId));
    SplitOnJoin(Segments(nodeId));
  }

  // Two node ids share an identity exactly when they have the same name, and the same segments once it is
  // forgotten where the path ends and the classes begin, and whether a dot or a slash was written.
  lemma SameIdentityIff(p: string, q: string)
    requires IdentityOf(p).Some? && IdentityOf(q).Some?
    ensures IdentityOf(p) == IdentityOf(q) <==>
      Segments(p) == Segments(q) && IdentityOf(p).value.name == IdentityOf(q).value.name
  {
    ClassnameOf(p);
    ClassnameOf(q);
  }

  // A node id of a Python file with no dot in its directories, file name or classes, and no backslash.
  ghost predicate Plain(nodeId: string) {
    && IdentityOf(nodeId).Some?
    && EndsWith(Parts(nodeId)[0], ".py")
    && '.' !in Stem(Parts(nodeId)[0]) && '\\' !in Stem(Parts(nodeId)[0])
    && Without(Classes(nodeId), '.')
  }

  lemma PlainSegments(nodeId: string)
    requires Plain(nodeId)
    ensures Segments(nodeId) == SplitOn(Stem(Parts(nodeId)[0]), '/') + Classes(nodeId)
  {
    var stem, all := Stem(Parts(nodeId)[0]), [Module(Parts(nodeId)[0])] + Classes(nodeId);
    DottedSegments(stem);
    PiecesOfPlain(Classes(nodeId));
    assert all[1..] == Classes(nodeId);
  }

  // With the same number of classes, different ids have different identities.
  lemma OneToOneWhenPlain(p: string, q: string)
    requires Plain(p) && Plain(q) && |Classes(p)| == |Classes(q)|
    ensures IdentityOf(p) == IdentityOf(q) <==> Strip(p) == Strip(q)
  {
    SameIdentityIff(p, q);
    if IdentityOf(p) == IdentityOf(q) {
      SameSegments(p, q);
    } else {
      assert Parts(p) != Parts(q);
    }
  }

  lemma SameSegments(p: string, q: string)
    requires Plain(p) && Plain(q) && |Classes(p)| == |Classes(q)|
    requires Segments(p) == Segments(q) && IdentityOf(p).value.name == IdentityOf(q).value.name
    ensures Strip(p) == Strip(q)
  {
    SamePathAndClasses(p, q, Segments(p), |Classes(p)|);
    SameText(p, q);
  }

  lemma SamePathAndClasses(p: string, q: string, s: seq<string>, n: nat)
    requires Plain(p) && Plain(q) && Segments(p) == s == Segments(q) && |Classes(p)| == n == |Classes(q)|
    ensures Parts(p)[0] == Parts(q)[0] && Classes(p) == Classes(q)
  {
    SegmentsSplit(p, s, n);
    SegmentsSplit(q, s, n);
  }

  lemma SegmentsSplit(p: string, s: seq<string>, n: nat)
    requires Plain(p) && Segments(p) == s && |Classes(p)| == n
    ensures n <= |s| && Classes(p) == s[|s| - n..] && Parts(p)[0] == Join("/", s[..|s| - n]) + ".py"
  {
    var path := Parts(p)[0];
    var x := SplitOn(Stem(path), '/');
    PlainSegments(p);
    assert s == x + Classes(p) && s[..|x|] == x;
    JoinOn(Stem(path), '/');
    assert path == Stem(path) + ".py";
  }

  lemma PartsOf(p: string)
    requires IdentityOf(p).Some?
    ensures Parts(p) == [Parts(p)[0]] + Classes(p) + [IdentityOf(p).value.name]
  {
    var a := Parts(p);
    assert a == [a[0]] + a[1..|a| - 1] + [a[|a| - 1]];
  }

  // Path, classes and name are all there is to an id.
  lemma SameText(p: string, q: string)
    requires IdentityOf(p).Some? && IdentityOf(q).Some?
    requires Parts(p)[0] == Parts(q)[0] && Classes(p) == Classes(q) && IdentityOf(p).value.name == IdentityOf(q).value.name
    ensures Strip(p) == Strip(q)
  {
    PartsOf(p);
    PartsOf(q);
    JoinSplit(Strip(p));
    JoinSplit(Strip(q));
  }

  // Without it they need not: a file in a directory and a class in a file of that name.
  lemma IdentitiesCollide()
    ensures IdentityOf("t/a/b.py::x") == IdentityOf("t/a.py::b::x") == Some(Identity("t.a.b", "x"))
  {
    FileInDirectory();
    ClassInFile();
  }

  lemma FileInDirectory()
    ensures IdentityOf("t/a/b.py::x") == Some(Identity("t.a.b", "x"))
  {
    assert ["t/a/b.py"] + [] + ["x"] == ["t/a/b.py", "x"] && ["t/a/b.py", "x"][1..] == ["x"];
    assert Join("::", ["t/a/b.py", "x"]) == "t/a/b.py::x";
    assert Stem("t/a/b.py") == "t/a/b" && Module("t/a/b.py") == "t.a.b";
    IdentityOfNodeId("t/a/b.py", [], "x");
  }

  lemma ClassInFile()
    ensures IdentityOf("t/a.py::b::x") == Some(Identity("t.a.b", "x"))
  {
    var parts := ["t/a.py", "b", "x"];
    assert ["t/a.py"] + ["b"] + ["x"] == parts;
    ClassInFileText();
    IdentityOfNodeId("t/a.py", ["b"], "x");
  }

  lemma ClassInFileText()
    ensures Join("::", ["t/a.py", "b", "x"]) == "t/a.py::b::x"
    ensures Module("t/a.py") == "t.a" && Join(".", ["t.a"] + ["b"]) == "t.a.b"
  {
    assert ["t/a.py", "b", "x"][1..] == ["b", "x"] && ["b", "x"][1..] == ["x"];
    assert Join("::", ["b", "x"]) == "b::x";
    assert Stem("t/a.py") == "t/a";
    assert ["t.a"] + ["b"] == ["t.a", "b"] && ["t.a", "b"][1..] == ["b"];
  }

  // ---- what pytest writes ----

  // The position of the first '[', or |s|.
  function Bracket(s: string): (k: nat)
    ensures k <= |s|
  {
    if s == "" || s[0] == '[' then 0 else 1 + Bracket(s[1..])
  }

  lemma {:induction false} BracketThere(s: string)
    ensures Bracket(s) < |s| ==> s[Bracket(s)] == '['
  {
    if s != "" && s[0] != '[' {
      BracketThere(s[1..]);
    }
  }

  // The parametrisation of a node id, from its bracket on.
  function Parametrisation(nodeId: string): string {
    var s := Strip(nodeId); s[Bracket(s)..]
  }

  // The parts of a node id with any parametrisation left intact, at the end of the name.
  function PytestParts(nodeId: string): seq<string> {
    var s := Strip(nodeId);
    Glue(Split(s[..Bracket(s)]), [s[Bracket(s)..]])
  }

  // x + y, with the last of x and the first of y written as one.
  function Glue(x: seq<string>, y: seq<string>): seq<string>
    requires x != [] && y != []
  {
    x[..|x| - 1] + [x[|x| - 1] + y[0]] + y[1..]
  }

  // The identity under which pytest reports a test, whose inverse the evaluator's split is meant to be.
  function PytestIdentity(nodeId: string): Option<Identity> {
    IdentityOfParts(PytestParts(nodeId))
  }

  lemma GlueEmpty(y: seq<string>)
    requires y != []
    ensures Glue([""], y) == y
  {
    assert "" + y[0] == y[0];
  }

  lemma GlueMore(h: string, x: seq<string>, y: seq<string>)
    requires x != [] && y != []
    ensures Glue([h] + x, y) == [h] + Glue(x, y)
  {
  }

  lemma GlueHead(c: char, x: seq<string>, y: seq<string>)
    requires x != [] && y != []
    ensures Glue([[c] + x[0]] + x[1..], y) == [[c] + Glue(x, y)[0]] + Glue(x, y)[1..]
  {
    if |x| == 1 {
      assert [c] + x[0] + y[0] == [c] + (x[0] + y[0]);
    }
  }

  lemma {:induction false} SplitAppend(a: string, b: string)
    requires b == "" || b[0] != ':'
    ensures Split(a + b) == Glue(Split(a), Split(b))
  {
    var t := a + b;
    if a == "" {
      assert t == b;
      GlueEmpty(Split(b));
    } else if |a| == 1 {
      if b == "" {
        assert t == a && Glue([a], [""]) == [a + ""] == [a];
      } else {
        assert t[1..] == b && a == [a[0]];
        assert t[1] == b[0];
        assert Split(t) == [[a[0]] + Split(b)[0]] + Split(b)[1..];
        assert Glue([a], Split(b)) == [a + Split(b)[0]] + Split(b)[1..];
      }
    } else if a[0] == ':' && a[1] == ':' {
      assert t[2..] == a[2..] + b;
      SplitAppend(a[2..], b);
      GlueMore("", Split(a[2..]), Split(b));
    } else {
      assert t[1..] == a[1..] + b;
      SplitAppend(a[1..], b);
      GlueHead(a[0], Split(a[1..]), Split(b));
    }
  }

  // A text with a separator splits, into parts shorter than itself.
  lemma {:induction false} SplitShortens(s: string)
    ensures |Split(s)[|Split(s)| - 1]| <= |s|
    ensures !NoSeparator(s) ==> |Split(s)| > 1
    ensures |Split(s)| > 1 ==> |Split(s)[|Split(s)| - 1]| < |s|
  {
    if |s| >= 2 {
      if s[0] == ':' && s[1] == ':' {
        SplitShortens(s[2..]);
      } else {
        SplitShortens(s[1..]);
        if !NoSeparator(s) {
          var i :| 0 < i < |s| && s[i - 1] == ':' && s[i] == ':';
          assert s[1..][i - 2] == ':' && s[1..][i - 1] == ':';
        }
      }
    }
  }

  // The documentation promises the exact inverse of what pytest writes, with any parametrisation bracket
  // intact. The code splits inside the bracket too, and keeps the promise exactly when there is no "::".
  lemma IntactIff(nodeId: string)
    requires PytestIdentity(nodeId).Some?
    ensures IdentityOf(nodeId) == PytestIdentity(nodeId) <==> NoSeparator(Parametrisation(nodeId))
  {
    var s := Strip(nodeId);
    var a, b := s[..Bracket(s)], s[Bracket(s)..];
    BracketThere(s);
    assert s == a + b;
    SplitAppend(a, b);
    if NoSeparator(b) {
      SplitLast(b);
    } else {
      SplitShortens(b);
      LastOfGlue(Split(a), Split(b));
    }
  }

  lemma LastOfGlue(x: seq<string>, y: seq<string>)
    requires x != [] && |y| > 1
    ensures Glue(x, y)[|Glue(x, y)| - 1] == y[|y| - 1]
  {
  }

  // For one, a parameter that holds "::".
  lemma BracketIsSplit()
    ensures IdentityOf("t.py::x[a::b]") == Some(Identity("t.x[a", "b]"))
    ensures PytestIdentity("t.py::x[a::b]") == Some(Identity("t", "x[a::b]"))
  {
    SplitInBracket();
    SplitBeforeBracket();
  }

  lemma SplitInBracket()
    ensures IdentityOf("t.py::x[a::b]") == Some(Identity("t.x[a", "b]"))
  {
    InBracketText();
    assert ["t.py"] + ["x[a"] + ["b]"] == ["t.py", "x[a", "b]"];
    assert Strip("t.py::x[a::b]") == "t.py::x[a::b]";
    IdentityOfNodeId("t.py", ["x[a"], "b]");
  }

  lemma InBracketText()
    ensures Join("::", ["t.py", "x[a", "b]"]) == "t.py::x[a::b]"
    ensures Module("t.py") == "t" && Join(".", ["t"] + ["x[a"]) == "t.x[a"
  {
    assert ["t.py", "x[a", "b]"][1..] == ["x[a", "b]"] && ["x[a", "b]"][1..] == ["b]"];
    assert Join("::", ["x[a", "b]"]) == "x[a::b]";
    assert Stem("t.py") == "t";
    assert ["t"] + ["x[a"] == ["t", "x[a"] && ["t", "x[a"][1..] == ["x[a"];
  }

  // In general: the bracket stays with the name.
  lemma PytestIdentityOf(path: string, classes: seq<string>, name: string, bracket: string)
    requires WellParted([path] + classes + [name])
    requires path != "" && Module(path) != "" && name != "" && "" !in classes
    requires var id := Join("::", [path] + classes + [name]);
      '[' !in id && Strip(id + bracket) == id + bracket && (bracket == "" || bracket[0] == '[')
    ensures PytestIdentity(Join("::", [path] + classes + [name]) + bracket)
      == Some(Identity(Join(".", [Module(path)] + classes), name + bracket))
  {
    var parts := [path] + classes + [name];
    var id := Join("::", parts);
    var s := id + bracket;
    BracketAfter(id, bracket);
    assert s[..|id|] == id && s[|id|..] == bracket;
    SplitJoin(parts);
    GlueLast([path] + classes, name, bracket);
    IdentityOfWhole(path, classes, name + bracket);
  }

  lemma GlueLast(x: seq<string>, name: string, bracket: string)
    ensures Glue(x + [name], [bracket]) == x + [name + bracket]
  {
  }

  lemma IdentityOfWhole(path: string, classes: seq<string>, name: string)
    requires path != "" && Module(path) != "" && name != "" && "" !in classes
    ensures IdentityOfParts([path] + classes + [name]) == Some(Identity(Join(".", [Module(path)] + classes), name))
  {
    var parts := [path] + classes + [name];
    assert parts[1..|parts| - 1] == classes;
    assert parts[1..] == classes + [name];
  }

  lemma {:induction false} BracketAfter(s: string, bracket: string)
    requires '[' !in s && (bracket == "" || bracket[0] == '[')
    ensures Bracket(s + bracket) == |s|
  {
    if s != "" {
      assert (s + bracket)[1..] == s[1..] + bracket;
      BracketAfter(s[1..], bracket);
    }
  }

  lemma SplitBeforeBracket()
    ensures PytestIdentity("t.py::x[a::b]") == Some(Identity("t", "x[a::b]"))
  {
    assert ["t.py"] + [] + ["x"] == ["t.py", "x"] && ["t.py", "x"][1..] == ["x"];
    assert Join("::", ["t.py", "x"]) == "t.py::x";
    assert "t.py::x" + "[a::b]" == "t.py::x[a::b]" && "x" + "[a::b]" == "x[a::b]";
    assert Stem("t.py") == "t" && Module("t.py") == "t";
    PytestIdentityOf("t.py", [], "x", "[a::b]");
  }
}
