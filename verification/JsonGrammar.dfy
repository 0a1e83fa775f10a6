// The grammar of JSON (sections 2 to 7 of RFC 8259, without fractions, exponents and lone surrogates), and
// the proof that json.loads accepts exactly its texts.
module JsonGrammar {
  import opened PyText
  import opened CanonicalJson

  // ---- the grammar ----

  // One character of a string, as it is spelled.
  datatype Piece = Raw(c: char) | Short(letter: char) | Hex(digits: string) | Surrogates(high: string, low: string)

  // A document, token by token, with the white space between them.
  datatype Tree =
    | Constant(value: Json)
    | Number(minus: bool, digits: string)
    | Text(pieces: seq<Piece>)
    | Array(open: string, elements: Elements)
    | Object(open: string, members: Members)

  datatype Elements = NoElement | Element(tree: Tree, after: string, before: string, more: Elements)

  datatype Members = NoMember | Member(key: seq<Piece>, colon: string, start: string, tree: Tree, after: string, before: string, more: Members)

  predicate Gap(w: string) {
    forall i :: 0 <= i < |w| ==> w[i] == ' ' || w[i] == '\t' || w[i] == '\n' || w[i] == '\r'
  }

  predicate Natural(d: string) {
    d != "" && (forall i :: 0 <= i < |d| ==> '0' <= d[i] <= '9') && (d[0] == '0' ==> |d| == 1)
  }

  predicate FourHex(d: string) {
    |d| == 4 && forall i :: 0 <= i < 4 ==> '0' <= d[i] <= '9' || 'a' <= d[i] <= 'f' || 'A' <= d[i] <= 'F'
  }

  predicate IsPiece(p: Piece) {
    match p
    case Raw(c) => c >= ' ' && c != '"' && c != '\\'
    case Short(letter) => letter in {'"', '\\', '/', 'b', 'f', 'n', 'r', 't'}
    case Hex(d) => FourHex(d) && (0 <= HexNumber(d) < 0xD800 || 0xE000 <= HexNumber(d))
    case Surrogates(h, l) => FourHex(h) && FourHex(l) && 0xD800 <= HexNumber(h) < 0xDC00 <= HexNumber(l) < 0xE000
  }

  predicate ArePieces(ps: seq<Piece>) {
    forall i :: 0 <= i < |ps| ==> IsPiece(ps[i])
  }

  predicate IsTree(t: Tree) {
    match t
    case Constant(v) => v == Null || v == Bool(true) || v == Bool(false)
    case Number(_, d) => Natural(d)
    case Text(ps) => ArePieces(ps)
    case Array(open, es) => Gap(open) && AreElements(es)
    case Object(open, ms) => Gap(open) && AreMembers(ms)
  }

  predicate AreElements(es: Elements) {
    es.Element? ==> IsTree(es.tree) && Gap(es.after) && Gap(es.before) && AreElements(es.more)
  }

  predicate AreMembers(ms: Members) {
    ms.Member? ==>
      && ArePieces(ms.key) && Gap(ms.colon) && Gap(ms.start) && IsTree(ms.tree) && Gap(ms.after) && Gap(ms.before)
      && AreMembers(ms.more)
  }

  function PieceText(p: Piece): string {
    match p
    case Raw(c) => [c]
    case Short(letter) => ['\\', letter]
    case Hex(d) => "\\u" + d
    case Surrogates(h, l) => "\\u" + h + ("\\u" + l)
  }

  // The text of a string after its opening quote, of a document, of elements and of members, and then `rest`.
  function SpellPieces(ps: seq<Piece>, rest: string): string {
    if ps == [] then ['"'] + rest else PieceText(ps[0]) + SpellPieces(ps[1..], rest)
  }

  function Spell(t: Tree, rest: string): string {
    match t
    case Constant(v) => (if v == Null then "null" else if v == Bool(true) then "true" else "false") + rest
    case Number(minus, d) => if minus then ['-'] + (d + rest) else d + rest
    case Text(ps) => ['"'] + SpellPieces(ps, rest)
    case Array(open, es) => ['['] + (open + if es.NoElement? then [']'] + rest else SpellElements(es, rest))
    case Object(open, ms) => ['{'] + (open + if ms.NoMember? then ['}'] + rest else SpellMembers(ms, rest))
  }

  function SpellElements(es: Elements, rest: string): string
    requires es.Element?
  {
    Spell(es.tree, es.after + if es.more.NoElement? then [']'] + rest else [','] + (es.before + SpellElements(es.more, rest)))
  }

  function SpellMembers(ms: Members, rest: string): string
    requires ms.Member?
  {
    ['"'] + SpellPieces(ms.key, ms.colon + ([':'] + (ms.start + Spell(ms.tree,
      ms.after + if ms.more.NoMember? then ['}'] + rest else [','] + (ms.before + SpellMembers(ms.more, rest))))))
  }

  // ---- what a text means ----

  function PieceChar(p: Piece): char
    requires IsPiece(p)
  {
    match p
    case Raw(c) => c
    case Short('b') => '\U{8}'
    case Short('f') => '\U{c}'
    case Short('n') => '\n'
    case Short('r') => '\r'
    case Short('t') => '\t'
    case Short(c) => c
    case Hex(d) => HexNumber(d) as char
    case Surrogates(h, l) => (0x10000 + (HexNumber(h) - 0xD800) * 0x400 + (HexNumber(l) - 0xDC00)) as char
  }

  function Chars(ps: seq<Piece>): string
    requires ArePieces(ps)
  {
    if ps == [] then "" else [PieceChar(ps[0])] + Chars(ps[1..])
  }

  // None is the hook's refusal of a repeated key; without the hook the last value of a key counts.
  function Meaning(t: Tree, strict: bool): Option<Json>
    requires IsTree(t)
  {
    match t
    case Constant(v) => Some(v)
    case Number(minus, d) => Some(Int(if minus then 0 - NatValue(d) else NatValue(d)))
    case Text(ps) => Some(Str(Chars(ps)))
    case Array(_, es) => (match ElementMeanings(es, strict) case None => None case Some(items) => Some(Arr(items)))
    case Object(_, ms) =>
      match MemberMeanings(ms, strict)
      case None => None
      case Some(f) => if DistinctKeys(f) then Some(Obj(f)) else if strict then None else Some(Obj(LastWins(f)))
  }

  function ElementMeanings(es: Elements, strict: bool): Option<Items>
    requires AreElements(es)
  {
    if es.NoElement? then Some(NoItem)
    else
      match (Meaning(es.tree, strict), ElementMeanings(es.more, strict))
      case (Some(v), Some(items)) => Some(Item(v, items))
      case _ => None
  }

  function MemberMeanings(ms: Members, strict: bool): Option<Fields>
    requires AreMembers(ms)
  {
    if ms.NoMember? then Some(NoField)
    else
      match (Meaning(ms.tree, strict), MemberMeanings(ms.more, strict))
      case (Some(v), Some(f)) => Some(Field(Chars(ms.key), v, f))
      case _ => None
  }

  // ---- every text of the grammar is read ----

  function Reading<T>(meaning: Option<T>, rest: string): Option<(T, string)> {
    match meaning case None => None case Some(v) => Some((v, rest))
  }

  predicate EndsNumber(rest: string) {
    rest == "" || !IsDigit(rest[0])
  }

  lemma {:induction false} SkipGap(w: string, s: string)
    requires Gap(w)
    ensures SkipWs(w + s) == SkipWs(s)
  {
    if w == "" {
      assert w + s == s;
    } else {
      assert (w + s)[1..] == w[1..] + s;
      SkipGap(w[1..], s);
    }
  }

  lemma SkipToMark(w: string, mark: char, rest: string)
    requires Gap(w) && !IsWs(mark)
    ensures SkipWs(w + ([mark] + rest)) == [mark] + rest && ([mark] + rest)[1..] == rest
  {
    SkipGap(w, [mark] + rest);
  }

  lemma GapEndsNumber(w: string, mark: char, rest: string)
    requires Gap(w) && !IsDigit(mark)
    ensures EndsNumber(w + ([mark] + rest))
  {
    if w != "" {
      assert (w + ([mark] + rest))[0] == w[0];
    }
  }

  lemma FirstChar(t: Tree, rest: string)
    requires IsTree(t)
    ensures var s := Spell(t, rest); s != "" && !IsWs(s[0]) && s[0] != ']' && s[0] != '}'
  {
    if t.Number? {
      assert Spell(t, rest)[0] == if t.minus then '-' else t.digits[0];
    }
  }

  lemma SkipToTree(w: string, t: Tree, rest: string)
    requires Gap(w) && IsTree(t)
    ensures SkipWs(w + Spell(t, rest)) == Spell(t, rest)
  {
    FirstChar(t, rest);
    SkipGap(w, Spell(t, rest));
  }

  lemma ReadPiece(p: Piece, tail: string)
    requires IsPiece(p)
    ensures ReadChars(PieceText(p) + tail) == Prepend(PieceChar(p), ReadChars(tail))
  {
    var s := PieceText(p) + tail;
    match p
    case Raw(c) =>
      assert s[0] == c && s[1..] == tail;
    case Short(letter) =>
      ReadShortEscape(letter, PieceChar(p), tail);
    case Hex(d) =>
      HexText(d, tail);
      ReadHex(s, PieceChar(p), 6);
    case Surrogates(h, l) =>
      PairText(h, l, tail);
      ReadHex(s, PieceChar(p), 12);
  }

  lemma HexText(d: string, tail: string)
    requires |d| == 4
    ensures var s := "\\u" + d + tail; |s| >= 6 && "\\u" <= s && s[2..6] == d && s[6..] == tail
  {
    var s := "\\u" + d + tail;
    assert s[0] == '\\' && s[1] == 'u';
  }

  lemma {:induction false} ReadPieces(ps: seq<Piece>, rest: string)
    requires ArePieces(ps)
    ensures ReadChars(SpellPieces(ps, rest)) == Some((Chars(ps), rest))
  {
    if ps == [] {
      assert (['"'] + rest)[1..] == rest;
    } else {
      ReadPieces(ps[1..], rest);
      ReadPiece(ps[0], SpellPieces(ps[1..], rest));
    }
  }

  lemma ReadNatural(d: string, rest: string)
    requires Natural(d) && EndsNumber(rest)
    ensures ReadNat(d + rest) == Some((NatValue(d), rest))
  {
    var s := d + rest;
    SpanOf(d, rest);
    assert s[..|d|] == d && s[|d|..] == rest && s[0] == d[0];
    if d[0] == '0' {
      assert d == "0" && NatValue("0") == 0;
    }
  }

  lemma ReadMinus(t: string, strict: bool)
    requires ReadNat(t).Some?
    ensures Read(['-'] + t, strict) == Some((Int(0 - ReadNat(t).value.0), ReadNat(t).value.1))
  {
    var s := ['-'] + t;
    assert s[0] == '-' && s[1..] == t;
  }

  lemma ReadPlain(t: string, strict: bool)
    requires ReadNat(t).Some?
    ensures Read(t, strict) == Some((Int(ReadNat(t).value.0), ReadNat(t).value.1))
  {
    assert IsDigit(t[0]);
  }

  lemma ReadNumber(minus: bool, d: string, rest: string, strict: bool)
    requires Natural(d) && EndsNumber(rest)
    ensures Read(Spell(Number(minus, d), rest), strict) == Reading(Meaning(Number(minus, d), strict), rest)
  {
    ReadNatural(d, rest);
    if minus {
      ReadMinus(d + rest, strict);
    } else {
      ReadPlain(d + rest, strict);
    }
  }

  lemma ReadConstant(v: Json, rest: string, strict: bool)
    requires IsTree(Constant(v))
    ensures Read(Spell(Constant(v), rest), strict) == Some((v, rest))
  {
    var s := Spell(Constant(v), rest);
    if v == Bool(false) {
      assert s[0] == 'f' && s[5..] == rest;
    } else {
      assert s[0] == (if v == Null then 'n' else 't') && s[4..] == rest;
    }
  }

  lemma ReadText(ps: seq<Piece>, rest: string, strict: bool)
    requires ArePieces(ps)
    ensures Read(['"'] + SpellPieces(ps, rest), strict) == Some((Str(Chars(ps)), rest))
  {
    ReadPieces(ps, rest);
    assert (['"'] + SpellPieces(ps, rest))[1..] == SpellPieces(ps, rest);
  }

  // Every text of the grammar is read as what it means.
  lemma {:induction false} ReadTree(t: Tree, rest: string, strict: bool)
    requires IsTree(t) && EndsNumber(rest)
    ensures Read(Spell(t, rest), strict) == Reading(Meaning(t, strict), rest)
    decreases t, 1
  {
    match t
    case Constant(v) => ReadConstant(v, rest, strict);
    case Number(minus, d) => ReadNumber(minus, d, rest, strict);
    case Text(ps) => ReadText(ps, rest, strict);
    case Array(open, es) => ReadArrayTree(open, es, rest, strict);
    case Object(open, ms) => ReadObjectTree(open, ms, rest, strict);
  }

  lemma {:induction false} ReadArrayTree(open: string, es: Elements, rest: string, strict: bool)
    requires Gap(open) && AreElements(es)
    ensures Read(Spell(Array(open, es), rest), strict) == Reading(Meaning(Array(open, es), strict), rest)
    decreases es, 3
  {
    var s := Spell(Array(open, es), rest);
    if es.NoElement? {
      assert s[0] == '[' && s[1..] == open + ([']'] + rest);
      SkipToMark(open, ']', rest);
    } else {
      var t := SpellElements(es, rest);
      assert s[0] == '[' && s[1..] == open + t;
      SkipToElements(open, es, rest);
      OpenArray(s, t, strict);
      ReadElements(es, rest, strict);
    }
  }

  // After its bracket an array is read element by element,
  lemma OpenArray(s: string, t: string, strict: bool)
    requires s != "" && s[0] == '[' && SkipWs(s[1..]) == t && t != "" && t[0] != ']'
    ensures Read(s, strict) == match ReadItems(t, strict) case None => None case Some(p) => Some((Arr(p.0), p.1))
  {
  }

  // and after its brace an object member by member.
  lemma OpenObject(s: string, t: string, strict: bool)
    requires s != "" && s[0] == '{' && SkipWs(s[1..]) == t && t != "" && t[0] != '}'
    ensures Read(s, strict) == match ReadFields(t, strict) case None => None case Some(p) => MakeObject(p, strict)
  {
  }

  lemma SkipToElements(w: string, es: Elements, rest: string)
    requires Gap(w) && es.Element? && AreElements(es)
    ensures var t := SpellElements(es, rest); SkipWs(w + t) == t && t != "" && t[0] != ']'
  {
    var tail := es.after + if es.more.NoElement? then [']'] + rest else [','] + (es.before + SpellElements(es.more, rest));
    FirstChar(es.tree, tail);
    SkipToTree(w, es.tree, tail);
  }

  lemma {:induction false} ReadElements(es: Elements, rest: string, strict: bool)
    requires es.Element? && AreElements(es)
    ensures ReadItems(SpellElements(es, rest), strict) == Reading(ElementMeanings(es, strict), rest)
    decreases es, 2
  {
    if es.more.NoElement? {
      GapEndsNumber(es.after, ']', rest);
      SkipToMark(es.after, ']', rest);
      ReadTree(es.tree, es.after + ([']'] + rest), strict);
    } else {
      var more := es.before + SpellElements(es.more, rest);
      GapEndsNumber(es.after, ',', more);
      SkipToMark(es.after, ',', more);
      ReadTree(es.tree, es.after + ([','] + more), strict);
      SkipToElements(es.before, es.more, rest);
      ReadElements(es.more, rest, strict);
    }
  }

  lemma {:induction false} ReadObjectTree(open: string, ms: Members, rest: string, strict: bool)
    requires Gap(open) && AreMembers(ms)
    ensures Read(Spell(Object(open, ms), rest), strict) == Reading(Meaning(Object(open, ms), strict), rest)
    decreases ms, 3
  {
    var s := Spell(Object(open, ms), rest);
    if ms.NoMember? {
      assert s[0] == '{' && s[1..] == open + (['}'] + rest);
      SkipToMark(open, '}', rest);
    } else {
      var t := SpellMembers(ms, rest);
      assert s[0] == '{' && s[1..] == open + t;
      SkipGap(open, t);
      OpenObject(s, t, strict);
      ReadMembers(ms, rest, strict);
    }
  }

  // What follows the value of the first member.
  function AfterMember(ms: Members, rest: string): string
    requires ms.Member?
  {
    ms.after + if ms.more.NoMember? then ['}'] + rest else [','] + (ms.before + SpellMembers(ms.more, rest))
  }

  lemma {:induction false} ReadMembers(ms: Members, rest: string, strict: bool)
    requires ms.Member? && AreMembers(ms)
    ensures ReadFields(SpellMembers(ms, rest), strict) == Reading(MemberMeanings(ms, strict), rest)
    decreases ms, 2
  {
    var tail := AfterMember(ms, rest);
    if ms.more.NoMember? {
      GapEndsNumber(ms.after, '}', rest);
    } else {
      GapEndsNumber(ms.after, ',', ms.before + SpellMembers(ms.more, rest));
      ReadMembers(ms.more, rest, strict);
    }
    ReadTree(ms.tree, tail, strict);
    ReadMember(ms.key, ms.colon, ms.start, ms.tree, tail, strict);
    SkipToNext(ms, rest);
  }

  lemma SkipToNext(ms: Members, rest: string)
    requires ms.Member? && AreMembers(ms)
    ensures var t := SkipWs(AfterMember(ms, rest));
      && t != "" && t[0] == (if ms.more.NoMember? then '}' else ',')
      && if ms.more.NoMember? then t[1..] == rest else SkipWs(t[1..]) == SpellMembers(ms.more, rest)
  {
    if ms.more.NoMember? {
      SkipToMark(ms.after, '}', rest);
    } else {
      var more := SpellMembers(ms.more, rest);
      SkipToMark(ms.after, ',', ms.before + more);
      SkipGap(ms.before, more);
    }
  }

  // A key, a colon and a value are read as such, and then what follows.
  lemma ReadMember(key: seq<Piece>, colon: string, start: string, t: Tree, tail: string, strict: bool)
    requires ArePieces(key) && Gap(colon) && Gap(start) && IsTree(t)
    ensures ReadFields(['"'] + SpellPieces(key, colon + ([':'] + (start + Spell(t, tail)))), strict)
      == AfterKey(Chars(key), Spell(t, tail), strict)
  {
    var c := colon + ([':'] + (start + Spell(t, tail)));
    var s := ['"'] + SpellPieces(key, c);
    assert s[0] == '"' && s[1..] == SpellPieces(key, c);
    ReadPieces(key, c);
    SkipToMark(colon, ':', start + Spell(t, tail));
    SkipToTree(start, t, tail);
  }

  // ---- nothing else is read ----

  lemma {:induction false} GapOf(s: string) returns (w: string)
    ensures Gap(w) && s == w + SkipWs(s)
  {
    if s != "" && IsWs(s[0]) {
      w := GapOf(s[1..]);
      w := [s[0]] + w;
    } else {
      w := "";
    }
  }

  lemma {:induction false} SpanIsDigits(s: string)
    ensures forall i :: 0 <= i < Span(s) ==> IsDigit(s[i])
    ensures s != "" && IsDigit(s[0]) ==> Span(s) > 0
  {
    if s != "" && IsDigit(s[0]) {
      SpanIsDigits(s[1..]);
      forall i | 0 <= i < Span(s) ensures IsDigit(s[i]) {
        assert i > 0 ==> s[i] == s[1..][i - 1];
      }
    }
  }

  lemma NaturalOf(s: string) returns (d: string)
    requires ReadNat(s).Some?
    ensures Natural(d) && s == d + ReadNat(s).value.1 && NatValue(d) == ReadNat(s).value.0
  {
    if s[0] == '0' {
      d := "0";
    } else {
      SpanIsDigits(s);
      d := s[..Span(s)];
    }
  }

  // What one character is read from.
  lemma PieceOf(s: string) returns (p: Piece, tail: string)
    requires ReadChars(s).Some? && s[0] != '"'
    ensures IsPiece(p) && s == PieceText(p) + tail && |tail| < |s|
  {
    if s[0] != '\\' {
      p, tail := Raw(s[0]), s[1..];
    } else if s[1] != 'u' {
      p, tail := Short(s[1]), s[2..];
    } else {
      p, tail := HexOf(s);
    }
  }

  lemma HexIsFour(d: string)
    requires |d| == 4 && HexNumber(d) >= 0
    ensures FourHex(d)
  {
    assert forall i :: 0 <= i < 4 ==> HexValue(d[i]) >= 0;
  }

  lemma HexOf(s: string) returns (p: Piece, tail: string)
    requires "\\u" <= s && HexEscape(s).Some?
    ensures IsPiece(p) && s == PieceText(p) + tail && |tail| < |s|
  {
    var n := HexNumber(s[2..6]);
    if n < 0xD800 || n >= 0xE000 {
      CutHex(s);
      HexIsFour(s[2..6]);
      p, tail := Hex(s[2..6]), s[6..];
    } else {
      CutPair(s);
      HexIsFour(s[2..6]);
      HexIsFour(s[8..12]);
      p, tail := Surrogates(s[2..6], s[8..12]), s[12..];
    }
  }

  lemma CutHex(s: string)
    requires "\\u" <= s && |s| >= 6
    ensures s == "\\u" + s[2..6] + s[6..]
  {
  }

  lemma CutPair(s: string)
    requires "\\u" <= s && |s| >= 12 && s[6..8] == "\\u"
    ensures s == "\\u" + s[2..6] + ("\\u" + s[8..12]) + s[12..]
  {
    CutHex(s);
    CutHex(s[6..]);
    assert s[6..][2..6] == s[8..12] && s[6..][6..] == s[12..];
  }

  lemma {:induction false} PiecesOf(s: string) returns (ps: seq<Piece>)
    requires ReadChars(s).Some?
    ensures ArePieces(ps) && s == SpellPieces(ps, ReadChars(s).value.1) && Chars(ps) == ReadChars(s).value.0
    decreases |s|
  {
    if s[0] == '"' {
      ps := [];
    } else {
      var p, tail := PieceOf(s);
      ReadPiece(p, tail);
      var more := PiecesOf(tail);
      ps := [p] + more;
    }
  }

  // Whatever is read is a text of the grammar and means what was read.
  lemma {:induction false} TreeOf(s: string, strict: bool) returns (t: Tree)
    requires Read(s, strict).Some?
    ensures IsTree(t) && s == Spell(t, Read(s, strict).value.1) && Meaning(t, strict) == Some(Read(s, strict).value.0)
    decreases |s|, 1
  {
    if s[0] == '"' {
      var ps := PiecesOf(s[1..]);
      t := Text(ps);
    } else if s[0] == '{' {
      t := ObjectOf(s, strict);
    } else if s[0] == '[' {
      t := ArrayOf(s, strict);
    } else if "null" <= s || "true" <= s || "false" <= s {
      t := ConstantOf(s, strict);
    } else {
      t := NumberOf(s, strict);
    }
  }

  lemma ConstantOf(s: string, strict: bool) returns (t: Tree)
    requires "null" <= s || "true" <= s || "false" <= s
    ensures Read(s, strict).Some? && IsTree(t)
    ensures s == Spell(t, Read(s, strict).value.1) && Meaning(t, strict) == Some(Read(s, strict).value.0)
  {
    t := Constant(if "null" <= s then Null else Bool("true" <= s));
  }

  lemma NumberOf(s: string, strict: bool) returns (t: Tree)
    requires Read(s, strict).Some? && s[0] != '"' && s[0] != '{' && s[0] != '['
    requires !("null" <= s) && !("true" <= s) && !("false" <= s)
    ensures IsTree(t) && s == Spell(t, Read(s, strict).value.1) && Meaning(t, strict) == Some(Read(s, strict).value.0)
  {
    var digits := if s[0] == '-' then s[1..] else s;
    var d := NaturalOf(digits);
    t := Number(s[0] == '-', d);
  }

  lemma ArrayParts(s: string, strict: bool)
    requires s != "" && s[0] == '[' && Read(s, strict).Some?
    ensures var u := SkipWs(s[1..]);
      && u != "" && |u| < |s| && Read(s, strict) ==
        if u[0] == ']' then Some((Arr(NoItem), u[1..]))
        else match ReadItems(u, strict) case None => None case Some(p) => Some((Arr(p.0), p.1))
  {
  }

  lemma {:induction false} ArrayOf(s: string, strict: bool) returns (t: Tree)
    requires s != "" && s[0] == '[' && Read(s, strict).Some?
    ensures IsTree(t) && s == Spell(t, Read(s, strict).value.1) && Meaning(t, strict) == Some(Read(s, strict).value.0)
    decreases |s|, 0
  {
    ArrayParts(s, strict);
    var open := GapOf(s[1..]);
    var u := SkipWs(s[1..]);
    assert s == ['['] + (open + u);
    if u[0] == ']' {
      assert u == [']'] + u[1..];
      t := Array(open, NoElement);
    } else {
      var es := ElementsOf(u, strict);
      t := Array(open, es);
    }
  }

  // The parts of what ReadItems accepts,
  lemma ItemsParts(s: string, strict: bool)
    requires ReadItems(s, strict).Some?
    ensures Read(s, strict).Some?
    ensures var (v, rest) := Read(s, strict).value;
      var u := SkipWs(rest);
      && u != "" && |u| <= |rest| < |s| && ReadItems(s, strict) ==
        if u[0] == ']' then Some((Item(v, NoItem), u[1..]))
        else if u[0] == ',' then
          match ReadItems(SkipWs(u[1..]), strict) case None => None case Some(q) => Some((Item(v, q.0), q.1))
        else None
  {
  }

  lemma {:induction false} ElementsOf(s: string, strict: bool) returns (es: Elements)
    requires ReadItems(s, strict).Some?
    ensures es.Element? && AreElements(es) && s == SpellElements(es, ReadItems(s, strict).value.1)
    ensures ElementMeanings(es, strict) == Some(ReadItems(s, strict).value.0)
    decreases |s|, 2
  {
    ItemsParts(s, strict);
    var t := TreeOf(s, strict);
    var rest := Read(s, strict).value.1;
    var after := GapOf(rest);
    var u := SkipWs(rest);
    if u[0] == ']' {
      es := Element(t, after, "", NoElement);
      assert u == [']'] + u[1..];
    } else {
      var before := GapOf(u[1..]);
      var more := ElementsOf(SkipWs(u[1..]), strict);
      es := Element(t, after, before, more);
      assert u == [','] + u[1..];
    }
  }

  lemma ObjectParts(s: string, strict: bool)
    requires s != "" && s[0] == '{' && Read(s, strict).Some?
    ensures var u := SkipWs(s[1..]);
      && u != "" && |u| < |s| && Read(s, strict) ==
        if u[0] == '}' then Some((Obj(NoField), u[1..]))
        else match ReadFields(u, strict) case None => None case Some(p) => MakeObject(p, strict)
  {
  }

  lemma ObjectMeans(open: string, ms: Members, p: (Fields, string), strict: bool)
    requires Gap(open) && AreMembers(ms) && MemberMeanings(ms, strict) == Some(p.0)
    ensures MakeObject(p, strict) == Reading(Meaning(Object(open, ms), strict), p.1)
  {
  }

  lemma {:induction false} ObjectOf(s: string, strict: bool) returns (t: Tree)
    requires s != "" && s[0] == '{' && Read(s, strict).Some?
    ensures IsTree(t) && s == Spell(t, Read(s, strict).value.1) && Meaning(t, strict) == Some(Read(s, strict).value.0)
    decreases |s|, 0
  {
    ObjectParts(s, strict);
    var open := GapOf(s[1..]);
    var u := SkipWs(s[1..]);
    assert s == ['{'] + (open + u);
    if u[0] == '}' {
      assert u == ['}'] + u[1..];
      t := Object(open, NoMember);
    } else {
      var ms := MembersOf(u, strict);
      t := Object(open, ms);
      ObjectMeans(open, ms, ReadFields(u, strict).value, strict);
    }
  }

  // and of what ReadFields accepts.
  lemma FieldsParts(s: string, strict: bool)
    requires ReadFields(s, strict).Some?
    ensures s != "" && s[0] == '"' && ReadChars(s[1..]).Some?
    ensures var (k, c) := ReadChars(s[1..]).value;
      && SkipWs(c) != "" && SkipWs(c)[0] == ':' && |SkipWs(SkipWs(c)[1..])| < |s|
      && ReadFields(s, strict) == AfterKey(k, SkipWs(SkipWs(c)[1..]), strict)
  {
  }

  lemma AfterKeyParts(k: string, v: string, strict: bool)
    requires AfterKey(k, v, strict).Some?
    ensures Read(v, strict).Some?
    ensures var (x, rest) := Read(v, strict).value;
      var u := SkipWs(rest);
      && u != "" && |u| <= |rest| < |v| && AfterKey(k, v, strict) ==
        if u[0] == '}' then Some((Field(k, x, NoField), u[1..]))
        else if u[0] == ',' then
          match ReadFields(SkipWs(u[1..]), strict) case None => None case Some(q) => Some((Field(k, x, q.0), q.1))
        else None
  {
  }

  lemma KeyOf(s: string, strict: bool) returns (key: seq<Piece>, colon: string, start: string, v: string)
    requires ReadFields(s, strict).Some?
    ensures ArePieces(key) && Gap(colon) && Gap(start) && |v| < |s|
    ensures s == ['"'] + SpellPieces(key, colon + ([':'] + (start + v)))
    ensures ReadFields(s, strict) == AfterKey(Chars(key), v, strict)
  {
    FieldsParts(s, strict);
    key := PiecesOf(s[1..]);
    var c := ReadChars(s[1..]).value.1;
    colon := GapOf(c);
    var d := SkipWs(c);
    start := GapOf(d[1..]);
    v := SkipWs(d[1..]);
    assert d == [':'] + (start + v);
    assert s == ['"'] + s[1..];
  }

  lemma {:induction false} MembersOf(s: string, strict: bool) returns (ms: Members)
    requires ReadFields(s, strict).Some?
    ensures ms.Member? && AreMembers(ms) && s == SpellMembers(ms, ReadFields(s, strict).value.1)
    ensures MemberMeanings(ms, strict) == Some(ReadFields(s, strict).value.0)
    decreases |s|, 2
  {
    var key, colon, start, v := KeyOf(s, strict);
    ms := MemberOf(key, colon, start, v, strict);
  }

  lemma {:induction false} MemberOf(key: seq<Piece>, colon: string, start: string, v: string, strict: bool) returns (ms: Members)
    requires ArePieces(key) && Gap(colon) && Gap(start) && AfterKey(Chars(key), v, strict).Some?
    ensures ms.Member? && AreMembers(ms)
    ensures var (f, end) := AfterKey(Chars(key), v, strict).value;
      MemberMeanings(ms, strict) == Some(f) && SpellMembers(ms, end) == ['"'] + SpellPieces(key, colon + ([':'] + (start + v)))
    decreases |v|, 3
  {
    AfterKeyParts(Chars(key), v, strict);
    var t := TreeOf(v, strict);
    var rest := Read(v, strict).value.1;
    var after := GapOf(rest);
    var u := SkipWs(rest);
    if u[0] == '}' {
      ms := Member(key, colon, start, t, after, "", NoMember);
      assert u == ['}'] + u[1..];
    } else {
      var before := GapOf(u[1..]);
      var more := MembersOf(SkipWs(u[1..]), strict);
      ms := Member(key, colon, start, t, after, before, more);
      assert u == [','] + u[1..];
    }
  }

  // ---- documents ----

  // The text s is a document of the grammar, with white space around it, that means v.
  ghost predicate Denotes(s: string, v: Json, strict: bool) {
    exists before, t, after :: Document(s, before, t, after) && Meaning(t, strict) == Some(v)
  }

  ghost predicate Document(s: string, before: string, t: Tree, after: string) {
    Gap(before) && IsTree(t) && Gap(after) && s == before + Spell(t, after)
  }

  lemma LoadsDocument(s: string, before: string, t: Tree, after: string, strict: bool)
    requires Document(s, before, t, after)
    ensures Loads(s, strict) == Meaning(t, strict)
  {
    SkipToTree(before, t, after);
    ReadTree(t, after, strict);
    assert after + "" == after;
    SkipGap(after, "");
  }

  // json.loads accepts exactly the documents of the grammar, save those the hook refuses, and returns what
  // they mean.
  lemma LoadsIff(s: string, v: Json, strict: bool)
    ensures Loads(s, strict) == Some(v) <==> Denotes(s, v, strict)
  {
    if Loads(s, strict) == Some(v) {
      var before := GapOf(s);
      var t := TreeOf(SkipWs(s), strict);
      var after := GapOf(Read(SkipWs(s), strict).value.1);
      assert after + "" == after;
      assert Document(s, before, t, after);
    }
    if Denotes(s, v, strict) {
      var before, t, after :| Document(s, before, t, after) && Meaning(t, strict) == Some(v);
      LoadsDocument(s, before, t, after, strict);
    }
  }
}
