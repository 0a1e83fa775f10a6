// Canonical serialisation of records (canonical_bytes) and strict parsing (_load_json_strict with
// _no_duplicate_keys), as in sections 4 and 7 of RFC 8259.
module CanonicalJson {
  import opened PyText

  // A parsed JSON value. Object fields keep the order in which a Python dict holds them.
  datatype Json =
    | Null
    | Bool(b: bool)
    | Int(i: int)
    | Str(s: string)
    | Arr(items: Items)
    | Obj(fields: Fields)
  datatype Items = NoItem | Item(head: Json, tail: Items)
  datatype Fields = NoField | Field(key: string, value: Json, rest: Fields)

  predicate Has(f: Fields, key: string) {
    f.Field? && (f.key == key || Has(f.rest, key))
  }

  function Lookup(f: Fields, key: string): (v: Json)
    requires Has(f, key)
    ensures v < f
  {
    if f.key == key then f.value else Lookup(f.rest, key)
  }

  // dict.get: a missing key and a null both read as None
  function GetOr(f: Fields, key: string): Json {
    if Has(f, key) then Lookup(f, key) else Null
  }

  // not v
  predicate Falsy(v: Json) {
    v == Null || v == Bool(false) || v == Int(0) || v == Str("") || v == Arr(NoItem) || v == Obj(NoField)
  }

  // No object, at any depth, holds a key twice: what a Python dict can be.
  predicate IsRecord(v: Json) {
    match v
    case Arr(items) => AreRecords(items)
    case Obj(fields) => DistinctKeys(fields) && FieldsAreRecords(fields)
    case _ => true
  }

  predicate AreRecords(items: Items) {
    items.Item? ==> IsRecord(items.head) && AreRecords(items.tail)
  }

  predicate FieldsAreRecords(f: Fields) {
    f.Field? ==> IsRecord(f.value) && FieldsAreRecords(f.rest)
  }

  predicate DistinctKeys(f: Fields) {
    f.Field? ==> !Has(f.rest, f.key) && DistinctKeys(f.rest)
  }

  // ---- sorting keys ----

  // Python's order on str: by code point, a prefix first.
  predicate Before(k: string, l: string) {
    if l == "" then false
    else if k == "" then true
    else k[0] < l[0] || (k[0] == l[0] && Before(k[1..], l[1..]))
  }

  // The two are alike up to some position, and there k ends or is less.
  lemma {:induction false} BeforeIff(k: string, l: string)
    ensures Before(k, l) <==> exists n: nat :: LessAt(k, l, n)
  {
    if k != "" && l != "" && k[0] == l[0] {
      BeforeIff(k[1..], l[1..]);
      if n: nat :| LessAt(k[1..], l[1..], n) {
        assert k[..n + 1] == [k[0]] + k[1..][..n] && l[..n + 1] == [l[0]] + l[1..][..n];
        assert LessAt(k, l, n + 1);
      }
      if n: nat :| LessAt(k, l, n) {
        assert n > 0 && k[1..][..n - 1] == k[..n][1..] && l[1..][..n - 1] == l[..n][1..];
        assert LessAt(k[1..], l[1..], n - 1);
      }
    } else if Before(k, l) {
      assert LessAt(k, l, 0);
    }
  }

  ghost predicate LessAt(k: string, l: string, n: nat) {
    n <= |k| && n < |l| && k[..n] == l[..n] && (n == |k| || k[n] < l[n])
  }

  lemma {:induction false} BeforeTotal(k: string, l: string)
    ensures k != l ==> Before(k, l) || Before(l, k)
    ensures !(Before(k, l) && Before(l, k)) && !Before(k, k)
    decreases |k|
  {
    if k != "" {
      BeforeTotal(k[1..], k[1..]);
      if l != "" {
        BeforeTotal(k[1..], l[1..]);
        if k[0] == l[0] && k[1..] == l[1..] {
          assert k == [k[0]] + k[1..] && l == [l[0]] + l[1..];
        }
      }
    }
  }

  lemma {:induction false} BeforeTransitive(k: string, l: string, m: string)
    requires Before(k, l) && Before(l, m)
    ensures Before(k, m)
  {
    if k != "" && k[0] == l[0] && l[0] == m[0] {
      BeforeTransitive(k[1..], l[1..], m[1..]);
    }
  }

  function Insert(key: string, value: Json, f: Fields): Fields {
    if f.NoField? || !Before(f.key, key) then Field(key, value, f)
    else Field(f.key, f.value, Insert(key, value, f.rest))
  }

  // The record with every object's keys sorted: what sort_keys=True writes.
  function Canon(v: Json): Json {
    match v
    case Arr(items) => Arr(CanonItems(items))
    case Obj(fields) => Obj(CanonFields(fields))
    case _ => v
  }

  function CanonItems(items: Items): Items {
    if items.NoItem? then NoItem else Item(Canon(items.head), CanonItems(items.tail))
  }

  function CanonFields(f: Fields): Fields {
    if f.NoField? then NoField else Insert(f.key, Canon(f.value), CanonFields(f.rest))
  }

  // ---- writing ----

  function HexDigit(n: nat): char
    requires n < 16
  {
    if n < 10 then '0' + n as char else 'a' + (n - 10) as char
  }

  function Hex4(n: nat): string
    requires n < 0x10000
  {
    [HexDigit(n / 16 / 16 / 16), HexDigit(n / 16 / 16 % 16), HexDigit(n / 16 % 16), HexDigit(n % 16)]
  }

  // \uXXXX, or a pair of such escapes.
  function HexEscaped(c: char): string {
    if c as nat < 0x10000 then "\\u" + Hex4(c as nat)
    else
      var n := c as nat - 0x10000;
      "\\u" + Hex4(0xD800 + n / 1024) + ("\\u" + Hex4(0xDC00 + n % 1024))
  }

  // One character of a JSON string: with ensure_ascii=True everything outside ' ' to '~' is escaped, and a
  // character above U+FFFF as a pair of surrogates; otherwise only the control characters are.
  function Escape(c: char, ascii: bool): string {
    if c == '"' then "\\\""
    else if c == '\\' then "\\\\"
    else if c == '\n' then "\\n"
    else if c == '\r' then "\\r"
    else if c == '\t' then "\\t"
    else if c == '\U{c}' then "\\f"
    else if c == '\U{8}' then "\\b"
    else if c < ' ' || (ascii && c > '~') then HexEscaped(c)
    else [c]
  }

  function WriteChars(s: string, ascii: bool): string {
    if s == "" then "\"" else Escape(s[0], ascii) + WriteChars(s[1..], ascii)
  }

  function WriteString(s: string, ascii: bool): string {
    "\"" + WriteChars(s, ascii)
  }

  function Write(v: Json, ascii: bool): string {
    match v
    case Null => "null"
    case Bool(b) => if b then "true" else "false"
    case Int(i) => if i < 0 then "-" + Digits(-i) else Digits(i)
    case Str(s) => WriteString(s, ascii)
    case Arr(items) => "[" + (if items.NoItem? then "]" else WriteItems(items, ascii))
    case Obj(fields) => "{" + (if fields.NoField? then "}" else WriteFields(fields, ascii))
  }

  function WriteItems(items: Items, ascii: bool): string
    requires items.Item?
  {
    Write(items.head, ascii) + (if items.tail.NoItem? then "]" else "," + WriteItems(items.tail, ascii))
  }

  function WriteFields(f: Fields, ascii: bool): string
    requires f.Field?
  {
    WriteString(f.key, ascii) + (":" + (Write(f.value, ascii) + (if f.rest.NoField? then "}" else "," + WriteFields(f.rest, ascii))))
  }

  // canonical_bytes, before the UTF-8 encoding (which is one-to-one on these strings); with ascii, the
  // same with ensure_ascii=True.
  function CanonicalText(v: Json, ascii: bool): string {
    Write(Canon(v), ascii)
  }

  // ---- reading ----

  predicate IsWs(c: char) {
    c == ' ' || c == '\t' || c == '\n' || c == '\r'
  }

  function SkipWs(s: string): (r: string)
    ensures |r| <= |s|
  {
    if s != "" && IsWs(s[0]) then SkipWs(s[1..]) else s
  }

  function HexValue(c: char): int {
    if '0' <= c <= '9' then (c - '0') as int
    else if 'a' <= c <= 'f' then (c - 'a') as int + 10
    else if 'A' <= c <= 'F' then (c - 'A') as int + 10
    else -1
  }

  // The number XXXX of an escape \uXXXX, or -1.
  function HexNumber(s: string): (n: int)
    requires |s| == 4
    ensures -1 <= n < 0x10000
  {
    var a, b, c, d := HexValue(s[0]), HexValue(s[1]), HexValue(s[2]), HexValue(s[3]);
    if a < 0 || b < 0 || c < 0 || d < 0 then -1 else a * 4096 + b * 256 + c * 16 + d
  }

  // The character of the escape \uXXXX at the start of s and its length: two such escapes make one
  // character when they are a pair of surrogates. A lone surrogate is not a character here.
  function HexEscape(s: string): (r: Option<(char, nat)>)
    requires "\\u" <= s
    ensures r.Some? ==> 6 <= r.value.1 <= |s|
  {
    if |s| < 6 then None
    else
      var n := HexNumber(s[2..6]);
      if n < 0 || 0xDC00 <= n < 0xE000 then None
      else if n < 0xD800 || n >= 0xE000 then Some((n as char, 6))
      else if |s| < 12 || s[6..8] != "\\u" then None
      else
        var m := HexNumber(s[8..12]);
        if 0xDC00 <= m < 0xE000 then Some(((0x10000 + (n - 0xD800) * 1024 + (m - 0xDC00)) as char, 12)) else None
  }

  // The character named by a one-letter escape.
  function Unescape(c: char): Option<char> {
    if c == '"' || c == '\\' || c == '/' then Some(c)
    else if c == 'b' then Some('\U{8}')
    else if c == 'f' then Some('\U{c}')
    else if c == 'n' then Some('\n')
    else if c == 'r' then Some('\r')
    else if c == 't' then Some('\t')
    else None
  }

  // The text of a string after its opening quote, and what follows the closing one.
  function ReadChars(s: string): (r: Option<(string, string)>)
    ensures r.Some? ==> |r.value.1| < |s|
    decreases |s|
  {
    if s == "" then None
    else if s[0] == '"' then Some(("", s[1..]))
    else if s[0] < ' ' then None
    else if s[0] != '\\' then Prepend(s[0], ReadChars(s[1..]))
    else if |s| < 2 then None
    else if s[1] == 'u' then
      match HexEscape(s) case None => None case Some(p) => Prepend(p.0, ReadChars(s[p.1..]))
    else match Unescape(s[1]) case None => None case Some(c) => Prepend(c, ReadChars(s[2..]))
  }

  function Prepend(c: char, r: Option<(string, string)>): (q: Option<(string, string)>)
    ensures q.Some? <==> r.Some?
    ensures q.Some? ==> q.value == ([c] + r.value.0, r.value.1)
  {
    match r
    case None => None
    case Some(p) => Some(([c] + p.0, p.1))
  }

  // The number of leading decimal digits.
  function Span(s: string): (n: nat)
    ensures n <= |s|
  {
    if s != "" && IsDigit(s[0]) then 1 + Span(s[1..]) else 0
  }

  // 0, or a digit string without a leading zero.
  function ReadNat(s: string): (r: Option<(nat, string)>)
    ensures r.Some? ==> |r.value.1| < |s|
  {
    if s == "" || !IsDigit(s[0]) then None
    else if s[0] == '0' then Some((0, s[1..]))
    else Some((NatValue(s[..Span(s)]), s[Span(s)..]))
  }

  // The dict made of the pairs of an object: refused for a repeated key (_no_duplicate_keys), or by
  // default with the last value of every key, in the place of its first.
  function Pairs(f: Fields, strict: bool): Option<Fields> {
    if DistinctKeys(f) then Some(f) else if strict then None else Some(LastWins(f))
  }

  function MakeObject(p: (Fields, string), strict: bool): Option<(Json, string)> {
    match Pairs(p.0, strict) case None => None case Some(f) => Some((Obj(f), p.1))
  }

  function Remove(f: Fields, key: string): Fields {
    if f.NoField? then NoField
    else if f.key == key then Remove(f.rest, key)
    else Field(f.key, f.value, Remove(f.rest, key))
  }

  function LastWins(f: Fields): Fields {
    if f.NoField? then NoField
    else
      var rest := LastWins(f.rest);
      Field(f.key, if Has(rest, f.key) then Lookup(rest, f.key) else f.value, Remove(rest, f.key))
  }

  lemma {:induction false} RemoveFacts(f: Fields, key: string)
    ensures forall k :: Has(Remove(f, key), k) <==> Has(f, k) && k != key
    ensures forall k :: Has(f, k) && k != key ==> Lookup(Remove(f, key), k) == Lookup(f, k)
    ensures DistinctKeys(f) ==> DistinctKeys(Remove(f, key))
    ensures FieldsAreRecords(f) ==> FieldsAreRecords(Remove(f, key))
  {
    if f.Field? {
      RemoveFacts(f.rest, key);
    }
  }

  lemma {:induction false} LastWinsDistinct(f: Fields)
    requires FieldsAreRecords(f)
    ensures DistinctKeys(LastWins(f)) && FieldsAreRecords(LastWins(f))
    ensures forall k :: Has(LastWins(f), k) <==> Has(f, k)
  {
    if f.Field? {
      LastWinsDistinct(f.rest);
      var rest := LastWins(f.rest);
      RemoveFacts(rest, f.key);
      if Has(rest, f.key) {
        HasFieldRecord(rest, f.key);
      }
    }
  }

  // The value of the last field with a key.
  function LastValue(f: Fields, key: string): Json
    requires Has(f, key)
  {
    if Has(f.rest, key) then LastValue(f.rest, key) else f.value
  }

  lemma {:induction false} LastWinsKeeps(f: Fields, key: string)
    requires Has(f, key)
    ensures Has(LastWins(f), key) && Lookup(LastWins(f), key) == LastValue(f, key)
  {
    if Has(f.rest, key) {
      LastWinsKeeps(f.rest, key);
    } else {
      LastWinsHas(f.rest, key);
    }
    RemoveFacts(LastWins(f.rest), f.key);
  }

  lemma {:induction false} LastWinsHas(f: Fields, key: string)
    ensures Has(LastWins(f), key) <==> Has(f, key)
  {
    if f.Field? {
      LastWinsHas(f.rest, key);
      RemoveFacts(LastWins(f.rest), f.key);
    }
  }

  // One value at the start of s, and what follows it.
  function Read(s: string, strict: bool): (r: Option<(Json, string)>)
    ensures r.Some? ==> |r.value.1| < |s|
    decreases |s|, 1
  {
    if s == "" then None
    else if s[0] == '"' then
      match ReadChars(s[1..]) case None => None case Some(p) => Some((Str(p.0), p.1))
    else if s[0] == '{' then
      var t := SkipWs(s[1..]);
      if t != "" && t[0] == '}' then Some((Obj(NoField), t[1..]))
      else
        match ReadFields(t, strict)
        case None => None
        case Some(p) => MakeObject(p, strict)
    else if s[0] == '[' then
      var t := SkipWs(s[1..]);
      if t != "" && t[0] == ']' then Some((Arr(NoItem), t[1..]))
      else match ReadItems(t, strict) case None => None case Some(p) => Some((Arr(p.0), p.1))
    else if "null" <= s then Some((Null, s[4..]))
    else if "true" <= s then Some((Bool(true), s[4..]))
    else if "false" <= s then Some((Bool(false), s[5..]))
    else if s[0] == '-' then
      match ReadNat(s[1..]) case None => None case Some(p) => Some((Int(0 - p.0), p.1))
    else
      match ReadNat(s) case None => None case Some(p) => Some((Int(p.0), p.1))
  }

  // The members of an array up to its closing bracket.
  function ReadItems(s: string, strict: bool): (r: Option<(Items, string)>)
    ensures r.Some? ==> |r.value.1| < |s|
    decreases |s|, 2
  {
    match Read(s, strict)
    case None => None
    case Some(p) =>
      var t := SkipWs(p.1);
      if t == "" then None
      else if t[0] == ']' then Some((Item(p.0, NoItem), t[1..]))
      else if t[0] != ',' then None
      else
        match ReadItems(SkipWs(t[1..]), strict)
        case None => None
        case Some(q) => Some((Item(p.0, q.0), q.1))
  }

  // The members of an object up to its closing brace.
  function ReadFields(s: string, strict: bool): (r: Option<(Fields, string)>)
    ensures r.Some? ==> |r.value.1| < |s|
    decreases |s|, 2
  {
    if s == "" || s[0] != '"' then None
    else
      match ReadChars(s[1..])
      case None => None
      case Some(k) =>
        var c := SkipWs(k.1);
        if c == "" || c[0] != ':' then None
        else
          match Read(SkipWs(c[1..]), strict)
          case None => None
          case Some(p) =>
            var t := SkipWs(p.1);
            if t == "" then None
            else if t[0] == '}' then Some((Field(k.0, p.0, NoField), t[1..]))
            else if t[0] != ',' then None
            else
              match ReadFields(SkipWs(t[1..]), strict)
              case None => None
              case Some(q) => Some((Field(k.0, p.0, q.0), q.1))
  }

  // json.loads, with or without the duplicate-key hook; None is any refusal
  function Loads(s: string, strict: bool): Option<Json> {
    match Read(SkipWs(s), strict)
    case None => None
    case Some(p) => if SkipWs(p.1) == "" then Some(p.0) else None
  }

  // ---- reading undoes writing ----

  lemma HexDigitValue(n: nat)
    requires n < 16
    ensures HexValue(HexDigit(n)) == n
  {
  }

  lemma HexWritten(n: nat)
    requires n < 0x10000
    ensures |Hex4(n)| == 4 && HexNumber(Hex4(n)) == n
  {
    HexDigitValue(n / 16 / 16 / 16);
    HexDigitValue(n / 16 / 16 % 16);
    HexDigitValue(n / 16 % 16);
    HexDigitValue(n % 16);
  }

  // An escaped character is read as that character.
  lemma ReadEscaped(c: char, rest: string, ascii: bool)
    ensures ReadChars(Escape(c, ascii) + rest) == Prepend(c, ReadChars(rest))
  {
    var s := Escape(c, ascii) + rest;
    if |Escape(c, ascii)| == 2 {
      assert s[2..] == rest;
    } else if |Escape(c, ascii)| == 1 {
      assert s[1..] == rest;
    } else {
      ReadHexEscaped(c, rest);
    }
  }

  // Every short escape is read as its character, also those that are never written.
  lemma ReadShortEscape(c: char, meant: char, rest: string)
    requires (c, meant) in {('"', '"'), ('\\', '\\'), ('/', '/'), ('b', '\U{8}'), ('f', '\U{c}'), ('n', '\n'), ('r', '\r'), ('t', '\t')}
    ensures ReadChars(['\\', c] + rest) == Prepend(meant, ReadChars(rest))
  {
    var s := ['\\', c] + rest;
    assert s[2..] == rest && s[1] == c && s[0] == '\\';
  }

  // Hexadecimal digits are read in either case.
  lemma HexCase(n: nat)
    requires 10 <= n < 16
    ensures HexValue('a' + (n - 10) as char) == n == HexValue('A' + (n - 10) as char)
  {
  }

  lemma HexEscapeOne(c: char, rest: string)
    requires c as nat < 0x10000
    ensures var s := HexEscaped(c) + rest; "\\u" <= s && HexEscape(s) == Some((c, 6)) && s[6..] == rest
  {
    var n := c as nat;
    HexWritten(n);
    var s := "\\u" + Hex4(n) + rest;
    assert s[2..6] == Hex4(n) && s[0] == '\\' && s[1] == 'u';
  }

  lemma PairAt(s: string, h: nat, l: nat)
    requires |s| >= 12 && "\\u" <= s && s[6..8] == "\\u" && 0xD800 <= h < 0xDC00 <= l < 0xE000
    requires s[2..6] == Hex4(h) && s[8..12] == Hex4(l)
    ensures HexEscape(s) == Some(((0x10000 + (h - 0xD800) * 1024 + (l - 0xDC00)) as char, 12))
  {
    HexWritten(h);
    HexWritten(l);
  }

  lemma PairText(h: string, l: string, rest: string)
    requires |h| == |l| == 4
    ensures var s := "\\u" + h + ("\\u" + l) + rest;
      |s| >= 12 && "\\u" <= s && s[6..8] == "\\u" && s[2..6] == h && s[8..12] == l && s[12..] == rest
  {
    var s := "\\u" + h + ("\\u" + l) + rest;
    assert s[0] == '\\' && s[1] == 'u';
  }

  lemma HexEscapePair(c: char, rest: string)
    requires c as nat >= 0x10000
    ensures var s := HexEscaped(c) + rest; "\\u" <= s && HexEscape(s) == Some((c, 12)) && s[12..] == rest
  {
    var n := c as nat - 0x10000;
    var h, l := 0xD800 + n / 1024, 0xDC00 + n % 1024;
    PairText(Hex4(h), Hex4(l), rest);
    PairAt(HexEscaped(c) + rest, h, l);
    assert 0x10000 + (h - 0xD800) * 1024 + (l - 0xDC00) == c as nat;
  }

  lemma ReadHex(s: string, c: char, k: nat)
    requires "\\u" <= s && HexEscape(s) == Some((c, k))
    ensures ReadChars(s) == Prepend(c, ReadChars(s[k..]))
  {
    assert s[0] == '\\' && s[1] == 'u';
  }

  lemma ReadHexEscaped(c: char, rest: string)
    ensures ReadChars(HexEscaped(c) + rest) == Prepend(c, ReadChars(rest))
  {
    if c as nat < 0x10000 {
      HexEscapeOne(c, rest);
      ReadHex(HexEscaped(c) + rest, c, 6);
    } else {
      HexEscapePair(c, rest);
      ReadHex(HexEscaped(c) + rest, c, 12);
    }
  }

  lemma {:induction false} ReadWrittenChars(s: string, rest: string, ascii: bool)
    ensures ReadChars(WriteChars(s, ascii) + rest) == Some((s, rest))
  {
    if s == "" {
      assert ("\"" + rest)[1..] == rest;
    } else {
      var tail := WriteChars(s[1..], ascii) + rest;
      assert WriteChars(s, ascii) + rest == Escape(s[0], ascii) + tail;
      ReadWrittenChars(s[1..], rest, ascii);
      ReadOneMore(s[0], s[1..], tail, rest, ascii);
      assert s == [s[0]] + s[1..];
    }
  }

  lemma ReadOneMore(c: char, text: string, tail: string, rest: string, ascii: bool)
    requires ReadChars(tail) == Some((text, rest))
    ensures ReadChars(Escape(c, ascii) + tail) == Some(([c] + text, rest))
  {
    ReadEscaped(c, tail, ascii);
  }

  lemma SpanOfDigits(n: nat, rest: string)
    requires rest != "" ==> !IsDigit(rest[0])
    ensures Span(Digits(n) + rest) == |Digits(n)|
  {
    DigitsAreDigits(n);
    SpanOf(Digits(n), rest);
  }

  lemma {:induction false} SpanOf(d: string, rest: string)
    requires forall k :: 0 <= k < |d| ==> IsDigit(d[k])
    requires rest != "" ==> !IsDigit(rest[0])
    ensures Span(d + rest) == |d|
  {
    if d == "" {
      assert d + rest == rest;
    } else {
      SpanOf(d[1..], rest);
      assert (d + rest)[1..] == d[1..] + rest;
    }
  }

  lemma ReadDigits(n: nat, rest: string)
    requires rest != "" ==> !IsDigit(rest[0])
    ensures ReadNat(Digits(n) + rest) == Some((n, rest))
  {
    DigitsAreDigits(n);
    DigitsDenote(n);
    SpanOfDigits(n, rest);
    var s := Digits(n) + rest;
    if n == 0 {
      assert s[1..] == rest;
    } else {
      assert s[..Span(s)] == Digits(n) && s[Span(s)..] == rest;
    }
  }

  // What may follow a value inside a document.
  predicate Delimited(rest: string) {
    rest == "" || rest[0] == ',' || rest[0] == ']' || rest[0] == '}' || IsWs(rest[0])
  }

  lemma {:induction false} FirstChar(v: Json, ascii: bool)
    ensures Write(v, ascii) != "" && !IsWs(Write(v, ascii)[0]) && Write(v, ascii)[0] != ']' && Write(v, ascii)[0] != '}'
  {
    if v.Int? {
      DigitsAreDigits(if v.i < 0 then -v.i else v.i);
    }
  }

  lemma ReadWrittenInt(i: int, rest: string, ascii: bool, strict: bool)
    requires Delimited(rest)
    ensures Read(Write(Int(i), ascii) + rest, strict) == Some((Int(i), rest))
  {
    if i < 0 {
      ReadNegative(-i, rest, strict);
    } else {
      ReadPositive(i, rest, strict);
    }
  }

  lemma ReadNegative(n: nat, rest: string, strict: bool)
    requires Delimited(rest)
    ensures Read("-" + Digits(n) + rest, strict) == Some((Int(0 - n as int), rest))
  {
    ReadDigits(n, rest);
    var s := "-" + Digits(n) + rest;
    assert s[0] == '-' && s[1..] == Digits(n) + rest;
  }

  lemma ReadPositive(n: nat, rest: string, strict: bool)
    requires Delimited(rest)
    ensures Read(Digits(n) + rest, strict) == Some((Int(n), rest))
  {
    DigitsAreDigits(n);
    ReadDigits(n, rest);
    var s := Digits(n) + rest;
    assert s[0] == Digits(n)[0] && IsDigit(s[0]);
  }

  lemma ReadWrittenWord(v: Json, rest: string, ascii: bool, strict: bool)
    requires v.Null? || v.Bool?
    ensures Read(Write(v, ascii) + rest, strict) == Some((v, rest))
  {
    assert (Write(v, ascii) + rest)[|Write(v, ascii)|..] == rest;
    assert Write(v, ascii) <= Write(v, ascii) + rest;
    assert (Write(v, ascii) + rest)[0] == Write(v, ascii)[0];
  }

  lemma ReadWrittenEmpty(v: Json, rest: string, ascii: bool, strict: bool)
    requires v == Arr(NoItem) || v == Obj(NoField)
    ensures Read(Write(v, ascii) + rest, strict) == Some((v, rest))
  {
    var s := Write(v, ascii) + rest;
    assert s[1..] == [Write(v, ascii)[1]] + rest && s[1..][1..] == rest;
  }

  lemma ReadWrittenStr(t: string, rest: string, ascii: bool, strict: bool)
    ensures Read(Write(Str(t), ascii) + rest, strict) == Some((Str(t), rest))
  {
    assert (Write(Str(t), ascii) + rest)[1..] == WriteChars(t, ascii) + rest;
    ReadWrittenChars(t, rest, ascii);
  }

  // After its bracket an array is read member by member.
  lemma ReadArray(items: Items, rest: string, ascii: bool, strict: bool)
    requires items.Item?
    ensures Read(Write(Arr(items), ascii) + rest, strict) ==
      match ReadItems(WriteItems(items, ascii) + rest, strict) case None => None case Some(p) => Some((Arr(p.0), p.1))
  {
    var s := Write(Arr(items), ascii) + rest;
    FirstChar(items.head, ascii);
    assert s[0] == '[' && s[1..] == WriteItems(items, ascii) + rest;
    assert (WriteItems(items, ascii) + rest)[0] == Write(items.head, ascii)[0];
  }

  lemma ReadObject(f: Fields, rest: string, ascii: bool, strict: bool)
    requires f.Field?
    ensures Read(Write(Obj(f), ascii) + rest, strict) ==
      match ReadFields(WriteFields(f, ascii) + rest, strict) case None => None case Some(p) => MakeObject(p, strict)
  {
    var s, t := Write(Obj(f), ascii) + rest, WriteFields(f, ascii) + rest;
    assert s[0] == '{' && s[1..] == t;
    assert t[0] == '"' && SkipWs(t) == t;
  }

  // Reading a written value gives it back when no object repeats a key, and is refused otherwise.
  lemma {:induction false} ReadWritten(v: Json, rest: string, ascii: bool, strict: bool)
    requires Delimited(rest) && (IsRecord(v) || strict)
    ensures Read(Write(v, ascii) + rest, strict) == if IsRecord(v) then Some((v, rest)) else None
    decreases v, 1
  {
    if v.Int? {
      ReadWrittenInt(v.i, rest, ascii, strict);
    } else if v.Str? {
      ReadWrittenStr(v.s, rest, ascii, strict);
    } else if v == Arr(NoItem) || v == Obj(NoField) {
      ReadWrittenEmpty(v, rest, ascii, strict);
    } else if v.Arr? {
      ReadArray(v.items, rest, ascii, strict);
      ReadWrittenItems(v.items, rest, ascii, strict);
    } else if v.Obj? {
      ReadObject(v.fields, rest, ascii, strict);
      ReadWrittenFields(v.fields, rest, ascii, strict);
    } else {
      ReadWrittenWord(v, rest, ascii, strict);
    }
  }

  lemma {:induction false} ReadWrittenItems(items: Items, rest: string, ascii: bool, strict: bool)
    requires items.Item? && (AreRecords(items) || strict)
    ensures ReadItems(WriteItems(items, ascii) + rest, strict) == if AreRecords(items) then Some((items, rest)) else None
    decreases items, 2
  {
    var after := if items.tail.NoItem? then "]" + rest else "," + (WriteItems(items.tail, ascii) + rest);
    assert WriteItems(items, ascii) + rest == Write(items.head, ascii) + after;
    ReadWritten(items.head, after, ascii, strict);
    if items.tail.Item? {
      ReadWrittenItems(items.tail, rest, ascii, strict);
      FirstChar(items.tail.head, ascii);
      assert after[1..] == WriteItems(items.tail, ascii) + rest;
    } else {
      assert after[1..] == rest;
    }
  }

  lemma {:induction false} ReadWrittenFields(f: Fields, rest: string, ascii: bool, strict: bool)
    requires f.Field? && (FieldsAreRecords(f) || strict)
    ensures ReadFields(WriteFields(f, ascii) + rest, strict) == if FieldsAreRecords(f) then Some((f, rest)) else None
    decreases f, 2
  {
    var after := if f.rest.NoField? then "}" + rest else "," + (WriteFields(f.rest, ascii) + rest);
    var value := Write(f.value, ascii) + after;
    assert WriteFields(f, ascii) + rest == WriteString(f.key, ascii) + (":" + value);
    ReadWritten(f.value, after, ascii, strict);
    FirstChar(f.value, ascii);
    ReadKey(f.key, value, ascii, strict);
    if f.rest.Field? {
      ReadWrittenFields(f.rest, rest, ascii, strict);
      MoreFields(f.key, value, strict, WriteFields(f.rest, ascii) + rest);
    } else {
      LastField(f.key, value, strict, rest);
    }
  }

  lemma LastField(key: string, value: string, strict: bool, rest: string)
    requires Read(value, strict).Some? ==> Read(value, strict).value.1 == "}" + rest
    ensures AfterKey(key, value, strict) ==
      if Read(value, strict).Some? then Some((Field(key, Read(value, strict).value.0, NoField), rest)) else None
  {
    assert ("}" + rest)[1..] == rest;
  }

  lemma MoreFields(key: string, value: string, strict: bool, more: string)
    requires Read(value, strict).Some? ==> Read(value, strict).value.1 == "," + more
    requires more != "" && more[0] == '"'
    ensures AfterKey(key, value, strict) ==
      if Read(value, strict).Some? && ReadFields(more, strict).Some? then
        Some((Field(key, Read(value, strict).value.0, ReadFields(more, strict).value.0), ReadFields(more, strict).value.1))
      else None
  {
    assert ("," + more)[1..] == more;
  }

  // What ReadFields makes of the text after the colon.
  function AfterKey(key: string, value: string, strict: bool): Option<(Fields, string)> {
    match Read(value, strict)
    case None => None
    case Some(p) =>
      var t := SkipWs(p.1);
      if t == "" then None
      else if t[0] == '}' then Some((Field(key, p.0, NoField), t[1..]))
      else if t[0] != ',' then None
      else
        match ReadFields(SkipWs(t[1..]), strict)
        case None => None
        case Some(q) => Some((Field(key, p.0, q.0), q.1))
  }

  lemma ReadKey(key: string, value: string, ascii: bool, strict: bool)
    requires value != "" && !IsWs(value[0])
    ensures ReadFields(WriteString(key, ascii) + (":" + value), strict) == AfterKey(key, value, strict)
  {
    var s, c := WriteString(key, ascii) + (":" + value), ":" + value;
    assert s[0] == '"' && s[1..] == WriteChars(key, ascii) + c;
    ReadWrittenChars(key, c, ascii);
    assert c[0] == ':' && c[1..] == value;
    assert SkipWs(c) == c && SkipWs(value) == value;
  }

  // One canonical text in full: sorted keys, no white space, and the escapes.
  lemma CanonicalExample()
    ensures CanonicalText(ExampleRecord(), true) == "{\"a\":{\"\\n\":\"\\\"\\u00e9\"}" + ",\"b\":[true,null,-12]}"
  {
    ExampleCanon();
    ExampleArray();
    ExampleObject();
    ExampleKeys();
    TwoFields("a", Obj(ExampleFields()), "b", Arr(ExampleItems()));
    Around("\"a\"", "{\"\\n\":\"\\\"\\u00e9\"}", "\"b\"", "[true,null,-12]");
    ExampleFront();
    ExampleBack();
  }

  lemma ExampleFront()
    ensures "{" + "\"a\"" + ":" + "{\"\\n\":\"\\\"\\u00e9\"}" == "{\"a\":{\"\\n\":\"\\\"\\u00e9\"}"
  {
  }

  lemma ExampleBack()
    ensures "," + "\"b\"" + ":" + "[true,null,-12]" + "}" == ",\"b\":[true,null,-12]}"
  {
  }

  lemma Around(k: string, x: string, l: string, y: string)
    ensures "{" + (k + (":" + (x + ("," + (l + (":" + (y + "}"))))))) == ("{" + k + ":" + x) + ("," + l + ":" + y + "}")
  {
  }

  lemma ExampleCanon()
    ensures Canon(ExampleRecord()) == Obj(Field("a", Obj(ExampleFields()), Field("b", Arr(ExampleItems()), NoField)))
  {
    var inner, list := Obj(ExampleFields()), Arr(ExampleItems());
    assert ExampleItems().tail.tail.tail == NoItem;
    assert CanonItems(ExampleItems().tail.tail) == ExampleItems().tail.tail;
    assert CanonItems(ExampleItems()) == ExampleItems();
    assert Canon(inner) == inner && Canon(list) == list;
    assert "a"[0] < "b"[0];
    assert Before("a", "b") && !Before("b", "a");
    var last := Field("a", inner, NoField);
    assert CanonFields(last) == last;
    assert CanonFields(Field("b", list, last)) == Insert("b", list, last);
  }

  function ExampleItems(): Items {
    Item(Bool(true), Item(Null, Item(Int(-12), NoItem)))
  }

  function ExampleFields(): Fields {
    Field("\n", Str("\"\U{e9}"), NoField)
  }

  function ExampleRecord(): Json {
    Obj(Field("b", Arr(ExampleItems()), Field("a", Obj(ExampleFields()), NoField)))
  }

  lemma TwoFields(a: string, x: Json, b: string, y: Json)
    ensures Write(Obj(Field(a, x, Field(b, y, NoField))), true) == "{" + (WriteString(a, true) + (":" + (Write(x, true)
      + ("," + (WriteString(b, true) + (":" + (Write(y, true) + "}")))))))
  {
    var last := Field(b, y, NoField);
    assert WriteFields(last, true) == WriteString(b, true) + (":" + (Write(y, true) + "}"));
    var f := Field(a, x, last);
    assert WriteFields(f, true) == WriteString(a, true) + (":" + (Write(x, true) + ("," + WriteFields(last, true))));
  }

  lemma ExampleArray()
    ensures Write(Arr(ExampleItems()), true) == "[true,null,-12]"
  {
    assert Digits(12) == "12";
    assert Write(Int(-12), true) == "-12";
    assert WriteItems(Item(Int(-12), NoItem), true) == "-12]";
    assert WriteItems(Item(Null, Item(Int(-12), NoItem)), true) == "null,-12]";
  }

  lemma ExampleKeys()
    ensures WriteString("a", true) == "\"a\"" && WriteString("b", true) == "\"b\"" && WriteString("\n", true) == "\"\\n\""
  {
    assert WriteChars("", true) == "\"";
    assert WriteChars("a", true) == "a\"" && WriteChars("b", true) == "b\"" && WriteChars("\n", true) == "\\n\"";
  }

  lemma ExampleText()
    ensures WriteString("\"\U{e9}", true) == "\"\\\"\\u00e9\""
  {
    assert Hex4(0xE9) == "00e9";
    assert Escape('\U{e9}', true) == "\\u00e9";
    assert WriteChars("\U{e9}", true) == "\\u00e9\"";
    assert WriteChars("\"\U{e9}", true) == "\\\"" + "\\u00e9\"";
  }

  lemma ExampleObject()
    ensures Write(Obj(ExampleFields()), true) == "{\"\\n\":\"\\\"\\u00e9\"}"
  {
    ExampleKeys();
    ExampleText();
    OneFieldText("\n", Str("\"\U{e9}"));
    ExampleInner();
  }

  lemma OneFieldText(a: string, x: Json)
    ensures Write(Obj(Field(a, x, NoField)), true) == "{" + (WriteString(a, true) + (":" + (Write(x, true) + "}")))
  {
  }

  lemma ExampleInner()
    ensures "{" + ("\"\\n\"" + (":" + ("\"\\\"\\u00e9\"" + "}"))) == "{\"\\n\":\"\\\"\\u00e9\"}"
  {
  }

  // A written document is read back as it was, or, with the hook, refused for a repeated key.
  lemma LoadsWrite(v: Json, ascii: bool, strict: bool)
    requires IsRecord(v) || strict
    ensures Loads(Write(v, ascii), strict) == if IsRecord(v) then Some(v) else None
  {
    FirstChar(v, ascii);
    ReadWritten(v, "", ascii, strict);
    assert Write(v, ascii) + "" == Write(v, ascii);
  }

  lemma {:induction false} ReadGivesRecords(s: string, strict: bool)
    ensures Read(s, strict).Some? ==> IsRecord(Read(s, strict).value.0)
    decreases |s|, 1
  {
    if s != "" {
      var t := SkipWs(s[1..]);
      if s[0] == '{' {
        ReadFieldsGivesRecords(t, strict);
        if ReadFields(t, strict).Some? {
          LastWinsDistinct(ReadFields(t, strict).value.0);
        }
      } else if s[0] == '[' {
        ReadItemsGivesRecords(t, strict);
      }
    }
  }

  lemma {:induction false} ReadItemsGivesRecords(s: string, strict: bool)
    ensures ReadItems(s, strict).Some? ==> AreRecords(ReadItems(s, strict).value.0)
    decreases |s|, 2
  {
    ReadGivesRecords(s, strict);
    if Read(s, strict).Some? {
      var t := SkipWs(Read(s, strict).value.1);
      if t != "" {
        ReadItemsGivesRecords(SkipWs(t[1..]), strict);
      }
    }
  }

  lemma {:induction false} ReadFieldsGivesRecords(s: string, strict: bool)
    ensures ReadFields(s, strict).Some? ==> FieldsAreRecords(ReadFields(s, strict).value.0)
    decreases |s|, 2
  {
    if s != "" && s[0] == '"' && ReadChars(s[1..]).Some? {
      var c := SkipWs(ReadChars(s[1..]).value.1);
      if c != "" {
        var u := SkipWs(c[1..]);
        ReadGivesRecords(u, strict);
        if Read(u, strict).Some? {
          var t := SkipWs(Read(u, strict).value.1);
          if t != "" {
            ReadFieldsGivesRecords(SkipWs(t[1..]), strict);
          }
        }
      }
    }
  }

  // Whatever text is parsed, no object in the result repeats a key.
  lemma LoadsGivesRecords(s: string, strict: bool)
    ensures Loads(s, strict).Some? ==> IsRecord(Loads(s, strict).value)
  {
    ReadGivesRecords(SkipWs(s), strict);
  }

  // ---- key order does not matter, and nothing else is lost ----

  // Equality of Python values: dicts are equal when they have the same keys and equal values.
  ghost predicate Same(v: Json, w: Json)
    decreases v, 0
  {
    match v
    case Arr(items) => w.Arr? && SameItems(items, w.items)
    case Obj(f) => w.Obj? && SameFields(f, w.fields)
    case _ => v == w
  }

  ghost predicate SameItems(a: Items, b: Items)
    decreases a, 0
  {
    if a.NoItem? then b.NoItem? else b.Item? && Same(a.head, b.head) && SameItems(a.tail, b.tail)
  }

  ghost predicate SameFields(f: Fields, g: Fields)
    decreases f, 0
  {
    && (forall k :: Has(f, k) <==> Has(g, k))
    && (forall k :: Has(f, k) && Has(g, k) ==> Same(Lookup(f, k), Lookup(g, k)))
  }

  predicate Sorted(f: Fields) {
    f.Field? ==> Sorted(f.rest) && (f.rest.Field? ==> Before(f.key, f.rest.key))
  }

  lemma {:induction false} SortedHeadFirst(f: Fields, k: string)
    requires f.Field? && Sorted(f) && Has(f.rest, k)
    ensures Before(f.key, k)
    decreases f
  {
    if f.rest.key != k {
      SortedHeadFirst(f.rest, k);
      BeforeTransitive(f.key, f.rest.key, k);
    }
  }

  lemma {:induction false} InsertFacts(key: string, value: Json, f: Fields)
    requires Sorted(f) && !Has(f, key)
    ensures Sorted(Insert(key, value, f))
    ensures forall k :: Has(Insert(key, value, f), k) <==> k == key || Has(f, k)
    ensures forall k :: Has(Insert(key, value, f), k) ==>
      Lookup(Insert(key, value, f), k) == if k == key then value else Lookup(f, k)
    ensures Insert(key, value, f).key == key || (f.Field? && Insert(key, value, f).key == f.key)
    decreases f
  {
    if f.Field? {
      BeforeTotal(f.key, key);
      if Before(f.key, key) {
        InsertFacts(key, value, f.rest);
      }
    }
  }

  lemma {:induction false} CanonFieldsFacts(f: Fields)
    requires DistinctKeys(f)
    ensures Sorted(CanonFields(f))
    ensures forall k :: Has(CanonFields(f), k) <==> Has(f, k)
    ensures forall k :: Has(f, k) ==> Has(CanonFields(f), k) && Lookup(CanonFields(f), k) == Canon(Lookup(f, k))
    decreases f
  {
    if f.Field? {
      CanonFieldsFacts(f.rest);
      InsertFacts(f.key, Canon(f.value), CanonFields(f.rest));
    }
  }

  lemma {:induction false} SortedIsDistinct(f: Fields)
    requires Sorted(f)
    ensures DistinctKeys(f)
    decreases f
  {
    if f.Field? {
      SortedIsDistinct(f.rest);
      BeforeTotal(f.key, f.key);
      if Has(f.rest, f.key) {
        SortedHeadFirst(f, f.key);
      }
    }
  }

  // A sorted field list is determined by its lookups.
  lemma {:induction false} SortedUnique(f: Fields, g: Fields)
    requires Sorted(f) && Sorted(g)
    requires forall k :: Has(f, k) <==> Has(g, k)
    requires forall k :: Has(f, k) && Has(g, k) ==> Lookup(f, k) == Lookup(g, k)
    ensures f == g
    decreases f
  {
    if f.NoField? {
      assert g.Field? ==> Has(g, g.key);
    } else {
      assert Has(f, f.key) && Has(g, f.key) && Has(g, g.key) && Has(f, g.key);
      if f.key != g.key {
        SortedHeadFirst(f, g.key);
        SortedHeadFirst(g, f.key);
        BeforeTotal(f.key, g.key);
        assert false;
      }
      SortedIsDistinct(f);
      SortedIsDistinct(g);
      assert Lookup(f, f.key) == Lookup(g, f.key);
      forall k
        ensures Has(f.rest, k) <==> Has(g.rest, k)
        ensures Has(f.rest, k) && Has(g.rest, k) ==> Lookup(f.rest, k) == Lookup(g.rest, k)
      {
        assert Has(f.rest, k) <==> Has(f, k) && k != f.key;
        assert Has(g.rest, k) <==> Has(g, k) && k != g.key;
      }
      SortedUnique(f.rest, g.rest);
    }
  }

  lemma {:induction false} HasFieldRecord(f: Fields, k: string)
    requires FieldsAreRecords(f) && Has(f, k)
    ensures IsRecord(Lookup(f, k))
    decreases f
  {
    if f.key != k {
      HasFieldRecord(f.rest, k);
    }
  }

  // Two records have one canonical form exactly when they are equal as Python values.
  lemma {:induction false} CanonDecidesSame(v: Json, w: Json)
    requires IsRecord(v) && IsRecord(w)
    ensures Canon(v) == Canon(w) <==> Same(v, w)
    decreases v, 1
  {
    match v {
      case Arr(items) =>
        if w.Arr? {
          CanonDecidesSameItems(items, w.items);
        }
      case Obj(f) =>
        if w.Obj? {
          CanonDecidesSameFields(f, w.fields);
        }
      case _ =>
    }
  }

  lemma {:induction false} CanonDecidesSameItems(a: Items, b: Items)
    requires AreRecords(a) && AreRecords(b)
    ensures CanonItems(a) == CanonItems(b) <==> SameItems(a, b)
    decreases a, 1
  {
    if a.Item? && b.Item? {
      CanonDecidesSame(a.head, b.head);
      CanonDecidesSameItems(a.tail, b.tail);
    }
  }

  lemma {:induction false} CanonDecidesSameFields(f: Fields, g: Fields)
    requires DistinctKeys(f) && DistinctKeys(g) && FieldsAreRecords(f) && FieldsAreRecords(g)
    ensures CanonFields(f) == CanonFields(g) <==> SameFields(f, g)
    decreases f, 1
  {
    CanonFieldsFacts(f);
    CanonFieldsFacts(g);
    forall k | Has(f, k) && Has(g, k)
      ensures Canon(Lookup(f, k)) == Canon(Lookup(g, k)) <==> Same(Lookup(f, k), Lookup(g, k))
    {
      HasFieldRecord(f, k);
      HasFieldRecord(g, k);
      CanonDecidesSame(Lookup(f, k), Lookup(g, k));
    }
    if SameFields(f, g) {
      SortedUnique(CanonFields(f), CanonFields(g));
    } else if CanonFields(f) == CanonFields(g) {
      assert forall k :: Has(f, k) <==> Has(CanonFields(f), k);
      assert forall k :: Has(g, k) <==> Has(CanonFields(g), k);
    }
  }

  lemma {:induction false} CanonIsRecord(v: Json)
    requires IsRecord(v)
    ensures IsRecord(Canon(v))
    decreases v, 1
  {
    match v {
      case Arr(items) => CanonItemsAreRecords(items);
      case Obj(f) =>
        CanonFieldsFacts(f);
        SortedIsDistinct(CanonFields(f));
        CanonFieldsAreRecords(f);
      case _ =>
    }
  }

  lemma {:induction false} CanonItemsAreRecords(items: Items)
    requires AreRecords(items)
    ensures AreRecords(CanonItems(items))
    decreases items, 1
  {
    if items.Item? {
      CanonIsRecord(items.head);
      CanonItemsAreRecords(items.tail);
    }
  }

  lemma {:induction false} CanonFieldsAreRecords(f: Fields)
    requires FieldsAreRecords(f)
    ensures FieldsAreRecords(CanonFields(f))
    decreases f, 1
  {
    if f.Field? {
      CanonIsRecord(f.value);
      CanonFieldsAreRecords(f.rest);
      InsertRecord(f.key, Canon(f.value), CanonFields(f.rest));
    }
  }

  lemma {:induction false} InsertRecord(key: string, value: Json, f: Fields)
    requires IsRecord(value) && FieldsAreRecords(f)
    ensures FieldsAreRecords(Insert(key, value, f))
    decreases f
  {
    if f.Field? && Before(f.key, key) {
      InsertRecord(key, value, f.rest);
    }
  }

  // Parsing canonical text, with or without the hook, gives the record back, up to the order of its keys.
  lemma LoadsCanonicalText(v: Json, ascii: bool, strict: bool)
    requires IsRecord(v)
    ensures Loads(CanonicalText(v, ascii), strict) == Some(Canon(v)) && Same(v, Canon(v))
  {
    CanonIsRecord(v);
    LoadsWrite(Canon(v), ascii, strict);
    CanonIdempotent(v);
    CanonDecidesSame(v, Canon(v));
  }

  lemma {:induction false} CanonIdempotent(v: Json)
    requires IsRecord(v)
    ensures Canon(Canon(v)) == Canon(v)
    decreases v, 1
  {
    match v {
      case Arr(items) => CanonItemsIdempotent(items);
      case Obj(f) =>
        CanonFieldsFacts(f);
        SortedIsDistinct(CanonFields(f));
        CanonFieldsFacts(CanonFields(f));
        forall k | Has(f, k)
          ensures Canon(Canon(Lookup(f, k))) == Canon(Lookup(f, k))
        {
          HasFieldRecord(f, k);
          CanonIdempotent(Lookup(f, k));
        }
        SortedUnique(CanonFields(CanonFields(f)), CanonFields(f));
      case _ =>
    }
  }

  lemma {:induction false} CanonItemsIdempotent(items: Items)
    requires AreRecords(items)
    ensures CanonItems(CanonItems(items)) == CanonItems(items)
    decreases items, 1
  {
    if items.Item? {
      CanonIdempotent(items.head);
      CanonItemsIdempotent(items.tail);
    }
  }

  // Canonical text ignores key order and identifies the record: equal texts, equal records.
  lemma CanonicalTextIdentifies(v: Json, w: Json, ascii: bool)
    requires IsRecord(v) && IsRecord(w)
    ensures CanonicalText(v, ascii) == CanonicalText(w, ascii) <==> Same(v, w)
  {
    CanonDecidesSame(v, w);
    LoadsCanonicalText(v, ascii, true);
    LoadsCanonicalText(w, ascii, true);
  }

  // SHA-256, taken to be collision-free: a digest stands for the text it was taken of.
  datatype Digest = Sha256(text: string)

  function DigestOf(v: Json): Digest {
    Sha256(CanonicalText(v, false))
  }

  // ---- ASCII ----

  ghost predicate IsAscii(s: string) {
    forall i :: 0 <= i < |s| ==> ' ' <= s[i] <= '~'
  }

  lemma {:induction false} CharsAreAscii(s: string)
    ensures IsAscii(WriteChars(s, true))
  {
    if s != "" {
      CharsAreAscii(s[1..]);
      EscapeIsAscii(s[0]);
    }
  }

  lemma EscapeIsAscii(c: char)
    ensures IsAscii(Escape(c, true))
  {
    HexIsAscii(c);
  }

  lemma Hex4IsAscii(n: nat)
    requires n < 0x10000
    ensures IsAscii("\\u" + Hex4(n))
  {
  }

  lemma BothAscii(a: string, b: string)
    requires IsAscii(a) && IsAscii(b)
    ensures IsAscii(a + b)
  {
  }

  lemma PairIsAscii(high: nat, low: nat)
    requires high < 0x10000 && low < 0x10000
    ensures IsAscii("\\u" + Hex4(high) + ("\\u" + Hex4(low)))
  {
    Hex4IsAscii(high);
    Hex4IsAscii(low);
    BothAscii("\\u" + Hex4(high), "\\u" + Hex4(low));
  }

  lemma HexIsAscii(c: char)
    ensures IsAscii(HexEscaped(c))
  {
    if c as nat < 0x10000 {
      Hex4IsAscii(c as nat);
    } else {
      var n := c as nat - 0x10000;
      PairIsAscii(0xD800 + n / 1024, 0xDC00 + n % 1024);
    }
  }

  // With ensure_ascii=True the encoding to ASCII never fails.
  lemma {:induction false} TextIsAscii(v: Json)
    ensures IsAscii(Write(v, true))
    decreases v, 1
  {
    match v {
      case Int(i) => DigitsAreDigits(if i < 0 then -i else i);
      case Str(s) => CharsAreAscii(s);
      case Arr(items) => if items.Item? { ItemsAreAscii(items); }
      case Obj(f) => if f.Field? { FieldsAreAscii(f); }
      case _ =>
    }
  }

  lemma {:induction false} ItemsAreAscii(items: Items)
    requires items.Item?
    ensures IsAscii(WriteItems(items, true))
    decreases items, 2
  {
    TextIsAscii(items.head);
    if items.tail.Item? {
      ItemsAreAscii(items.tail);
    }
  }

  lemma {:induction false} FieldsAreAscii(f: Fields)
    requires f.Field?
    ensures IsAscii(WriteFields(f, true))
    decreases f, 2
  {
    CharsAreAscii(f.key);
    TextIsAscii(f.value);
    if f.rest.Field? {
      FieldsAreAscii(f.rest);
    }
  }

  // ---- the duplicate-key hook ----

  // Assignment to a new key of a dict.
  function Append(f: Fields, key: string, value: Json): Fields {
    if f.NoField? then Field(key, value, NoField) else Field(f.key, f.value, Append(f.rest, key, value))
  }

  lemma {:induction false} AppendFacts(f: Fields, key: string, value: Json)
    requires !Has(f, key)
    ensures forall k :: Has(Append(f, key, value), k) <==> k == key || Has(f, k)
    ensures forall k :: Has(Append(f, key, value), k) ==>
      Lookup(Append(f, key, value), k) == if k == key then value else Lookup(f, k)
    ensures DistinctKeys(f) ==> DistinctKeys(Append(f, key, value))
    ensures FieldsAreRecords(f) && IsRecord(value) ==> FieldsAreRecords(Append(f, key, value))
    decreases f
  {
    if f.Field? {
      AppendFacts(f.rest, key, value);
    }
  }

  function Concat(f: Fields, g: Fields): Fields {
    if f.NoField? then g else Field(f.key, f.value, Concat(f.rest, g))
  }

  lemma {:induction false} ConcatStep(f: Fields, g: Fields)
    requires g.Field?
    ensures Concat(Append(f, g.key, g.value), g.rest) == Concat(f, g)
    ensures Has(f, g.key) ==> !DistinctKeys(Concat(f, g))
  {
    if f.Field? {
      ConcatStep(f.rest, g);
      ConcatHas(f.rest, g, f.key);
    }
  }

  lemma {:induction false} ConcatHas(f: Fields, g: Fields, key: string)
    ensures Has(Concat(f, g), key) <==> Has(f, key) || Has(g, key)
  {
    if f.Field? {
      ConcatHas(f.rest, g, key);
    }
  }

  lemma {:induction false} ConcatNothing(f: Fields)
    ensures Concat(f, NoField) == f
  {
    if f.Field? {
      ConcatNothing(f.rest);
    }
  }

  // _no_duplicate_keys
  method NoDuplicateKeys(pairs: Fields) returns (r: Option<Fields>)
    ensures r == Pairs(pairs, true)
  {
    var out, left := NoField, pairs;
    while left.Field?
      invariant Concat(out, left) == pairs && DistinctKeys(out)
      decreases left
    {
      ConcatStep(out, left);
      if Has(out, left.key) {
        return None;
      }
      AppendFacts(out, left.key, left.value);
      out, left := Append(out, left.key, left.value), left.rest;
    }
    ConcatNothing(out);
    return Some(out);
  }
}
