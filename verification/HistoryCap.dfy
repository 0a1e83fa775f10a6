// The cap on the persisted history (_cap_history, _truncate_text in organism_console/state_store.py).
module HistoryCap {
  import opened PyText

  const MAX_MESSAGES: nat := 60
  const MAX_CHARS: int := 96000

  // An element of the history: a dict, by its role, str(content) and other keys; or not a dict.
  datatype Message = Dict(role: string, content: string, others: string) | NotDict(text: string)

  // A list of messages, from the oldest to the newest. The cap reads it from its newest end.
  datatype History = Empty | Upto(older: History, newest: Message)

  predicate IsUser(m: Message) {
    m.Dict? && m.role == "user"
  }

  function Size(m: Message): nat {
    if m.Dict? then |m.content| else 0
  }

  function Len(h: History): nat {
    if h.Empty? then 0 else Len(h.older) + 1
  }

  function Total(h: History): nat {
    if h.Empty? then 0 else Total(h.older) + Size(h.newest)
  }

  function One(m: Message): (h: History)
    ensures Len(h) == 1 && Total(h) == Size(m)
  {
    Upto(Empty, m)
  }

  // a + b
  function Cat(a: History, b: History): History {
    if b.Empty? then a else Upto(Cat(a, b.older), b.newest)
  }

  lemma {:induction false} CatSizes(a: History, b: History)
    ensures Len(Cat(a, b)) == Len(a) + Len(b) && Total(Cat(a, b)) == Total(a) + Total(b)
  {
    if b.Upto? {
      CatSizes(a, b.older);
    }
  }

  lemma {:induction false} CatAssociates(a: History, b: History, c: History)
    ensures Cat(Cat(a, b), c) == Cat(a, Cat(b, c))
  {
    if c.Upto? {
      CatAssociates(a, b, c.older);
    }
  }

  lemma {:induction false} CatEmpty(b: History)
    ensures Cat(Empty, b) == b
  {
    if b.Upto? {
      CatEmpty(b.older);
    }
  }

  // A Python list as a history.
  function OfSeq(s: seq<Message>): History {
    if s == [] then Empty else Upto(OfSeq(s[..|s| - 1]), s[|s| - 1])
  }

  lemma {:induction false} OfSeqCat(s: seq<Message>, t: seq<Message>)
    ensures OfSeq(s + t) == Cat(OfSeq(s), OfSeq(t))
  {
    if t == [] {
      assert s + t == s;
    } else {
      assert (s + t)[..|s + t| - 1] == s + t[..|t| - 1];
      OfSeqCat(s, t[..|t| - 1]);
    }
  }

  // All characters of a list of messages; what is not a message has none.
  function Contents(s: seq<Message>): string {
    if s == [] then "" else Contents(s[..|s| - 1]) + if s[|s| - 1].Dict? then s[|s| - 1].content else ""
  }

  lemma {:induction false} TotalIsLength(s: seq<Message>)
    ensures Len(OfSeq(s)) == |s| && Total(OfSeq(s)) == |Contents(s)|
  {
    if s != [] {
      TotalIsLength(s[..|s| - 1]);
    }
  }

  // No two lists are the same history.
  lemma {:induction false} OfSeqIsOneToOne(s: seq<Message>, t: seq<Message>)
    ensures OfSeq(s) == OfSeq(t) <==> s == t
  {
    if s != [] && t != [] {
      OfSeqIsOneToOne(s[..|s| - 1], t[..|t| - 1]);
      assert s == s[..|s| - 1] + [s[|s| - 1]] && t == t[..|t| - 1] + [t[|t| - 1]];
    }
  }

  // ---- truncation ----

  function Marker(): string {
    "\n\U{2026} [truncated to fit the session size cap] \U{2026}\n"
  }

  // _truncate_text
  function Truncate(text: string, maxChars: nat): string {
    if |text| <= maxChars then text
    else if maxChars <= |Marker()| + 2 then text[..maxChars]
    else
      var head := (maxChars - |Marker()|) / 2;
      var tail := maxChars - |Marker()| - head;
      text[..head] + Marker() + text[|text| - tail..]
  }

  // Truncation fills its budget exactly, and a long text keeps its beginning and its end.
  lemma TruncateFits(text: string, maxChars: nat)
    ensures |Truncate(text, maxChars)| == if |text| <= maxChars then |text| else maxChars
    ensures forall k: nat :: 2 * k <= maxChars - |Marker()| - 1 && k <= |text| ==>
      Truncate(text, maxChars)[..k] == text[..k]
      && Truncate(text, maxChars)[|Truncate(text, maxChars)| - k..] == text[|text| - k..]
  {
  }

  // ---- the cap ----

  predicate HasUser(h: History) {
    h.Upto? && (HasUser(h.older) || IsUser(h.newest))
  }

  // The first user message.
  function First(h: History): (m: Message)
    requires HasUser(h)
    ensures IsUser(m)
  {
    if HasUser(h.older) then First(h.older) else h.newest
  }

  function Kept(h: History): History {
    if HasUser(h) then One(First(h)) else Empty
  }

  // The messages other than the first user message, in order.
  function Others(h: History): History {
    if !HasUser(h) then h
    else if HasUser(h.older) then Upto(Others(h.older), h.newest)
    else h.older
  }

  // The newest message when it alone is too long for the `chars` already used.
  predicate Squeezed(m: Message, chars: int) {
    m.Dict? && chars + Size(m) > MAX_CHARS && MAX_CHARS - chars >= 64
  }

  function Squeeze(m: Message, chars: int): Message
    requires Squeezed(m, chars)
  {
    m.(content := Truncate(m.content, MAX_CHARS - chars))
  }

  // A shortened message fills what was left exactly.
  lemma SqueezedSize(m: Message, chars: int)
    requires Squeezed(m, chars)
    ensures chars + Size(Squeeze(m, chars)) == MAX_CHARS
  {
    TruncateFits(m.content, MAX_CHARS - chars);
  }

  // The newest messages, read backwards, that fit into the remaining slots and characters.
  function Fit(rest: History, chars: int, slots: int): History {
    if rest.Empty? || slots <= 0 || chars + Size(rest.newest) > MAX_CHARS then Empty
    else Upto(Fit(rest.older, chars + Size(rest.newest), slots - 1), rest.newest)
  }

  // The kept end of the history: the newest messages that fit, the newest one shortened if need be.
  function Tail(rest: History, chars: int, slots: int): History {
    if rest.Upto? && slots > 0 && Squeezed(rest.newest, chars) then
      var m := Squeeze(rest.newest, chars);
      Upto(Fit(rest.older, chars + Size(m), slots - 1), m)
    else Fit(rest, chars, slots)
  }

  function Notice(dropped: nat): Message {
    Dict("user", NoticeText(dropped), "")
  }

  const NOTICE_HEAD := "[system: "
  const NOTICE_TAIL := " earlier message(s) dropped from the persisted session to bound its size]"

  function NoticeText(dropped: nat): string {
    NOTICE_HEAD + Digits(dropped) + NOTICE_TAIL
  }

  // The number that a reader finds between the two.
  function NumberIn(text: string): nat
    requires |text| >= |NOTICE_HEAD| + |NOTICE_TAIL|
  {
    NatValue(text[|NOTICE_HEAD|..|text| - |NOTICE_TAIL|])
  }

  lemma NoticeReads(d: nat)
    ensures |NoticeText(d)| >= |NOTICE_HEAD| + |NOTICE_TAIL| && NumberIn(NoticeText(d)) == d
  {
    var text := NoticeText(d);
    assert text[|NOTICE_HEAD|..|text| - |NOTICE_TAIL|] == Digits(d);
    DigitsDenote(d);
  }

  lemma NoticesDiffer(d: nat, e: nat)
    ensures Notice(d) == Notice(e) <==> d == e
  {
    NoticeReads(d);
    NoticeReads(e);
  }

  predicate WithinCaps(h: History) {
    Len(h) <= MAX_MESSAGES && Total(h) <= MAX_CHARS
  }

  function Slots(h: History): nat {
    if HasUser(h) then MAX_MESSAGES - 1 else MAX_MESSAGES
  }

  function KeptTail(h: History): History {
    Tail(Others(h), Total(Kept(h)), Slots(h))
  }

  function Dropped(h: History): int {
    Len(h) - Len(Kept(h)) - Len(KeptTail(h))
  }

  // The notice, if anything was left out.
  function Noticed(dropped: int): History {
    if dropped > 0 then One(Notice(dropped)) else Empty
  }

  function Cap(h: History): History {
    if WithinCaps(h) then h else Cat(Cat(Kept(h), Noticed(Dropped(h))), KeptTail(h))
  }

  // ---- its loop ----

  // The position of the first user message, or |s|.
  method FirstUser(s: seq<Message>) returns (i: nat)
    ensures i <= |s| && (i < |s| <==> HasUser(OfSeq(s)))
    ensures i < |s| ==> s[i] == First(OfSeq(s))
    ensures Others(OfSeq(s)) == OthersUpTo(s, i, |s|)
  {
    i := 0;
    while i < |s| && !IsUser(s[i])
      invariant i <= |s| && !HasUser(OfSeq(s[..i]))
    {
      assert s[..i + 1][..i] == s[..i];
      i := i + 1;
    }
    FirstUserIs(s, i, |s|);
    assert s[..|s|] == s;
  }

  // The other messages among the first n of the list.
  function OthersUpTo(s: seq<Message>, head: nat, n: nat): History
    requires n <= |s|
  {
    if n == 0 then Empty
    else if n - 1 == head then OthersUpTo(s, head, n - 1)
    else Upto(OthersUpTo(s, head, n - 1), s[n - 1])
  }

  lemma {:induction false} FirstUserIs(s: seq<Message>, i: nat, n: nat)
    requires i <= |s| && n <= |s| && !HasUser(OfSeq(s[..i])) && (i < |s| ==> IsUser(s[i]))
    ensures HasUser(OfSeq(s[..n])) <==> i < n
    ensures i < n ==> First(OfSeq(s[..n])) == s[i]
    ensures Others(OfSeq(s[..n])) == OthersUpTo(s, i, n)
  {
    if n > 0 {
      assert s[..n][..n - 1] == s[..n - 1];
      FirstUserIs(s, i, n - 1);
      if n <= i {
        NoUserBefore(s, i, n);
      } else if n - 1 == i {
        PlainUpTo(s, i, i);
      }
    }
  }

  lemma {:induction false} NoUserBefore(s: seq<Message>, i: nat, n: nat)
    requires n <= i <= |s| && !HasUser(OfSeq(s[..i]))
    ensures !HasUser(OfSeq(s[..n]))
  {
    if n < i {
      assert s[..i][..i - 1] == s[..i - 1];
      NoUserBefore(s, i - 1, n);
    }
  }

  lemma {:induction false} PlainUpTo(s: seq<Message>, head: nat, n: nat)
    requires n <= head && n <= |s|
    ensures OthersUpTo(s, head, n) == OfSeq(s[..n])
  {
    if n > 0 {
      assert s[..n][..n - 1] == s[..n - 1];
      PlainUpTo(s, head, n - 1);
    }
  }

  // What the loop will still put in front of the tail it has.
  function Ahead(left: History, chars: int, slots: int, first: bool): History {
    if first then Tail(left, chars, slots) else Fit(left, chars, slots)
  }

  // What the loop takes of a message, or None where it stops.
  function Taken(m: Message, chars: int, first: bool): Option<Message> {
    if chars + Size(m) <= MAX_CHARS then Some(m)
    else if first && Squeezed(m, chars) then Some(Squeeze(m, chars))
    else None
  }

  method TakeOne(m: Message, chars: int, first: bool) returns (r: Option<Message>)
    ensures r == Taken(m, chars, first)
  {
    if chars + Size(m) > MAX_CHARS {
      var room := MAX_CHARS - chars;
      if !first || m.NotDict? || room < 64 {
        return None;
      }
      return Some(m.(content := Truncate(m.content, room)));
    }
    return Some(m);
  }

  // One round of the loop: it stops, or puts one message in front of the tail.
  lemma AheadStep(left: History, chars: int, slots: int, first: bool)
    ensures left.Empty? || slots <= 0 || Taken(left.newest, chars, first).None? ==> Ahead(left, chars, slots, first) == Empty
    ensures left.Upto? && slots > 0 && Taken(left.newest, chars, first).Some? ==>
      var x := Taken(left.newest, chars, first).value;
      Ahead(left, chars, slots, first) == Upto(Ahead(left.older, chars + Size(x), slots - 1, false), x)
  {
  }

  lemma PutInFront(a: History, x: Message, tail: seq<Message>)
    ensures Cat(Upto(a, x), OfSeq(tail)) == Cat(a, OfSeq([x] + tail))
  {
    OfSeqCat([x], tail);
    assert [x][..0] == [];
    CatAssociates(a, One(x), OfSeq(tail));
  }

  // The loop of _cap_history, from the newest message backwards.
  method CollectTail(history: seq<Message>, head: nat, kept: nat, used: nat) returns (tail: seq<Message>)
    ensures OfSeq(tail) == Tail(OthersUpTo(history, head, |history|), used, MAX_MESSAGES - kept)
  {
    var chars: int := used;
    tail := [];
    ghost var goal := Tail(OthersUpTo(history, head, |history|), used, MAX_MESSAGES - kept);
    var i := |history|;
    while i > 0
      invariant 0 <= i <= |history|
      invariant goal == Cat(Ahead(OthersUpTo(history, head, i), chars, MAX_MESSAGES - kept - |tail|, tail == []), OfSeq(tail))
    {
      i := i - 1;
      if i == head {
        continue;
      }
      AheadStep(OthersUpTo(history, head, i + 1), chars, MAX_MESSAGES - kept - |tail|, tail == []);
      CatEmpty(OfSeq(tail));
      if kept + |tail| >= MAX_MESSAGES {
        return;
      }
      var taken := TakeOne(history[i], chars, tail == []);
      if taken.None? {
        return;
      }
      PutInFront(Ahead(OthersUpTo(history, head, i), chars + Size(taken.value), MAX_MESSAGES - kept - |tail| - 1, false), taken.value, tail);
      tail := [taken.value] + tail;
      chars := chars + Size(taken.value);
    }
    CatEmpty(OfSeq(tail));
  }

  lemma {:induction false} SeqSizes(s: seq<Message>)
    ensures Len(OfSeq(s)) == |s|
  {
    if s != [] {
      SeqSizes(s[..|s| - 1]);
    }
  }

  // sum(len(str(m.get("content", ""))) for m in history)
  method TotalOf(history: seq<Message>) returns (total: nat)
    ensures total == Total(OfSeq(history))
  {
    total := 0;
    for i := 0 to |history|
      invariant total == Total(OfSeq(history[..i]))
    {
      assert history[..i + 1][..i] == history[..i];
      total := total + Size(history[i]);
    }
    assert history[..|history|] == history;
  }

  // _cap_history
  method CapHistory(history: seq<Message>) returns (out: seq<Message>)
    ensures OfSeq(out) == Cap(OfSeq(history))
  {
    if history == [] {
      return history;
    }
    var total := TotalOf(history);
    SeqSizes(history);
    if |history| <= MAX_MESSAGES && total <= MAX_CHARS {
      return history;
    }
    out := CutDown(history);
  }

  // What it does with a history over the caps.
  method CutDown(history: seq<Message>) returns (out: seq<Message>)
    ensures var h := OfSeq(history); OfSeq(out) == Cat(Cat(Kept(h), Noticed(Dropped(h))), KeptTail(h))
  {
    var head := FirstUser(history);
    var kept := if head < |history| then [history[head]] else [];
    KeptIs(history, head, kept);
    var tail := CollectTail(history, head, |kept|, if head < |history| then Size(history[head]) else 0);
    SeqSizes(history);
    SeqSizes(tail);
    var notice := Elision(|history| - |kept| - |tail|);
    out := kept + notice + tail;
    ThreeParts(kept, notice, tail);
  }

  lemma ThreeParts(a: seq<Message>, b: seq<Message>, c: seq<Message>)
    ensures OfSeq(a + b + c) == Cat(Cat(OfSeq(a), OfSeq(b)), OfSeq(c))
  {
    OfSeqCat(a + b, c);
    OfSeqCat(a, b);
  }

  lemma KeptIs(history: seq<Message>, head: nat, kept: seq<Message>)
    requires head <= |history| && (head < |history| <==> HasUser(OfSeq(history)))
    requires head < |history| ==> history[head] == First(OfSeq(history))
    requires kept == if head < |history| then [history[head]] else []
    ensures OfSeq(kept) == Kept(OfSeq(history)) && Len(Kept(OfSeq(history))) == |kept|
    ensures Total(Kept(OfSeq(history))) == if head < |history| then Size(history[head]) else 0
    ensures Slots(OfSeq(history)) == MAX_MESSAGES - |kept|
  {
    if kept != [] {
      assert kept[..0] == [];
    }
  }

  // The notice as a list.
  method Elision(dropped: int) returns (notice: seq<Message>)
    ensures OfSeq(notice) == Noticed(dropped)
  {
    notice := [];
    if dropped > 0 {
      notice := [Notice(dropped)];
      assert notice[..0] == [];
    }
  }

  // ---- what a capped history is ----

  lemma {:induction false} FitSizes(rest: History, chars: int, slots: int)
    ensures Len(Fit(rest, chars, slots)) <= Len(rest) && (slots >= 0 ==> Len(Fit(rest, chars, slots)) <= slots)
    ensures Fit(rest, chars, slots).Upto? ==> chars + Total(Fit(rest, chars, slots)) <= MAX_CHARS
  {
    if rest.Upto? {
      FitSizes(rest.older, chars + Size(rest.newest), slots - 1);
    }
  }

  lemma TailSizes(rest: History, chars: int, slots: int)
    ensures Len(Tail(rest, chars, slots)) <= Len(rest) && (slots >= 0 ==> Len(Tail(rest, chars, slots)) <= slots)
    ensures Tail(rest, chars, slots).Upto? ==> chars + Total(Tail(rest, chars, slots)) <= MAX_CHARS
  {
    FitSizes(rest, chars, slots);
    if rest.Upto? && slots > 0 && Squeezed(rest.newest, chars) {
      SqueezedSize(rest.newest, chars);
      FitSizes(rest.older, MAX_CHARS, slots - 1);
    }
  }

  lemma {:induction false} OthersLen(h: History)
    ensures Len(Kept(h)) + Len(Others(h)) == Len(h) && Len(Kept(h)) + Slots(h) == MAX_MESSAGES
    ensures Total(Kept(h)) + Total(Others(h)) == Total(h)
  {
    if HasUser(h) && HasUser(h.older) {
      OthersLen(h.older);
    }
  }

  // The history without its newest n messages.
  function Before(h: History, n: nat): History {
    if h.Empty? || n == 0 then h else Before(h.older, n - 1)
  }

  // The taken messages are a contiguous end of the rest, and nothing more would have fitted.
  ghost predicate IsEnd(taken: History, rest: History, chars: int, slots: int) {
    var left := Before(rest, Len(taken));
    && rest == Cat(left, taken)
    && (left.Empty? || Len(taken) >= slots || chars + Total(taken) + Size(left.newest) > MAX_CHARS)
  }

  // The kept end is a contiguous end of the other messages; only its newest member may have been
  // shortened, and only because it alone was too long.
  ghost predicate NewestThatFit(taken: History, rest: History, chars: int, slots: int) {
    if taken.Upto? && rest.Upto? && Squeezed(rest.newest, chars) then
      && taken.newest == Squeeze(rest.newest, chars)
      && IsEnd(taken.older, rest.older, chars + Size(taken.newest), slots - 1)
    else IsEnd(taken, rest, chars, slots)
  }

  lemma {:induction false} FitIsEnd(rest: History, chars: int, slots: int)
    ensures IsEnd(Fit(rest, chars, slots), rest, chars, slots)
  {
    if Fit(rest, chars, slots).Upto? {
      FitIsEnd(rest.older, chars + Size(rest.newest), slots - 1);
    }
  }

  lemma TailIsNewestThatFit(rest: History, chars: int, slots: int)
    ensures NewestThatFit(Tail(rest, chars, slots), rest, chars, slots)
  {
    FitIsEnd(rest, chars, slots);
    if rest.Upto? && slots > 0 && Squeezed(rest.newest, chars) {
      FitIsEnd(rest.older, chars + Size(Squeeze(rest.newest, chars)), slots - 1);
    }
  }

  // The shape of a capped history: the first user message, a notice with the exact number of messages
  // that this cap left out when there are any, and the kept end of the others.
  lemma CappedShape(h: History)
    requires !WithinCaps(h)
    ensures Dropped(h) >= 0 && Cap(h) == Cat(Cat(Kept(h), Noticed(Dropped(h))), KeptTail(h))
    ensures Len(Kept(h)) + Len(KeptTail(h)) <= 60
    ensures Len(Cap(h)) == Len(h) - Dropped(h) + if Dropped(h) > 0 then 1 else 0
  {
    KeptLens(h);
    CatSizes(Cat(Kept(h), Noticed(Dropped(h))), KeptTail(h));
    CatSizes(Kept(h), Noticed(Dropped(h)));
  }

  // What the notice says, read back, is how many messages of the history are missing from the saved one.
  lemma NoticeSaysWhatIsMissing(h: History) returns (notice: History)
    requires !WithinCaps(h)
    ensures Cap(h) == Cat(Cat(Kept(h), notice), KeptTail(h)) && (notice == Empty <==> Len(Cap(h)) == Len(h) && Dropped(h) == 0)
    ensures notice.Upto? ==>
      var m := notice.newest;
      && notice == One(m) && IsUser(m) && |m.content| >= |NOTICE_HEAD| + |NOTICE_TAIL|
      && Len(Cap(h)) - 1 == Len(Kept(h)) + Len(KeptTail(h)) && NumberIn(m.content) == Len(h) - (Len(Cap(h)) - 1)
  {
    notice := Noticed(Dropped(h));
    CappedShape(h);
    if Dropped(h) > 0 {
      NoticeReads(Dropped(h));
    }
  }

  lemma KeptLens(h: History)
    ensures Dropped(h) >= 0 && Len(Kept(h)) + Len(KeptTail(h)) <= MAX_MESSAGES
  {
    OthersLen(h);
    TailSizes(Others(h), Total(Kept(h)), Slots(h));
  }

  // The kept end holds the newest other messages that fit beside the first user message.
  lemma KeptTailIsNewest(h: History)
    ensures NewestThatFit(KeptTail(h), Others(h), Total(Kept(h)), Slots(h))
  {
    TailIsNewestThatFit(Others(h), Total(Kept(h)), Slots(h));
  }

  // The characters outside the notice stay within the cap, unless the first user message alone exceeds
  // it: then it is kept whole, and alone.
  lemma CappedCharacters(h: History)
    ensures Total(Kept(h)) + Total(KeptTail(h)) <= 96000 || KeptTail(h) == Empty
  {
    TailSizes(Others(h), Total(Kept(h)), Slots(h));
  }

  // The newest of the other messages is kept, whole or shortened, exactly when it fits into 96000
  // characters beside the first user message, or is a dict and at least 64 of them are left.
  lemma NewestIsKeptIff(h: History)
    requires Others(h).Upto?
    ensures KeptTail(h).Upto? <==>
      Total(Kept(h)) + Size(Others(h).newest) <= 96000 || (Others(h).newest.Dict? && Total(Kept(h)) + 64 <= 96000)
  {
  }

  lemma CappedTotal(h: History)
    requires !WithinCaps(h)
    ensures Total(Cap(h)) == Total(Kept(h)) + Total(Noticed(Dropped(h))) + Total(KeptTail(h))
  {
    CatSizes(Cat(Kept(h), Noticed(Dropped(h))), KeptTail(h));
    CatSizes(Kept(h), Noticed(Dropped(h)));
  }

  // The documentation calls the bound on the characters hard. It is exceeded exactly when the first user
  // message is too long, or there is a notice and it finds no room in what the kept messages leave; but
  // never by more than the notice unless the first user message is too long.
  lemma OverBudgetIff(h: History)
    ensures Total(Cap(h)) > 96000 <==>
      (!WithinCaps(h) && (Total(Kept(h)) > 96000
        || (Dropped(h) > 0 && Total(Noticed(Dropped(h))) > 96000 - Total(Kept(h)) - Total(KeptTail(h)))))
    ensures Total(Kept(h)) <= 96000 ==> Total(Cap(h)) <= 96000 + Total(Noticed(Dropped(h)))
  {
    if !WithinCaps(h) {
      CappedTotal(h);
      CappedCharacters(h);
    }
  }

  // When the newest message is shortened it leaves no room: then any message left out is one too many.
  lemma ShortenedOverBudgetIff(h: History)
    requires Others(h).Upto? && Squeezed(Others(h).newest, Total(Kept(h)))
    ensures Total(Cap(h)) > 96000 <==> Len(h) > 60 || Total(Others(h).older) > 0
    ensures Total(Cap(h)) == 96000 + Total(Noticed(Dropped(h)))
  {
    OthersLen(h);
    ShortenedLeavesOut(h);
    ShortenedFills(h);
    CappedTotal(h);
  }

  lemma ShortenedLeavesOut(h: History)
    requires Others(h).Upto? && Squeezed(Others(h).newest, Total(Kept(h)))
    ensures Dropped(h) > 0 <==> Len(h) > MAX_MESSAGES || Total(Others(h).older) > 0
  {
    OthersLen(h);
    ShortenedTail(Others(h), Total(Kept(h)), Slots(h));
  }

  lemma ShortenedTail(rest: History, chars: int, slots: nat)
    requires rest.Upto? && Squeezed(rest.newest, chars) && slots > 0
    ensures Len(Tail(rest, chars, slots)) < Len(rest) <==> Len(rest) > slots || Total(rest.older) > 0
  {
    SqueezedSize(rest.newest, chars);
    FitAll(rest.older, MAX_CHARS, slots - 1);
    FitSizes(rest.older, MAX_CHARS, slots - 1);
  }

  lemma ShortenedFills(h: History)
    requires Others(h).Upto? && Squeezed(Others(h).newest, Total(Kept(h)))
    ensures Total(Kept(h)) + Total(KeptTail(h)) == MAX_CHARS
  {
    SqueezedSize(Others(h).newest, Total(Kept(h)));
    CappedCharacters(h);
  }

  // ---- the first user message ----

  lemma {:induction false} UserInCat(a: History, b: History)
    ensures HasUser(Cat(a, b)) <==> HasUser(a) || HasUser(b)
    ensures HasUser(a) ==> First(Cat(a, b)) == First(a) && Others(Cat(a, b)) == Cat(Others(a), b)
    ensures !HasUser(a) && HasUser(b) ==> First(Cat(a, b)) == First(b)
  {
    if b.Upto? {
      UserInCat(a, b.older);
    }
  }

  lemma CapKeepsFirst(h: History)
    requires HasUser(h)
    ensures HasUser(Cap(h)) && First(Cap(h)) == First(h)
  {
    if !WithinCaps(h) {
      UserInCat(Cat(Kept(h), Noticed(Dropped(h))), KeptTail(h));
      UserInCat(Kept(h), Noticed(Dropped(h)));
    }
  }

  // A session: cap on save, then append, over and over.
  function Cycles(h: History, batches: seq<History>): History
    decreases |batches|
  {
    if batches == [] then h else Cycles(Cat(Cap(h), batches[0]), batches[1..])
  }

  // However often the history is capped and extended, the first user message is unchanged.
  lemma {:induction false} FirstUserSurvives(h: History, batches: seq<History>)
    requires HasUser(h)
    ensures HasUser(Cycles(h, batches)) && First(Cycles(h, batches)) == First(h)
    decreases |batches|
  {
    if batches != [] {
      CapKeepsFirst(h);
      UserInCat(Cap(h), batches[0]);
      FirstUserSurvives(Cat(Cap(h), batches[0]), batches[1..]);
    }
  }

  // Everything fits exactly when it is within the slots and the characters.
  lemma {:induction false} FitAll(rest: History, chars: int, slots: int)
    requires chars <= MAX_CHARS && slots >= 0
    ensures Len(Fit(rest, chars, slots)) == Len(rest) <==> Len(rest) <= slots && chars + Total(rest) <= MAX_CHARS
  {
    if rest.Upto? && slots > 0 && chars + Size(rest.newest) <= MAX_CHARS {
      FitAll(rest.older, chars + Size(rest.newest), slots - 1);
    }
  }

  // No user message comes from where there was none.
  lemma {:induction false} FitHasNoUser(rest: History, chars: int, slots: int)
    requires !HasUser(rest)
    ensures !HasUser(Fit(rest, chars, slots))
  {
    if rest.Upto? {
      FitHasNoUser(rest.older, chars + Size(rest.newest), slots - 1);
    }
  }

  lemma TailHasNoUser(rest: History, chars: int, slots: int)
    requires !HasUser(rest)
    ensures !HasUser(Tail(rest, chars, slots))
  {
    FitHasNoUser(rest, chars, slots);
    if rest.Upto? && Squeezed(rest.newest, chars) {
      FitHasNoUser(rest.older, chars + Size(Squeeze(rest.newest, chars)), slots - 1);
    }
  }

  // With no user message, nothing is left out exactly when the count fits and all but the newest message
  // are empty.
  lemma AllKeptIff(h: History)
    requires h.Upto? && !HasUser(h) && !WithinCaps(h)
    ensures Dropped(h) > 0 <==> Len(h) > MAX_MESSAGES || Total(h.older) > 0
  {
    TailSizes(h, 0, MAX_MESSAGES);
    if Squeezed(h.newest, 0) {
      SqueezedSize(h.newest, 0);
      FitAll(h.older, MAX_CHARS, MAX_MESSAGES - 1);
    } else {
      FitAll(h, 0, MAX_MESSAGES);
    }
  }

  // A capped history has a user message, except where there was none and nothing had to be left out:
  // then one over-long newest message is shortened and no notice is added.
  lemma UserAnchorIff(h: History)
    requires h.Upto?
    ensures HasUser(Cap(h)) <==> HasUser(h) || Len(h) > 60 || (Total(h) > 96000 && Total(h.older) > 0)
  {
    if HasUser(h) {
      CapKeepsFirst(h);
    } else if !WithinCaps(h) {
      AllKeptIff(h);
      TailHasNoUser(h, 0, 60);
      UserInCat(Cat(Kept(h), Noticed(Dropped(h))), KeptTail(h));
      UserInCat(Kept(h), Noticed(Dropped(h)));
    }
  }

  // For one, a single over-long answer: it is saved shortened, and alone.
  lemma LoneAnswer(text: string)
    requires |text| > 96000
    ensures var m := Dict("assistant", text, "");
      Cap(One(m)) == One(m.(content := Truncate(text, 96000))) && !HasUser(Cap(One(m)))
  {
    var m := Dict("assistant", text, "");
    assert "assistant"[0] == 'a' && !IsUser(m);
    UserAnchorIff(One(m));
    assert Cat(Empty, KeptTail(One(m))) == KeptTail(One(m));
  }
}
