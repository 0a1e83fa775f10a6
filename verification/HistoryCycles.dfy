// What happens to a saved history when it is loaded, extended and saved again (_cap_history in
// organism_console/state_store.py).
module HistoryCycles {
  import opened PyText
  import opened HistoryCap

  // ---- when the count goes over its bound ----

  // The newest n messages.
  function End(h: History, n: nat): History {
    if h.Empty? || n == 0 then Empty else Upto(End(h.older, n - 1), h.newest)
  }

  // The messages e are all kept after `chars` characters: the newest may be shortened, and then the rest
  // has to be empty.
  predicate AllKept(e: History, chars: int) {
    e.Upto? && if Squeezed(e.newest, chars) then Total(e.older) == 0 else chars + Total(e) <= MAX_CHARS
  }

  lemma {:induction false} FitFills(rest: History, chars: int, slots: nat)
    requires slots <= Len(rest)
    ensures Len(Fit(rest, chars, slots)) == slots <==> slots == 0 || chars + Total(End(rest, slots)) <= MAX_CHARS
  {
    if slots > 0 {
      FitFills(rest.older, chars + Size(rest.newest), slots - 1);
    }
  }

  lemma TailFills(rest: History, chars: int, slots: nat)
    requires 0 < slots <= Len(rest)
    ensures Len(Tail(rest, chars, slots)) == slots <==> AllKept(End(rest, slots), chars)
  {
    FitFills(rest, chars, slots);
    if Squeezed(rest.newest, chars) {
      SqueezedSize(rest.newest, chars);
      FitFills(rest.older, MAX_CHARS, slots - 1);
    }
  }

  // More than 60 messages are saved exactly when there were more than 60 and the newest of the others, as
  // many as have a slot beside the first user message, are all kept: then the notice is the 61st.
  lemma SixtyOneIff(h: History)
    ensures Len(Cap(h)) > 60 <==> Len(h) > 60 && AllKept(End(Others(h), Slots(h)), Total(Kept(h)))
    ensures Len(Cap(h)) <= 61 || WithinCaps(h)
  {
    if !WithinCaps(h) {
      CappedShape(h);
      OthersLen(h);
      if Len(h) > 60 {
        TailFills(Others(h), Total(Kept(h)), Slots(h));
      }
    }
  }

  // For one, any 61 or more messages without content.
  lemma SixtyOneMessages(h: History)
    requires Len(h) > 60 && Total(h) == 0
    ensures Len(Cap(h)) == 61
  {
    OthersLen(h);
    EndTotal(Others(h), Slots(h));
    SixtyOneIff(h);
  }

  lemma {:induction false} EndTotal(h: History, n: nat)
    ensures Total(End(h, n)) <= Total(h)
    ensures h.Upto? && n > 0 ==> End(h, n).Upto?
  {
    if h.Upto? && n > 0 {
      EndTotal(h.older, n - 1);
    }
  }

  // ---- saving what was saved ----

  // A saved history with a notice.
  function Noted(u: Message, d: nat, tail: History): History {
    Cat(Upto(One(u), Notice(d)), tail)
  }

  lemma NotedParts(u: Message, d: nat, tail: History)
    requires IsUser(u)
    ensures HasUser(Noted(u, d, tail)) && First(Noted(u, d, tail)) == u
    ensures Others(Noted(u, d, tail)) == Cat(One(Notice(d)), tail)
    ensures Len(Noted(u, d, tail)) == 2 + Len(tail) && Total(Noted(u, d, tail)) == Size(u) + Size(Notice(d)) + Total(tail)
  {
    UserInCat(Upto(One(u), Notice(d)), tail);
    CatSizes(Upto(One(u), Notice(d)), tail);
  }

  // A notice that does not fit before the kept end is left out, and nothing else is.
  lemma {:induction false} FitAllBut(n: Message, tail: History, chars: int, slots: int)
    requires Len(tail) <= slots && (tail.Upto? ==> chars + Total(tail) <= MAX_CHARS)
    requires Len(tail) == slots || chars + Total(tail) + Size(n) > MAX_CHARS
    ensures Fit(Cat(One(n), tail), chars, slots) == tail
  {
    if tail.Upto? {
      FitAllBut(n, tail.older, chars + Size(tail.newest), slots - 1);
    }
  }

  // The end that one cap has kept behind the first user message u.
  ghost predicate KeptBehind(u: Message, tail: History) {
    && Len(tail) < MAX_MESSAGES
    && (tail.Upto? ==> Size(u) + Total(tail) <= MAX_CHARS)
    && (tail.Empty? ==> MAX_CHARS - Size(u) < 64)
  }

  // When the notice is what makes it too much, the notice is left out, and replaced by one that counts it.
  lemma NotedAgain(u: Message, d: nat, tail: History)
    requires IsUser(u) && KeptBehind(u, tail) && !WithinCaps(Noted(u, d, tail))
    ensures Cap(Noted(u, d, tail)) == Noted(u, 1, tail)
  {
    NotedParts(u, d, tail);
    TailAllBut(Notice(d), tail, Size(u), MAX_MESSAGES - 1);
    assert Kept(Noted(u, d, tail)) == One(u);
    assert Cat(One(u), One(Notice(1))) == Upto(One(u), Notice(1));
  }

  lemma TailAllBut(n: Message, tail: History, chars: int, slots: int)
    requires Len(tail) <= slots && (tail.Upto? ==> chars + Total(tail) <= MAX_CHARS)
    requires Len(tail) == slots || chars + Total(tail) + Size(n) > MAX_CHARS
    requires tail.Empty? ==> MAX_CHARS - chars < 64
    ensures Tail(Cat(One(n), tail), chars, slots) == tail
  {
    FitAllBut(n, tail, chars, slots);
  }

  lemma FirstCapKeeps(h: History)
    requires !WithinCaps(h) && HasUser(h) && Dropped(h) > 0
    ensures KeptBehind(First(h), KeptTail(h)) && Cap(h) == Noted(First(h), Dropped(h), KeptTail(h))
  {
    KeptLens(h);
    OthersLen(h);
    CappedCharacters(h);
    assert Cat(One(First(h)), One(Notice(Dropped(h)))) == Upto(One(First(h)), Notice(Dropped(h)));
  }

  // ---- when saving again changes nothing ----

  lemma {:induction false} NotedIsOneToOne(u: Message, d: nat, e: nat, tail: History)
    ensures Noted(u, d, tail) == Noted(u, e, tail) <==> Notice(d) == Notice(e)
  {
    if tail.Upto? {
      NotedIsOneToOne(u, d, e, tail.older);
    }
  }

  // Saving the saved history again changes nothing exactly when it is within the caps, or there is a
  // first user message and at most one message was left out.
  lemma CapIdempotentIff(h: History)
    ensures Cap(Cap(h)) == Cap(h) <==> WithinCaps(Cap(h)) || (HasUser(h) && Dropped(h) <= 1)
  {
    if !WithinCaps(h) && !WithinCaps(Cap(h)) {
      if !HasUser(h) {
        AgainWithoutUser(h);
      } else if Dropped(h) > 0 {
        FirstCapKeeps(h);
        NotedAgain(First(h), Dropped(h), KeptTail(h));
        NoticesDiffer(Dropped(h), 1);
        NotedIsOneToOne(First(h), Dropped(h), 1, KeptTail(h));
      } else {
        NothingLeftOut(h);
      }
    }
  }

  // For one, 62 or more messages without content and with a user message: saved twice, they differ.
  lemma EmptyMessagesDiffer(h: History)
    requires HasUser(h) && Len(h) > 61 && Total(h) == 0
    ensures Cap(Cap(h)) != Cap(h)
  {
    SixtyOneMessages(h);
    CappedShape(h);
    CapIdempotentIff(h);
  }

  // With nothing left out, only a first user message that is too long by itself is over the caps.
  lemma NothingLeftOut(h: History)
    requires !WithinCaps(h) && !WithinCaps(Cap(h)) && HasUser(h) && Dropped(h) <= 0
    ensures Cap(Cap(h)) == Cap(h)
  {
    CappedShape(h);
    CappedCharacters(h);
    CatSizes(One(First(h)), KeptTail(h));
    assert Cap(h) == Cat(One(First(h)), KeptTail(h));
    LoneUser(First(h));
  }

  lemma LoneUser(u: Message)
    requires IsUser(u)
    ensures Cap(One(u)) == One(u)
  {
    assert Others(One(u)) == Empty && KeptTail(One(u)) == Empty;
  }

  lemma AgainWithoutUser(h: History)
    requires !WithinCaps(h) && !WithinCaps(Cap(h)) && !HasUser(h)
    ensures Cap(Cap(h)) != Cap(h)
  {
    SomethingLeftOut(h);
    TailHasNoUser(h, 0, MAX_MESSAGES);
    NoticeTakesPlace(Dropped(h), KeptTail(h));
  }

  lemma SomethingLeftOut(h: History)
    requires !WithinCaps(h) && !WithinCaps(Cap(h)) && !HasUser(h)
    ensures Dropped(h) > 0 && KeptTail(h).Upto? && Cap(h) == Cat(Noticed(Dropped(h)), KeptTail(h))
  {
    KeptLens(h);
    CappedCharacters(h);
    CatEmpty(KeptTail(h));
    CatEmpty(Noticed(Dropped(h)));
  }

  // Here the notice becomes the first user message, and takes its place beside the others.
  lemma NoticeTakesPlace(d: int, tail: History)
    requires tail.Upto? && !HasUser(tail) && !WithinCaps(Cat(Noticed(d), tail)) && d > 0
    ensures Cap(Cat(Noticed(d), tail)) != Cat(Noticed(d), tail)
  {
    var n, g := Notice(d), Cat(Noticed(d), tail);
    UserInCat(One(n), tail);
    CatEmpty(tail);
    CatSizes(One(n), tail);
    assert HasUser(g) && First(g) == n && Others(g) == tail;
    CappedShape(g);
    CappedCharacters(g);
    var t2, e := KeptTail(g), Dropped(g);
    if e > 0 {
      UserInCat(Upto(One(n), Notice(e)), t2);
      assert Cap(g) == Cat(Upto(One(n), Notice(e)), t2);
      SecondUser(n, Notice(e), t2);
    } else {
      CatIsOneToOne(One(n), t2, tail);
    }
  }

  // The others of a history that begins with two user messages have one.
  lemma SecondUser(n: Message, m: Message, t: History)
    requires IsUser(n) && IsUser(m)
    ensures HasUser(Others(Cat(Upto(One(n), m), t)))
  {
    UserInCat(Upto(One(n), m), t);
    UserInCat(One(m), t);
  }

  lemma {:induction false} CatIsOneToOne(a: History, b: History, c: History)
    requires Len(b) == Len(c)
    ensures Cat(a, b) == Cat(a, c) <==> b == c
  {
    if b.Upto? {
      CatIsOneToOne(a, b.older, c.older);
    }
  }

  // ---- what the notice says ----

  // One more save of a saved history that is over the caps turns its count into 1,
  lemma SavedTwiceSaysOne(h: History)
    requires !WithinCaps(h) && HasUser(h) && Dropped(h) > 0 && !WithinCaps(Cap(h))
    ensures Cap(h) == Noted(First(h), Dropped(h), KeptTail(h))
    ensures Cap(Cap(h)) == Noted(First(h), 1, KeptTail(h)) == Cap(Cap(Cap(h)))
  {
    FirstCapKeeps(h);
    NotedAgain(First(h), Dropped(h), KeptTail(h));
    if !WithinCaps(Noted(First(h), 1, KeptTail(h))) {
      NotedAgain(First(h), 1, KeptTail(h));
    }
  }

  // and whenever a history with a notice is capped again after more messages, the new notice counts what
  // this cap leaves out of the messages behind the old notice, and one for the old notice: the d messages
  // that the old one counted are forgotten.
  lemma NoticeForgets(u: Message, d: nat, rest: History)
    requires IsUser(u) && !WithinCaps(Noted(u, d, rest)) && Dropped(Noted(u, d, rest)) > 0
    ensures var g := Noted(u, d, rest);
      && Cap(g) == Noted(u, Dropped(g), KeptTail(g)) && Len(KeptTail(g)) <= Len(rest)
      && Dropped(g) == Len(rest) - Len(KeptTail(g)) + 1
  {
    NotedParts(u, d, rest);
    var g := Noted(u, d, rest);
    assert Kept(g) == One(u);
    assert Cat(One(u), One(Notice(Dropped(g)))) == Upto(One(u), Notice(Dropped(g)));
  }

  // In a session: after h is saved with d messages left out, and more messages come, a save that leaves
  // out any says d' for the d + d' - 1 messages of the session that are gone by then.
  lemma NextSave(h: History, batch: History)
    requires !WithinCaps(h) && HasUser(h) && Dropped(h) > 0
    requires var g := Cat(Cap(h), batch); !WithinCaps(g) && Dropped(g) > 0
    ensures var g := Cat(Cap(h), batch);
      && Cap(g) == Noted(First(h), Dropped(g), KeptTail(g))
      && Len(h) + Len(batch) - 1 - Len(KeptTail(g)) == Dropped(h) + Dropped(g) - 1
  {
    FirstCapKeeps(h);
    CatAssociates(Upto(One(First(h)), Notice(Dropped(h))), KeptTail(h), batch);
    CatSizes(KeptTail(h), batch);
    NoticeForgets(First(h), Dropped(h), Cat(KeptTail(h), batch));
  }
}
